/** Version resolution: dependencies whose version is missing ("dangling",
    written `g:a:`) are filled in from the managed dependencies of the
    artifact's parent POM, walking further up the parent chain while some
    entry is still dangling. */
module Resolver {
  import opened Wrappers
  import opened Strings
  import opened Xml
  import opened Coordinates
  import opened PomReader

  /** What a GET of each URL yields: a URL missing from the map is a
      failed request; `None` is a body that is not an XML document. */
  type Network = map<Url, Option<Node>>

  /** `client().get(url).body()!!.string()`, parsed. */
  function Get(net: Network, url: Url): (r: Result<Option<Node>, Error>)
    ensures r.Ok? <==> url in net
    ensures r.Ok? ==> r.value == net[url]
  {
    if url in net then Ok(net[url]) else Err(RequestFailed(url))
  }

  /** The artifact POM of `art` in repository `raw`, read with `ParsePom`.
      The empty repository `""` (what `testRepo` answers when nothing
      serves the artifact) yields a URL without scheme or host, which
      OkHttp's request builder rejects. */
  function PomAt(raw: Url, art: string, net: Network): (r: Result<PomInfo, Error>)
    ensures Destructure(art).Err? ==> r == Err(MalformedCoordinate(art))
    ensures Destructure(art).Ok? && raw == "" ==> r == Err(RequestFailed(PomUrl(raw, art).value))
    ensures Destructure(art).Ok? && raw != "" ==>
      var url := PomUrl(raw, art).value;
      && (url !in net ==> r == Err(RequestFailed(url)))
      && (url in net && net[url].None? ==> r == Err(InvalidPom(NotXml)))
      && (url in net && net[url].Some? ==> r == ParsePom(net[url].value))
    ensures r.Ok? ==> forall k :: 0 <= k < |r.value.deps| ==> Destructure(r.value.deps[k]).Ok?
  {
    var url :- PomUrl(raw, art);
    var body :- if raw == "" then Err(RequestFailed(url)) else Get(net, url);
    var doc :- body.OrFail(InvalidPom(NotXml));
    ParsedEntriesDestructure(doc);
    ParsePom(doc)
  }

  /** The parent POM `pat` in repository `raw`, read with `ParseParent`.
      No case for the empty repository is needed: the walk only starts
      after `PomAt` has read from the same `raw`, which fails on `""`. */
  function ParentPomAt(raw: Url, pat: string, net: Network): (r: Result<PomInfo, Error>)
    ensures Destructure(pat).Err? ==> r == Err(MalformedCoordinate(pat))
    ensures Destructure(pat).Ok? ==>
      var url := PomUrl(raw, pat).value;
      && (url !in net ==> r == Err(RequestFailed(url)))
      && (url in net && net[url].None? ==> r == Err(InvalidParentPom(NotXml)))
      && (url in net && net[url].Some? ==> r == ParseParent(net[url].value))
  {
    var url :- PomUrl(raw, pat);
    var body :- Get(net, url);
    var doc :- body.OrFail(InvalidParentPom(NotXml));
    ParseParent(doc)
  }

  /** The number of dangling entries. */
  function DanglingCount(deps: seq<string>): (n: nat)
    ensures n <= |deps|
    decreases |deps|
  {
    if |deps| == 0 then 0
    else (if IsDangling(deps[0]) then 1 else 0) + DanglingCount(deps[1..])
  }

  /** `deps.find { it.endsWith(":") } != null`. */
  predicate HasDangling(deps: seq<string>) {
    DanglingCount(deps) > 0
  }

  /** Some entry dangles exactly when the count is positive. */
  lemma {:induction false} HasDanglingExists(deps: seq<string>)
    ensures HasDangling(deps) <==> exists i :: 0 <= i < |deps| && IsDangling(deps[i])
    decreases |deps|
  {
    if |deps| > 0 {
      HasDanglingExists(deps[1..]);
      assert forall i :: 1 <= i < |deps| ==> deps[i] == deps[1..][i - 1];
      if !IsDangling(deps[0]) && exists i :: 0 <= i < |deps| && IsDangling(deps[i]) {
        var i :| 0 <= i < |deps| && IsDangling(deps[i]);
        assert IsDangling(deps[1..][i - 1]);
      }
    }
  }

  /** Entry by entry, `after` dangles only where `before` did: then it has
      no more dangling entries. */
  lemma {:induction false} DanglingCountMonotone(before: seq<string>, after: seq<string>)
    requires |after| == |before|
    requires forall i :: 0 <= i < |after| && IsDangling(after[i]) ==> IsDangling(before[i])
    ensures DanglingCount(after) <= DanglingCount(before)
    decreases |before|
  {
    if |before| > 0 {
      DanglingCountMonotone(before[1..], after[1..]);
    }
  }

  /** `r` is what dangling `d` becomes given the managed list: the first
      managed entry starting with `d`, or `d` itself when none does. */
  ghost predicate FilledFrom(managed: seq<string>, d: string, r: string) {
    if exists k :: 0 <= k < |managed| && StartsWith(managed[k], d) then
      exists k :: 0 <= k < |managed| && StartsWith(managed[k], d) && r == managed[k] &&
        forall j :: 0 <= j < k ==> !StartsWith(managed[j], d)
    else r == d
  }

  /** `pro.find { it.startsWith(d) } ?: d` for a dangling `d`; others stay. */
  function FillOne(managed: seq<string>, d: string): (r: string)
    ensures !IsDangling(d) ==> r == d
    ensures IsDangling(d) ==> FilledFrom(managed, d, r)
    ensures StartsWith(r, d)
  {
    if IsDangling(d) then
      var found := Find(managed, (m: string) => StartsWith(m, d));
      if found.Some? then found.value else d
    else d
  }

  /** One step of the parent walk over the whole list (`dep.map { … }`):
      the list keeps its length and order, entry by entry. */
  function FillDangling(deps: seq<string>, managed: seq<string>): (r: seq<string>)
    ensures |r| == |deps|
    ensures forall i {:trigger r[i]} :: 0 <= i < |deps| ==> r[i] == FillOne(managed, deps[i])
  {
    seq(|deps|, i requires 0 <= i < |deps| => FillOne(managed, deps[i]))
  }

  /** A step never adds dangling entries: a filled entry dangles only where
      the original did. */
  lemma FillDanglingNoNewDangling(deps: seq<string>, managed: seq<string>)
    ensures DanglingCount(FillDangling(deps, managed)) <= DanglingCount(deps)
  {
    var r := FillDangling(deps, managed);
    forall i | 0 <= i < |r| && IsDangling(r[i])
      ensures IsDangling(deps[i])
    {
      assert r[i] == FillOne(managed, deps[i]);
    }
    DanglingCountMonotone(deps, r);
  }

  /** The outcome of the walk: the list and the last parent consulted. */
  datatype Resolution = Resolution(deps: seq<string>, parent: string)

  /** How the walk reads a parent POM, given its coordinate. */
  type ParentSource = string -> Result<PomInfo, Error>

  /** The parent POMs of repository `raw` as the network serves them. */
  function ParentsAt(raw: Url, net: Network): (parents: ParentSource)
    ensures forall pat :: parents(pat) == ParentPomAt(raw, pat, net)
  {
    pat => ParentPomAt(raw, pat, net)
  }

  /** `fetchParent`: fills dangling entries from parent `pat`, and recurses
      on the grandparent while some entry still dangles and there is one.
      Kotlin's `fetchParent` recursion is unbounded; here at most `fuel`
      parent POMs are read and a longer walk ends in `ChainTooDeep`. */
  function FetchParent(deps: seq<string>, pat: string, parents: ParentSource, fuel: nat): (r: Result<Resolution, Error>)
    ensures fuel == 0 ==> r == Err(ChainTooDeep)
    ensures r.Ok? ==> parents(pat).Ok?
    ensures r.Ok? ==> |r.value.deps| == |deps|
    decreases fuel
  {
    if fuel == 0 then Err(ChainTooDeep)
    else
      var info :- parents(pat);
      var filled := FillDangling(deps, info.deps);
      if HasDangling(filled) && info.parent.Some? then
        FetchParent(filled, info.parent.value, parents, fuel - 1)
      else Ok(Resolution(filled, pat))
  }

  /** One step of the walk, unfolded. */
  lemma FetchParentUnfold(deps: seq<string>, pat: string, parents: ParentSource, fuel: nat)
    requires fuel > 0 && parents(pat).Ok?
    ensures var info := parents(pat).value;
      var filled := FillDangling(deps, info.deps);
      FetchParent(deps, pat, parents, fuel) ==
        if HasDangling(filled) && info.parent.Some? then FetchParent(filled, info.parent.value, parents, fuel - 1)
        else Ok(Resolution(filled, pat))
  {
  }

  /** The walk only completes entries: each result entry extends the
      original, entries that had a version keep it, and no entry that had a
      version loses it. */
  lemma {:induction false} FetchParentRefines(deps: seq<string>, pat: string, parents: ParentSource, fuel: nat)
    requires FetchParent(deps, pat, parents, fuel).Ok?
    ensures var r := FetchParent(deps, pat, parents, fuel).value;
      && (forall i :: 0 <= i < |deps| && !IsDangling(deps[i]) ==> r.deps[i] == deps[i])
      && (forall i :: 0 <= i < |deps| ==> StartsWith(r.deps[i], deps[i]))
      && DanglingCount(r.deps) <= DanglingCount(deps)
    decreases fuel
  {
    var info := parents(pat).value;
    var filled := FillDangling(deps, info.deps);
    FetchParentUnfold(deps, pat, parents, fuel);
    FillDanglingNoNewDangling(deps, info.deps);
    if HasDangling(filled) && info.parent.Some? {
      FetchParentRefines(filled, info.parent.value, parents, fuel - 1);
      var r := FetchParent(deps, pat, parents, fuel).value;
      forall i | 0 <= i < |deps|
        ensures StartsWith(r.deps[i], deps[i])
      {
        StartsWithTransitive(r.deps[i], filled[i], deps[i]);
      }
    }
  }

  /** A walk that ends with entries still dangling ended at a root POM: the
      last parent it read has no parent of its own. */
  lemma {:induction false} FetchParentEndsAtRoot(deps: seq<string>, pat: string, parents: ParentSource, fuel: nat)
    requires FetchParent(deps, pat, parents, fuel).Ok?
    requires HasDangling(FetchParent(deps, pat, parents, fuel).value.deps)
    ensures var last := FetchParent(deps, pat, parents, fuel).value.parent;
      parents(last).Ok? && parents(last).value.parent.None?
    decreases fuel
  {
    var info := parents(pat).value;
    var filled := FillDangling(deps, info.deps);
    FetchParentUnfold(deps, pat, parents, fuel);
    if HasDangling(filled) && info.parent.Some? {
      FetchParentEndsAtRoot(filled, info.parent.value, parents, fuel - 1);
    }
  }

  /** The bound only cuts the walk short: a walk that finishes gives the
      same answer under any larger bound. */
  lemma {:induction false} FetchParentFuelIrrelevant(deps: seq<string>, pat: string, parents: ParentSource, fuel: nat, more: nat)
    requires fuel <= more
    requires FetchParent(deps, pat, parents, fuel).Ok?
    ensures FetchParent(deps, pat, parents, more) == FetchParent(deps, pat, parents, fuel)
    decreases fuel
  {
    var info := parents(pat).value;
    var filled := FillDangling(deps, info.deps);
    FetchParentUnfold(deps, pat, parents, fuel);
    FetchParentUnfold(deps, pat, parents, more);
    if HasDangling(filled) && info.parent.Some? {
      FetchParentFuelIrrelevant(filled, info.parent.value, parents, fuel - 1, more - 1);
    }
  }

  /** The nearest parent wins: an entry that the first parent's managed
      list completes comes out of the walk exactly as that parent gave it,
      whatever the grandparents hold. */
  lemma FirstParentWins(deps: seq<string>, pat: string, parents: ParentSource, fuel: nat)
    requires FetchParent(deps, pat, parents, fuel).Ok?
    ensures parents(pat).Ok?
    ensures forall i :: 0 <= i < |deps| && !IsDangling(FillOne(parents(pat).value.deps, deps[i])) ==>
      FetchParent(deps, pat, parents, fuel).value.deps[i] == FillOne(parents(pat).value.deps, deps[i])
  {
    var info := parents(pat).value;
    var filled := FillDangling(deps, info.deps);
    FetchParentUnfold(deps, pat, parents, fuel);
    if HasDangling(filled) && info.parent.Some? {
      FetchParentRefines(filled, info.parent.value, parents, fuel - 1);
    }
  }

  /** The dependency list of a POM once its parent chain, read through
      `parents`, has filled what it can: only dangling entries change, and
      each only by gaining a version. */
  function ResolveWithParents(info: PomInfo, parents: ParentSource, fuel: nat): (r: Result<seq<string>, Error>)
    ensures r.Ok? ==> |r.value| == |info.deps|
    ensures r.Ok? ==> forall i :: 0 <= i < |r.value| && !IsDangling(info.deps[i]) ==> r.value[i] == info.deps[i]
    ensures r.Ok? ==> forall i :: 0 <= i < |r.value| ==> StartsWith(r.value[i], info.deps[i])
    ensures (!HasDangling(info.deps) || info.parent.None?) ==> r == Ok(info.deps)
    ensures HasDangling(info.deps) && info.parent.Some? ==>
      (r.Ok? <==> FetchParent(info.deps, info.parent.value, parents, fuel).Ok?)
    ensures r.Ok? && HasDangling(info.deps) && info.parent.Some? ==>
      var first := parents(info.parent.value);
      && first.Ok?
      && forall i :: 0 <= i < |info.deps| && !IsDangling(FillOne(first.value.deps, info.deps[i])) ==>
           r.value[i] == FillOne(first.value.deps, info.deps[i])
  {
    if HasDangling(info.deps) && info.parent.Some? then
      var res :- FetchParent(info.deps, info.parent.value, parents, fuel);
      FetchParentRefines(info.deps, info.parent.value, parents, fuel);
      FirstParentWins(info.deps, info.parent.value, parents, fuel);
      Ok(res.deps)
    else Ok(info.deps)
  }

  /** `fetchPom`: the artifact's dependencies, with dangling entries filled
      from the parent chain when there are any and the POM has a parent. */
  function FetchPom(raw: Url, art: string, net: Network, fuel: nat): (r: Result<seq<string>, Error>)
    ensures r.Ok? ==> PomAt(raw, art, net).Ok?
    ensures r.Ok? ==> |r.value| == |PomAt(raw, art, net).value.deps|
    ensures r.Ok? ==> forall i :: 0 <= i < |r.value| && !IsDangling(PomAt(raw, art, net).value.deps[i]) ==>
      r.value[i] == PomAt(raw, art, net).value.deps[i]
    ensures r.Ok? ==> forall i :: 0 <= i < |r.value| ==> StartsWith(r.value[i], PomAt(raw, art, net).value.deps[i])
    ensures (PomAt(raw, art, net).Ok? &&
             (!HasDangling(PomAt(raw, art, net).value.deps) || PomAt(raw, art, net).value.parent.None?)) ==>
      r == Ok(PomAt(raw, art, net).value.deps)
    ensures PomAt(raw, art, net).Err? ==> r == Err(PomAt(raw, art, net).error)
    ensures PomAt(raw, art, net).Ok? && HasDangling(PomAt(raw, art, net).value.deps) &&
            PomAt(raw, art, net).value.parent.Some? ==>
      (r.Ok? <==> FetchParent(PomAt(raw, art, net).value.deps, PomAt(raw, art, net).value.parent.value,
                              ParentsAt(raw, net), fuel).Ok?)
  {
    var info :- PomAt(raw, art, net);
    ResolveWithParents(info, ParentsAt(raw, net), fuel)
  }

  /** In `fetchPom`, the parent named by the artifact's own POM has the
      first say: a dangling entry its managed list completes comes back with
      exactly that version. */
  lemma FetchPomFirstParentWins(raw: Url, art: string, net: Network, fuel: nat)
    ensures FetchPom(raw, art, net, fuel).Ok? &&
            HasDangling(PomAt(raw, art, net).value.deps) && PomAt(raw, art, net).value.parent.Some? ==>
      var info := PomAt(raw, art, net).value;
      var first := ParentPomAt(raw, info.parent.value, net);
      && first.Ok?
      && forall i :: 0 <= i < |info.deps| && !IsDangling(FillOne(first.value.deps, info.deps[i])) ==>
           FetchPom(raw, art, net, fuel).value[i] == FillOne(first.value.deps, info.deps[i])
  {
    if FetchPom(raw, art, net, fuel).Ok? {
      var info := PomAt(raw, art, net).value;
      assert FetchPom(raw, art, net, fuel) == ResolveWithParents(info, ParentsAt(raw, net), fuel);
    }
  }

  /** One parent that supplies every missing version resolves the list to
      the filled entries. */
  lemma FetchParentOneStep(deps: seq<string>, pat: string, parents: ParentSource, fuel: nat)
    requires fuel >= 1 && parents(pat).Ok?
    requires !HasDangling(FillDangling(deps, parents(pat).value.deps))
    ensures FetchParent(deps, pat, parents, fuel) == Ok(Resolution(FillDangling(deps, parents(pat).value.deps), pat))
  {
  }

  /** A dangling `com.example:util:` takes its version from the managed
      `com.example:util:2.3.1`. */
  lemma FillDanglingExample()
    ensures FillDangling(["com.example:util:"], ["com.example:junit:4.12", "com.example:util:2.3.1"]) ==
      ["com.example:util:2.3.1"]
  {
    var d := "com.example:util:";
    assert IsDangling(d);
    assert "com.example:junit:4.12"[..|d|][12] != d[12];
    assert StartsWith("com.example:util:2.3.1", d);
  }
}
