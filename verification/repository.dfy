/** The repository list and `testRepo`: the first repository, in list
    order, whose POM URL for an artifact answers a HEAD request. */
module Repositories {
  import opened Wrappers
  import opened Coordinates

  /** The list every session starts with. */
  const Central: Url := "http://central.maven.org/maven2"

  /** The repositories before any `addRepository`. */
  function InitialRepositories(): (repos: seq<Url>)
    ensures |repos| == 1 && repos[0] == Central
  {
    [Central]
  }

  /** `addRepository(url)`: `url` goes to the front, so it is tried first. */
  function AddRepository(repos: seq<Url>, url: Url): (r: seq<Url>)
    ensures |r| == |repos| + 1 && r[0] == url && r[1..] == repos
  {
    [url] + repos
  }

  /** The POM URL of `art` in every repository, in list order. */
  function PomUrls(repos: seq<Url>, art: string): (urls: seq<Url>)
    requires Destructure(art).Ok?
    ensures |urls| == |repos|
    ensures forall j :: 0 <= j < |repos| ==> urls[j] == PomUrl(repos[j], art).value
  {
    seq(|repos|, j requires 0 <= j < |repos| => PomUrl(repos[j], art).value)
  }

  /** The index of the first URL that is live, or `|urls|` when none is.
      `live` holds the URLs whose HEAD request succeeds. */
  function FirstLive(urls: seq<Url>, live: set<Url>): (k: nat)
    ensures k <= |urls|
    ensures forall j :: 0 <= j < k ==> urls[j] !in live
    ensures k < |urls| ==> urls[k] in live
    decreases |urls|
  {
    if |urls| == 0 then 0
    else if urls[0] in live then 0
    else
      var k := 1 + FirstLive(urls[1..], live);
      assert forall j :: 1 <= j < |urls| ==> urls[j] == urls[1..][j - 1];
      k
  }

  /** `testRepo(art)`: the first live repository, or `""` when none answers.
      The first POM URL built fails on a malformed coordinate, so an empty
      list never fails. */
  function SelectRepository(repos: seq<Url>, art: string, live: set<Url>): (r: Result<Url, Error>)
    ensures |repos| == 0 ==> r == Ok("")
    ensures |repos| > 0 ==> (r.Ok? <==> Destructure(art).Ok?)
    ensures r.Err? ==> r.error == MalformedCoordinate(art)
  {
    if |repos| == 0 then Ok("")
    else
      var _ :- Destructure(art);
      var k := FirstLive(PomUrls(repos, art), live);
      Ok(if k < |repos| then repos[k] else "")
  }

  /** `FirstLive` finds the first live URL and nothing else. */
  lemma FirstLiveIsFirst(urls: seq<Url>, live: set<Url>, j: nat)
    requires j <= |urls|
    requires forall i :: 0 <= i < j ==> urls[i] !in live
    requires j == |urls| || urls[j] in live
    ensures FirstLive(urls, live) == j
  {
  }

  /** The selected repository is the first one, in list order, that serves
      the artifact, and `""` exactly when none does. */
  lemma SelectRepositoryFirstHit(repos: seq<Url>, art: string, live: set<Url>)
    requires Destructure(art).Ok?
    ensures (forall j :: 0 <= j < |repos| ==> PomUrl(repos[j], art).value !in live) ==>
      SelectRepository(repos, art, live) == Ok("")
    ensures forall j :: (0 <= j < |repos| && PomUrl(repos[j], art).value in live &&
                         forall i :: 0 <= i < j ==> PomUrl(repos[i], art).value !in live) ==>
      SelectRepository(repos, art, live) == Ok(repos[j])
  {
    var urls := PomUrls(repos, art);
    if forall j :: 0 <= j < |repos| ==> PomUrl(repos[j], art).value !in live {
      FirstLiveIsFirst(urls, live, |urls|);
    }
    forall j | 0 <= j < |repos| && PomUrl(repos[j], art).value in live &&
               forall i :: 0 <= i < j ==> PomUrl(repos[i], art).value !in live
      ensures SelectRepository(repos, art, live) == Ok(repos[j])
    {
      FirstLiveIsFirst(urls, live, j);
    }
  }

  /** HEAD requests to `urls` in order, stopping at the first success:
      `k` is where the loop stopped and `probes` the URLs requested. */
  method ProbeInOrder(urls: seq<Url>, live: set<Url>) returns (k: nat, probes: seq<Url>)
    ensures k == FirstLive(urls, live)
    ensures probes == urls[..if k < |urls| then k + 1 else k]
    ensures (|probes| > 0 && probes[|probes| - 1] in live) <==> k < |urls|
    ensures k < |urls| ==> |probes| == k + 1
  {
    probes := [];
    k := 0;
    while k < |urls|
      invariant k <= FirstLive(urls, live)
      invariant probes == urls[..k]
    {
      probes := probes + [urls[k]];
      if urls[k] in live {
        return;
      }
      k := k + 1;
    }
  }

  /** The loop of `testRepo`: HEAD requests go out in list order and stop
      at the first success; `probes` are the URLs requested. */
  method TestRepo(repos: seq<Url>, art: string, live: set<Url>) returns (r: Result<Url, Error>, probes: seq<Url>)
    ensures r == SelectRepository(repos, art, live)
    ensures r.Err? ==> probes == []
    ensures |probes| <= |repos|
    ensures |probes| > 0 ==> Destructure(art).Ok? && probes == PomUrls(repos, art)[..|probes|]
    ensures forall j :: 0 <= j < |probes| - 1 ==> probes[j] !in live
    ensures r.Ok? && |probes| > 0 && probes[|probes| - 1] in live ==> r.value == repos[|probes| - 1]
    ensures r.Ok? && !(|probes| > 0 && probes[|probes| - 1] in live) ==> r.value == ""
    ensures r.Ok? && |repos| > 0 ==>
      var k := FirstLive(PomUrls(repos, art), live);
      probes == PomUrls(repos, art)[..if k < |repos| then k + 1 else |repos|]
  {
    if |repos| == 0 {
      return Ok(""), [];
    }
    if Destructure(art).Err? {
      return Err(MalformedCoordinate(art)), [];
    }
    var urls := PomUrls(repos, art);
    var k;
    k, probes := ProbeInOrder(urls, live);
    r := Ok(if k < |repos| then repos[k] else "");
  }

  /** A repository added last is consulted first: it wins whenever it
      serves the artifact, and otherwise the choice is as before. */
  lemma AddRepositoryTakesPriority(repos: seq<Url>, url: Url, art: string, live: set<Url>)
    requires Destructure(art).Ok?
    ensures PomUrl(url, art).value in live ==> SelectRepository(AddRepository(repos, url), art, live) == Ok(url)
    ensures PomUrl(url, art).value !in live ==>
      SelectRepository(AddRepository(repos, url), art, live) == SelectRepository(repos, art, live)
  {
    var added := AddRepository(repos, url);
    var a := PomUrls(added, art);
    var b := PomUrls(repos, art);
    assert a[0] == PomUrl(url, art).value;
    forall j | 0 <= j < |b|
      ensures a[1..][j] == b[j]
    {
      assert added[j + 1] == repos[j];
    }
    assert a[1..] == b;
    if PomUrl(url, art).value !in live {
      assert FirstLive(a, live) == 1 + FirstLive(b, live);
    }
  }
}
