/** `fetch` and `fetchJars`: the list of artifacts to download for each
    requested jar (its resolved direct dependencies and itself, minus what
    the local cache already holds), and the downloads that follow. */
module Fetching {
  import opened Wrappers
  import opened Strings
  import opened Lists
  import opened Coordinates
  import opened Resolver
  import opened Repositories

  /** The file names present in the local cache directory. */
  type Cache = set<string>

  /** Whether the jar of a well-formed coordinate is missing from `cache`. */
  function UncachedIn(cache: Cache): (keep: string -> bool)
    ensures forall x :: keep(x) == (CacheFileName(x).Ok? && CacheFileName(x).value !in cache)
  {
    x => CacheFileName(x).Ok? && CacheFileName(x).value !in cache
  }

  /** `filterNot { it.toJar().exists() && it.toJar().isFile }`, in order;
      the cache name of a malformed entry fails the whole list. */
  function FilterUncached(work: seq<string>, cache: Cache): (r: Result<seq<string>, Error>)
    ensures r.Ok? <==> forall k :: 0 <= k < |work| ==> Destructure(work[k]).Ok?
    ensures r.Ok? ==> r.value == Filter(work, UncachedIn(cache))
    ensures r.Err? ==> r.error.MalformedCoordinate? && r.error.coordinate in work
    ensures r.Ok? ==> forall x :: x in r.value <==>
      x in work && CacheFileName(x).Ok? && CacheFileName(x).value !in cache
    ensures r.Ok? && NoDuplicates(work) ==> NoDuplicates(r.value)
    decreases |work|
  {
    if |work| == 0 then Ok([])
    else
      var name :- CacheFileName(work[0]);
      var rest :- FilterUncached(work[1..], cache);
      assert forall k :: 1 <= k < |work| ==> work[k] == work[1..][k - 1];
      FilterKeepsNoDuplicates(work, UncachedIn(cache));
      Ok(if name in cache then rest else [work[0]] + rest)
  }

  /** `fetchPom(testRepo(jar), jar)`: the resolved direct dependencies of
      `jar`, read from the first repository that serves it. */
  function Dependencies(jar: string, repos: seq<Url>, live: set<Url>, net: Network, fuel: nat): (r: Result<seq<string>, Error>)
    ensures r.Ok? ==> SelectRepository(repos, jar, live).Ok?
    ensures r.Ok? ==> r == FetchPom(SelectRepository(repos, jar, live).value, jar, net, fuel)
    ensures r.Ok? ==> SelectRepository(repos, jar, live).value != ""
  {
    var repo :- SelectRepository(repos, jar, live);
    FetchPom(repo, jar, net, fuel)
  }

  /** A resolved dependency list names only well-formed coordinates, and so
      does the jar it was read for: resolution only extends entries, and
      every entry read from an artifact POM has two colons. */
  lemma DependenciesWellFormed(jar: string, repos: seq<Url>, live: set<Url>, net: Network, fuel: nat)
    ensures Dependencies(jar, repos, live, net, fuel).Ok? ==>
      && Destructure(jar).Ok?
      && forall x :: x in Dependencies(jar, repos, live, net, fuel).value ==> Destructure(x).Ok?
  {
    if Dependencies(jar, repos, live, net, fuel).Ok? {
      var repo := SelectRepository(repos, jar, live).value;
      var deps := Dependencies(jar, repos, live, net, fuel).value;
      var read := PomAt(repo, jar, net).value.deps;
      forall x | x in deps
        ensures Destructure(x).Ok?
      {
        var i :| 0 <= i < |deps| && deps[i] == x;
        assert Destructure(read[i]).Ok?;
        OccurrencesPrefix(deps[i], read[i], ':');
      }
    }
  }

  /** The tail of `fetch` on a dependency list already read: the list and
      `jar` through `toMutableSet()`, then the cache filter. It fails
      exactly when some name is not a coordinate. */
  function ToDownload(jar: string, deps: seq<string>, cache: Cache): (r: Result<seq<string>, Error>)
    ensures r.Ok? <==> Destructure(jar).Ok? && forall x :: x in deps ==> Destructure(x).Ok?
    ensures r.Ok? ==> NoDuplicates(r.value)
    ensures r.Ok? ==> forall x :: x in r.value <==>
      (x == jar || x in deps) && CacheFileName(x).Ok? && CacheFileName(x).value !in cache
  {
    var work := Distinct(deps + [jar]);
    assert jar in work;
    assert forall x :: x in deps ==> x in work;
    assert forall k :: 0 <= k < |work| ==> work[k] in deps + [jar];
    FilterUncached(work, cache)
  }

  /** `fetch(jar)`: the dependencies and `jar` itself, each once, except
      those whose jar is already in the cache. It fails exactly when reading
      the dependencies does. */
  function Fetch(jar: string, repos: seq<Url>, live: set<Url>, net: Network, cache: Cache, fuel: nat): (r: Result<seq<string>, Error>)
    ensures r.Ok? <==> Dependencies(jar, repos, live, net, fuel).Ok?
    ensures r.Err? ==> Dependencies(jar, repos, live, net, fuel) == Err(r.error)
    ensures r.Ok? ==> NoDuplicates(r.value)
    ensures r.Ok? ==> forall x :: x in r.value <==>
      (x == jar || x in Dependencies(jar, repos, live, net, fuel).value) &&
      CacheFileName(x).Ok? && CacheFileName(x).value !in cache
    ensures r.Ok? ==> CacheFileName(jar).Ok?
  {
    var deps :- Dependencies(jar, repos, live, net, fuel);
    DependenciesWellFormed(jar, repos, live, net, fuel);
    ToDownload(jar, deps, cache)
  }

  /** How the work list runs `fetch` on one requested jar. */
  type FetchSource = string -> Result<seq<string>, Error>

  /** `fetch` against the given repositories, network and cache. */
  function FetchesAt(repos: seq<Url>, live: set<Url>, net: Network, cache: Cache, fuel: nat): (fetch: FetchSource)
    ensures forall jar :: fetch(jar) == Fetch(jar, repos, live, net, cache, fuel)
  {
    jar => Fetch(jar, repos, live, net, cache, fuel)
  }

  /** The lists `fetch` gives for `jars`, one per jar, when all succeed. */
  function Fetched(jars: seq<string>, fetch: FetchSource): (ls: seq<seq<string>>)
    requires forall i :: 0 <= i < |jars| ==> fetch(jars[i]).Ok?
    ensures |ls| == |jars|
    ensures forall i {:trigger ls[i]} :: 0 <= i < |jars| ==> ls[i] == fetch(jars[i]).value
  {
    seq(|jars|, i requires 0 <= i < |jars| => fetch(jars[i]).value)
  }

  /** `jar.map { fetch(it) }.flatten()`: the lists of all requested jars,
      one after another, duplicates kept; the first failure wins. */
  function WorkList(jars: seq<string>, fetch: FetchSource): (r: Result<seq<string>, Error>)
    ensures r.Ok? <==> forall i :: 0 <= i < |jars| ==> fetch(jars[i]).Ok?
    ensures r.Ok? ==> r.value == Flatten(Fetched(jars, fetch))
    ensures r.Ok? ==> forall x :: x in r.value <==> exists i :: 0 <= i < |jars| && x in fetch(jars[i]).value
    decreases |jars|
  {
    if |jars| == 0 then Ok([])
    else
      var head :- fetch(jars[0]);
      var tail :- WorkList(jars[1..], fetch);
      assert forall i :: 1 <= i < |jars| ==> jars[i] == jars[1..][i - 1];
      assert Fetched(jars, fetch)[1..] == Fetched(jars[1..], fetch);
      assert forall x :: x in tail <==> exists i :: 1 <= i < |jars| && x in fetch(jars[i]).value by {
        forall x | x in tail
          ensures exists i :: 1 <= i < |jars| && x in fetch(jars[i]).value
        {
          var i :| 0 <= i < |jars[1..]| && x in fetch(jars[1..][i]).value;
          assert x in fetch(jars[i + 1]).value;
        }
      }
      Ok(head + tail)
  }

  /** Every entry of the work list names a well-formed coordinate whose jar
      is not in the cache. */
  lemma WorkListUncached(jars: seq<string>, repos: seq<Url>, live: set<Url>, net: Network, cache: Cache, fuel: nat)
    requires WorkList(jars, FetchesAt(repos, live, net, cache, fuel)).Ok?
    ensures forall x :: x in WorkList(jars, FetchesAt(repos, live, net, cache, fuel)).value ==>
      CacheFileName(x).Ok? && CacheFileName(x).value !in cache
  {
    var fetch := FetchesAt(repos, live, net, cache, fuel);
    forall x | x in WorkList(jars, fetch).value
      ensures CacheFileName(x).Ok? && CacheFileName(x).value !in cache
    {
      var i :| 0 <= i < |jars| && x in fetch(jars[i]).value;
      assert fetch(jars[i]) == Fetch(jars[i], repos, live, net, cache, fuel);
    }
  }

  /** A planned download: what `fetchJar` GETs and the cache file it copies
      the body into. */
  datatype Download = Download(url: Url, file: string)

  /** `fetchJar(raw, jar)` with the jar URL as intended (see `JarUrl`).
      `testRepo` answers `""` when no repository serves the artifact; the
      URL built on it has no scheme or host, and OkHttp's request builder
      rejects it, so that download fails. */
  function FetchJar(raw: Url, jar: string): (r: Result<Download, Error>)
    ensures r.Ok? <==> Destructure(jar).Ok? && raw != ""
    ensures Destructure(jar).Err? ==> r == Err(MalformedCoordinate(jar))
    ensures Destructure(jar).Ok? && raw == "" ==> r == Err(RequestFailed(JarUrl(raw, jar).value))
    ensures r.Ok? ==> StartsWith(r.value.url, raw + "/") && EndsWith(r.value.url, ".jar")
    ensures r.Ok? ==> r.value.file == CacheFileName(jar).value
    ensures r.Ok? ==> r.value.url == JarUrl(raw, jar).value
  {
    var url :- JarUrl(raw, jar);
    if raw == "" then Err(RequestFailed(url))
    else
      var file := CacheFileName(jar).value;
      var pom := PomUrl(raw, jar).value;
      assert StartsWith(pom, raw + "/");
      assert url[..|raw + "/"|] == pom[..|raw + "/"|];
      Ok(Download(url, file))
  }

  /** Where `.pom` appears in the POM URL only as its extension, the
      download requests exactly the URL the Kotlin code builds. */
  lemma FetchJarMatchesCode(raw: Url, jar: string)
    requires raw != "" && PomUrl(raw, jar).Ok?
    requires forall i :: 0 <= i < |PomUrl(raw, jar).value| - 4 ==> !OccursAt(PomUrl(raw, jar).value, ".pom", i)
    ensures FetchJar(raw, jar).Ok? && FetchJar(raw, jar).value.url == JarUrlAsWritten(raw, jar).value
  {
    JarUrlAsWrittenWhenSuffixOnly(raw, jar);
  }

  /** A repository URL containing `.pom` is where the two differ: the Kotlin
      code requests the rewritten host, the model the repository itself. */
  lemma FetchJarDiffersFromCode(p: string, q: string, jar: string)
    requires forall i :: 0 <= i < |p| ==> !OccursAt(p + ".pom", ".pom", i)
    requires Destructure(jar).Ok?
    ensures FetchJar(p + ".pom" + q, jar).Ok?
    ensures FetchJar(p + ".pom" + q, jar).value.url != JarUrlAsWritten(p + ".pom" + q, jar).value
  {
    var raw := p + ".pom" + q;
    JarUrlAsWrittenRewritesRepository(p, q, jar);
    assert (p + ".jar")[|p| + 1] != (p + ".pom")[|p| + 1];
  }

  /** One element of the download stream: `fetchJar(testRepo(it), it)`.
      It succeeds exactly when the coordinate is well formed and some
      repository was selected, and then downloads from that repository. */
  function FetchItem(jar: string, repos: seq<Url>, live: set<Url>): (r: Result<Download, Error>)
    ensures r.Ok? <==> Destructure(jar).Ok? && SelectRepository(repos, jar, live) != Ok("")
    ensures r.Ok? ==> r.value.file == CacheFileName(jar).value
    ensures r.Ok? ==> r.value.url == JarUrl(SelectRepository(repos, jar, live).value, jar).value
  {
    var repo :- SelectRepository(repos, jar, live);
    FetchJar(repo, jar)
  }

  /** An artifact that no repository serves cannot be downloaded: the
      request for the hostless URL fails. */
  lemma FetchItemWithoutRepository(jar: string, repos: seq<Url>, live: set<Url>)
    requires Destructure(jar).Ok?
    requires forall j :: 0 <= j < |repos| ==> PomUrl(repos[j], jar).value !in live
    ensures FetchItem(jar, repos, live) == Err(RequestFailed(JarUrl("", jar).value))
  {
    SelectRepositoryFirstHit(repos, jar, live);
  }

  /** `fetchJar(testRepo(it), it)` as the function the download stream
      maps over the work list. */
  function FetchItemAt(repos: seq<Url>, live: set<Url>): (item: string -> Result<Download, Error>)
    ensures forall jar :: item(jar) == FetchItem(jar, repos, live)
  {
    jar => FetchItem(jar, repos, live)
  }

  /** The download stream over a built work list whose jars are all
      missing from the cache: it succeeds exactly when every item does,
      with one download per item, in order, each into a file the cache does
      not hold; otherwise the failure is one of a failing item. */
  function Downloads(work: seq<string>, repos: seq<Url>, live: set<Url>, cache: Cache): (r: Result<seq<Download>, Error>)
    requires forall x :: x in work ==> CacheFileName(x).Ok? && CacheFileName(x).value !in cache
    ensures r.Ok? <==> forall k :: 0 <= k < |work| ==> FetchItem(work[k], repos, live).Ok?
    ensures r.Ok? ==> |r.value| == |work|
    ensures r.Ok? ==> forall k :: 0 <= k < |work| ==> FetchItem(work[k], repos, live) == Ok(r.value[k])
    ensures r.Ok? ==> forall k :: 0 <= k < |work| ==> r.value[k].file !in cache
    ensures r.Err? ==> exists k :: 0 <= k < |work| && FetchItem(work[k], repos, live) == Err(r.error)
  {
    var item := FetchItemAt(repos, live);
    assert forall k :: 0 <= k < |work| ==> work[k] in work;
    MapAll(work, item)
  }

  /** `fetchJars(jars)`: builds the work list, then turns every item of it
      into a download of its jar into its cache file. A failure while
      building the list is the result; once built, the downloads fail when
      an item does. */
  function FetchJars(jars: seq<string>, repos: seq<Url>, live: set<Url>, net: Network, cache: Cache, fuel: nat)
    : (r: Result<seq<Download>, Error>)
    ensures WorkList(jars, FetchesAt(repos, live, net, cache, fuel)).Err? ==>
      r == Err(WorkList(jars, FetchesAt(repos, live, net, cache, fuel)).error)
    ensures r.Ok? <==>
      && WorkList(jars, FetchesAt(repos, live, net, cache, fuel)).Ok?
      && forall x :: x in WorkList(jars, FetchesAt(repos, live, net, cache, fuel)).value ==>
           FetchItem(x, repos, live).Ok?
    ensures r.Ok? ==> r == Downloads(WorkList(jars, FetchesAt(repos, live, net, cache, fuel)).value, repos, live, cache)
  {
    var work :- WorkList(jars, FetchesAt(repos, live, net, cache, fuel));
    WorkListUncached(jars, repos, live, net, cache, fuel);
    assert forall k :: 0 <= k < |work| ==> work[k] in work;
    Downloads(work, repos, live, cache)
  }
}
