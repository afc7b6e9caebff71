/** Artifact coordinates `group:artifact:version` and the names derived
    from them: the repository path of the POM, the URL of the jar and the
    file name in the local `.mvn` cache. */
module Coordinates {
  import opened Wrappers
  import opened Strings

  type Url = string

  /** Everything that can end a resolution. */
  datatype Error =
    | MalformedCoordinate(coordinate: string) // destructuring into three fields failed
    | MissingElement(name: string)            // a `!!` on an absent element, attribute or property
    | NotXml                                  // the response body is not an XML document
    | RequestFailed(url: Url)                 // the GET itself failed
    | InvalidPom(cause: Error)                // "invalid artifact pom", wrapping the cause
    | InvalidParentPom(cause: Error)          // "invalid parent pom", wrapping the cause
    | ChainTooDeep                            // the parent chain outran the walk's bound

  /** The three leading fields of a coordinate. */
  datatype Gav = Gav(group: string, artifact: string, version: string)

  /** The colon-joined form of a coordinate. */
  function Serialize(c: Gav): string {
    Join([c.group, c.artifact, c.version], ':')
  }

  /** The serialized form spelled out as `g:a:v`. */
  lemma SerializeSpelledOut(c: Gav)
    ensures Serialize(c) == c.group + ":" + c.artifact + ":" + c.version
  {
    var parts := [c.group, c.artifact, c.version];
    assert parts[1..] == [c.artifact, c.version];
    assert parts[1..][1..] == [c.version];
    calc {
      Join(parts, ':');
      c.group + [':'] + Join([c.artifact, c.version], ':');
      c.group + [':'] + (c.artifact + [':'] + Join([c.version], ':'));
      c.group + [':'] + (c.artifact + [':'] + c.version);
      c.group + ":" + c.artifact + ":" + c.version;
    }
  }

  /** `val (g, a, v) = s.split(":")`: the first three fields; fewer than
      three is an error, further fields are ignored. */
  function Destructure(s: string): (r: Result<Gav, Error>)
    ensures r.Ok? <==> Occurrences(s, ':') >= 2
    ensures r.Err? ==> r.error == MalformedCoordinate(s)
    ensures r.Ok? ==> ':' !in r.value.group && ':' !in r.value.artifact && ':' !in r.value.version
  {
    var parts := Split(s, ':');
    if |parts| < 3 then Err(MalformedCoordinate(s))
    else Ok(Gav(parts[0], parts[1], parts[2]))
  }

  /** Parsing a serialized coordinate gives it back. */
  lemma DestructureSerialize(c: Gav)
    requires ':' !in c.group && ':' !in c.artifact && ':' !in c.version
    ensures Destructure(Serialize(c)) == Ok(c)
  {
    SplitJoin([c.group, c.artifact, c.version], ':');
  }

  /** Fields after the third are ignored. */
  lemma DestructureIgnoresExtraFields(c: Gav, extra: string)
    requires ':' !in c.group && ':' !in c.artifact && ':' !in c.version
    ensures Destructure(Serialize(c) + ":" + extra) == Ok(c)
  {
    var s := Serialize(c) + ":" + extra;
    SerializeSpelledOut(c);
    assert s == c.group + [':'] + (c.artifact + [':'] + (c.version + [':'] + extra));
    SplitAfterField(c.group, c.artifact + [':'] + (c.version + [':'] + extra), ':');
    SplitAfterField(c.artifact, c.version + [':'] + extra, ':');
    SplitAfterField(c.version, extra, ':');
  }

  /** A dangling coordinate `g:a:` has the empty version. */
  lemma DestructureDangling(group: string, artifact: string)
    requires ':' !in group && ':' !in artifact
    ensures Destructure(group + ":" + artifact + ":") == Ok(Gav(group, artifact, ""))
  {
    SerializeSpelledOut(Gav(group, artifact, ""));
    assert group + ":" + artifact + ":" + "" == group + ":" + artifact + ":";
    DestructureSerialize(Gav(group, artifact, ""));
  }

  /** A dangling entry still lacks its version: it ends with `:`. */
  predicate IsDangling(d: string) {
    EndsWith(d, ":")
  }

  /** The group as a path: every `.` becomes `/`. */
  function GroupPath(group: string): (r: string)
    ensures |r| == |group|
    ensures forall i :: 0 <= i < |group| ==> r[i] == (if group[i] == '.' then '/' else group[i])
  {
    ReplaceCharPointwise(group, '.', '/');
    ReplaceAll(group, ".", "/")
  }

  /** The repository-relative location of an artifact, without extension. */
  function ArtifactBase(raw: Url, c: Gav): string {
    raw + "/" + GroupPath(c.group) + "/" + c.artifact + "/" + c.version + "/" + c.artifact + "-" + c.version
  }

  /** `pom(raw, art)`: where repository `raw` serves the POM of `art`. */
  function PomUrl(raw: Url, art: string): (r: Result<Url, Error>)
    ensures r.Ok? <==> Destructure(art).Ok?
    ensures r.Err? ==> r.error == MalformedCoordinate(art)
    ensures r.Ok? ==> EndsWith(r.value, ".pom") && StartsWith(r.value, raw + "/")
  {
    var c :- Destructure(art);
    var base := ArtifactBase(raw, c);
    assert (base + ".pom")[..|raw + "/"|] == raw + "/";
    Ok(base + ".pom")
  }

  /** The POM location of `g:a:v`, spelled out. */
  lemma PomUrlOfCoordinate(raw: Url, c: Gav)
    requires ':' !in c.group && ':' !in c.artifact && ':' !in c.version
    ensures PomUrl(raw, c.group + ":" + c.artifact + ":" + c.version) ==
      Ok(raw + "/" + GroupPath(c.group) + "/" + c.artifact + "/" + c.version + "/" + c.artifact + "-" + c.version + ".pom")
  {
    SerializeSpelledOut(c);
    DestructureSerialize(c);
  }

  /** `toJar`: the cache file name `g-a-v.jar`. */
  function CacheFileName(art: string): (r: Result<string, Error>)
    ensures r.Ok? <==> Destructure(art).Ok?
    ensures r.Err? ==> r.error == MalformedCoordinate(art)
    ensures r.Ok? ==> EndsWith(r.value, ".jar")
  {
    var c :- Destructure(art);
    Ok(c.group + "-" + c.artifact + "-" + c.version + ".jar")
  }

  /** The cache name of `g:a:v` is `g-a-v.jar`; a dangling `g:a:` gets
      `g-a-.jar` instead of an error. */
  lemma CacheFileNameOfCoordinate(group: string, artifact: string, version: string)
    requires ':' !in group && ':' !in artifact && ':' !in version
    ensures CacheFileName(group + ":" + artifact + ":" + version) == Ok(group + "-" + artifact + "-" + version + ".jar")
    ensures CacheFileName(group + ":" + artifact + ":") == Ok(group + "-" + artifact + "-.jar")
  {
    SerializeSpelledOut(Gav(group, artifact, version));
    DestructureSerialize(Gav(group, artifact, version));
    DestructureDangling(group, artifact);
    assert group + "-" + artifact + "-" + "" + ".jar" == group + "-" + artifact + "-.jar";
  }

  /** The jar URL as `fetchJar` writes it: the POM URL with EVERY `.pom`
      replaced by `.jar`, wherever it occurs. */
  function JarUrlAsWritten(raw: Url, art: string): (r: Result<Url, Error>)
    ensures r.Ok? <==> Destructure(art).Ok?
    ensures r.Ok? ==> |r.value| == |PomUrl(raw, art).value|
  {
    var pom :- PomUrl(raw, art);
    ReplaceKeepsLength(pom, ".pom", ".jar");
    Ok(ReplaceAll(pom, ".pom", ".jar"))
  }

  /** The jar URL as intended: the POM URL with its `.pom` extension, and
      nothing else, changed to `.jar`. */
  function JarUrl(raw: Url, art: string): (r: Result<Url, Error>)
    ensures r.Ok? <==> Destructure(art).Ok?
    ensures r.Ok? ==> |r.value| == |PomUrl(raw, art).value|
    ensures r.Ok? ==> r.value[..|r.value| - 4] == PomUrl(raw, art).value[..|r.value| - 4]
    ensures r.Ok? ==> EndsWith(r.value, ".jar")
  {
    var pom :- PomUrl(raw, art);
    Ok(RemoveSuffix(pom, ".pom") + ".jar")
  }

  /** When `.pom` occurs in the POM URL only as its extension, the textual
      replacement agrees with the intended jar URL. */
  lemma JarUrlAsWrittenWhenSuffixOnly(raw: Url, art: string)
    requires PomUrl(raw, art).Ok?
    requires forall i :: 0 <= i < |PomUrl(raw, art).value| - 4 ==> !OccursAt(PomUrl(raw, art).value, ".pom", i)
    ensures JarUrlAsWritten(raw, art) == JarUrl(raw, art)
  {
    var pom := PomUrl(raw, art).value;
    var stem := RemoveSuffix(pom, ".pom");
    assert pom == stem + ".pom";
    ReplaceOnlySuffix(stem, ".pom", ".jar");
  }

  /** A repository URL that itself contains `.pom` (such as
      `http://repo.pom.example`) has that part rewritten too: the jar URL as
      written no longer starts with the repository. */
  lemma JarUrlAsWrittenRewritesRepository(p: string, q: string, art: string)
    requires forall i :: 0 <= i < |p| ==> !OccursAt(p + ".pom", ".pom", i)
    requires Destructure(art).Ok?
    ensures JarUrlAsWritten(p + ".pom" + q, art).value[..|p| + 4] == p + ".jar"
    ensures JarUrl(p + ".pom" + q, art).value[..|p| + 4] == p + ".pom"
  {
    var raw := p + ".pom" + q;
    var pom := PomUrl(raw, art).value;
    var rest := pom[|p| + 4..];
    assert pom[..|raw + "/"|] == raw + "/";
    assert pom[..|p| + 4] == (raw + "/")[..|p| + 4] == p + ".pom";
    assert pom == pom[..|p| + 4] + rest;
    ReplaceFirstOccurrence(p, ".pom", ".jar", rest);
  }
}
