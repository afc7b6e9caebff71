/** Reading a parsed POM: the direct dependency list of an artifact's POM
    and the managed dependency list of a parent POM, each with the
    coordinate of the next parent. */
module PomReader {
  import opened Wrappers
  import opened Strings
  import opened Lists
  import opened Xml
  import opened Coordinates

  /** What one POM contributes: coordinate strings and the parent, if any. */
  datatype PomInfo = PomInfo(deps: seq<string>, parent: Option<string>)

  /** String templating of a `String?`: `null` is spelled out. */
  function Templated(s: Option<string>): (r: string)
    ensures s.Some? ==> r == s.value
    ensures s.None? ==> r == "null"
  {
    if s.Some? then s.value else "null"
  }

  /** `n.el(name).text`. */
  function ChildText(n: Node, name: string): Option<string> {
    Text(El(Some(n), name))
  }

  /** The scope filter both readers apply: a `dependency` element whose
      `scope` is neither `provided` nor `test` (an absent scope passes). */
  predicate InScope(c: Node) {
    && c.name == "dependency"
    && ChildText(c, "scope") != Some("provided")
    && ChildText(c, "scope") != Some("test")
  }

  /** `groupId:artifactId`, with `null` for a missing element. */
  function GroupAndArtifact(c: Node): string {
    Templated(ChildText(c, "groupId")) + ":" + Templated(ChildText(c, "artifactId"))
  }

  /** A dependency as the artifact reader renders it: always two colons,
      the version empty when absent. */
  function DependencyEntry(c: Node): string {
    var v := ChildText(c, "version");
    GroupAndArtifact(c) + ":" + (if v.Some? then v.value else "")
  }

  /** A dependency as the parent reader renders it: no third field at all
      when the version is absent. */
  function ManagedEntry(c: Node): (r: string)
    ensures StartsWith(r, GroupAndArtifact(c))
    ensures |r| > |GroupAndArtifact(c)| <==> ChildText(c, "version").Some?
  {
    var v := ChildText(c, "version");
    GroupAndArtifact(c) + (if v.Some? then ":" + v.value else "")
  }

  /** A managed entry completes the dangling artifact-POM entry of the same
      group and artifact exactly when it names a version: a versionless
      managed entry never fills anything for that dependency. */
  lemma ManagedEntryFills(c: Node, d: Node)
    requires ChildText(c, "groupId") == ChildText(d, "groupId")
    requires ChildText(c, "artifactId") == ChildText(d, "artifactId")
    requires ChildText(d, "version").None?
    ensures StartsWith(ManagedEntry(c), DependencyEntry(d)) <==> ChildText(c, "version").Some?
  {
    var ga := GroupAndArtifact(c);
    assert DependencyEntry(d) == ga + ":";
    if ChildText(c, "version").Some? {
      assert ManagedEntry(c)[..|ga + ":"|] == ga + ":";
    }
  }

  function DependencyEntryIfInScope(c: Node): Option<string> {
    if InScope(c) then Some(DependencyEntry(c)) else None
  }

  function ManagedEntryIfInScope(c: Node): Option<string> {
    if InScope(c) then Some(ManagedEntry(c)) else None
  }

  /** The `parent` reference, rendered `g:a:v` with `null` for a missing part. */
  function ParentRef(project: Node): (r: Option<string>)
    ensures r.Some? <==> El(Some(project), "parent").Some?
    ensures r.Some? ==> Destructure(r.value).Ok?
  {
    var p := El(Some(project), "parent");
    if p.None? then None
    else
      var n := p.value;
      var g, a, v := Templated(ChildText(n, "groupId")), Templated(ChildText(n, "artifactId")), Templated(ChildText(n, "version"));
      TwoSeparators(g, a, v);
      Some(g + ":" + a + ":" + v)
  }

  /** A parent reference whose three parts are present and free of colons
      reads back as exactly those parts. */
  lemma ParentRefFields(project: Node, g: string, a: string, v: string)
    requires ':' !in g && ':' !in a && ':' !in v
    ensures (&& El(Some(project), "parent").Some?
             && ChildText(El(Some(project), "parent").value, "groupId") == Some(g)
             && ChildText(El(Some(project), "parent").value, "artifactId") == Some(a)
             && ChildText(El(Some(project), "parent").value, "version") == Some(v)) ==>
      ParentRef(project).Some? && Destructure(ParentRef(project).value) == Ok(Gav(g, a, v))
  {
    SerializeSpelledOut(Gav(g, a, v));
    DestructureSerialize(Gav(g, a, v));
  }

  /** The two elements an artifact POM must have. */
  function Project(doc: Node): Option<Node> { El(Some(doc), "project") }
  function DependenciesOf(doc: Node): Option<Node> { El(Project(doc), "dependencies") }

  /** `parsePom`: the in-scope direct dependencies, in document order, and
      the parent. A missing `project` or `dependencies` is an error. */
  function ParsePom(doc: Node): (r: Result<PomInfo, Error>)
    ensures r.Ok? <==> Project(doc).Some? && DependenciesOf(doc).Some?
    ensures r.Err? ==> r.error.InvalidPom?
    ensures r.Ok? ==>
      var kept := Filter(DependenciesOf(doc).value.children, InScope);
      && |r.value.deps| == |kept|
      && (forall k :: 0 <= k < |kept| ==> r.value.deps[k] == DependencyEntry(kept[k]))
    ensures r.Ok? ==> r.value.parent == ParentRef(Project(doc).value)
  {
    var project :- El(Some(doc), "project").OrFail(InvalidPom(MissingElement("project")));
    var deps :- El(Some(project), "dependencies").OrFail(InvalidPom(MissingElement("dependencies")));
    var entries := MapNodes(deps.children, DependencyEntryIfInScope);
    FilterNotNullOfOptions(deps.children, entries, InScope, DependencyEntry);
    Ok(PomInfo(FilterNotNull(entries), ParentRef(project)))
  }

  /** `g:a:v` has at least two colons, whatever its fields hold. */
  lemma {:induction false} TwoSeparators(g: string, a: string, v: string)
    ensures Occurrences(g + ":" + a + ":" + v, ':') >= 2
  {
    var rest := ":" + v;
    var middle := ":" + (a + rest);
    assert g + ":" + a + ":" + v == g + middle;
    OccurrencesConcat(g, middle, ':');
    assert middle[1..] == a + rest;
    OccurrencesConcat(a, rest, ':');
    assert rest[1..] == v;
  }

  /** Every entry of an artifact POM has a version field, possibly empty. */
  lemma DependencyEntryHasThreeFields(c: Node)
    ensures Occurrences(DependencyEntry(c), ':') >= 2
  {
    var v := ChildText(c, "version");
    TwoSeparators(Templated(ChildText(c, "groupId")), Templated(ChildText(c, "artifactId")), if v.Some? then v.value else "");
  }

  /** Every entry read from an artifact POM destructures into a coordinate. */
  lemma ParsedEntriesDestructure(doc: Node)
    ensures ParsePom(doc).Ok? ==>
      forall k :: 0 <= k < |ParsePom(doc).value.deps| ==> Destructure(ParsePom(doc).value.deps[k]).Ok?
  {
    if ParsePom(doc).Ok? {
      var kept := Filter(DependenciesOf(doc).value.children, InScope);
      forall k | 0 <= k < |kept| {
        DependencyEntryHasThreeFields(kept[k]);
      }
    }
  }

  /** An absent version in an artifact POM yields a dangling entry. */
  lemma VersionlessDependencyDangles(c: Node)
    requires ChildText(c, "version").None?
    ensures IsDangling(DependencyEntry(c))
  {
  }

  /** The property name a `${name}` reference stands for. */
  function PropertyName(v: string): string {
    RemoveSuffix(RemovePrefix(v, "${"), "}")
  }

  /** The element `properties/<name>` of a project, if any. */
  function Property(project: Node, name: string): Option<Node> {
    El(El(Some(project), "properties"), name)
  }

  /** The version substitution of the parent reader, on one entry: an entry
      containing `$` gets its third field replaced by the text of
      `properties/<name>` of the same project. */
  function Substitute(entry: string, project: Node): (r: Result<string, Error>)
    ensures '$' !in entry ==> r == Ok(entry)
    ensures '$' in entry ==>
      (r.Ok? <==>
        && Destructure(entry).Ok?
        && El(Some(project), "properties").Some?
        && Property(project, PropertyName(Destructure(entry).value.version)).Some?)
    ensures '$' in entry && r.Ok? ==>
      var c := Destructure(entry).value;
      r.value == c.group + ":" + c.artifact + ":" + Property(project, PropertyName(c.version)).value.text
  {
    if '$' !in entry then Ok(entry)
    else
      var c :- Destructure(entry);
      var props :- El(Some(project), "properties").OrFail(MissingElement("properties"));
      var name := PropertyName(c.version);
      var prop :- El(Some(props), name).OrFail(MissingElement(name));
      Ok(c.group + ":" + c.artifact + ":" + prop.text)
  }

  /** `g:a:${name}` destructures with the reference as its version, and
      the reference names `name`. */
  lemma ReferenceEntry(group: string, artifact: string, name: string)
    requires ':' !in group && ':' !in artifact && ':' !in name
    ensures var entry := group + ":" + artifact + ":${" + name + "}";
      && '$' in entry
      && Destructure(entry) == Ok(Gav(group, artifact, "${" + name + "}"))
      && PropertyName("${" + name + "}") == name
  {
    var version := "${" + name + "}";
    var entry := group + ":" + artifact + ":" + version;
    assert ':' !in version;
    assert entry[|group| + |artifact| + 2] == '$';
    DestructureSerialize(Gav(group, artifact, version));
    SerializeSpelledOut(Gav(group, artifact, version));
    assert RemovePrefix(version, "${") == name + "}";
    assert group + ":" + artifact + ":${" + name + "}" == entry;
  }

  /** A `${name}` version is replaced by the property's value, and a
      reference to an undeclared property is an error. */
  lemma SubstituteReference(group: string, artifact: string, name: string, project: Node)
    requires ':' !in group && ':' !in artifact && ':' !in name
    ensures Property(project, name).Some? ==>
      Substitute(group + ":" + artifact + ":${" + name + "}", project) ==
      Ok(group + ":" + artifact + ":" + Property(project, name).value.text)
    ensures Property(project, name).None? ==>
      Substitute(group + ":" + artifact + ":${" + name + "}", project).Err?
  {
    ReferenceEntry(group, artifact, name);
  }

  /** `substitute` over the whole managed list: the first failure wins. */
  function SubstituteAll(entries: seq<string>, project: Node): (r: Result<seq<string>, Error>)
    ensures r.Ok? <==> forall k :: 0 <= k < |entries| ==> Substitute(entries[k], project).Ok?
    ensures r.Ok? ==> |r.value| == |entries|
    ensures r.Ok? ==> forall k :: 0 <= k < |entries| ==> r.value[k] == Substitute(entries[k], project).value
    decreases |entries|
  {
    if |entries| == 0 then Ok([])
    else
      var head :- Substitute(entries[0], project);
      var tail :- SubstituteAll(entries[1..], project);
      Ok([head] + tail)
  }

  /** The three elements a parent POM must have. */
  function ManagementOf(doc: Node): Option<Node> {
    El(El(Project(doc), "dependencyManagement"), "dependencies")
  }

  /** The in-scope entries of a `dependencies` element, rendered and
      substituted against `project`, in document order. */
  function ManagedList(deps: Node, project: Node): (r: Result<seq<string>, Error>)
    ensures r.Ok? <==> forall c :: c in Filter(deps.children, InScope) ==> Substitute(ManagedEntry(c), project).Ok?
    ensures r.Ok? ==> |r.value| == |Filter(deps.children, InScope)|
    ensures r.Ok? ==> forall k :: 0 <= k < |r.value| ==>
      r.value[k] == Substitute(ManagedEntry(Filter(deps.children, InScope)[k]), project).value
  {
    var entries := MapNodes(deps.children, ManagedEntryIfInScope);
    FilterNotNullOfOptions(deps.children, entries, InScope, ManagedEntry);
    SubstituteAll(FilterNotNull(entries), project)
  }

  /** `parseParent`: the in-scope entries of
      `project/dependencyManagement/dependencies` in document order, with
      property references substituted, and this POM's own parent. */
  function ParseParent(doc: Node): (r: Result<PomInfo, Error>)
    ensures r.Err? ==> r.error.InvalidParentPom?
    ensures ManagementOf(doc).None? ==> r.Err?
    ensures ManagementOf(doc).Some? ==>
      && Project(doc).Some?
      && (r.Ok? <==> ManagedList(ManagementOf(doc).value, Project(doc).value).Ok?)
    ensures r.Ok? ==> r.value.deps == ManagedList(ManagementOf(doc).value, Project(doc).value).value
    ensures r.Ok? ==> r.value.parent == ParentRef(Project(doc).value)
  {
    var project :- El(Some(doc), "project").OrFail(InvalidParentPom(MissingElement("project")));
    var management :- El(Some(project), "dependencyManagement").OrFail(InvalidParentPom(MissingElement("dependencyManagement")));
    var deps :- El(Some(management), "dependencies").OrFail(InvalidParentPom(MissingElement("dependencies")));
    var managed :- ManagedList(deps, project).MapError(e => InvalidParentPom(e));
    Ok(PomInfo(managed, ParentRef(project)))
  }

  /** Properties are consulted only for entries that need substitution: with
      no `$` in any in-scope entry, the managed list is the rendered
      entries, whether or not `properties` exists. */
  lemma ParseParentWithoutReferences(doc: Node)
    requires ManagementOf(doc).Some?
    requires forall c :: c in Filter(ManagementOf(doc).value.children, InScope) ==> '$' !in ManagedEntry(c)
    ensures ParseParent(doc).Ok?
    ensures var kept := Filter(ManagementOf(doc).value.children, InScope);
      && |ParseParent(doc).value.deps| == |kept|
      && forall k :: 0 <= k < |kept| ==> ParseParent(doc).value.deps[k] == ManagedEntry(kept[k])
  {
    var kept := Filter(ManagementOf(doc).value.children, InScope);
    var project := Project(doc).value;
    forall k | 0 <= k < |kept|
      ensures Substitute(ManagedEntry(kept[k]), project) == Ok(ManagedEntry(kept[k]))
    {
      assert kept[k] in kept;
    }
  }

  /** An entry that needs substitution fails the whole parent POM when the
      project declares no `properties`. */
  lemma ParseParentNeedsProperties(doc: Node, k: nat)
    requires ManagementOf(doc).Some?
    requires k < |Filter(ManagementOf(doc).value.children, InScope)|
    requires '$' in ManagedEntry(Filter(ManagementOf(doc).value.children, InScope)[k])
    requires El(Project(doc), "properties").None?
    ensures ParseParent(doc).Err?
  {
  }
}
