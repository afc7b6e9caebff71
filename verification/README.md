# Maven fetcher and XMind reader, modelled in Dafny

This project models two parts of a small Kotlin utility library.

The first part is a minimal Maven client. It keeps a list of repositories, with the most recently added one first. For a requested artifact `group:artifact:version` it:

- picks the first repository whose POM URL answers a HEAD request (`testRepo`);
- reads that POM's direct dependencies, skipping `provided` and `test` scopes (`parsePom`);
- fills in dependencies that have no version (written `g:a:`, "dangling") from the managed dependencies of the parent POM, and walks further up the parent chain while some entry is still dangling (`fetchPom`, `fetchParent`, `parseParent`);
- drops everything whose jar is already in the local `.mvn` cache (`fetch`);
- downloads the rest (`fetchJars`, `fetchJar`).

The second part reads an XMind `content.xml` into sheets, topics and relationships (`XmindNode`, `Topic`, `Sheet`, `Relationship`), including `markerOf` and `deepClone`. Both parts sit on a small XML query layer (`el`, `text`, `find`, `map` over node lists).

Modules follow the source structure:

- `Xml` (xml.dfy) is the DOM query layer.
- `Coordinates` (coordinates.dfy) covers coordinates, POM URLs, jar URLs and cache names.
- `Repositories` (repository.dfy) covers the repository list and `testRepo`.
- `PomReader` (pom_reader.dfy) covers `parsePom` and `parseParent`.
- `Resolver` (resolver.dfy) covers `fetchPom` and the parent walk.
- `Fetching` (fetch.dfy) covers `fetch` and `fetchJars`.
- `Xmind` (xmind.dfy) covers the XMind content model.
- `Strings`, `Lists` and `Wrappers` hold the Kotlin library behaviour the core relies on: `split`, `replace`, `startsWith`, `filter`, `filterNotNull`, `toMutableSet`, `map` with exceptions.

## How the outside world is modelled

Every call outside the core becomes a parameter.

- **Network.** A `Network` maps a URL to `Some(document)` or `None`.
  - A URL missing from the map is a failed GET.
  - `None` is a body that is not an XML document.
- **HEAD probes.** A set `live` holds the URLs whose HEAD request succeeds.
- **Local cache.** A `Cache` is the set of file names present in `.mvn`.
- **`String.toLong()`.** A `ParseLong` function returns `None` where the Kotlin call throws.

Exceptions become `Result` values, and the error records which `!!` or destructuring failed. The wrapping into "invalid artifact pom" and "invalid parent pom" is kept: `InvalidPom` and `InvalidParentPom`.

## Behaviour worth knowing

Apart from the abstractions listed under "## Left out" (the outside world as parameters, HEAD failures as dead probes, a bound on the parent walk, the stream left out), the model follows the code. The one change to what a successful run requests is the corrected jar URL of the Findings section. `Fetching.FetchJarMatchesCode` and `Fetching.FetchJarDiffersFromCode` say exactly when that URL is and is not the one the code requests.

- **A coordinate needs at least three `:`-separated fields.** Destructuring `val (g, a, v) = split(":")` fails on fewer than three and ignores any further fields.
- **A dangling `g:a:` gets a cache name.** It destructures with an empty version, so `toJar` gives `g-a-.jar` rather than an error.
- **`fetch` does not collect the transitive closure.** It returns only the direct dependencies of the requested jar, plus the jar itself.
- **The requested jar's POM is fetched even when its jar is already cached.** The cache filter runs after the POM is read.
- **One failing item ends the whole `fetchJars` call.** The work list is built with `map { fetch(it) }`, so a failure there propagates out rather than being logged and skipped.
- **`testRepo` returns `""` when no repository answers, and the code carries on.** `pom("", jar)` then builds a URL without a scheme or host, and OkHttp rejects the GET of that URL. The model makes both `fetchPom` and `fetchJar` fail with a request failure on the empty repository.
- **`Set<Topic>` and `Set<Relationship>` are lists here.** The Kotlin classes do not override `equals`, so these sets compare by identity and never merge two parsed elements.
- **Every child node of `children/topics` is parsed as a topic.** That includes whitespace text nodes between elements, which have no `title` and so fail the parse.

## Model

| member | source | states |
|---|---|---|
| Xml.Find | src/main/kotlin/Xml.kt:37-44 | the result is absent exactly when no element satisfies the predicate, and otherwise is the element at the lowest matching index |
| Xml.MapNodes | src/main/kotlin/Xml.kt:29-35 | one result per node, in node order |
| Xml.El | src/main/kotlin/Xml.kt:46-49 | a `@name` path yields the attribute `name` if present; a path without `@` yields the first child with that node name; `null` in gives `null` out |
| Xml.ChildLookupIsChild | src/main/kotlin/Xml.kt:48 | a child lookup returns one of the node's own children |
| Xml.AttributeLookupIgnoresChildren | src/main/kotlin/Xml.kt:47 | an attribute lookup does not depend on the children |
| Xml.Text | src/main/kotlin/Xml.kt:51 | `text` is `null` exactly for a `null` node, and is otherwise its text content |
| Coordinates.Destructure | src/main/kotlin/Maven.kt:139 | succeeds exactly when the string has at least two colons; the three fields are colon-free |
| Coordinates.DestructureSerialize | src/main/kotlin/Maven.kt:139 | destructuring `g:a:v` gives back `g`, `a`, `v` (round trip) |
| Coordinates.DestructureIgnoresExtraFields | src/main/kotlin/Maven.kt:139 | a fourth field and beyond are ignored |
| Coordinates.DestructureDangling | src/main/kotlin/Maven.kt:121 | a dangling `g:a:` destructures with an empty version |
| Coordinates.GroupPath | src/main/kotlin/Maven.kt:140 | `g.replace(".", "/")` keeps the length and changes exactly the dots into slashes |
| Coordinates.PomUrl | src/main/kotlin/Maven.kt:138-141 | defined exactly for well-formed coordinates; the URL starts with `raw/` and ends with `.pom` |
| Coordinates.PomUrlOfCoordinate | src/main/kotlin/Maven.kt:138-141 | for `g:a:v` the URL is `raw/<g with / for .>/a/v/a-v.pom` |
| Coordinates.CacheFileName | src/main/kotlin/Maven.kt:120-123 | defined exactly for well-formed coordinates; the name ends with `.jar` |
| Coordinates.CacheFileNameOfCoordinate | src/main/kotlin/Maven.kt:120-123 | `g:a:v` maps to `g-a-v.jar`, and dangling `g:a:` maps to `g-a-.jar` |
| Coordinates.JarUrlAsWritten | src/main/kotlin/Maven.kt:112 | the text replacement of every `.pom` keeps the POM URL's length |
| Coordinates.JarUrl | src/main/kotlin/Maven.kt:112 | the intended jar URL equals the POM URL except for its last four characters, and ends in `.jar` |
| Coordinates.JarUrlAsWrittenWhenSuffixOnly | src/main/kotlin/Maven.kt:112 | when `.pom` occurs only as the extension, the code as written gives the intended jar URL |
| Coordinates.JarUrlAsWrittenRewritesRepository | src/main/kotlin/Maven.kt:112 | a repository URL containing `.pom` is itself rewritten to `.jar` by the code as written, while the intended URL keeps it |
| Repositories.InitialRepositories | src/main/kotlin/Maven.kt:55-57 | before any `addRepository` the list holds only the central repository |
| Repositories.AddRepository | src/main/kotlin/Maven.kt:59-61 | the new URL is first and the old list follows unchanged |
| Repositories.AddRepositoryTakesPriority | src/main/kotlin/Maven.kt:59-61 | an added repository wins whenever it serves the artifact; otherwise the selection is unchanged |
| Repositories.FirstLive | src/main/kotlin/Maven.kt:128-133 | the index of the first live URL: every earlier URL is dead, and the URL at the index (if any) is live |
| Repositories.SelectRepository | src/main/kotlin/Maven.kt:125-136 | an empty list selects `""`; otherwise it fails exactly on a malformed coordinate |
| Repositories.SelectRepositoryFirstHit | src/main/kotlin/Maven.kt:125-136 | the first repository in list order whose POM URL is live is selected; when none is live, `""` is selected |
| Repositories.ProbeInOrder | src/main/kotlin/Maven.kt:128-133 | the loop stops at the first live URL, and its probes are exactly the URLs up to and including that one |
| Repositories.TestRepo | src/main/kotlin/Maven.kt:125-136 | the loop returns the selection; probes are the POM URLs in list order, up to and including the first live one, and all of them when none is live; every probe before the last was dead, and the result is the last probe's repository when that probe was live and `""` otherwise |
| PomReader.ParsePom | src/main/kotlin/Maven.kt:143-156 | fails exactly without `project` or `dependencies`; otherwise one entry per in-scope `dependency`, in order, plus the parent reference |
| PomReader.DependencyEntryHasThreeFields | src/main/kotlin/Maven.kt:147-148 | every direct-dependency entry has at least two colons, so it always destructures |
| PomReader.VersionlessDependencyDangles | src/main/kotlin/Maven.kt:147-148 | a dependency without `version` yields a dangling entry |
| PomReader.ParentRef | src/main/kotlin/Maven.kt:150-152 | the parent reference is present exactly when the `parent` element is, and it always has three colon-separated fields, so it destructures |
| PomReader.ParentRefFields | src/main/kotlin/Maven.kt:150-152 | when `groupId`, `artifactId` and `version` of `parent` are present and colon-free, the reference reads back as exactly those three |
| PomReader.ManagedEntry | src/main/kotlin/Maven.kt:161-163 | a managed entry extends `groupId:artifactId`, and is longer than that exactly when a `version` is present |
| PomReader.ManagedEntryFills | src/main/kotlin/Maven.kt:161-163 | for the same group and artifact, a managed entry starts with the dangling artifact-POM entry exactly when it names a version, so a versionless managed entry never fills it |
| PomReader.Substitute | src/main/kotlin/Maven.kt:168-172 | entries without `$` pass unchanged; otherwise the version becomes the text of `properties/<name>`, failing when either element is missing |
| PomReader.ReferenceEntry | src/main/kotlin/Maven.kt:169-171 | `g:a:${name}` destructures with the reference as its version, and the reference names `name` |
| PomReader.SubstituteReference | src/main/kotlin/Maven.kt:168-172 | a `${name}` version is replaced by the declared property's text, and an undeclared property is an error |
| PomReader.SubstituteAll | src/main/kotlin/Maven.kt:168-173 | succeeds exactly when every entry substitutes; the result is the entries substituted, in order |
| PomReader.ManagedList | src/main/kotlin/Maven.kt:160-173 | the in-scope managed dependencies, in order, each rendered and substituted; fails exactly when one substitution fails |
| PomReader.ParseParent | src/main/kotlin/Maven.kt:158-178 | fails, wrapped as an invalid parent POM, when the management path is missing; otherwise the result is the managed list and the parent reference |
| PomReader.ParseParentWithoutReferences | src/main/kotlin/Maven.kt:168-172 | with no `$` in any managed entry, the result is the rendered entries, whether or not `properties` exists |
| PomReader.ParseParentNeedsProperties | src/main/kotlin/Maven.kt:171 | one entry with a reference and no `properties` element fails the whole parent POM |
| Lists.FilterNotNull | src/main/kotlin/Maven.kt:150 | `filterNotNull()` keeps exactly the present values, and never more entries than it was given |
| Lists.FilterNotNullOfOptions | src/main/kotlin/Maven.kt:145-150 | mapping to an optional value and then `filterNotNull` equals filtering first and then mapping |
| Lists.Distinct | src/main/kotlin/Maven.kt:103-104 | `toMutableSet()` keeps each element once, keeps the same elements, and orders them by the position of their first occurrence in the input |
| Lists.MapAll | src/main/kotlin/xmind.kt:101 | mapping with a function that can throw succeeds exactly when every element succeeds; its result is the pointwise results; a failure is the first failing element's |
| Resolver.HasDanglingExists | src/main/kotlin/Maven.kt:182 | the dangling test holds exactly when some entry ends with `:` |
| Resolver.FillOne | src/main/kotlin/Maven.kt:192-195 | an entry with a version is kept; a dangling one becomes the first managed entry that starts with it, or stays as it is |
| Resolver.FillDangling | src/main/kotlin/Maven.kt:192-196 | the list keeps its length and is filled entry by entry |
| Resolver.FillDanglingNoNewDangling | src/main/kotlin/Maven.kt:192-196 | a step never increases the number of dangling entries |
| Resolver.FillDanglingExample | src/main/kotlin/Maven.kt:194 | `com.example:util:` takes `com.example:util:2.3.1` and skips a non-matching managed entry |
| Resolver.FetchParent | src/main/kotlin/Maven.kt:190-204 | a finished walk read its first parent, and keeps the list's length |
| Resolver.FirstParentWins | src/main/kotlin/Maven.kt:192-198 | an entry that the first parent's managed list completes leaves the walk exactly as that parent filled it; grandparents cannot override it |
| Resolver.FetchParentRefines | src/main/kotlin/Maven.kt:192-198 | the walk only completes entries: versioned entries are unchanged, every entry is extended, and the dangling count never grows |
| Resolver.FetchParentEndsAtRoot | src/main/kotlin/Maven.kt:197-201 | a walk that leaves entries dangling stopped at a parent without a parent |
| Resolver.FetchParentFuelIrrelevant | src/main/kotlin/Maven.kt:197-198 | a walk that finishes within a bound gives the same answer under any larger bound |
| Resolver.FetchParentOneStep | src/main/kotlin/Maven.kt:190-201 | when one parent fills every entry, the result is that filled list and that parent |
| Resolver.ResolveWithParents | src/main/kotlin/Maven.kt:182-186 | without a dangling entry or a parent, the list is returned as it is; otherwise it succeeds exactly when the parent walk does, only dangling entries change, each only by gaining a version, and every entry the first parent completes has that parent's value |
| Resolver.PomAt | src/main/kotlin/Maven.kt:180-181 | a malformed coordinate fails first; the empty repository and a URL the network does not serve are failed requests; a non-XML body is an invalid artifact POM; otherwise the result is `parsePom` of the document, whose entries all destructure |
| Resolver.ParentPomAt | src/main/kotlin/Maven.kt:190-191 | a malformed parent coordinate fails first; an unserved URL is a failed request; a non-XML body is an invalid parent POM; otherwise the result is `parseParent` of the document |
| Resolver.FetchPom | src/main/kotlin/Maven.kt:180-188 | a failure to read the artifact POM is the result; with a dangling entry and a parent it succeeds exactly when the parent walk does; the result is as long as the dependency list, versioned entries are unchanged, and every entry extends the original |
| Resolver.FetchPomFirstParentWins | src/main/kotlin/Maven.kt:180-195 | with a dangling entry and a parent, the parent POM named by the artifact's POM is read, and each dangling entry its managed list completes comes back with that parent's version |
| Fetching.FilterUncached | src/main/kotlin/Maven.kt:105-107 | fails exactly when some entry is malformed; otherwise the result is the input filtered to the entries whose cache file is absent, in their input order, with no duplicates added |
| Fetching.DependenciesWellFormed | src/main/kotlin/Maven.kt:101-108 | a resolved dependency list, and the jar it was read for, name only well-formed coordinates, so `toJar` never throws on them |
| Fetching.ToDownload | src/main/kotlin/Maven.kt:103-107 | after `toMutableSet()` and the cache filter, each of the dependencies and the jar appears exactly once, exactly when its cache file is absent; it fails exactly when some name is not a coordinate |
| Fetching.Fetch | src/main/kotlin/Maven.kt:101-108 | fails exactly when reading the dependencies fails, with that error; otherwise it holds each of the dependencies and the jar itself exactly once, exactly when its cache file is absent |
| Fetching.WorkList | src/main/kotlin/Maven.kt:64-66 | succeeds exactly when every requested jar's `fetch` succeeds; the result is their lists one after another, in order, duplicates kept |
| Fetching.WorkListUncached | src/main/kotlin/Maven.kt:63-66 | every work-list entry is well-formed and has no file in the cache |
| Fetching.FetchJar | src/main/kotlin/Maven.kt:110-117 | succeeds exactly for a well-formed coordinate and a non-empty repository; the empty repository's hostless URL is a failed request; the download URL is the corrected jar URL, starts with the repository and ends with `.jar`, and the target is the artifact's cache file |
| Fetching.FetchJarMatchesCode | src/main/kotlin/Maven.kt:112 | when `.pom` occurs in the POM URL only as its extension, the download requests exactly the URL the code builds |
| Fetching.FetchJarDiffersFromCode | src/main/kotlin/Maven.kt:112 | for a repository URL containing `.pom`, the download's URL differs from the one the code requests |
| Fetching.FetchItem | src/main/kotlin/Maven.kt:68-69 | a stream item succeeds exactly when the coordinate is well formed and `testRepo` selected a repository; it downloads that repository's jar URL into the artifact's cache file |
| Fetching.FetchItemWithoutRepository | src/main/kotlin/Maven.kt:125-136 | an artifact that no repository serves makes its stream item fail with a request to the hostless URL |
| Fetching.Downloads | src/main/kotlin/Maven.kt:66-70 | succeeds exactly when every item does, with one download per work-list item, in order, each into a file not in the cache; a failure is that of some failing item |
| Fetching.FetchJars | src/main/kotlin/Maven.kt:63-73 | a failure while building the work list is the result; otherwise it succeeds exactly when every work-list item can be downloaded, and the result is those downloads |
| Xmind.Required | src/main/kotlin/xmind.kt:17 | `el(path)!!.text!!` succeeds exactly when the element exists, and yields its text; otherwise it fails naming the path |
| Xmind.ParseHeader | src/main/kotlin/xmind.kt:16-20 | succeeds exactly when `id`, `modified-by` and a numeric `timestamp` are present, and holds those values; a missing `id` is the first error |
| Xmind.MarkerIds | src/main/kotlin/xmind.kt:64 | the marker set is exactly the `marker-id` values of the `marker-refs` children |
| Xmind.ParseTopicFields | src/main/kotlin/xmind.kt:59-68 | the contract of `ParseTopic`: a topic parses exactly when its title is present and its sub-topics and header parse; a parsed topic holds the title, label and note texts, the parsed sub-topics and the header; it has children and a marker set exactly when the elements exist; a missing title is the first error |
| Xmind.ParseChildren | src/main/kotlin/xmind.kt:63 | without `children/topics` the result is the absent list; otherwise it succeeds exactly when every child node parses as a topic, and holds those topics in order |
| Xmind.ParseTopics | src/main/kotlin/xmind.kt:63 | succeeds exactly when every node parses as a topic; the results are pointwise, in order |
| Xmind.ParsedMarkers | src/main/kotlin/xmind.kt:64 | a parsed topic with `marker-refs` holds exactly the referenced marker ids |
| Xmind.MarkerOf | src/main/kotlin/xmind.kt:70 | returns the marker itself exactly when the topic carries it |
| Xmind.MarkerOfParsed | src/main/kotlin/xmind.kt:64-70 | on a parsed topic, `markerOf(m)` finds `m` exactly when some `marker-refs` child has `marker-id` `m` |
| Xmind.DeepClone | src/main/kotlin/xmind.kt:72-83 | the clone has the same fields, shares the marker set, and has children exactly when the original does, with as many |
| Xmind.DeepCloneAll | src/main/kotlin/xmind.kt:75 | the sub-topic list is cloned element by element |
| Xmind.DeepCloneEqual | src/main/kotlin/xmind.kt:72-83 | a deep clone equals the original as a value, at every level |
| Xmind.ParseRelationship | src/main/kotlin/xmind.kt:112-121 | succeeds exactly with a header and both `end1` and `end2`, holding those values and the optional title; with a valid header, a missing `end1` is the error |
| Xmind.ParseSheet | src/main/kotlin/xmind.kt:93-102 | a parsed sheet holds the header, the title and the root topic parsed from `topic`; after a valid header and title, a missing `topic` is the error; relationships are present exactly when the element is, parsed one per child node |
| Xmind.ParseSheetSucceeds | src/main/kotlin/xmind.kt:93-102 | a sheet parses exactly when its header parses, its title and `topic` exist, the root topic parses, and every child of `relationships` parses when that element exists |

## Left out

- Network I/O, timeouts and redirects are left out; the `Network` map and the `live` set stand in for them.
- The `IOException` a HEAD request can throw is not modelled. In the code it propagates out of `testRepo`; here a probe either succeeds or is dead, and the loop moves on to the next repository.
- Copying the jar body into the cache file is left out; a download is modelled as the pair of URL and target file.
- A 404 response body is still copied or parsed by the code; here the network decides what a URL serves, so that case is whatever the map says.
- The parallel stream and `count()` in `fetchJars` are left out. The downloads are modelled in work-list order, and a failure is reported as some failing item's, without saying which one a parallel run would surface. On newer JVMs `count()` on a sized stream may skip the `map` entirely, which the model does not capture.
- A repository URL that is itself empty, added with `addRepository("")`, is probed like any other here; in the code its HEAD request would throw.
- Logging is left out.
- Creating the `.mvn` directory, and failing when it is a file, is left out.
- `fetchAndLoadJars`, `loadJars`, `JarLoader.kt` and `Jooq.kt` are not part of this model.
- `XmindParser.parse` is left out: it opens the zip file and parses XML. The model starts from a parsed document.
- The `toString` overrides, `XNode` and `createXNode` are left out; they carry no behaviour of the core.
- The `toLong` conversion is a parameter.
- Kotlin's `clone()` identity semantics are left out: values have no identity here.
- Resolver.FetchParent: Kotlin's recursion has no bound. Here a `fuel` bound ends the walk in `ChainTooDeep`. `FetchParentFuelIrrelevant` shows that the bound never changes an answer the walk reaches.
- Resolver.FetchPom: its own contract states which entries may change and that each only gains a version. `FetchPomFirstParentWins` states which value the first parent gives an entry. Entries that only a grandparent completes are described by `FetchParentRefines` alone, not value by value.
- Coordinates.JarUrlAsWritten: its contract states only the length. Its content is stated by `JarUrlAsWrittenWhenSuffixOnly` and `JarUrlAsWrittenRewritesRepository`.
- Fetching.FetchJar: uses the corrected jar URL (see Findings), so it states that URL's shape rather than the text replacement of the code.
- Fetching.FetchItem: downloads from the corrected jar URL, not from `pom(raw, jar).replace(".pom", ".jar")`. The two agree unless `.pom` occurs before the extension, such as in the repository URL (`FetchJarMatchesCode`, `FetchJarDiffersFromCode`).
- Fetching.Downloads: each download's URL is the corrected jar URL, as for `Fetching.FetchItem`.
- Fetching.FetchJars: the downloads it returns use the corrected jar URL, as for `Fetching.FetchItem`.
- Repositories.SelectRepository: its own contract covers only the error cases. Which repository is chosen is stated by `SelectRepositoryFirstHit`.

## Findings

| source | as written | input that shows it | evidently intended | confidence | as-written member | corrected member |
|---|---|---|---|---|---|---|
| src/main/kotlin/Maven.kt:112 | the jar URL is `pom(raw, jar).replace(".pom", ".jar")`, which replaces every `.pom` in the whole URL | repository `http://repo.pom.example` and artifact `g:a:1`: the jar is requested from `http://repo.jar.example/...` | only the `.pom` extension becomes `.jar` | not executed | Coordinates.JarUrlAsWrittenRewritesRepository | Coordinates.JarUrl |
