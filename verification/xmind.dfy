/** The XMind content model read from a parsed `content.xml`: topics with
    their sub-topics, markers, labels and notes, sheets with a root topic,
    and relationships between topics. Every element carries the common
    `id`/`modified-by`/`timestamp` header. */
module Xmind {
  import opened Wrappers
  import opened Strings
  import opened Lists
  import opened Xml

  /** Why building an element failed: a required child or attribute is
      missing (a `!!` on `null`), or the timestamp is not a number. */
  datatype XmindError = Missing(path: string) | NotALong(text: string)

  /** `String.toLong()`: `None` where it throws. */
  type ParseLong = string -> Option<int>

  /** The fields of `XmindNode`. */
  datatype Header = Header(xid: string, modifier: string, timestamp: int)

  /** `node.el(path)!!.text!!`: the text of a required child or attribute. */
  function Required(n: Node, path: string): (r: Result<string, XmindError>)
    ensures r.Ok? <==> El(Some(n), path).Some?
    ensures r.Ok? ==> r.value == El(Some(n), path).value.text
    ensures r.Err? ==> r.error == Missing(path)
  {
    var found :- El(Some(n), path).OrFail(Missing(path));
    Ok(found.text)
  }

  /** `XmindNode(node)`: the `id`, `modified-by` and `timestamp` attributes,
      read in that order; the timestamp must parse as a number. */
  function ParseHeader(node: Node, toLong: ParseLong): (r: Result<Header, XmindError>)
    ensures r.Ok? <==>
      && "id" in node.attrs && "modified-by" in node.attrs && "timestamp" in node.attrs
      && toLong(node.attrs["timestamp"]).Some?
    ensures r.Ok? ==>
      r.value == Header(node.attrs["id"], node.attrs["modified-by"], toLong(node.attrs["timestamp"]).value)
    ensures "id" !in node.attrs ==> r == Err(Missing("@id"))
  {
    assert "@id"[1..] == "id" && "@modified-by"[1..] == "modified-by" && "@timestamp"[1..] == "timestamp";
    var xid :- Required(node, "@id");
    var modifier :- Required(node, "@modified-by");
    var stamp :- Required(node, "@timestamp");
    var timestamp :- toLong(stamp).OrFail(NotALong(stamp));
    Ok(Header(xid, modifier, timestamp))
  }

  /** Whether a topic has a `children/topics` list: `null` when the element
      is missing, otherwise the parsed sub-topics in document order. */
  datatype Children = Absent | Present(topics: seq<Topic>)

  /** A `Topic`. Sub-topic sets compare by identity in Kotlin, so no
      sub-topic is ever merged with another: they are kept as a list. */
  datatype Topic = Topic(
    title: string,
    child: Children,
    marker: Option<set<string>>,
    labelText: Option<string>,  // `label`, a reserved word here
    note: Option<string>,
    header: Header)

  /** `node.el(outer)?.el(inner)`. */
  function Nested(node: Node, outer: string, inner: string): Option<Node> {
    El(El(Some(node), outer), inner)
  }

  /** The `marker-id` attribute values of the `marker-refs` children;
      children without one are dropped. */
  function MarkerIds(refs: seq<Node>): (r: set<string>)
    ensures forall m :: m in r <==>
      exists i :: 0 <= i < |refs| && "marker-id" in refs[i].attrs && refs[i].attrs["marker-id"] == m
  {
    var ids := MapNodes(refs, (n: Node) => Text(El(Some(n), "@marker-id")));
    MarkerIdsPresent(refs, ids);
    set m | m in FilterNotNull(ids)
  }

  /** The present ids are exactly the attribute values. */
  lemma {:induction false} MarkerIdsPresent(refs: seq<Node>, ids: seq<Option<string>>)
    requires |ids| == |refs|
    requires forall i :: 0 <= i < |refs| ==> ids[i] == Text(El(Some(refs[i]), "@marker-id"))
    ensures forall m :: m in FilterNotNull(ids) <==>
      exists i :: 0 <= i < |refs| && "marker-id" in refs[i].attrs && refs[i].attrs["marker-id"] == m
    decreases |refs|
  {
    assert "@marker-id"[1..] == "marker-id";
    if |refs| > 0 {
      MarkerIdsPresent(refs[1..], ids[1..]);
      assert forall i :: 1 <= i < |refs| ==> refs[i] == refs[1..][i - 1];
      forall m | exists i :: 0 <= i < |refs| && "marker-id" in refs[i].attrs && refs[i].attrs["marker-id"] == m
        ensures m in FilterNotNull(ids)
      {
        var i :| 0 <= i < |refs| && "marker-id" in refs[i].attrs && refs[i].attrs["marker-id"] == m;
        if i > 0 {
          assert "marker-id" in refs[1..][i - 1].attrs;
        }
      }
    }
  }

  /** `Topic(node)`: a required `title`; optional `labels/label` and
      `notes/plain`; the sub-topics of `children/topics`, every child node
      parsed as a topic; the marker ids of `marker-refs`; then the header.
      The first failure, in that order, is the result. */
  function ParseTopic(node: Node, toLong: ParseLong): (r: Result<Topic, XmindError>)
    decreases node, 2
  {
    var title :- Required(node, "title");
    var labelText := Text(Nested(node, "labels", "label"));
    var note := Text(Nested(node, "notes", "plain"));
    var child :- ParseChildren(node, toLong);
    var refs := El(Some(node), "marker-refs");
    var marker := if refs.Some? then Some(MarkerIds(refs.value.children)) else None;
    var header :- ParseHeader(node, toLong);
    Ok(Topic(title, child, marker, labelText, note, header))
  }

  /** What a parsed topic holds: the title text, the label and note texts
      when present, sub-topics exactly when `children/topics` exists, a
      marker set exactly when `marker-refs` exists, and the header. A
      missing title is the first failure, and a topic parses exactly when
      its title is present and its sub-topics and header parse. */
  lemma ParseTopicFields(node: Node, toLong: ParseLong)
    ensures El(Some(node), "title").None? ==> ParseTopic(node, toLong) == Err(Missing("title"))
    ensures ParseTopic(node, toLong).Ok? <==>
      El(Some(node), "title").Some? && ParseChildren(node, toLong).Ok? && ParseHeader(node, toLong).Ok?
    ensures ParseTopic(node, toLong).Ok? ==> ParseChildren(node, toLong) == Ok(ParseTopic(node, toLong).value.child)
    ensures ParseTopic(node, toLong).Ok? ==>
      var t := ParseTopic(node, toLong).value;
      && El(Some(node), "title").Some? && t.title == El(Some(node), "title").value.text
      && t.labelText == Text(Nested(node, "labels", "label"))
      && t.note == Text(Nested(node, "notes", "plain"))
      && (t.child.Absent? <==> Nested(node, "children", "topics").None?)
      && ParseHeader(node, toLong) == Ok(t.header)
      && (t.marker.None? <==> El(Some(node), "marker-refs").None?)
  {
    var title := Required(node, "title");
    var child := ParseChildren(node, toLong);
    var header := ParseHeader(node, toLong);
    if title.Ok? && child.Ok? && header.Ok? {
      var refs := El(Some(node), "marker-refs");
      var marker := if refs.Some? then Some(MarkerIds(refs.value.children)) else None;
      assert ParseTopic(node, toLong) == Ok(Topic(title.value, child.value, marker,
        Text(Nested(node, "labels", "label")), Text(Nested(node, "notes", "plain")), header.value));
    }
  }

  /** `node.el("children")?.el("topics")?.childNodes?.map { Topic(it) }`:
      every child node parsed as a topic, in order; the first failure wins. */
  function ParseChildren(node: Node, toLong: ParseLong): (r: Result<Children, XmindError>)
    ensures Nested(node, "children", "topics").None? ==> r == Ok(Absent)
    ensures Nested(node, "children", "topics").Some? ==>
      var kids := Nested(node, "children", "topics").value.children;
      && (r.Ok? <==> forall i :: 0 <= i < |kids| ==> ParseTopic(kids[i], toLong).Ok?)
      && (r.Ok? ==> r.value.Present? && |r.value.topics| == |kids|)
      && (r.Ok? ==> forall i :: 0 <= i < |kids| ==> ParseTopic(kids[i], toLong) == Ok(r.value.topics[i]))
    decreases node, 1
  {
    var inner := Nested(node, "children", "topics");
    if inner.None? then Ok(Absent)
    else
      TopicsBelow(node);
      var kids := inner.value.children;
      assert forall i :: 0 <= i < |kids| ==> kids[i] in kids;
      var topics :- ParseTopics(node, kids, toLong);
      Ok(Present(topics))
  }

  /** `children/topics` lies below the topic it is looked up from. */
  lemma TopicsBelow(node: Node)
    ensures Nested(node, "children", "topics").Some? ==> Nested(node, "children", "topics").value < node
  {
    var outer := El(Some(node), "children");
    if outer.Some? {
      FirstCharRulesOutPrefix("children", "@");
      FirstCharRulesOutPrefix("topics", "@");
      ChildLookupIsChild(node, "children");
      ChildLookupIsChild(outer.value, "topics");
    }
  }

  /** The topics of `kids`, nodes below `node`, in order; the first failure
      wins. */
  function ParseTopics(node: Node, kids: seq<Node>, toLong: ParseLong): (r: Result<seq<Topic>, XmindError>)
    requires forall i :: 0 <= i < |kids| ==> kids[i] < node
    ensures r.Ok? <==> forall i :: 0 <= i < |kids| ==> ParseTopic(kids[i], toLong).Ok?
    ensures r.Ok? ==> |r.value| == |kids|
    ensures r.Ok? ==> forall i :: 0 <= i < |kids| ==> ParseTopic(kids[i], toLong) == Ok(r.value[i])
    decreases node, 0, |kids|
  {
    if |kids| == 0 then Ok([])
    else
      var head :- ParseTopic(kids[0], toLong);
      var tail :- ParseTopics(node, kids[1..], toLong);
      Ok([head] + tail)
  }

  /** The marker set of a parsed topic holds exactly the `marker-id` values
      found under its `marker-refs`. */
  lemma ParsedMarkers(node: Node, toLong: ParseLong, m: string)
    requires ParseTopic(node, toLong).Ok?
    requires El(Some(node), "marker-refs").Some?
    ensures var refs := El(Some(node), "marker-refs").value.children;
      && ParseTopic(node, toLong).value.marker.Some?
      && (m in ParseTopic(node, toLong).value.marker.value <==>
          exists i :: 0 <= i < |refs| && "marker-id" in refs[i].attrs && refs[i].attrs["marker-id"] == m)
  {
  }

  /** `markerOf(m)`: `m` itself when the topic carries that marker, `null`
      otherwise, also when the topic has no markers at all. */
  function MarkerOf(t: Topic, m: string): (r: Option<string>)
    ensures r.Some? ==> r.value == m
    ensures r.Some? <==> t.marker.Some? && m in t.marker.value
  {
    if t.marker.Some? && m in t.marker.value then Some(m) else None
  }

  /** A marker lookup on a parsed topic answers from the document itself. */
  lemma MarkerOfParsed(node: Node, toLong: ParseLong, m: string)
    requires ParseTopic(node, toLong).Ok?
    ensures var refs := El(Some(node), "marker-refs");
      MarkerOf(ParseTopic(node, toLong).value, m) == Some(m) <==>
        refs.Some? &&
        exists i :: 0 <= i < |refs.value.children| &&
          "marker-id" in refs.value.children[i].attrs && refs.value.children[i].attrs["marker-id"] == m
  {
    if El(Some(node), "marker-refs").Some? {
      ParsedMarkers(node, toLong, m);
    }
  }

  /** `deepClone()`: a fresh topic with the same fields whose sub-topics are
      deep clones in turn; the marker set is shared. */
  function DeepClone(t: Topic): (r: Topic)
    ensures r.title == t.title && r.marker == t.marker && r.labelText == t.labelText && r.note == t.note
    ensures r.header == t.header
    ensures r.child.Absent? <==> t.child.Absent?
    ensures r.child.Present? ==> |r.child.topics| == |t.child.topics|
    decreases t, 1
  {
    var child := if t.child.Absent? then Absent else Present(DeepCloneAll(t.child.topics));
    Topic(t.title, child, t.marker, t.labelText, t.note, t.header)
  }

  /** `map { it.deepClone() }` over a sub-topic list. */
  function DeepCloneAll(ts: seq<Topic>): (r: seq<Topic>)
    ensures |r| == |ts|
    ensures forall i :: 0 <= i < |ts| ==> r[i] == DeepClone(ts[i])
    decreases ts, 0
  {
    if |ts| == 0 then []
    else
      var r := [DeepClone(ts[0])] + DeepCloneAll(ts[1..]);
      assert forall i :: 1 <= i < |ts| ==> ts[i] == ts[1..][i - 1];
      r
  }

  /** A deep clone equals the original at every level: values, not
      identities, are what it copies. */
  lemma {:induction false} DeepCloneEqual(t: Topic)
    ensures DeepClone(t) == t
    decreases t, 1
  {
    if t.child.Present? {
      DeepCloneAllEqual(t.child.topics);
    }
  }

  /** The list version of `DeepCloneEqual`. */
  lemma {:induction false} DeepCloneAllEqual(ts: seq<Topic>)
    ensures DeepCloneAll(ts) == ts
    decreases ts, 0
  {
    forall i | 0 <= i < |ts|
      ensures DeepCloneAll(ts)[i] == ts[i]
    {
      DeepCloneEqual(ts[i]);
    }
  }

  /** A `Relationship`: an optionally titled link between two elements. */
  datatype Relationship = Relationship(header: Header, from: string, to: string, title: Option<string>)

  /** `Relationship(node)`: the header, then the required `end1` and `end2`
      attributes; the `title` child is optional. */
  function ParseRelationship(node: Node, toLong: ParseLong): (r: Result<Relationship, XmindError>)
    ensures r.Ok? <==> ParseHeader(node, toLong).Ok? && "end1" in node.attrs && "end2" in node.attrs
    ensures ParseHeader(node, toLong).Ok? && "end1" !in node.attrs ==> r == Err(Missing("@end1"))
    ensures r.Ok? ==>
      r.value == Relationship(ParseHeader(node, toLong).value, node.attrs["end1"], node.attrs["end2"],
                              Text(El(Some(node), "title")))
  {
    assert "@end1"[1..] == "end1" && "@end2"[1..] == "end2";
    var header :- ParseHeader(node, toLong);
    var from :- Required(node, "@end1");
    var to :- Required(node, "@end2");
    Ok(Relationship(header, from, to, Text(El(Some(node), "title"))))
  }

  /** A `Sheet`: a titled root topic and its optional relationships. */
  datatype Sheet = Sheet(header: Header, title: string, root: Topic, relationships: Option<seq<Relationship>>)

  /** `Sheet(node)`: the header, then a required `title`, a required `topic`
      parsed as the root, and the optional `relationships` list. */
  function ParseSheet(node: Node, toLong: ParseLong): (r: Result<Sheet, XmindError>)
    ensures r.Ok? ==> ParseHeader(node, toLong) == Ok(r.value.header)
    ensures r.Ok? ==> El(Some(node), "title").Some? && r.value.title == El(Some(node), "title").value.text
    ensures ParseHeader(node, toLong).Ok? && El(Some(node), "title").Some? && El(Some(node), "topic").None? ==>
      r == Err(Missing("topic"))
    ensures r.Ok? ==>
      El(Some(node), "topic").Some? && ParseTopic(El(Some(node), "topic").value, toLong) == Ok(r.value.root)
    ensures r.Ok? ==> (r.value.relationships.None? <==> El(Some(node), "relationships").None?)
    ensures r.Ok? && r.value.relationships.Some? ==>
      var rels := El(Some(node), "relationships").value.children;
      |r.value.relationships.value| == |rels| &&
      forall i :: 0 <= i < |rels| ==> ParseRelationship(rels[i], toLong) == Ok(r.value.relationships.value[i])
  {
    var header :- ParseHeader(node, toLong);
    var title :- Required(node, "title");
    var topic :- El(Some(node), "topic").OrFail(Missing("topic"));
    var root :- ParseTopic(topic, toLong);
    var rels := El(Some(node), "relationships");
    var relationships :- if rels.None? then Ok(None)
      else var parsed :- MapAll(rels.value.children, (n: Node) => ParseRelationship(n, toLong)); Ok(Some(parsed));
    Ok(Sheet(header, title, root, relationships))
  }

  /** A sheet parses exactly when its header parses, its title and root
      topic are present, the root topic parses, and so does every child of
      `relationships` when that element exists. */
  lemma ParseSheetSucceeds(node: Node, toLong: ParseLong)
    ensures ParseSheet(node, toLong).Ok? <==>
      && ParseHeader(node, toLong).Ok?
      && El(Some(node), "title").Some?
      && El(Some(node), "topic").Some?
      && ParseTopic(El(Some(node), "topic").value, toLong).Ok?
      && (El(Some(node), "relationships").Some? ==>
            forall i :: 0 <= i < |El(Some(node), "relationships").value.children| ==>
              ParseRelationship(El(Some(node), "relationships").value.children[i], toLong).Ok?)
  {
    var rels := El(Some(node), "relationships");
    if rels.Some? {
      var parsed := MapAll(rels.value.children, (n: Node) => ParseRelationship(n, toLong));
      assert parsed.Ok? <==> forall i :: 0 <= i < |rels.value.children| ==> ParseRelationship(rels.value.children[i], toLong).Ok?;
    }
  }
}
