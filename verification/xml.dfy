/** The query layer over a parsed XML document: a node tree, first-match
    search and mapping over a node's children, and `el`/`text` lookups that
    pass `null` through. */
module Xml {
  import opened Wrappers
  import opened Strings

  /** One DOM node. `name` is the node name (`#text` for text nodes),
      `attrs` its attributes (empty for non-elements), `children` its child
      nodes in document order, `text` its text content as parsed. */
  datatype Node = Node(name: string, attrs: map<string, string>, children: seq<Node>, text: string)

  /** The node an attribute lookup yields: named after the attribute, with
      the attribute's value as its text. */
  function AttributeNode(name: string, value: string): Node {
    Node(name, map[], [], value)
  }

  /** `i` is the lowest index whose element satisfies `p`. */
  ghost predicate IsFirstMatch<T>(s: seq<T>, p: T -> bool, i: int) {
    0 <= i < |s| && p(s[i]) && forall j :: 0 <= j < i ==> !p(s[j])
  }

  /** `find`: the first element satisfying `p`, or `null`. */
  function Find<T>(s: seq<T>, p: T -> bool): (r: Option<T>)
    ensures r.None? <==> forall i :: 0 <= i < |s| ==> !p(s[i])
    ensures r.Some? ==> exists i :: IsFirstMatch(s, p, i) && s[i] == r.value
    decreases |s|
  {
    if |s| == 0 then None
    else if p(s[0]) then
      assert IsFirstMatch(s, p, 0);
      Some(s[0])
    else
      var r := Find(s[1..], p);
      assert r.Some? ==> exists i :: IsFirstMatch(s, p, i) && s[i] == r.value by {
        if r.Some? {
          var i :| IsFirstMatch(s[1..], p, i) && s[1..][i] == r.value;
          assert IsFirstMatch(s, p, i + 1);
        }
      }
      r
  }

  /** `map` over a node list: one result per node, in order. */
  function MapNodes<T>(ns: seq<Node>, action: Node -> T): (r: seq<T>)
    ensures |r| == |ns|
    ensures forall i :: 0 <= i < |ns| ==> r[i] == action(ns[i])
    decreases |ns|
  {
    if |ns| == 0 then [] else [action(ns[0])] + MapNodes(ns[1..], action)
  }

  /** `node.el(path)`: with a leading `@`, the attribute named by the rest of
      `path`; otherwise the first child named `path`. `null` in, `null` out. */
  function El(n: Option<Node>, path: string): (r: Option<Node>)
    ensures n.None? ==> r.None?
    ensures n.Some? && StartsWith(path, "@") ==>
      (r.Some? <==> path[1..] in n.value.attrs) &&
      (r.Some? ==> r.value == AttributeNode(path[1..], n.value.attrs[path[1..]]))
    ensures n.Some? && !StartsWith(path, "@") ==>
      (r.None? <==> forall i :: 0 <= i < |n.value.children| ==> n.value.children[i].name != path)
    ensures n.Some? && !StartsWith(path, "@") && r.Some? ==>
      exists i :: IsFirstMatch(n.value.children, (c: Node) => c.name == path, i) && n.value.children[i] == r.value
  {
    if n.None? then None
    else if StartsWith(path, "@") then
      var key := RemovePrefix(path, "@");
      if key in n.value.attrs then Some(AttributeNode(key, n.value.attrs[key])) else None
    else
      Find(n.value.children, (c: Node) => c.name == path)
  }

  /** A child lookup returns one of the node's own children. */
  lemma ChildLookupIsChild(n: Node, path: string)
    requires !StartsWith(path, "@")
    ensures El(Some(n), path).Some? ==> El(Some(n), path).value in n.children
  {
  }

  /** An attribute lookup never looks at the children. */
  lemma AttributeLookupIgnoresChildren(n: Node, kids: seq<Node>, path: string)
    requires StartsWith(path, "@")
    ensures El(Some(n), path) == El(Some(n.(children := kids)), path)
  {
  }

  /** `node.text`: the text content, `null` exactly for a `null` node. */
  function Text(n: Option<Node>): (r: Option<string>)
    ensures r.None? <==> n.None?
    ensures r.Some? ==> r.value == n.value.text
  {
    if n.None? then None else Some(n.value.text)
  }
}
