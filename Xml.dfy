/** An abstraction of the libxml2 tree that the client configuration walks and rewrites.

    A node has a name, its own text and its children in document order.  Elements carry
    no text of their own; text nodes are named "text" (the name libxml2 gives them) and
    have no children.  A document is the list of its top-level nodes: `nodes[0]` is what
    libxml2 calls `doc->children`, the node the client inspects as the root. */
module Xml {
  import opened Wrappers

  datatype Node = Node(name: string, text: string, children: seq<Node>)

  datatype Document = Document(nodes: seq<Node>)

  function Element(name: string, children: seq<Node>): Node {
    Node(name, "", children)
  }

  function TextNode(s: string): Node {
    Node("text", s, [])
  }

  /** The text content of a node, as `xmlNodeGetContent` returns it: the node's own text
      followed by the content of its descendants, in document order. */
  function Content(n: Node): string
    decreases n
  {
    n.text + ContentOf(n.children)
  }

  function ContentOf(ns: seq<Node>): string
    decreases ns
  {
    if ns == [] then "" else Content(ns[0]) + ContentOf(ns[1..])
  }

  /** An element holding a single text node has that text as its content. */
  lemma TextElementContent(name: string, s: string)
    ensures Content(Element(name, [TextNode(s)])) == s
  {
    assert [TextNode(s)][1..] == [];
    assert Content(TextNode(s)) == s;
  }

  /** The content of each node of `ns`, in order: what a walk over a sibling list that
      reads every node's content collects. */
  function Contents(ns: seq<Node>): (r: seq<string>)
    ensures |r| == |ns|
    ensures forall i :: 0 <= i < |ns| ==> r[i] == Content(ns[i])
  {
    seq(|ns|, i requires 0 <= i < |ns| => Content(ns[i]))
  }

  /** The position of the first node of `ns` named `name`. */
  function FirstNamed(ns: seq<Node>, name: string): (r: Option<nat>)
    ensures r.Some? ==> r.value < |ns| && ns[r.value].name == name
    ensures r.Some? ==> forall i :: 0 <= i < r.value ==> ns[i].name != name
    ensures r.None? <==> forall i :: 0 <= i < |ns| ==> ns[i].name != name
  {
    if ns == [] then None
    else if ns[0].name == name then Some(0)
    else
      match FirstNamed(ns[1..], name)
      case None =>
        assert forall i :: 1 <= i < |ns| ==> ns[i] == ns[1..][i - 1];
        None
      case Some(k) =>
        assert forall i :: 1 <= i <= k ==> ns[i] == ns[1..][i - 1];
        Some(k + 1)
  }

  /** The position of the last node of `ns` named `name`. */
  function LastNamed(ns: seq<Node>, name: string): (r: Option<nat>)
    ensures r.Some? ==> r.value < |ns| && ns[r.value].name == name
    ensures r.Some? ==> forall i :: r.value < i < |ns| ==> ns[i].name != name
    ensures r.None? <==> forall i :: 0 <= i < |ns| ==> ns[i].name != name
  {
    if ns == [] then None
    else if ns[|ns| - 1].name == name then Some(|ns| - 1)
    else LastNamed(ns[..|ns| - 1], name)
  }

  /** `ns` without its first node named `name` (unchanged when there is none). */
  function RemoveFirstNamed(ns: seq<Node>, name: string): seq<Node>
  {
    match FirstNamed(ns, name)
    case None => ns
    case Some(k) => ns[..k] + ns[k + 1..]
  }

  /** The nodes of `ns`, in order, whose name is `name` (when `keep`) or is not (otherwise). */
  function Filter(ns: seq<Node>, name: string, keep: bool): seq<Node>
  {
    if ns == [] then []
    else Filter(ns[..|ns| - 1], name, keep) + (if (ns[|ns| - 1].name == name) == keep then [ns[|ns| - 1]] else [])
  }

  function CountNamed(ns: seq<Node>, name: string): nat {
    |Filter(ns, name, true)|
  }

  lemma {:induction false} FilterAppend(a: seq<Node>, b: seq<Node>, name: string, keep: bool)
    ensures Filter(a + b, name, keep) == Filter(a, name, keep) + Filter(b, name, keep)
    decreases |b|
  {
    if b == [] {
      assert a + b == a;
    } else {
      var b' := b[..|b| - 1];
      assert (a + b)[..|a + b| - 1] == a + b';
      FilterAppend(a, b', name, keep);
    }
  }

  /** Filtering keeps exactly the nodes with the right name, in order: there are none
      when no node qualifies, and removing one named node drops exactly that node. */
  lemma {:induction false} FilterNone(ns: seq<Node>, name: string)
    requires forall i :: 0 <= i < |ns| ==> ns[i].name != name
    ensures Filter(ns, name, true) == []
    ensures Filter(ns, name, false) == ns
    decreases |ns|
  {
    if ns != [] {
      FilterNone(ns[..|ns| - 1], name);
    }
  }

  lemma FilterSingle(n: Node, name: string, keep: bool)
    ensures Filter([n], name, keep) == if (n.name == name) == keep then [n] else []
  {
  }

  /** Filtering `a + [x] + b` with a node `x` named `name` cut out of the middle. */
  lemma FilterCut(a: seq<Node>, x: Node, b: seq<Node>, name: string)
    requires x.name == name
    ensures Filter(a + [x] + b, name, false) == Filter(a + b, name, false)
    ensures Filter(a + [x] + b, name, true) == Filter(a, name, true) + [x] + Filter(b, name, true)
    ensures Filter(a + b, name, true) == Filter(a, name, true) + Filter(b, name, true)
  {
    forall keep: bool
      ensures Filter(a + [x] + b, name, keep) == Filter(a, name, keep) + Filter([x], name, keep) + Filter(b, name, keep)
      ensures Filter(a + b, name, keep) == Filter(a, name, keep) + Filter(b, name, keep)
    {
      FilterAppend(a + [x], b, name, keep);
      FilterAppend(a, [x], name, keep);
      FilterAppend(a, b, name, keep);
    }
    FilterSingle(x, name, true);
    FilterSingle(x, name, false);
  }

  /** Removing the first node named `name` takes exactly one node of that name away
      (if there is one) and leaves the nodes of every other name as they were, in order. */
  lemma RemoveFirstNamedFilters(ns: seq<Node>, name: string)
    ensures Filter(RemoveFirstNamed(ns, name), name, false) == Filter(ns, name, false)
    ensures CountNamed(RemoveFirstNamed(ns, name), name)
            == if CountNamed(ns, name) == 0 then 0 else CountNamed(ns, name) - 1
    ensures CountNamed(ns, name) == 0 <==> FirstNamed(ns, name).None?
  {
    var first := FirstNamed(ns, name);
    if first.None? {
      FilterNone(ns, name);
    } else {
      var k := first.value;
      var a, x, b := ns[..k], ns[k], ns[k + 1..];
      assert ns == a + [x] + b;
      assert RemoveFirstNamed(ns, name) == a + b;
      FilterCut(a, x, b, name);
    }
  }

  /** With no node named `name` before `x`, the named nodes of `a + b` are those of
      `a + [x] + b` but the first, which is `x`. */
  lemma FilterFirstCut(a: seq<Node>, x: Node, b: seq<Node>, name: string)
    requires x.name == name && Filter(a, name, true) == []
    ensures Filter(a + [x] + b, name, true) == [x] + Filter(a + b, name, true)
  {
    FilterCut(a, x, b, name);
    var rest := Filter(b, name, true);
    assert Filter(a + [x] + b, name, true) == [] + [x] + rest;
    assert Filter(a + b, name, true) == [] + rest;
  }

  /** The nodes named `name` left after removing the first one are the old ones but the first. */
  lemma RemoveFirstNamedDropsFirst(ns: seq<Node>, name: string)
    ensures Filter(RemoveFirstNamed(ns, name), name, true)
            == if CountNamed(ns, name) == 0 then [] else Filter(ns, name, true)[1..]
  {
    var first := FirstNamed(ns, name);
    if first.None? {
      FilterNone(ns, name);
    } else {
      var k := first.value;
      var a, x, b := ns[..k], ns[k], ns[k + 1..];
      assert ns == a + [x] + b;
      assert RemoveFirstNamed(ns, name) == a + b;
      assert forall i :: 0 <= i < |a| ==> a[i].name != name;
      FilterNone(a, name);
      FilterFirstCut(a, x, b, name);
    }
  }

  /** The concatenation of `f(n)` over the nodes `n` of `ns`, in document order: what a walk
      over a sibling list produces when each node contributes `f(n)` to a log. */
  function FlatMap<T>(ns: seq<Node>, f: Node -> seq<T>): seq<T>
  {
    if ns == [] then [] else FlatMap(ns[..|ns| - 1], f) + f(ns[|ns| - 1])
  }

  /** Walking two consecutive runs of siblings logs the first run's entries, then the second's. */
  lemma {:induction false} FlatMapAppend<T>(a: seq<Node>, b: seq<Node>, f: Node -> seq<T>)
    ensures FlatMap(a + b, f) == FlatMap(a, f) + FlatMap(b, f)
    decreases |b|
  {
    if b == [] {
      assert a + b == a;
    } else {
      var b' := b[..|b| - 1];
      assert (a + b)[..|a + b| - 1] == a + b';
      FlatMapAppend(a, b', f);
    }
  }
}
