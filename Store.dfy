/** `store_config`: writing the capability collection back into the configuration
    document.

    The document read from disk is a parameter (None when config.xml is not readable
    and writable or does not parse); the result is the document handed to the
    serializer.  The configuration directory is taken to be usable: when it is not,
    the program returns before any document is built.  Only the
    `capabilities` part is rewritten; everything else under the root, and the root
    itself when it is not `netconf-client`, is kept as read. */
module ConfigStore {
  import opened Wrappers
  import opened Xml
  import opened ClientDocument

  const CapabilityName := "capability"

  /** `xmlNewChild(config_caps, NULL, "capability", cap)`: an element holding the text. */
  function CapabilityNode(cap: string): Node {
    Element(CapabilityName, [TextNode(cap)])
  }

  /** The `capabilities` element store appends: one `capability` per capability, in the
      collection's iteration order. */
  function CapabilitiesNode(caps: seq<string>): (r: Node)
    ensures r.name == CapabilitiesName && Contents(r.children) == caps
  {
    var entries := seq(|caps|, i requires 0 <= i < |caps| => CapabilityNode(caps[i]));
    assert forall i :: 0 <= i < |caps| ==> Content(entries[i]) == caps[i] by {
      forall i | 0 <= i < |caps| ensures Content(entries[i]) == caps[i] {
        TextElementContent(CapabilityName, caps[i]);
      }
    }
    Element(CapabilitiesName, entries)
  }

  /** The document store starts from when there is no readable one: a lone
      `netconf-client` root without children. */
  function FreshDocument(): Document {
    Document([Element(RootName, [])])
  }

  /** The root's children after the rewrite: the first `capabilities` child removed, the
      new one appended last. */
  function RewrittenChildren(ch: seq<Node>, caps: seq<string>): seq<Node> {
    RemoveFirstNamed(ch, CapabilitiesName) + [CapabilitiesNode(caps)]
  }

  /** The document store works on: the one read, or a fresh one. */
  function StartingDocument(existing: Option<Document>): Document {
    if existing.Some? then existing.value else FreshDocument()
  }

  /** The document `store_config` writes. */
  function StoredDocument(existing: Option<Document>, caps: seq<string>): Document {
    var doc := StartingDocument(existing);
    if HasClientRoot(doc) then
      var root := doc.nodes[0];
      Document([root.(children := RewrittenChildren(root.children, caps))] + doc.nodes[1..])
    else doc
  }

  /** The tree rewrite of `store_config`: find the first `capabilities` child, unlink it,
      append a fresh `capabilities` child and fill it with one `capability` per
      capability. */
  method StoreConfig(existing: Option<Document>, caps: seq<string>) returns (doc: Document)
    ensures doc == StoredDocument(existing, caps)
  {
    if existing.None? {
      doc := FreshDocument();
    } else {
      doc := existing.value;
    }
    if HasClientRoot(doc) {
      var root := doc.nodes[0];
      var children := root.children;
      var k := 0;
      while k < |children| && children[k].name != CapabilitiesName
        invariant 0 <= k <= |children|
        invariant forall i :: 0 <= i < k ==> children[i].name != CapabilitiesName
      {
        k := k + 1;
      }
      assert k < |children| ==> FirstNamed(children, CapabilitiesName) == Some(k);
      assert k == |children| ==> FirstNamed(children, CapabilitiesName) == None;
      if k < |children| {
        children := children[..k] + children[k + 1..];
      }
      var entries: seq<Node> := [];
      var i := 0;
      while i < |caps|
        invariant 0 <= i <= |caps|
        invariant |entries| == i
        invariant forall j :: 0 <= j < i ==> entries[j] == CapabilityNode(caps[j])
      {
        entries := entries + [CapabilityNode(caps[i])];
        i := i + 1;
      }
      assert Element(CapabilitiesName, entries) == CapabilitiesNode(caps);
      children := children + [Element(CapabilitiesName, entries)];
      doc := Document([root.(children := children)] + doc.nodes[1..]);
    }
  }

  /** The rewritten children are the old ones with the first `capabilities` child cut
      out, followed by the new `capabilities` element: every child not named
      `capabilities` keeps its order, the `capabilities` children are the old ones but
      the first, then the new one (so their number is kept, or is one if there were
      none). */
  lemma RewrittenChildrenShape(ch: seq<Node>, caps: seq<string>)
    ensures var ch' := RewrittenChildren(ch, caps);
            && |ch'| > 0 && ch'[|ch'| - 1] == CapabilitiesNode(caps)
            && ch'[..|ch'| - 1] == match FirstNamed(ch, CapabilitiesName)
                                   case None => ch
                                   case Some(k) => ch[..k] + ch[k + 1..]
    ensures Filter(RewrittenChildren(ch, caps), CapabilitiesName, false) == Filter(ch, CapabilitiesName, false)
    ensures Filter(RewrittenChildren(ch, caps), CapabilitiesName, true)
            == (if CountNamed(ch, CapabilitiesName) == 0 then [] else Filter(ch, CapabilitiesName, true)[1..])
               + [CapabilitiesNode(caps)]
    ensures CountNamed(RewrittenChildren(ch, caps), CapabilitiesName)
            == if CountNamed(ch, CapabilitiesName) == 0 then 1 else CountNamed(ch, CapabilitiesName)
  {
    var rest := RemoveFirstNamed(ch, CapabilitiesName);
    var c := CapabilitiesNode(caps);
    RemoveFirstNamedFilters(ch, CapabilitiesName);
    RemoveFirstNamedDropsFirst(ch, CapabilitiesName);
    FilterAppend(rest, [c], CapabilitiesName, false);
    FilterAppend(rest, [c], CapabilitiesName, true);
    FilterSingle(c, CapabilitiesName, false);
    FilterSingle(c, CapabilitiesName, true);
  }

  /** What store does to the document: an unrecognised root is written back unchanged;
      otherwise the result still has the `netconf-client` root and the same top-level
      nodes after it, the root keeps every child not named `capabilities` in its
      relative order, loses only its first `capabilities` child, and gains exactly one
      new `capabilities` child, placed last. */
  lemma StoreShape(existing: Option<Document>, caps: seq<string>)
    ensures existing.None? ==> StartingDocument(existing) == FreshDocument()
    ensures !HasClientRoot(StartingDocument(existing)) ==> StoredDocument(existing, caps) == existing.value
    ensures HasClientRoot(StartingDocument(existing)) ==>
              var before := StartingDocument(existing);
              var after := StoredDocument(existing, caps);
              var ch := before.nodes[0].children;
              var ch' := after.nodes[0].children;
              && HasClientRoot(after)
              && after.nodes[1..] == before.nodes[1..]
              && after.nodes[0].text == before.nodes[0].text
              && ch'[..|ch'| - 1] == (match FirstNamed(ch, CapabilitiesName)
                                      case None => ch
                                      case Some(k) => ch[..k] + ch[k + 1..])
              && Filter(ch', CapabilitiesName, false) == Filter(ch, CapabilitiesName, false)
              && Filter(ch', CapabilitiesName, true)
                 == (if CountNamed(ch, CapabilitiesName) == 0 then [] else Filter(ch, CapabilitiesName, true)[1..])
                    + [CapabilitiesNode(caps)]
              && CountNamed(ch', CapabilitiesName) == (if CountNamed(ch, CapabilitiesName) == 0 then 1 else CountNamed(ch, CapabilitiesName))
              && ch'[|ch'| - 1] == CapabilitiesNode(caps)
  {
    var before := StartingDocument(existing);
    if HasClientRoot(before) {
      RewrittenChildrenShape(before.nodes[0].children, caps);
    }
  }

  /** Whether a second store with the same capabilities leaves the root's children `ch`
      as the first left them: true when, after the first `capabilities` child is
      removed, there is no other one, or every child from the next `capabilities` child
      onward already is the element store appends. */
  predicate StableUnderStore(ch: seq<Node>, caps: seq<string>) {
    var rest := RemoveFirstNamed(ch, CapabilitiesName);
    match FirstNamed(rest, CapabilitiesName)
    case None => true
    case Some(j) => forall m :: j <= m < |rest| ==> rest[m] == CapabilitiesNode(caps)
  }

  /** A sequence that shifts onto itself from `j` on, ending in `c`, is all `c` from `j` on. */
  lemma {:induction false} ShiftedConstant(s: seq<Node>, j: nat, c: Node)
    requires j < |s| && s[|s| - 1] == c
    requires forall m :: j <= m < |s| - 1 ==> s[m] == s[m + 1]
    ensures forall m :: j <= m < |s| ==> s[m] == c
    decreases |s| - j
  {
    if j < |s| - 1 {
      ShiftedConstant(s, j + 1, c);
      assert s[j] == s[j + 1];
    }
  }

  /** Appending a node named `name` does not move the first such node, if there is one. */
  lemma FirstNamedAfterAppend(rest: seq<Node>, c: Node, name: string)
    requires c.name == name
    ensures FirstNamed(rest + [c], name) == match FirstNamed(rest, name) case None => Some(|rest|) case Some(j) => Some(j)
  {
    assert forall i :: 0 <= i < |rest| ==> (rest + [c])[i] == rest[i];
    assert (rest + [c])[|rest|].name == name;
  }

  /** Removing position `j` of `rest + [c]` gives `rest` back exactly when `rest` is made
      of `c` from `j` on. */
  lemma DropShift(rest: seq<Node>, c: Node, j: nat)
    requires j < |rest|
    ensures rest[..j] + rest[j + 1..] + [c] == rest <==> forall m :: j <= m < |rest| ==> rest[m] == c
  {
    var r := rest[..j] + rest[j + 1..] + [c];
    assert |r| == |rest|;
    assert forall m :: j <= m < |rest| - 1 ==> r[m] == rest[m + 1];
    assert r[|r| - 1] == c;
    if r == rest {
      ShiftedConstant(rest, j, c);
    }
    if forall m :: j <= m < |rest| ==> rest[m] == c {
      forall m | 0 <= m < |rest| ensures r[m] == rest[m] {
        if m < j {
          assert r[m] == rest[m];
        }
      }
    }
  }

  /** Appending a node named `name` to `rest` and then removing the first node named
      `name` gives `rest` back exactly when `rest` has no such node, or is made of `c`
      from its first such node on. */
  lemma RemoveFirstAfterAppend(rest: seq<Node>, c: Node, name: string)
    requires c.name == name
    ensures FirstNamed(rest, name).None? ==> RemoveFirstNamed(rest + [c], name) == rest
    ensures FirstNamed(rest, name).Some? ==>
              (RemoveFirstNamed(rest + [c], name) == rest <==>
               forall m :: FirstNamed(rest, name).value <= m < |rest| ==> rest[m] == c)
  {
    FirstNamedAfterAppend(rest, c, name);
    var first := FirstNamed(rest, name);
    if first.None? {
      assert (rest + [c])[..|rest|] == rest;
    } else {
      var j := first.value;
      assert RemoveFirstNamed(rest + [c], name) == (rest + [c])[..j] + (rest + [c])[j + 1..];
      assert (rest + [c])[..j] == rest[..j];
      assert (rest + [c])[j + 1..] == rest[j + 1..] + [c];
      DropShift(rest, c, j);
    }
  }

  /** Storing twice with the same capabilities gives what storing once gives exactly
      when the document is fresh, its root is not `netconf-client`, or the root's
      children are stable under store. */
  lemma StoreTwice(existing: Option<Document>, caps: seq<string>)
    ensures StoredDocument(Some(StoredDocument(existing, caps)), caps) == StoredDocument(existing, caps)
            <==> existing.None? || !HasClientRoot(existing.value) || StableUnderStore(existing.value.nodes[0].children, caps)
  {
    var before := StartingDocument(existing);
    if HasClientRoot(before) {
      var ch := before.nodes[0].children;
      var c := CapabilitiesNode(caps);
      var rest := RemoveFirstNamed(ch, CapabilitiesName);
      var once := StoredDocument(existing, caps);
      var twice := StoredDocument(Some(once), caps);
      assert once.nodes[0].children == rest + [c];
      assert twice.nodes[0].children == RemoveFirstNamed(rest + [c], CapabilitiesName) + [c];
      assert twice == once <==> RemoveFirstNamed(rest + [c], CapabilitiesName) == rest by {
        if twice == once {
          assert twice.nodes[0].children == once.nodes[0].children;
          var a, b := RemoveFirstNamed(rest + [c], CapabilitiesName), rest;
          assert a + [c] == b + [c];
          assert a == (a + [c])[..|a|] && b == (b + [c])[..|b|];
        }
      }
      RemoveFirstAfterAppend(rest, c, CapabilitiesName);
      if existing.None? {
        assert rest == [];
      }
    }
  }

  /** A root with at most one `capabilities` child is a fixed point of store after one
      application. */
  lemma StoreIdempotent(existing: Option<Document>, caps: seq<string>)
    requires existing.Some? && HasClientRoot(existing.value) ==> CountNamed(existing.value.nodes[0].children, CapabilitiesName) <= 1
    ensures StoredDocument(Some(StoredDocument(existing, caps)), caps) == StoredDocument(existing, caps)
  {
    if existing.Some? && HasClientRoot(existing.value) {
      var ch := existing.value.nodes[0].children;
      RemoveFirstNamedFilters(ch, CapabilitiesName);
      RemoveFirstNamedFilters(RemoveFirstNamed(ch, CapabilitiesName), CapabilitiesName);
    }
    StoreTwice(existing, caps);
  }
}
