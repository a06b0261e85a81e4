/** What a later load sees of what store wrote. */
module ConfigRoundTrip {
  import opened Wrappers
  import opened Xml
  import opened ClientDocument
  import opened ConfigLoad
  import opened ConfigStore

  /** Loading the document that store wrote gives back exactly the stored sequence of
      capabilities, whatever `capabilities` elements were there before: the appended
      element is the last `capabilities` child and the last one wins.  Only a root that
      is not `netconf-client`, which store leaves alone, loads the defaults instead. */
  lemma LoadAfterStore(existing: Option<Document>, caps: seq<string>, defaults: seq<string>)
    ensures LoadedCapabilities(Some(StoredDocument(existing, caps)), defaults)
            == if existing.Some? && !HasClientRoot(existing.value) then defaults else caps
  {
  }

  /** A walk that logs nothing for the removed node logs the same with or without it. */
  lemma FlatMapWithout<T>(ns: seq<Node>, k: nat, f: Node -> seq<T>)
    requires k < |ns| && f(ns[k]) == []
    ensures FlatMap(ns[..k] + ns[k + 1..], f) == FlatMap(ns, f)
  {
    var a, b, x := ns[..k], ns[k + 1..], ns[k];
    assert ns == (a + [x]) + b;
    assert FlatMap([x], f) == [] by {
      assert [x][..0] == [];
    }
    calc {
      FlatMap(ns, f);
      { FlatMapAppend(a + [x], b, f); }
      FlatMap(a + [x], f) + FlatMap(b, f);
      { FlatMapAppend(a, [x], f); }
      FlatMap(a, f) + FlatMap(b, f);
      { FlatMapAppend(a, b, f); }
      FlatMap(a + b, f);
    }
  }

  /** Store touches only `capabilities` elements, so the authentication settings a later
      load forwards are the ones the document held before the store. */
  lemma StoreKeepsAuthentication(existing: Option<Document>, caps: seq<string>)
    ensures LoadEvents(Some(StoredDocument(existing, caps))) == LoadEvents(existing)
  {
    var before := StartingDocument(existing);
    if HasClientRoot(before) {
      var ch := before.nodes[0].children;
      var rest := RemoveFirstNamed(ch, CapabilitiesName);
      var c := CapabilitiesNode(caps);
      FlatMapAppend(rest, [c], RootEvent);
      assert [c][..0] == [];
      assert FlatMap([c], RootEvent) == [];
      match FirstNamed(ch, CapabilitiesName)
      case None =>
      case Some(k) => FlatMapWithout(ch, k, RootEvent);
    }
  }
}
