/** `load_config`: distributing a parsed configuration document into the session.

    The capability collection is modelled as the sequence of strings added to it (the
    collection library is not visible, so no deduplication is assumed).  The calls into
    the SSH layer, `nc_ssh_pref` and `nc_set_keypair_path`, are modelled as a log of
    events in the order they are made. */
module ConfigLoad {
  import opened Wrappers
  import opened Xml
  import opened CLib
  import opened ClientDocument

  /** NC_SSH_AUTH_PUBLIC_KEYS, NC_SSH_AUTH_INTERACTIVE, NC_SSH_AUTH_PASSWORD */
  datatype AuthMethod = PublicKeys | Interactive | Password

  datatype Event =
    | SshPref(auth: AuthMethod, priority: int)
    | SetKeypairPath(privateKey: string, publicKey: string)

  const AuthenticationName := "authentication"
  const PrefName := "pref"
  const KeysName := "keys"
  const KeyPathName := "key-path"
  const PublicKeySuffix := ".pub"

  /** The authentication method an element of `pref` is named after, if any. */
  function MethodNamed(name: string): Option<AuthMethod> {
    if name == "publickey" then Some(PublicKeys)
    else if name == "interactive" then Some(Interactive)
    else if name == "password" then Some(Password)
    else None
  }

  /** What one child of `pref` forwards. */
  function PrefEvent(n: Node): seq<Event> {
    match MethodNamed(n.name)
    case Some(m) => [SshPref(m, Atoi(Content(n)))]
    case None => []
  }

  /** What one child of `keys` registers. */
  function KeyEvent(n: Node): seq<Event> {
    if n.name == KeyPathName then [SetKeypairPath(Content(n), Content(n) + PublicKeySuffix)] else []
  }

  /** What one child of `authentication` forwards. */
  function AuthEvent(n: Node): seq<Event> {
    if n.name == PrefName then FlatMap(n.children, PrefEvent)
    else if n.name == KeysName then FlatMap(n.children, KeyEvent)
    else []
  }

  /** What one child of the root forwards to the SSH layer. */
  function RootEvent(n: Node): seq<Event> {
    if n.name == CapabilitiesName then []
    else if n.name == AuthenticationName then FlatMap(n.children, AuthEvent)
    else []
  }

  /** The capability collection after walking the root's children `ch`, starting from
      `initial`: the contents of the children of the last `capabilities` element, or
      `initial` when there is none. */
  function CapabilitiesAfter(ch: seq<Node>, initial: seq<string>): seq<string> {
    match LastNamed(ch, CapabilitiesName)
    case None => initial
    case Some(k) => Contents(ch[k].children)
  }

  /** The capability collection load leaves behind.  `doc` is None when the directory or
      the file cannot be accessed or the file does not parse. */
  function LoadedCapabilities(doc: Option<Document>, defaults: seq<string>): seq<string> {
    if doc.Some? && HasClientRoot(doc.value) then CapabilitiesAfter(doc.value.nodes[0].children, defaults)
    else defaults
  }

  /** The calls load makes into the SSH layer, in order. */
  function LoadEvents(doc: Option<Document>): seq<Event> {
    if doc.Some? && HasClientRoot(doc.value) then FlatMap(doc.value.nodes[0].children, RootEvent)
    else []
  }

  /** The key pair in effect after a log of calls: the one registered last. */
  function KeypairInEffect(events: seq<Event>): Option<(string, string)> {
    if events == [] then None
    else
      var e := events[|events| - 1];
      if e.SetKeypairPath? then Some((e.privateKey, e.publicKey)) else KeypairInEffect(events[..|events| - 1])
  }

  /** The walk over the children of one `capabilities` element: one capability per
      child, whatever its name, holding the child's text content, in document order. */
  method CollectCapabilities(ns: seq<Node>) returns (caps: seq<string>)
    ensures caps == Contents(ns)
  {
    caps := [];
    var i := 0;
    while i < |ns|
      invariant 0 <= i <= |ns|
      invariant caps == Contents(ns[..i])
    {
      var cap := Content(ns[i]);
      caps := caps + [cap];
      i := i + 1;
    }
  }

  /** The walk over the children of one `pref` element. */
  method ForwardPreferences(ns: seq<Node>) returns (events: seq<Event>)
    ensures events == FlatMap(ns, PrefEvent)
  {
    events := [];
    var i := 0;
    while i < |ns|
      invariant 0 <= i <= |ns|
      invariant events == FlatMap(ns[..i], PrefEvent)
    {
      var prio := Content(ns[i]);
      if ns[i].name == "publickey" {
        events := events + [SshPref(PublicKeys, Atoi(prio))];
      } else if ns[i].name == "interactive" {
        events := events + [SshPref(Interactive, Atoi(prio))];
      } else if ns[i].name == "password" {
        events := events + [SshPref(Password, Atoi(prio))];
      }
      assert ns[..i + 1][..i] == ns[..i];
      i := i + 1;
    }
    assert ns[..i] == ns;
  }

  /** The walk over the children of one `keys` element. */
  method RegisterKeys(ns: seq<Node>) returns (events: seq<Event>)
    ensures events == FlatMap(ns, KeyEvent)
  {
    events := [];
    var i := 0;
    while i < |ns|
      invariant 0 <= i <= |ns|
      invariant events == FlatMap(ns[..i], KeyEvent)
    {
      if ns[i].name == KeyPathName {
        var keyPriv := Content(ns[i]);
        var keyPub := keyPriv + PublicKeySuffix;
        events := events + [SetKeypairPath(keyPriv, keyPub)];
      }
      assert ns[..i + 1][..i] == ns[..i];
      i := i + 1;
    }
    assert ns[..i] == ns;
  }

  /** The walk over the children of one `authentication` element. */
  method WalkAuthentication(ns: seq<Node>) returns (events: seq<Event>)
    ensures events == FlatMap(ns, AuthEvent)
  {
    events := [];
    var i := 0;
    while i < |ns|
      invariant 0 <= i <= |ns|
      invariant events == FlatMap(ns[..i], AuthEvent)
    {
      if ns[i].name == PrefName {
        var forwarded := ForwardPreferences(ns[i].children);
        events := events + forwarded;
      } else if ns[i].name == KeysName {
        var registered := RegisterKeys(ns[i].children);
        events := events + registered;
      }
      assert ns[..i + 1][..i] == ns[..i];
      i := i + 1;
    }
    assert ns[..i] == ns;
  }

  /** The document walk of `load_config`: starts from the default capabilities, and when
      the root is `netconf-client` visits its children in order, letting each
      `capabilities` element replace the collection and each `authentication` element
      forward its settings. */
  method LoadConfig(doc: Option<Document>, defaults: seq<string>) returns (caps: seq<string>, events: seq<Event>)
    ensures caps == LoadedCapabilities(doc, defaults)
    ensures events == LoadEvents(doc)
  {
    caps := defaults;
    events := [];
    if doc.Some? && HasClientRoot(doc.value) {
      var ch := doc.value.nodes[0].children;
      var i := 0;
      while i < |ch|
        invariant 0 <= i <= |ch|
        invariant caps == CapabilitiesAfter(ch[..i], defaults)
        invariant events == FlatMap(ch[..i], RootEvent)
      {
        if ch[i].name == CapabilitiesName {
          caps := CollectCapabilities(ch[i].children);
        } else if ch[i].name == AuthenticationName {
          var forwarded := WalkAuthentication(ch[i].children);
          events := events + forwarded;
        }
        assert ch[..i + 1][..i] == ch[..i];
        i := i + 1;
      }
      assert ch[..i] == ch;
    }
  }

  /** The default capabilities stand when there is nothing to replace them: no readable
      document, a root that is not `netconf-client`, or no `capabilities` child. */
  lemma DefaultsStand(doc: Option<Document>, defaults: seq<string>)
    requires doc.Some? && HasClientRoot(doc.value) ==>
               forall i :: 0 <= i < |doc.value.nodes[0].children| ==> doc.value.nodes[0].children[i].name != CapabilitiesName
    ensures LoadedCapabilities(doc, defaults) == defaults
    ensures doc.None? || !HasClientRoot(doc.value) ==> LoadEvents(doc) == []
  {
  }

  /** Walking siblings in two runs: the collection seen after the second run is what the
      second run makes of whatever the first left, so a later `capabilities` element
      always overrides an earlier one and the last one wins. */
  lemma {:induction false} CapabilitiesAfterAppend(a: seq<Node>, b: seq<Node>, initial: seq<string>)
    ensures CapabilitiesAfter(a + b, initial) == CapabilitiesAfter(b, CapabilitiesAfter(a, initial))
    decreases |b|
  {
    if b == [] {
      assert a + b == a;
    } else {
      var b' := b[..|b| - 1];
      assert (a + b)[..|a + b| - 1] == a + b';
      assert (a + b)[|a + b| - 1] == b[|b| - 1];
      CapabilitiesAfterAppend(a, b', initial);
      if b[|b| - 1].name != CapabilitiesName {
        match LastNamed(a + b', CapabilitiesName)
        case None =>
        case Some(k) => assert (a + b)[k] == (a + b')[k];
        match LastNamed(b', CapabilitiesName)
        case None =>
        case Some(k) => assert b[k] == b'[k];
      }
    }
  }

  /** Each child of `pref` named after a method forwards exactly one preference and every
      other child forwards nothing. */
  lemma {:induction false} PrefEventsCount(ns: seq<Node>)
    ensures |FlatMap(ns, PrefEvent)| == CountNamed(ns, "publickey") + CountNamed(ns, "interactive") + CountNamed(ns, "password")
    ensures forall e :: e in FlatMap(ns, PrefEvent) ==> e.SshPref?
    decreases |ns|
  {
    if ns != [] {
      PrefEventsCount(ns[..|ns| - 1]);
    }
  }

  /** Each `key-path` child of `keys` registers exactly one pair, the content p and
      p + ".pub"; other children register nothing; the pair in effect afterwards is the
      one from the last `key-path`. */
  lemma {:induction false} KeyPathInEffect(ns: seq<Node>)
    ensures |FlatMap(ns, KeyEvent)| == CountNamed(ns, KeyPathName)
    ensures forall e :: e in FlatMap(ns, KeyEvent) ==> e.SetKeypairPath? && e.publicKey == e.privateKey + PublicKeySuffix
    ensures KeypairInEffect(FlatMap(ns, KeyEvent)) ==
              match LastNamed(ns, KeyPathName)
              case None => None
              case Some(k) => Some((Content(ns[k]), Content(ns[k]) + PublicKeySuffix))
    decreases |ns|
  {
    if ns != [] {
      var ns' := ns[..|ns| - 1];
      KeyPathInEffect(ns');
      var log := FlatMap(ns, KeyEvent);
      if ns[|ns| - 1].name != KeyPathName {
        assert log == FlatMap(ns', KeyEvent);
        match LastNamed(ns', KeyPathName)
        case None =>
        case Some(k) => assert ns[k] == ns'[k];
      } else {
        assert log[|log| - 1] == KeyEvent(ns[|ns| - 1])[0];
      }
    }
  }

  /** A `pref` element with `publickey` 2, `password` 1 and an unknown `certificate` 3
      forwards (public key, 2) and then (password, 1), and nothing for `certificate`. */
  lemma PreferenceExample()
    ensures FlatMap([Element("publickey", [TextNode("2")]),
                     Element("password", [TextNode("1")]),
                     Element("certificate", [TextNode("3")])], PrefEvent)
            == [SshPref(PublicKeys, 2), SshPref(Password, 1)]
  {
    assert Signed(2) + [] == "2" && Signed(1) + [] == "1";
    AtoiSigned(2, []);
    AtoiSigned(1, []);
    TextElementContent("publickey", "2");
    TextElementContent("password", "1");
    var ns := [Element("publickey", [TextNode("2")]), Element("password", [TextNode("1")]), Element("certificate", [TextNode("3")])];
    assert ns[..2][..1] == ns[..1];
    assert ns[..1][..0] == [];
    assert PrefEvent(ns[0]) == [SshPref(PublicKeys, 2)];
    assert PrefEvent(ns[1]) == [SshPref(Password, 1)];
    assert PrefEvent(ns[2]) == [];
    assert FlatMap(ns[..1], PrefEvent) == [SshPref(PublicKeys, 2)];
    assert FlatMap(ns[..2], PrefEvent) == [SshPref(PublicKeys, 2), SshPref(Password, 1)];
    assert ns[..3] == ns;
  }

  /** Two `key-path` siblings: the pair from the second is the one in effect. */
  lemma KeyPathExample()
    ensures KeypairInEffect(FlatMap([Element(KeyPathName, [TextNode("/home/u/.ssh/id_rsa")]),
                                     Element(KeyPathName, [TextNode("/home/u/.ssh/id_dsa")])], KeyEvent))
            == Some(("/home/u/.ssh/id_dsa", "/home/u/.ssh/id_dsa.pub"))
  {
    var ns := [Element(KeyPathName, [TextNode("/home/u/.ssh/id_rsa")]), Element(KeyPathName, [TextNode("/home/u/.ssh/id_dsa")])];
    KeyPathInEffect(ns);
    assert LastNamed(ns, KeyPathName) == Some(1);
    TextElementContent(KeyPathName, "/home/u/.ssh/id_dsa");
    assert Content(ns[1]) == "/home/u/.ssh/id_dsa";
    assert "/home/u/.ssh/id_dsa" + PublicKeySuffix == "/home/u/.ssh/id_dsa.pub";
  }
}
