# libnetconf example client: configuration load and store

This project models the configuration synchronisation of the libnetconf example
NETCONF client (`examples/client/configuration.c`). At start-up `load_config`
reads `~/.netconf_client/config.xml` and distributes it into the session:

- the capability collection starts from the library defaults;
- each `capabilities` child of the `netconf-client` root replaces it;
- `authentication/pref` forwards method priorities to the SSH layer;
- `authentication/keys/key-path` registers key pairs.

At shutdown `store_config` rewrites the `capabilities` part of the same document
from the session's capabilities. When the file parses with a `netconf-client` root,
everything other than the first `capabilities` child is kept. An unreadable or
unparsable file is replaced by a fresh document, and a document with another root
is written back unchanged.

The XML document is a tree datatype (`Xml.Node`: name, own text, children). The
first top-level node is the one the client inspects as the root. libxml2's
`xmlNodeGetContent` is `Xml.Content`. The capability collection is the sequence of
strings added to it. The SSH calls `nc_ssh_pref` and `nc_set_keypair_path` become a
log of `ConfigLoad.Event`s. Each `while` loop of the C code is a Dafny method with
a loop. Each method is proved equal to a specification function, and lemmas state
what those functions mean: last-wins, document order, the load-after-store round
trip and when store is idempotent.

Modules: `Wrappers` (Option), `Xml` (the tree, content, sibling searches),
`CLib` (`atoi`, section 7.22.1.2 of ISO C11), `ConfigPaths` (the three paths),
`ClientDocument` (root and section names), `ConfigLoad`, `ConfigStore` and
`ConfigRoundTrip`.

Behaviour of the code that is easy to misread:

- Store removes only the FIRST `capabilities` child (lines 302-308), not every one.
  Other children of the root survive a store unchanged and in order.
- On load every `capabilities` child replaces the collection, so the last one wins
  (lines 159-169).
- The collection is not guaranteed to be non-empty after load: an empty
  `<capabilities/>` element leaves it empty.
- No deduplication is assumed when capabilities are added.
- Storing twice is not idempotent in general. `ConfigStore.StoreTwice` states the
  exact condition: at most one `capabilities` child, or, more generally, every
  child from the second `capabilities` child onward already equals the element
  store appends.

## Model

| member | source | states |
|---|---|---|
| `Xml.FirstNamed` | examples/client/configuration.c:301-304 | the search finds the first child with the name (none before it), or reports that no child has it |
| `Xml.LastNamed` | examples/client/configuration.c:158-170 | the position of the last child with a name (none after it), or none exactly when no child has it |
| `Xml.RemoveFirstNamedFilters` | examples/client/configuration.c:301-308 | unlinking the first match removes exactly one node of that name (if any) and keeps every other-named node in order |
| `Xml.RemoveFirstNamedDropsFirst` | examples/client/configuration.c:301-308 | the nodes of the name left after unlinking the first one are the old ones but the first, in order |
| `Xml.FlatMapAppend` | examples/client/configuration.c:158-214 | a sibling walk over two consecutive runs logs the first run's calls and then the second's: calls follow document order |
| `CLib.AtoiSigned` | examples/client/configuration.c:181-185 | atoi reads back any decimal integer, with optional '-', followed by text that does not start with a digit |
| `CLib.AtoiSkipsSpace` | examples/client/configuration.c:181-185 | leading white space does not change atoi's result |
| `CLib.NonNumericIsZero` | examples/client/configuration.c:181-185 | text with no digit where the number starts (after spaces and a sign) gives priority 0 |
| `ConfigPaths.FilesInDirectory` | examples/client/configuration.c:110-133 | the history file and config.xml are entries of the client directory and never the same path |
| `ConfigPaths.PathsDetermineHome` | examples/client/configuration.c:87-133 | the directory, history and config paths are equal for two homes exactly when the homes are equal |
| `ConfigLoad.CollectCapabilities` | examples/client/configuration.c:159-169 | a `capabilities` element yields one capability per child, whatever its name, equal to the child's content, in order |
| `ConfigLoad.ForwardPreferences` | examples/client/configuration.c:176-189 | the walk over `pref` forwards exactly the calls of the preference specification, in document order |
| `ConfigLoad.RegisterKeys` | examples/client/configuration.c:190-207 | the walk over `keys` registers exactly the pairs of the key specification, in document order |
| `ConfigLoad.WalkAuthentication` | examples/client/configuration.c:172-210 | the walk over `authentication` forwards the `pref` and `keys` calls of its children in order and ignores other children |
| `ConfigLoad.LoadConfig` | examples/client/configuration.c:80-216 | load yields the contents of the last `capabilities` child (defaults without one or without a `netconf-client` root) and the SSH calls in document order |
| `ConfigLoad.DefaultsStand` | examples/client/configuration.c:156-170 | without a readable document, with another root, or without a `capabilities` child, the default capabilities stand |
| `ConfigLoad.CapabilitiesAfterAppend` | examples/client/configuration.c:158-170 | a later `capabilities` element overrides everything before it, so the last one wins |
| `ConfigLoad.PrefEventsCount` | examples/client/configuration.c:176-189 | each `publickey`, `interactive` or `password` child forwards exactly one preference and other children forward nothing |
| `ConfigLoad.KeyPathInEffect` | examples/client/configuration.c:190-207 | each `key-path` registers exactly (p, p + ".pub"), other children nothing, and the pair in effect comes from the last `key-path` |
| `ConfigLoad.PreferenceExample` | examples/client/configuration.c:178-189 | publickey 2, password 1 and an unknown certificate 3 forward (public key, 2) then (password, 1) and nothing else |
| `ConfigLoad.KeyPathExample` | examples/client/configuration.c:192-206 | with two `key-path` siblings the pair from the second is in effect |
| `ConfigStore.CapabilitiesNode` | examples/client/configuration.c:309-313 | the appended element is named `capabilities` and its children's contents are exactly the capabilities, in iteration order |
| `ConfigStore.StoreConfig` | examples/client/configuration.c:295-314 | the rewrite loop builds exactly the stored-document specification |
| `ConfigStore.RewrittenChildrenShape` | examples/client/configuration.c:301-312 | the new children are the old ones with the first `capabilities` child cut out, then the new one; the `capabilities` children are the old ones but the first, then the new one |
| `ConfigStore.StoreShape` | examples/client/configuration.c:295-314 | fresh root when unreadable; other roots unchanged; else the root loses exactly its first `capabilities` child (all others stay in place) and gains one new `capabilities` child, last |
| `ConfigStore.StoreTwice` | examples/client/configuration.c:300-313 | storing twice equals storing once exactly when the document is fresh, foreign-rooted, or its children are stable under store |
| `ConfigStore.StoreIdempotent` | examples/client/configuration.c:300-313 | with at most one `capabilities` child, a second store with the same capabilities changes nothing |
| `ConfigRoundTrip.LoadAfterStore` | examples/client/configuration.c:309-313 | loading the stored document gives exactly the stored capability sequence, unless the root is not `netconf-client` (then the defaults) |
| `ConfigRoundTrip.StoreKeepsAuthentication` | examples/client/configuration.c:300-313 | the SSH calls a later load makes are the same before and after a store |

## Left out

- Home directory lookup through `getenv("HOME")` and `getpwuid` (lines 82-85, 239-242): the home directory is a parameter of `ConfigPaths.NetconfDir`.
- Directory and file checks and creation (`access`, `mkdir`, `creat`, `errno`; lines 94-149, 251-282). Load and store take the document as an `Option`. For load, `None` means that the directory or config.xml could not be accessed or the file did not parse; in each of these cases load keeps the defaults and makes no SSH calls (lines 94-108, 136-150).
- ConfigStore.StoreConfig: for store, `None` means only that config.xml is not readable and writable or does not parse (line 295). Store's two early returns are not modelled: when the directory cannot be created (lines 255-259) or exists without read, write and search access (lines 260-264), the program writes nothing, whereas the model would still hand a document to the serializer.
- Command history (`read_history`, `write_history`; lines 110-131, 267-288): these are readline calls that only take a path. Only the path is modelled.
- XML parsing and serialisation (lines 152, 295, 315-323) are left out. The round trip assumes that parsing the written file gives back the written tree. Dropping blank text nodes (`XML_PARSE_NOBLANKS`) and write failures are not modelled.
- `Xml.Content` abstracts `xmlNodeGetContent`: it concatenates the node's own text with its descendants' content. libxml2's special handling of comments, processing instructions and entity references is not modelled.
- `ConfigStore.CapabilityNode` stores each capability verbatim as a text child. `xmlNewChild` reads its content argument as markup with entity references, so a capability containing '&' is not stored verbatim. That behaviour of libxml2 is not modelled.
- The capability collection library (`nc_cpblts_*`) is not visible. The collection is the sequence of added strings, and store iterates it in that order. Deduplication is not assumed.
- `nc_ssh_pref` and `nc_set_keypair_path` are recorded as events. Their effect inside the SSH layer is not modelled beyond "the last registered key pair is in effect".
- `asprintf` failure branches (lines 87-91, 110-113, 133-136, 195-201, 244-248, 267-270, 290-293), the `xmlNewDoc` failure branch (line 321), the `free` calls, the `key_priv` leak and the error messages: allocation and memory management are not modelled.
- The `DISABLE_LIBSSH` build: the model is the build with SSH support.
- CLib.Atoi: the result is the mathematical value of the digits. C's `atoi` has undefined behaviour when the value does not fit in an `int`, and the model does not represent that case.
