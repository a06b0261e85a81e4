/** The shape of the client's configuration document that both load and store rely on:
    a `netconf-client` root whose `capabilities` children hold the capability set. */
module ClientDocument {
  import opened Xml

  const RootName := "netconf-client"
  const CapabilitiesName := "capabilities"

  /** The document's first top-level node is the `netconf-client` element. */
  predicate HasClientRoot(doc: Document) {
    doc.nodes != [] && doc.nodes[0].name == RootName
  }
}
