/** internal/proto/proto.go: what the control plane sends to a node. */
module Proto {
  import opened Basics

  /** Text fields the node parses: None stands for text it cannot parse. */
  datatype ProtoPeer = ProtoPeer(publicKey: Option<Key>, vpnIP: Option<IPv4>)

  datatype ProtoRoute = ProtoRoute(hostname: string, vpnIP: Option<IPv4>)

  datatype DNSTXT = DNSTXT(fqdn: string, value: string)

  /** An edge entry is None when its text is not an IPv4 address. */
  datatype DNSZone = DNSZone(
    zone: string, nsNames: seq<string>, soaEmail: string, edge: seq<Option<IPv4>>, challenges: seq<DNSTXT>)

  /** The content of a configuration. Its version is a hash of it, taken to be
      injective: two configurations have the same version exactly when they
      are equal. */
  datatype NodeConfig = NodeConfig(peers: seq<ProtoPeer>, routes: seq<ProtoRoute>, dns: Option<DNSZone>)
}
