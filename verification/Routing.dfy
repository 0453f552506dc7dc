/** What a node does with a host, however old its snapshot is: internal/node
    apply and handleTLS over the configurations of internal/store NodeConfig,
    and the agent's own table behind it. */
module Routing {
  import opened AgentConfig
  import opened Basics
  import Node
  import opened Proto
  import opened Relay
  import opened Sni
  import opened Store
  import opened Text
  import WgNet

  /** A tunnel's domain as the node's table spells it. */
  function Spelled(t: Tunnel, base: string): string {
    ToLower(Domain(t, base))
  }

  lemma SpelledParts(t: Tunnel, base: string)
    requires PlainLabel(t.subdomain)
    ensures Spelled(t, base) == t.subdomain + "." + ToLower(base)
    ensures !HasPrefix(Spelled(t, base), "*.") && '.' !in t.subdomain
    ensures ToLower("*." + Domain(t, base)) == "*." + Spelled(t, base)
  {
    ToLowerConcat(t.subdomain + ".", base);
    ToLowerConcat(t.subdomain, ".");
    ToLowerConcat("*.", Domain(t, base));
    assert ToLower(t.subdomain) == t.subdomain && ToLower(".") == "." && ToLower("*.") == "*.";
    assert Spelled(t, base)[0] == t.subdomain[0];
  }

  // ---------------------------------------------------------------- tables

  /** Every entry is one of the two a tunnel publishes, with its address. */
  ghost predicate TableSound(table: Node.Routes, tunnels: map<nat, Tunnel>, base: string) {
    forall h :: h in table ==> exists t :: t in tunnels && Publishes(tunnels[t], base, h, table[h])
  }

  ghost predicate Publishes(t: Tunnel, base: string, h: string, ip: IPv4) {
    ip == t.vpnIP && (h == Spelled(t, base) || h == "*." + Spelled(t, base))
  }

  ghost predicate ConfigSound(cfg: NodeConfig, tunnels: map<nat, Tunnel>, base: string) {
    Node.Parses(cfg) && TableSound(Node.RouteTable(cfg), tunnels, base)
  }

  lemma {:induction false} ParsedRoutesEntries(routes: seq<ProtoRoute>)
    requires forall r :: r in routes ==> r.vpnIP.Some?
    ensures Node.ParsedRoutes(routes).Some?
    ensures forall h :: h in Node.ParsedRoutes(routes).value ==>
              exists r :: r in routes && ToLower(r.hostname) == h && r.vpnIP == Some(Node.ParsedRoutes(routes).value[h])
    ensures forall r :: r in routes ==> ToLower(r.hostname) in Node.ParsedRoutes(routes).value
    decreases |routes|
  {
    if routes != [] {
      var init, last := routes[..|routes| - 1], routes[|routes| - 1];
      ParsedRoutesEntries(init);
      assert routes == init + [last];
    }
  }

  lemma {:induction false} ParsedPeersListed(peers: seq<ProtoPeer>)
    requires forall p :: p in peers ==> p.publicKey.Some? && p.vpnIP.Some?
    ensures Node.ParsedPeers(peers).Some?
    ensures |Node.ParsedPeers(peers).value| == |peers|
    ensures forall i :: 0 <= i < |peers| ==>
              Node.ParsedPeers(peers).value[i] ==
              WgNet.ListedPeer(peers[i].publicKey.value, WgNet.Peer(peers[i].vpnIP.value, None, 0))
    decreases |peers|
  {
    if peers != [] {
      ParsedPeersListed(peers[..|peers| - 1]);
    }
  }

  lemma SnapshotParses(db: Db, now: Time, base: string, dns: Option<DNSZone>)
    ensures Node.Parses(Config(db, now, base, dns))
    ensures forall p :: p in Config(db, now, base, dns).peers ==> p.publicKey.Some? && p.vpnIP.Some?
    ensures forall r :: r in Config(db, now, base, dns).routes ==> r.vpnIP.Some?
  {
    var cfg := Config(db, now, base, dns);
    forall p | p in cfg.peers ensures p.publicKey.Some? && p.vpnIP.Some? {
      PeersBelowMembers(db, now, db.nextTunnel, p);
    }
    forall r | r in cfg.routes ensures r.vpnIP.Some? {
      RoutesBelowMembers(db, now, base, db.nextTunnel, r);
    }
    ParsedPeersListed(cfg.peers);
    ParsedRoutesEntries(cfg.routes);
  }

  lemma RouteIsPublished(db: Db, t: nat, base: string, r: ProtoRoute)
    requires t in db.tunnels && PlainLabel(db.tunnels[t].subdomain) && r in RoutesOf(db.tunnels[t], base)
    ensures r.vpnIP.Some? && Publishes(db.tunnels[t], base, ToLower(r.hostname), r.vpnIP.value)
  {
  }

  lemma SnapshotIsSound(db: Db, now: Time, base: string, dns: Option<DNSZone>)
    requires DbInv(db)
    ensures ConfigSound(Config(db, now, base, dns), db.tunnels, base)
  {
    var cfg := Config(db, now, base, dns);
    SnapshotParses(db, now, base, dns);
    ParsedRoutesEntries(cfg.routes);
    forall h | h in Node.RouteTable(cfg)
      ensures exists t :: t in db.tunnels && Publishes(db.tunnels[t], base, h, Node.RouteTable(cfg)[h])
    {
      var r :| r in cfg.routes && ToLower(r.hostname) == h && r.vpnIP == Some(Node.RouteTable(cfg)[h]);
      RoutesBelowMembers(db, now, base, db.nextTunnel, r);
      var t: nat :| t < db.nextTunnel && Live(db, now, t) && r in RoutesOf(db.tunnels[t], base);
      RouteIsPublished(db, t, base, r);
    }
  }

  // ------------------------------------------------------------- every node

  ghost predicate ViewSound(v: NodeView, tunnels: map<nat, Tunnel>, base: string) {
    TableSound(v.routes, tunnels, base) && (v.answer.Some? ==> ConfigSound(v.answer.value, tunnels, base))
  }

  ghost predicate NodesSound(nodes: map<nat, NodeView>, tunnels: map<nat, Tunnel>, base: string) {
    forall n :: n in nodes ==> ViewSound(nodes[n], tunnels, base)
  }

  lemma NodeStepKeepsSound(s: Sys, v: NodeView, e: Event, base: string)
    requires DbInv(s.db) && ViewSound(v, s.db.tunnels, base)
    ensures ViewSound(NodeStep(s, v, e, base), s.db.tunnels, base)
  {
    if e.Poll? {
      SnapshotIsSound(s.db, s.now, base, e.dns);
    }
  }

  lemma ViewsLast(nodes: map<nat, NodeView>, tunnels: map<nat, Tunnel>, later: map<nat, Tunnel>, base: string)
    requires NodesSound(nodes, tunnels, base)
    requires Extends(tunnels, later)
    ensures NodesSound(nodes, later, base)
  {
  }

  ghost predicate IsNodeEvent(e: Event) {
    e.Poll? || e.Lose? || e.Apply? || e.Restart?
  }

  /** Only a node's own events change its view, and they change nothing else. */
  lemma OnlyNodeEventsTouchViews(s: Sys, e: Event, base: string)
    ensures IsNodeEvent(e) ==>
              Next(s, e, base) == s.(steps := s.steps + 1,
                                     nodes := s.nodes[e.node := NodeStep(s, ViewOf(s, e.node), e, base)])
    ensures !IsNodeEvent(e) ==> Next(s, e, base).nodes == s.nodes
  {
    if e.Execute? && e.id in s.requests {
      HandleFrame(s, s.requests[e.id]);
    }
  }

  lemma NextKeepsNodesSound(s: Sys, e: Event, base: string)
    requires SysInv(s) && NodesSound(s.nodes, s.db.tunnels, base)
    ensures NodesSound(Next(s, e, base).nodes, Next(s, e, base).db.tunnels, base)
  {
    OnlyNodeEventsTouchViews(s, e, base);
    if IsNodeEvent(e) {
      NodeStepKeepsSound(s, ViewOf(s, e.node), e, base);
    } else {
      NextTunnelsOnlyGrow(s, e, base);
      ViewsLast(s.nodes, s.db.tunnels, Next(s, e, base).db.tunnels, base);
    }
  }

  lemma {:induction false} RunKeepsNodesSound(es: seq<Event>, base: string)
    ensures var r := Run(START, es, base); NodesSound(r.nodes, r.db.tunnels, base)
    decreases |es|
  {
    if es != [] {
      RunKeepsNodesSound(es[..|es| - 1], base);
      Reachable(es[..|es| - 1], base);
      NextKeepsNodesSound(Run(START, es[..|es| - 1], base), es[|es| - 1], base);
    }
  }

  // ------------------------------------------------------------- no misrouting

  /** The host belongs to the tunnel: it is its domain or below it. */
  ghost predicate BelongsTo(host: string, t: Tunnel, base: string) {
    Under(host, Spelled(t, base))
  }

  lemma BelongsToOne(host: string, t: Tunnel, u: Tunnel, base: string)
    requires PlainLabel(t.subdomain) && PlainLabel(u.subdomain)
    requires BelongsTo(host, t, base) && BelongsTo(host, u, base)
    ensures t.subdomain == u.subdomain
  {
    SpelledParts(t, base);
    SpelledParts(u, base);
    OneOwner(t.subdomain, u.subdomain, ToLower(base), host);
  }

  lemma PublishedCoversOwnHosts(t: Tunnel, base: string, pattern: string, host: string)
    requires PlainLabel(t.subdomain) && Publishes(t, base, pattern, t.vpnIP) && Covers(pattern, host)
    ensures BelongsTo(host, t, base)
  {
    var d := Spelled(t, base);
    SpelledParts(t, base);
    AppendUnder("*", d);
    assert "*" + "." + d == "*." + d;
    CoveredHostIsUnder(pattern, host, d);
  }

  lemma SoundTableRoutesHome(table: Node.Routes, tunnels: map<nat, Tunnel>, base: string, host: string)
    returns (t: nat)
    requires TableSound(table, tunnels, base) && Lookup(table, host).Some?
    requires forall u :: u in tunnels ==> PlainLabel(tunnels[u].subdomain)
    ensures t in tunnels && Lookup(table, host) == Some(tunnels[t].vpnIP) && BelongsTo(host, tunnels[t], base)
  {
    MatchIsMostSpecific(table, host);
    var p :| MostSpecific(table, host, p) && Lookup(table, host) == Some(table[p]);
    t :| t in tunnels && Publishes(tunnels[t], base, p, table[p]);
    PublishedCoversOwnHosts(tunnels[t], base, p, host);
  }

  /** In every reachable state, on every node however stale its snapshot: a host
      the table matches is sent to the address of a tunnel whose domain it is
      or is below, and no other tunnel that will ever exist has that host. */
  lemma NoStaleMisrouting(es: seq<Event>, base: string, node: nat, host: string) returns (t: nat)
    requires Lookup(ViewOf(Run(START, es, base), node).routes, host).Some?
    ensures var s := Run(START, es, base);
            && t in s.db.tunnels && BelongsTo(host, s.db.tunnels[t], base)
            && Lookup(ViewOf(s, node).routes, host) == Some(s.db.tunnels[t].vpnIP)
            && (forall u :: u in s.db.tunnels && BelongsTo(host, s.db.tunnels[u], base) ==> u == t)
            && (forall u :: u in s.db.tunnels && s.db.tunnels[u].vpnIP == s.db.tunnels[t].vpnIP ==> u == t)
  {
    var s := Run(START, es, base);
    Reachable(es, base);
    RunKeepsNodesSound(es, base);
    t := SoundTableRoutesHome(ViewOf(s, node).routes, s.db.tunnels, base, host);
    forall u | u in s.db.tunnels && BelongsTo(host, s.db.tunnels[u], base) ensures u == t {
      BelongsToOne(host, s.db.tunnels[t], s.db.tunnels[u], base);
    }
  }

  /** Two nodes never send one host to different addresses, even at different
      moments of a run. */
  lemma NodesNeverDisagree(es: seq<Event>, fs: seq<Event>, base: string, m: nat, n: nat, host: string)
    requires Lookup(ViewOf(Run(START, es, base), m).routes, host).Some?
    requires Lookup(ViewOf(Run(START, es + fs, base), n).routes, host).Some?
    ensures Lookup(ViewOf(Run(START, es, base), m).routes, host) ==
            Lookup(ViewOf(Run(START, es + fs, base), n).routes, host)
  {
    var t := NoStaleMisrouting(es, base, m, host);
    var u := NoStaleMisrouting(es + fs, base, n, host);
    Reachable(es, base);
    RunConcat(START, es, fs, base);
    TunnelsOnlyGrow(Run(START, es, base), fs, base);
  }

  // -------------------------------------------------------------- reachability

  /** A snapshot that holds a tunnel sends every host of it to its address. */
  lemma LiveTunnelIsRouted(es: seq<Event>, base: string, dns: Option<DNSZone>, t: nat, host: string)
    requires var s := Run(START, es, base); Live(s.db, s.now, t) && BelongsTo(host, s.db.tunnels[t], base)
    ensures var s := Run(START, es, base);
            && Node.Parses(Config(s.db, s.now, base, dns))
            && Lookup(Node.RouteTable(Config(s.db, s.now, base, dns)), host) == Some(s.db.tunnels[t].vpnIP)
  {
    var s := Run(START, es, base);
    var cfg, d := Config(s.db, s.now, base, dns), Spelled(s.db.tunnels[t], base);
    Reachable(es, base);
    SnapshotIsSound(s.db, s.now, base, dns);
    PublishedRoutes(s.db, s.now, base, dns, t);
    UnderIsCovered(host, d);
    MatchIsMostSpecific(Node.RouteTable(cfg), host);
    var u := SoundTableRoutesHome(Node.RouteTable(cfg), s.db.tunnels, base, host);
    BelongsToOne(host, s.db.tunnels[t], s.db.tunnels[u], base);
  }

  lemma PublishedRoutes(db: Db, now: Time, base: string, dns: Option<DNSZone>, t: nat)
    requires DbInv(db) && Live(db, now, t)
    ensures Node.Parses(Config(db, now, base, dns))
    ensures var table, d := Node.RouteTable(Config(db, now, base, dns)), Spelled(db.tunnels[t], base);
            d in table && "*." + d in table
  {
    var cfg := Config(db, now, base, dns);
    var routes := RoutesOf(db.tunnels[t], base);
    SnapshotParses(db, now, base, dns);
    ParsedRoutesEntries(cfg.routes);
    SpelledParts(db.tunnels[t], base);
    RoutesBelowMembers(db, now, base, db.nextTunnel, routes[0]);
    RoutesBelowMembers(db, now, base, db.nextTunnel, routes[1]);
  }

  /** The agent's table sits inside the node's: whatever host a resolved route
      table matches, any node whose snapshot holds the tunnel sends it to that
      tunnel's address, so every declared route can be reached. */
  lemma DeclaredRoutesAreReachable(
      es: seq<Event>, base: string, dns: Option<DNSZone>, t: nat, specs: seq<RouteSpec>, host: string)
    requires IsLower(base)
    requires var s := Run(START, es, base);
             && Live(s.db, s.now, t)
             && Resolved(specs, Domain(s.db.tunnels[t], base)).Some?
             && Lookup(Resolved(specs, Domain(s.db.tunnels[t], base)).value, host).Some?
    ensures var s := Run(START, es, base);
            && Node.Parses(Config(s.db, s.now, base, dns))
            && Lookup(Node.RouteTable(Config(s.db, s.now, base, dns)), host) == Some(s.db.tunnels[t].vpnIP)
  {
    var s := Run(START, es, base);
    Reachable(es, base);
    SpelledParts(s.db.tunnels[t], base);
    TableIsUnderDomain(specs, Domain(s.db.tunnels[t], base), host);
    LiveTunnelIsRouted(es, base, dns, t, host);
  }

  // --------------------------------------------------------------- the peers

  lemma {:induction false} WantedEntries(list: seq<WgNet.ListedPeer>)
    ensures forall k :: k in WgNet.Wanted(list) ==>
              exists i :: 0 <= i < |list| && list[i].key == k && list[i].peer == WgNet.Wanted(list)[k]
    ensures forall i :: 0 <= i < |list| ==> list[i].key in WgNet.Wanted(list)
    decreases |list|
  {
    if list != [] {
      WantedEntries(list[..|list| - 1]);
    }
  }

  lemma PeerHasLease(db: Db, now: Time, base: string, dns: Option<DNSZone>, k: Key) returns (t: nat)
    requires Node.Parses(Config(db, now, base, dns)) && k in Node.RecordOf(Config(db, now, base, dns))
    ensures Live(db, now, t) && db.leases[t].pubkey == k
    ensures Node.RecordOf(Config(db, now, base, dns))[k] == WgNet.Peer(db.tunnels[t].vpnIP, None, 0)
  {
    var cfg := Config(db, now, base, dns);
    SnapshotParses(db, now, base, dns);
    ParsedPeersListed(cfg.peers);
    var list := Node.ParsedPeers(cfg.peers).value;
    WantedEntries(list);
    var i :| 0 <= i < |list| && list[i].key == k && list[i].peer == WgNet.Wanted(list)[k];
    PeersBelowMembers(db, now, db.nextTunnel, cfg.peers[i]);
    t :| t < db.nextTunnel && Live(db, now, t) && cfg.peers[i] == PeerOf(db, t);
  }

  lemma LeaseHasPeer(db: Db, now: Time, base: string, dns: Option<DNSZone>, t: nat)
    requires DbInv(db) && Live(db, now, t)
    ensures Node.Parses(Config(db, now, base, dns))
    ensures db.leases[t].pubkey in Node.RecordOf(Config(db, now, base, dns))
  {
    var cfg := Config(db, now, base, dns);
    SnapshotParses(db, now, base, dns);
    ParsedPeersListed(cfg.peers);
    WantedEntries(Node.ParsedPeers(cfg.peers).value);
    PeersBelowMembers(db, now, db.nextTunnel, PeerOf(db, t));
    var i :| 0 <= i < |cfg.peers| && cfg.peers[i] == PeerOf(db, t);
    assert Node.ParsedPeers(cfg.peers).value[i].key == db.leases[t].pubkey;
  }

  /** The peers of a snapshot are exactly the live leases: the key of each with
      the address of its tunnel, so no two share an address, which is what a
      node's device needs to follow (WgNet). */
  lemma SnapshotPeersAreLiveLeases(es: seq<Event>, base: string, dns: Option<DNSZone>, k: Key)
    ensures var s := Run(START, es, base);
            && Node.Parses(Config(s.db, s.now, base, dns))
            && (k in Node.RecordOf(Config(s.db, s.now, base, dns)) <==>
                  exists t :: Live(s.db, s.now, t) && s.db.leases[t].pubkey == k)
            && (forall t :: Live(s.db, s.now, t) && s.db.leases[t].pubkey == k ==>
                  k in Node.RecordOf(Config(s.db, s.now, base, dns)) &&
                  Node.RecordOf(Config(s.db, s.now, base, dns))[k] == WgNet.Peer(s.db.tunnels[t].vpnIP, None, 0))
  {
    var s := Run(START, es, base);
    var cfg := Config(s.db, s.now, base, dns);
    Reachable(es, base);
    SnapshotParses(s.db, s.now, base, dns);
    if k in Node.RecordOf(cfg) {
      var t := PeerHasLease(s.db, s.now, base, dns, k);
    }
    forall t: nat | Live(s.db, s.now, t) && s.db.leases[t].pubkey == k
      ensures k in Node.RecordOf(cfg) && Node.RecordOf(cfg)[k] == WgNet.Peer(s.db.tunnels[t].vpnIP, None, 0)
    {
      LeaseHasPeer(s.db, s.now, base, dns, t);
      var u := PeerHasLease(s.db, s.now, base, dns, k);
      assert u == t;
    }
  }

  /** So a node whose device follows its record can always follow a snapshot:
      the allowed IPs it asks for are pairwise distinct. */
  lemma SnapshotPeersAreDistinct(es: seq<Event>, base: string, dns: Option<DNSZone>)
    ensures var s := Run(START, es, base);
            Node.Parses(Config(s.db, s.now, base, dns)) && WgNet.Distinct(Node.RecordOf(Config(s.db, s.now, base, dns)))
  {
    var s := Run(START, es, base);
    var cfg := Config(s.db, s.now, base, dns);
    Reachable(es, base);
    SnapshotParses(s.db, s.now, base, dns);
    var record := Node.RecordOf(cfg);
    forall j, k | j in record && k in record && j != k ensures record[j].allowedIP != record[k].allowedIP {
      var t := PeerHasLease(s.db, s.now, base, dns, j);
      var u := PeerHasLease(s.db, s.now, base, dns, k);
      assert t != u;
    }
  }
}
