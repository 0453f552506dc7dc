/** internal/node/node.go: applying a configuration, and the loop that keeps a
    node in step with the control plane. */
module Node {
  import opened Basics
  import Dns
  import opened Proto
  import opened Text
  import WgNet

  type Routes = map<string, IPv4>

  function ParsedPeers(peers: seq<ProtoPeer>): Option<seq<WgNet.ListedPeer>> {
    if peers == [] then Some([])
    else
      var p, before := peers[|peers| - 1], ParsedPeers(peers[..|peers| - 1]);
      if before.None? || p.publicKey.None? || p.vpnIP.None? then None
      else Some(before.value + [WgNet.ListedPeer(p.publicKey.value, WgNet.Peer(p.vpnIP.value, None, 0))])
  }

  function ParsedRoutes(routes: seq<ProtoRoute>): Option<Routes> {
    if routes == [] then Some(map[])
    else
      var r, before := routes[|routes| - 1], ParsedRoutes(routes[..|routes| - 1]);
      if before.None? || r.vpnIP.None? then None
      else Some(before.value[ToLower(r.hostname) := r.vpnIP.value])
  }

  predicate Parses(cfg: NodeConfig) {
    ParsedPeers(cfg.peers).Some? && ParsedRoutes(cfg.routes).Some?
  }

  /** The peers a configuration stands for. */
  function RecordOf(cfg: NodeConfig): WgNet.Record
    requires Parses(cfg)
  {
    WgNet.Wanted(ParsedPeers(cfg.peers).value)
  }

  function RouteTable(cfg: NodeConfig): Routes
    requires Parses(cfg)
  {
    ParsedRoutes(cfg.routes).value
  }

  lemma {:induction false} BadPeersStayBad(peers: seq<ProtoPeer>, n: nat)
    requires n <= |peers| && ParsedPeers(peers[..n]).None?
    ensures ParsedPeers(peers).None?
    decreases |peers|
  {
    if n < |peers| {
      assert peers[..|peers| - 1][..n] == peers[..n];
      BadPeersStayBad(peers[..|peers| - 1], n);
    } else {
      assert peers[..n] == peers;
    }
  }

  lemma {:induction false} BadRoutesStayBad(routes: seq<ProtoRoute>, n: nat)
    requires n <= |routes| && ParsedRoutes(routes[..n]).None?
    ensures ParsedRoutes(routes).None?
    decreases |routes|
  {
    if n < |routes| {
      assert routes[..|routes| - 1][..n] == routes[..n];
      BadRoutesStayBad(routes[..|routes| - 1], n);
    } else {
      assert routes[..n] == routes;
    }
  }

  /** A configuration can be read exactly when every key and address in it can;
      of several routes with one name the last counts. */
  lemma {:induction false} PeersParseExactly(peers: seq<ProtoPeer>)
    ensures ParsedPeers(peers).Some? <==>
              forall i :: 0 <= i < |peers| ==> peers[i].publicKey.Some? && peers[i].vpnIP.Some?
    decreases |peers|
  {
    if peers != [] {
      PeersParseExactly(peers[..|peers| - 1]);
    }
  }

  lemma {:induction false} RoutesParseExactly(routes: seq<ProtoRoute>)
    ensures ParsedRoutes(routes).Some? <==> forall i :: 0 <= i < |routes| ==> routes[i].vpnIP.Some?
    ensures ParsedRoutes(routes).Some? ==> forall i :: LastOfName(routes, i) ==>
              ToLower(routes[i].hostname) in ParsedRoutes(routes).value
              && Some(ParsedRoutes(routes).value[ToLower(routes[i].hostname)]) == routes[i].vpnIP
    decreases |routes|
  {
    if routes != [] {
      var init := routes[..|routes| - 1];
      RoutesParseExactly(init);
      forall i | LastOfName(routes, i) && i < |init| ensures LastOfName(init, i) {
        assert forall j :: i < j < |init| ==> init[j] == routes[j];
      }
    }
  }

  ghost predicate LastOfName(routes: seq<ProtoRoute>, i: int) {
    0 <= i < |routes| && forall j :: i < j < |routes| ==> ToLower(routes[j].hostname) != ToLower(routes[i].hostname)
  }

  method ParsePeers(peers: seq<ProtoPeer>) returns (r: Option<seq<WgNet.ListedPeer>>)
    ensures r == ParsedPeers(peers)
  {
    var out: seq<WgNet.ListedPeer> := [];
    for i := 0 to |peers|
      invariant ParsedPeers(peers[..i]) == Some(out)
    {
      assert peers[..i + 1][..i] == peers[..i];
      var p := peers[i];
      if p.publicKey.None? || p.vpnIP.None? {
        BadPeersStayBad(peers, i + 1);
        return None;
      }
      out := out + [WgNet.ListedPeer(p.publicKey.value, WgNet.Peer(p.vpnIP.value, None, 0))];
    }
    assert peers[..|peers|] == peers;
    return Some(out);
  }

  method ParseRoutes(routes: seq<ProtoRoute>) returns (r: Option<Routes>)
    ensures r == ParsedRoutes(routes)
  {
    var out: Routes := map[];
    for i := 0 to |routes|
      invariant ParsedRoutes(routes[..i]) == Some(out)
    {
      assert routes[..i + 1][..i] == routes[..i];
      if routes[i].vpnIP.None? {
        BadRoutesStayBad(routes, i + 1);
        return None;
      }
      out := out[ToLower(routes[i].hostname) := routes[i].vpnIP.value];
    }
    assert routes[..|routes|] == routes;
    return Some(out);
  }

  /** The zone served is the normalised image of the configured one. */
  ghost predicate Serves(zone: Dns.Zone, d: DNSZone) {
    && zone.name == (if d.zone == "" then "" else Dns.Canonical(d.zone))
    && zone.nsNames == Dns.CanonicalAll(d.nsNames) && zone.soaEmail == d.soaEmail && zone.edge == d.edge
    && Dns.Recanonised(Dns.Group(d.challenges), zone.challenges)
  }

  /** One outcome of asking the control plane. */
  datatype Response = NotModified | Unauthorized | Failed | Fetched(cfg: NodeConfig)

  /** How many outcomes a run of the loop has read, and which ones it applied,
      in order. */
  datatype Log = Log(read: nat, applied: seq<nat>)

  ghost predicate IsLog(log: Log, responses: seq<Response>) {
    && log.read <= |responses|
    && (forall i :: 0 <= i < log.read ==> !responses[i].Unauthorized?)
    && (forall i :: 0 <= i < |log.applied| ==> log.applied[i] < log.read && responses[log.applied[i]].Fetched?)
    && (forall i, j :: 0 <= i < j < |log.applied| ==> log.applied[i] < log.applied[j])
  }

  /** The configuration applied last. */
  ghost function Latest(log: Log, responses: seq<Response>, before: Option<NodeConfig>): Option<NodeConfig>
    requires IsLog(log, responses)
  {
    if log.applied == [] then before else Some(responses[log.applied[|log.applied| - 1]].cfg)
  }

  /** A configuration the node can read. */
  predicate Readable(response: Response) {
    response.Fetched? && Parses(response.cfg)
  }

  /** No two peers of a readable configuration share an address. */
  ghost predicate Followable(responses: seq<Response>) {
    forall i :: 0 <= i < |responses| && Readable(responses[i]) ==> WgNet.Distinct(RecordOf(responses[i].cfg))
  }

  /** The device took every readable configuration. */
  ghost predicate NoneRefused(log: Log, responses: seq<Response>)
    requires IsLog(log, responses)
  {
    forall i :: 0 <= i < log.read && Readable(responses[i]) ==> i in log.applied
  }

  function OneMore(log: Log, accepted: bool): Log {
    Log(log.read + 1, if accepted then log.applied + [log.read] else log.applied)
  }

  lemma OneMoreIsLog(log: Log, responses: seq<Response>, accepted: bool, before: Option<NodeConfig>)
    requires IsLog(log, responses) && log.read < |responses| && !responses[log.read].Unauthorized?
    requires accepted ==> responses[log.read].Fetched?
    ensures IsLog(OneMore(log, accepted), responses)
    ensures Latest(OneMore(log, accepted), responses, before) ==
            if accepted then Some(responses[log.read].cfg) else Latest(log, responses, before)
  {
    if accepted {
      var applied := log.applied + [log.read];
      assert forall i :: 0 <= i < |log.applied| ==> applied[i] == log.applied[i];
      assert applied[|log.applied|] == log.read;
      assert OneMore(log, accepted) == Log(log.read + 1, applied);
    } else {
      assert OneMore(log, accepted) == Log(log.read + 1, log.applied);
    }
  }

  lemma NoneRefusedSoFar(log: Log, responses: seq<Response>, accepted: bool)
    requires IsLog(log, responses) && IsLog(OneMore(log, accepted), responses)
    requires NoneRefused(OneMore(log, accepted), responses)
    ensures NoneRefused(log, responses)
    ensures Readable(responses[log.read]) ==> accepted
  {
    forall i | 0 <= i < log.read && Readable(responses[i]) ensures i in log.applied {
      assert i in OneMore(log, accepted).applied;
    }
  }

  class Node {
    const wg: WgNet.Net
    var routes: Routes
    var zone: Dns.Zone
    /** The configuration `version` names; None for the empty version. */
    var version: Option<NodeConfig>

    constructor ()
      ensures fresh(wg) && fresh(wg.dev) && InStep() && version == None
      ensures WgNet.WellFormed(wg.dev.State()) && WgNet.Agrees(wg.peers, wg.dev.State())
    {
      wg := new WgNet.Net();
      routes, zone, version := map[], Dns.NO_ZONE, None;
    }

    /** Recorded peers and routes are both the image of the one snapshot that
        `version` names. */
    ghost predicate InStep()
      reads this, wg
    {
      match version
      case None => wg.peers == map[] && routes == map[]
      case Some(cfg) => Parses(cfg) && wg.peers == RecordOf(cfg) && routes == RouteTable(cfg)
    }

    method Apply(cfg: NodeConfig) returns (err: bool)
      requires WgNet.WellFormed(wg.dev.State())
      modifies this`routes, this`zone, wg`peers, wg.dev
      ensures WgNet.WellFormed(wg.dev.State())
      ensures err ==> wg.peers == old(wg.peers) && routes == old(routes) && zone == old(zone)
      ensures !Parses(cfg) ==> err && wg.dev.State() == old(wg.dev.State())
      ensures !err ==> Parses(cfg) && wg.peers == RecordOf(cfg) && routes == RouteTable(cfg)
      ensures !err ==> if cfg.dns.Some? then Serves(zone, cfg.dns.value) else zone == old(zone)
      ensures !err ==>
                (WgNet.Agrees(wg.peers, wg.dev.State()) <==>
                 WgNet.Distinct(wg.peers) && WgNet.Ready(old(wg.peers), wg.peers, old(wg.dev.State())))
      ensures err && Parses(cfg) && WgNet.Distinct(RecordOf(cfg))
              && WgNet.Ready(wg.peers, RecordOf(cfg), old(wg.dev.State())) ==>
                WgNet.Ready(wg.peers, RecordOf(cfg), wg.dev.State())
    {
      var peers := ParsePeers(cfg.peers);
      if peers.None? {
        return true;
      }
      var table := ParseRoutes(cfg.routes);
      if table.None? {
        return true;
      }
      ghost var attempt;
      err, attempt := wg.SetPeers(peers.value);
      if err {
        return;
      }
      routes := table.value;
      if cfg.dns.Some? {
        var d := cfg.dns.value;
        var challenges := Dns.DnsChallenges(d.challenges);
        zone := Dns.Normalize(Dns.Zone(d.zone, d.nsNames, d.soaEmail, d.edge, challenges));
      }
    }

    /** One turn of the loop: a rejected configuration changes nothing. */
    method Turn(response: Response) returns (accepted: bool)
      requires WgNet.WellFormed(wg.dev.State()) && InStep()
      modifies this`routes, this`zone, this`version, wg`peers, wg.dev
      ensures WgNet.WellFormed(wg.dev.State()) && InStep()
      ensures accepted ==> response.Fetched? && version == Some(response.cfg)
      ensures accepted ==>
                if response.cfg.dns.Some? then Serves(zone, response.cfg.dns.value) else zone == old(zone)
      ensures !accepted ==>
                version == old(version) && wg.peers == old(wg.peers) && routes == old(routes) && zone == old(zone)
      ensures !Readable(response) ==> !accepted && wg.dev.State() == old(wg.dev.State())
      ensures accepted ==>
                (WgNet.Agrees(wg.peers, wg.dev.State()) <==>
                 WgNet.Distinct(wg.peers) && WgNet.Ready(old(wg.peers), wg.peers, old(wg.dev.State())))
      ensures Readable(response) && !accepted && WgNet.Distinct(RecordOf(response.cfg))
              && WgNet.Ready(wg.peers, RecordOf(response.cfg), old(wg.dev.State())) ==>
                WgNet.Ready(wg.peers, RecordOf(response.cfg), wg.dev.State())
    {
      if !response.Fetched? {
        return false;
      }
      var err := Apply(response.cfg);
      if !err {
        version := Some(response.cfg);
      }
      return !err;
    }

    /** The loop over the outcomes of successive requests, up to a refused
        token. The node stays in step with the last one it applied, and so does
        its device unless it refused one. */
    method SyncLoop(responses: seq<Response>) returns (err: bool, ghost log: Log)
      requires WgNet.WellFormed(wg.dev.State()) && InStep()
      modifies this`routes, this`zone, this`version, wg`peers, wg.dev
      ensures WgNet.WellFormed(wg.dev.State()) && InStep()
      ensures IsLog(log, responses)
      ensures if err then log.read < |responses| && responses[log.read] == Unauthorized else log.read == |responses|
      ensures version == Latest(log, responses, old(version))
      ensures log.applied == [] ==> wg.peers == old(wg.peers) && routes == old(routes) && zone == old(zone)
      ensures old(WgNet.Agrees(wg.peers, wg.dev.State())) && Followable(responses) && NoneRefused(log, responses) ==>
                WgNet.Agrees(wg.peers, wg.dev.State())
    {
      ghost var follows := WgNet.Agrees(wg.peers, wg.dev.State()) && Followable(responses);
      err, log := false, Log(0, []);
      for i := 0 to |responses|
        invariant WgNet.WellFormed(wg.dev.State()) && InStep()
        invariant !err && log.read == i && IsLog(log, responses)
        invariant version == Latest(log, responses, old(version))
        invariant log.applied == [] ==> wg.peers == old(wg.peers) && routes == old(routes) && zone == old(zone)
        invariant follows && NoneRefused(log, responses) ==> WgNet.Agrees(wg.peers, wg.dev.State())
      {
        ghost var rec, before := wg.peers, wg.dev.State();
        if responses[i].Unauthorized? {
          return true, log;
        }
        var accepted := Turn(responses[i]);
        OneMoreIsLog(log, responses, accepted, old(version));
        if follows && NoneRefused(OneMore(log, accepted), responses) {
          NoneRefusedSoFar(log, responses, accepted);
          WgNet.AgreementIsReady(rec, wg.peers, before);
        }
        log := OneMore(log, accepted);
      }
    }
  }
}
