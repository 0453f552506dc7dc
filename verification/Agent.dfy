/** internal/agent/agent.go setNodes and isGateway: the nodes an agent accepts
    tunnel connections from, against the WireGuard peers it configures for
    them. */
module Agent {
  import opened Basics
  import opened WgNet

  /** A node as the control plane lists it; None stands for text the agent
      cannot parse, or an endpoint it cannot resolve. */
  datatype NodeInfo = NodeInfo(
    name: string, publicKey: Option<Key>, gateway: Option<IPv4>, endpoint: Option<string>)

  const KEEPALIVE := 25

  predicate Usable(n: NodeInfo) {
    n.publicKey.Some? && n.gateway.Some? && n.endpoint.Some?
  }

  function AsPeer(n: NodeInfo): ListedPeer
    requires Usable(n)
  {
    ListedPeer(n.publicKey.value, Peer(n.gateway.value, n.endpoint, KEEPALIVE))
  }

  function Listed(list: seq<NodeInfo>): seq<ListedPeer> {
    if list == [] then []
    else
      var n := list[|list| - 1];
      Listed(list[..|list| - 1]) + if Usable(n) then [AsPeer(n)] else []
  }

  function ByKey(list: seq<NodeInfo>): map<Key, NodeInfo> {
    if list == [] then map[]
    else
      var n, before := list[|list| - 1], ByKey(list[..|list| - 1]);
      if Usable(n) then before[n.publicKey.value := n] else before
  }

  function Gateways(list: seq<NodeInfo>): set<IPv4> {
    set n | n in list && Usable(n) :: n.gateway.value
  }

  /** The node whose error is reported: each error replaces the one before. */
  function LastBad(list: seq<NodeInfo>): Option<NodeInfo> {
    if list == [] then None
    else if !Usable(list[|list| - 1]) then Some(list[|list| - 1])
    else LastBad(list[..|list| - 1])
  }

  // ------------------------------------------------------------- its meaning

  /** UNIQUE(gateway_ip): no two listed nodes have the same gateway. */
  ghost predicate OneGatewayEach(list: seq<NodeInfo>) {
    forall i, j :: 0 <= i < j < |list| && Usable(list[i]) && Usable(list[j]) ==> list[i].gateway != list[j].gateway
  }

  /** Nothing in the schema makes the nodes' keys unique. */
  ghost predicate OneKeyEach(list: seq<NodeInfo>) {
    forall i, j :: 0 <= i < j < |list| && Usable(list[i]) && Usable(list[j]) ==> list[i].publicKey != list[j].publicKey
  }

  /** The record's peers are the nodes by key, each with its node's gateway. */
  lemma {:induction false} PeersAreNodes(list: seq<NodeInfo>)
    ensures Wanted(Listed(list)).Keys == ByKey(list).Keys
    ensures forall k :: k in ByKey(list) ==>
              && ByKey(list)[k] in list && Usable(ByKey(list)[k])
              && AsPeer(ByKey(list)[k]) == ListedPeer(k, Wanted(Listed(list))[k])
    decreases |list|
  {
    if list != [] {
      var init, n := list[..|list| - 1], list[|list| - 1];
      PeersAreNodes(init);
      if Usable(n) {
        assert Listed(list)[..|Listed(init)|] == Listed(init);
      } else {
        assert Listed(list) == Listed(init);
      }
    }
  }

  lemma DistinctGateways(list: seq<NodeInfo>)
    requires OneGatewayEach(list)
    ensures Distinct(Wanted(Listed(list)))
  {
    PeersAreNodes(list);
    var want, nodes := Wanted(Listed(list)), ByKey(list);
    forall j, k | j in want && k in want && j != k ensures want[j].allowedIP != want[k].allowedIP {
      assert nodes[j] in list && nodes[k] in list && nodes[j] != nodes[k];
    }
  }

  /** A device that agrees with the record takes packets from an address only
      of a listed node, with that node's key, and the address is a gateway. */
  lemma SourceIsListedNode(list: seq<NodeInfo>, d: DeviceState, ip: IPv4)
    requires Agrees(Wanted(Listed(list)), d) && ip in d.owner
    ensures ip in Gateways(list)
    ensures exists n :: n in list && Usable(n) && n.gateway == Some(ip) && n.publicKey == Some(d.owner[ip])
  {
    PeersAreNodes(list);
    assert ByKey(list)[d.owner[ip]].gateway == Some(ip);
  }

  /** A gateway the device lets in is the one recorded for its node's key. */
  lemma OwnedGatewayIsRecorded(list: seq<NodeInfo>, d: DeviceState, n: NodeInfo)
    requires OneGatewayEach(list) && Agrees(Wanted(Listed(list)), d)
    requires n in list && Usable(n)
    ensures n.gateway.value in d.owner ==>
              && d.owner[n.gateway.value] == n.publicKey.value
              && n.publicKey.value in Wanted(Listed(list))
              && Wanted(Listed(list))[n.publicKey.value].allowedIP == n.gateway.value
  {
    PeersAreNodes(list);
    if n.gateway.value in d.owner {
      var m := ByKey(list)[d.owner[n.gateway.value]];
      assert m in list && Usable(m) && m.gateway == n.gateway;
      assert m == n;
    }
  }

  lemma {:induction false} KeysAreListed(list: seq<NodeInfo>, n: NodeInfo)
    requires n in list && Usable(n)
    ensures n.publicKey.value in ByKey(list)
    decreases |list|
  {
    var init, last := list[..|list| - 1], list[|list| - 1];
    assert list == init + [last];
    if n in init {
      KeysAreListed(init, n);
    }
  }

  lemma NodeIsKept(list: seq<NodeInfo>, n: NodeInfo)
    requires OneKeyEach(list) && n in list && Usable(n)
    ensures n.publicKey.value in ByKey(list) && ByKey(list)[n.publicKey.value] == n
  {
  }

  lemma DistinctKeysLoseNothing(list: seq<NodeInfo>, d: DeviceState, n: NodeInfo)
    requires OneKeyEach(list) && Agrees(Wanted(Listed(list)), d) && n in list && Usable(n)
    ensures n.gateway.value in d.owner
  {
    PeersAreNodes(list);
    NodeIsKept(list, n);
  }

  lemma SharedKeyLosesGateway(list: seq<NodeInfo>, d: DeviceState, m: NodeInfo, n: NodeInfo)
    requires OneGatewayEach(list) && Agrees(Wanted(Listed(list)), d)
    requires m in list && n in list && Usable(m) && Usable(n) && m.publicKey == n.publicKey && m.gateway != n.gateway
    ensures m.gateway.value !in d.owner || n.gateway.value !in d.owner
  {
    OwnedGatewayIsRecorded(list, d, m);
    OwnedGatewayIsRecorded(list, d, n);
  }

  /** The addresses the agent accepts connections from are exactly those its
      device lets in if and only if no two listed nodes share a key. */
  lemma GatewaysAreThePeers(list: seq<NodeInfo>, d: DeviceState)
    requires OneGatewayEach(list) && Agrees(Wanted(Listed(list)), d)
    ensures Gateways(list) == d.owner.Keys <==> OneKeyEach(list)
  {
    forall ip | ip in d.owner ensures ip in Gateways(list) {
      SourceIsListedNode(list, d, ip);
    }
    if OneKeyEach(list) {
      forall n | n in list && Usable(n) ensures n.gateway.value in d.owner {
        DistinctKeysLoseNothing(list, d, n);
      }
    } else {
      var i, j :| 0 <= i < j < |list| && Usable(list[i]) && Usable(list[j]) && list[i].publicKey == list[j].publicKey;
      SharedKeyLosesGateway(list, d, list[i], list[j]);
      assert list[i].gateway.value in Gateways(list) && list[j].gateway.value in Gateways(list);
    }
  }

  /** Exactly the nodes whose key, gateway and endpoint can all be used are
      peers, and a device that follows the record has each of them with its
      endpoint, a keepalive of 25 seconds and its gateway's address. */
  lemma NodesArePeered(list: seq<NodeInfo>, d: DeviceState, k: Key)
    requires Agrees(Wanted(Listed(list)), d)
    ensures k in d.peers <==>
              exists n :: n in list && n.publicKey == Some(k) && n.gateway.Some? && n.endpoint.Some?
    ensures k in d.peers ==>
              exists n :: && n in list && n.publicKey == Some(k) && n.gateway.Some?
                          && d.peers[k] == DevicePeer(25, n.endpoint)
                          && n.gateway.value in d.owner && d.owner[n.gateway.value] == k
  {
    PeersAreNodes(list);
    if k in d.peers {
      var n := ByKey(list)[k];
      assert n in list && Usable(n) && AsPeer(n) == ListedPeer(k, Wanted(Listed(list))[k]);
      assert d.peers[k] == DevicePeer(25, n.endpoint);
    }
    if n :| n in list && n.publicKey == Some(k) && n.gateway.Some? && n.endpoint.Some? {
      KeysAreListed(list, n);
    }
  }

  /** Something is reported exactly when a node cannot be used, and it is the
      last such node. */
  lemma {:induction false} LastBadExactly(list: seq<NodeInfo>)
    ensures LastBad(list).None? <==>
              forall n :: n in list ==> n.publicKey.Some? && n.gateway.Some? && n.endpoint.Some?
    ensures LastBad(list).Some? ==>
              exists i :: && 0 <= i < |list| && LastBad(list) == Some(list[i]) && !Usable(list[i])
                          && forall j :: i < j < |list| ==> Usable(list[j])
    decreases |list|
  {
    if list != [] {
      var init, n := list[..|list| - 1], list[|list| - 1];
      assert list == init + [n];
      LastBadExactly(init);
      if Usable(n) && LastBad(init).Some? {
        var i :| && 0 <= i < |init| && LastBad(init) == Some(init[i]) && !Usable(init[i])
                 && forall j :: i < j < |init| ==> Usable(init[j]);
        assert list[i] == init[i];
        assert forall j :: i < j < |list| ==> j == |init| || list[j] == init[j];
      }
    }
  }

  // -------------------------------------------------------- the Go methods

  datatype Result = Done | Skipped(node: NodeInfo) | DeviceFailed

  class Tunnel {
    const wg: Net
    var nodes: map<Key, NodeInfo>
    var gateways: set<IPv4>
    /** The list last applied. */
    ghost var applied: seq<NodeInfo>

    constructor ()
      ensures fresh(wg) && fresh(wg.dev) && InStep()
      ensures WellFormed(wg.dev.State()) && Agrees(wg.peers, wg.dev.State())
    {
      wg := new Net();
      nodes, gateways, applied := map[], {}, [];
    }

    /** Peers, nodes and gateways are all of one list. */
    ghost predicate InStep()
      reads this, wg
    {
      wg.peers == Wanted(Listed(applied)) && nodes == ByKey(applied) && gateways == Gateways(applied)
    }

    method Collect(list: seq<NodeInfo>)
      returns (peers: seq<ListedPeer>, byKey: map<Key, NodeInfo>, gws: set<IPv4>, bad: Option<NodeInfo>)
      ensures peers == Listed(list) && byKey == ByKey(list) && gws == Gateways(list) && bad == LastBad(list)
    {
      peers, byKey, gws, bad := [], map[], {}, None;
      for i := 0 to |list|
        invariant peers == Listed(list[..i]) && byKey == ByKey(list[..i])
        invariant gws == Gateways(list[..i]) && bad == LastBad(list[..i])
      {
        var n := list[i];
        assert list[..i + 1] == list[..i] + [n] && list[..i + 1][..i] == list[..i];
        if !Usable(n) {
          bad := Some(n);
          assert Gateways(list[..i + 1]) == Gateways(list[..i]);
          continue;
        }
        assert Gateways(list[..i + 1]) == Gateways(list[..i]) + {n.gateway.value};
        peers := peers + [AsPeer(n)];
        byKey := byKey[n.publicKey.value := n];
        gws := gws + {n.gateway.value};
      }
      assert list[..|list|] == list;
    }

    /** Nodes that cannot be used are skipped and the rest applied; when the
        device refuses, nothing the agent goes by changes. */
    method SetNodes(list: seq<NodeInfo>) returns (result: Result)
      requires WellFormed(wg.dev.State()) && InStep()
      modifies this, wg`peers, wg.dev
      ensures WellFormed(wg.dev.State()) && InStep()
      ensures applied == if result.DeviceFailed? then old(applied) else list
      ensures !result.DeviceFailed? ==>
                result == (if LastBad(list).Some? then Skipped(LastBad(list).value) else Done)
      ensures !result.DeviceFailed? ==>
                (Agrees(wg.peers, wg.dev.State()) <==>
                 Distinct(wg.peers) && Ready(old(wg.peers), wg.peers, old(wg.dev.State())))
      ensures old(Agrees(wg.peers, wg.dev.State())) && OneGatewayEach(list) && !result.DeviceFailed? ==>
                && Agrees(wg.peers, wg.dev.State())
                && (gateways == wg.dev.owner.Keys <==> OneKeyEach(list))
    {
      var peers, byKey, gws, bad := Collect(list);
      ghost var rec, before := wg.peers, wg.dev.State();
      var err;
      ghost var attempt;
      err, attempt := wg.SetPeers(peers);
      if err {
        return DeviceFailed;
      }
      nodes, gateways, applied := byKey, gws, list;
      result := if bad.Some? then Skipped(bad.value) else Done;
      if Agrees(rec, before) && OneGatewayEach(list) {
        AgreementIsReady(rec, wg.peers, before);
        DistinctGateways(list);
        GatewaysAreThePeers(list, wg.dev.State());
      }
    }

    /** None stands for a remote address that is not an address and a port. */
    method IsGateway(remote: Option<IPv4>) returns (r: bool)
      requires InStep()
      ensures r <==> remote.Some? && exists n :: n in applied && Usable(n) && n.gateway == remote
    {
      if remote.None? {
        return false;
      }
      return remote.value in gateways;
    }
  }
}
