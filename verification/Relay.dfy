/** The control plane, its authenticated requests in flight and the nodes'
    stale snapshots as one step machine: internal/api/api.go (agent, register,
    heartbeat, release, nodeConfig) over internal/store/store.go, and
    internal/node/node.go syncLoop seen from outside.

    Authenticating a request and executing its statement are two steps, with
    anything in between. A step that is not possible in a state changes
    nothing, so every sequence of events is a run. */
module Relay {
  import AddressPool
  import opened Basics
  import Node
  import opened Proto
  import opened Store
  import WgNet

  const LEASE_TTL: int := 45_000_000

  datatype Op =
    | Register(instance: string, pubkey: Key, version: string)
    | Heartbeat(instance: string)
    | Release(instance: string)

  datatype Request = Request(token: Token, tunnel: nat, op: Op)

  /** A node as its sync loop sees itself: the recorded peers and routes, the
      version it will send, and the answer on its way. `appliedAt` and
      `askedAt` number the steps at which the control plane took the snapshot
      in use and the one on its way. */
  datatype NodeView = NodeView(
    version: Option<NodeConfig>, record: WgNet.Record, routes: Node.Routes, appliedAt: nat,
    answer: Option<NodeConfig>, askedAt: nat)

  const NEW_NODE := NodeView(None, map[], map[], 0, None, 0)

  /** A grant of a tunnel to an instance, until it runs out or is ended. */
  datatype Period = Period(tunnel: nat, instance: string, from: Time, until: Time)

  datatype Sys = Sys(
    steps: nat, now: Time, db: Db,
    requests: map<nat, Request>,
    nodes: map<nat, NodeView>,
    issued: set<string>,       // token ids ever drawn
    makers: map<nat, Token>,   // the token whose registration made each lease
    periods: seq<Period>)

  const START := Sys(0, 0, EMPTY_DB, map[], map[], {}, map[], [])

  datatype Event =
    | Tick(elapsed: nat)
    | Authenticate(id: nat, token: Token, op: Op)
    | Execute(id: nat)
    | Abandon(id: nat)
    | Create(drawn: seq<string>, token: Token)
    | Rotate(tunnel: nat, token: Token)
    | Poll(node: nat, dns: Option<DNSZone>)  // the handler reads a snapshot
    | Lose(node: nat)                        // the answer is lost
    | Apply(node: nat, accepted: bool)
    | Restart(node: nat)

  function Ended(ps: seq<Period>, tunnel: nat, instance: Option<string>, now: Time): (r: seq<Period>)
    ensures |r| == |ps|
  {
    seq(|ps|, i requires 0 <= i < |ps| =>
      if ps[i].tunnel == tunnel && (instance.None? || ps[i].instance == instance.value) && now < ps[i].until
      then ps[i].(until := now) else ps[i])
  }

  predicate ValidInstance(id: string) {
    id != "" && |id| <= 64
  }

  /** The handler of an authenticated request. */
  function Handle(s: Sys, r: Request): Sys {
    match r.op
    case Register(instance, pubkey, version) =>
      if !ValidInstance(instance) then s
      else
        var (db, status) := AcquireLease(s.db, s.now, r.tunnel, instance, pubkey, version, LEASE_TTL);
        if status == OK then Granted(s, db, r.tunnel, instance).(makers := s.makers[r.tunnel := r.token]) else s
    case Heartbeat(instance) =>
      var (db, status) := RenewLease(s.db, s.now, r.tunnel, instance, LEASE_TTL);
      if status == OK then Granted(s, db, r.tunnel, instance) else s
    case Release(instance) =>
      var db := ReleaseLease(s.db, r.tunnel, instance);
      if db == s.db then s
      else s.(db := db, periods := Ended(s.periods, r.tunnel, Some(instance), s.now))
  }

  function Granted(s: Sys, db: Db, tunnel: nat, instance: string): Sys {
    s.(db := db, periods := s.periods + [Period(tunnel, instance, s.now, s.now + LEASE_TTL)])
  }

  function ViewOf(s: Sys, node: nat): NodeView {
    if node in s.nodes then s.nodes[node] else NEW_NODE
  }

  /** The node side of an event, for the node it concerns. */
  function NodeStep(s: Sys, v: NodeView, e: Event, base: string): NodeView {
    match e
    case Poll(_, dns) =>
      var cfg := Config(s.db, s.now, base, dns);
      if v.answer.None? && v.version != Some(cfg) then v.(answer := Some(cfg), askedAt := s.steps) else v
    case Lose(_) => v.(answer := None)
    case Apply(_, accepted) =>
      if v.answer.None? then v
      else if accepted && Node.Parses(v.answer.value) then
        NodeView(v.answer, Node.RecordOf(v.answer.value), Node.RouteTable(v.answer.value), v.askedAt, None, v.askedAt)
      else v.(answer := None)
    case Restart(_) => NodeView(None, map[], map[], v.appliedAt, None, v.askedAt)
    case _ => v
  }

  /** The instance name is whatever the client says; nothing ties it to the
      token. */
  function Authenticated(s: Sys, id: nat, token: Token, op: Op): Sys {
    var tunnel := AuthAgent(s.db, token);
    if id in s.requests || tunnel.None? then s
    else s.(requests := s.requests[id := Request(token, tunnel.value, op)])
  }

  function Executed(s: Sys, id: nat): Sys {
    if id in s.requests then Handle(s, s.requests[id]).(requests := s.requests - {id}) else s
  }

  /** Token ids are drawn at random and never repeat. */
  function Created(s: Sys, drawn: seq<string>, token: Token): Sys {
    if token.id in s.issued || exists i :: 0 <= i < |drawn| && !PlainLabel(drawn[i]) then s
    else s.(db := CreateTunnel(s.db, drawn, token).0, issued := s.issued + {token.id})
  }

  function Rotated(s: Sys, tunnel: nat, token: Token): Sys {
    if token.id in s.issued then s
    else
      var (db, status) := RotateToken(s.db, tunnel, token);
      if status == OK then
        s.(db := db, issued := s.issued + {token.id}, periods := Ended(s.periods, tunnel, None, s.now))
      else s.(issued := s.issued + {token.id})
  }

  function Effect(s: Sys, e: Event, base: string): Sys {
    match e
    case Tick(elapsed) => s.(now := s.now + elapsed)
    case Authenticate(id, token, op) => Authenticated(s, id, token, op)
    case Execute(id) => Executed(s, id)
    case Abandon(id) => s.(requests := s.requests - {id})
    case Create(drawn, token) => Created(s, drawn, token)
    case Rotate(tunnel, token) => Rotated(s, tunnel, token)
    case _ => s.(nodes := s.nodes[e.node := NodeStep(s, ViewOf(s, e.node), e, base)])
  }

  function Next(s: Sys, e: Event, base: string): Sys {
    Effect(s, e, base).(steps := s.steps + 1)
  }

  function Run(s: Sys, es: seq<Event>, base: string): Sys {
    if es == [] then s else Next(Run(s, es[..|es| - 1], base), es[|es| - 1], base)
  }

  lemma {:induction false} RunConcat(s: Sys, es: seq<Event>, fs: seq<Event>, base: string)
    ensures Run(s, es + fs, base) == Run(Run(s, es, base), fs, base)
    decreases |fs|
  {
    if fs == [] {
      assert es + fs == es;
    } else {
      var n := |fs| - 1;
      assert (es + fs)[..|es| + n] == es + fs[..n];
      RunConcat(s, es, fs[..n], base);
    }
  }

  lemma {:induction false} StepsCount(s: Sys, es: seq<Event>, base: string)
    ensures Run(s, es, base).steps == s.steps + |es|
    decreases |es|
  {
    if es != [] {
      StepsCount(s, es[..|es| - 1], base);
    }
  }

  // -------------------------------------------------------------- invariant

  /** What every reachable state keeps, beside the database's own invariant:
      tokens and requests carry drawn ids, every lease was registered with some
      token, and no lease outlives the present by more than its term. */
  ghost predicate SysInv(s: Sys) {
    DbInv(s.db) && AuthInv(s.db, s.now, s.requests, s.issued, s.makers)
  }

  ghost predicate AuthInv(
      db: Db, now: Time, requests: map<nat, Request>, issued: set<string>, makers: map<nat, Token>) {
    && (forall id :: id in db.tokens ==> id in issued)
    && (forall k :: k in requests ==> RequestInv(db, issued, requests[k]))
    && (forall t :: t in db.leases ==> t in makers && db.leases[t].expiresAt <= now + LEASE_TTL)
  }

  ghost predicate RequestInv(db: Db, issued: set<string>, r: Request) {
    r.token.id in issued && r.tunnel in db.tunnels
  }

  lemma GrantKeepsInv(s: Sys, db: Db, tunnel: nat, instance: string, makers: map<nat, Token>)
    requires SysInv(s) && DbInv(db)
    requires db.tunnels == s.db.tunnels && db.tokens == s.db.tokens
    requires tunnel in db.leases && db.leases == s.db.leases[tunnel := db.leases[tunnel]]
    requires db.leases[tunnel].expiresAt == s.now + LEASE_TTL
    requires makers.Keys == s.makers.Keys + {tunnel}
    ensures SysInv(Granted(s, db, tunnel, instance).(makers := makers))
  {
    forall k | k in s.requests ensures RequestInv(db, s.issued, s.requests[k]) {
      assert RequestInv(s.db, s.issued, s.requests[k]);
    }
  }

  lemma RegisterKeepsInv(s: Sys, r: Request)
    requires SysInv(s) && RequestInv(s.db, s.issued, r) && r.op.Register?
    ensures SysInv(Handle(s, r))
  {
    var Register(instance, pubkey, version) := r.op;
    AcquireKeepsInv(s.db, s.now, r.tunnel, instance, pubkey, version, LEASE_TTL);
    var (db, status) := AcquireLease(s.db, s.now, r.tunnel, instance, pubkey, version, LEASE_TTL);
    if status == OK {
      GrantKeepsInv(s, db, r.tunnel, instance, s.makers[r.tunnel := r.token]);
    }
  }

  lemma HeartbeatKeepsInv(s: Sys, r: Request)
    requires SysInv(s) && RequestInv(s.db, s.issued, r) && r.op.Heartbeat?
    ensures SysInv(Handle(s, r))
  {
    RenewKeepsInv(s.db, s.now, r.tunnel, r.op.instance, LEASE_TTL);
    var (db, status) := RenewLease(s.db, s.now, r.tunnel, r.op.instance, LEASE_TTL);
    if status == OK {
      assert Granted(s, db, r.tunnel, r.op.instance) == Granted(s, db, r.tunnel, r.op.instance).(makers := s.makers);
      GrantKeepsInv(s, db, r.tunnel, r.op.instance, s.makers);
    }
  }

  lemma HandleKeepsInv(s: Sys, r: Request)
    requires SysInv(s) && RequestInv(s.db, s.issued, r)
    ensures SysInv(Handle(s, r))
  {
    match r.op
    case Register(_, _, _) => RegisterKeepsInv(s, r);
    case Heartbeat(_) => HeartbeatKeepsInv(s, r);
    case Release(instance) => ReleaseKeepsInv(s.db, r.tunnel, instance);
  }

  lemma HandleFrame(s: Sys, r: Request)
    ensures var h := Handle(s, r);
            && h.requests == s.requests && h.now == s.now && h.issued == s.issued
            && h.nodes == s.nodes && h.steps == s.steps
            && h.db == s.db.(leases := h.db.leases)
  {
  }

  lemma ExecutedKeepsInv(s: Sys, id: nat)
    requires SysInv(s)
    ensures SysInv(Executed(s, id))
  {
    if id in s.requests {
      HandleKeepsInv(s, s.requests[id]);
      HandleFrame(s, s.requests[id]);
    }
  }

  lemma CreatedKeepsInv(s: Sys, drawn: seq<string>, token: Token)
    requires SysInv(s)
    ensures SysInv(Created(s, drawn, token))
  {
    if Created(s, drawn, token) != s {
      CreateKeepsInv(s.db, drawn, token);
      CreateOnlyAdds(s.db, drawn, token);
    }
  }

  lemma RotateKeepsAuthInv(db: Db, now: Time, requests: map<nat, Request>, issued: set<string>,
                           makers: map<nat, Token>, tunnel: nat, token: Token)
    requires AuthInv(db, now, requests, issued, makers)
    ensures AuthInv(RotateToken(db, tunnel, token).0, now, requests, issued + {token.id}, makers)
  {
  }

  lemma RotatedKeepsInv(s: Sys, tunnel: nat, token: Token)
    requires SysInv(s)
    ensures SysInv(Rotated(s, tunnel, token))
  {
    RotateKeepsInv(s.db, tunnel, token);
    RotateKeepsAuthInv(s.db, s.now, s.requests, s.issued, s.makers, tunnel, token);
  }

  lemma AuthenticTokenIsKnown(db: Db, tok: Token)
    requires DbInv(db) && AuthAgent(db, tok).Some?
    ensures AuthAgent(db, tok).value in db.tunnels && tok.id in db.tokens
  {
  }

  lemma AuthenticatedKeepsInv(s: Sys, id: nat, token: Token, op: Op)
    requires SysInv(s)
    ensures SysInv(Authenticated(s, id, token, op))
  {
    if AuthAgent(s.db, token).Some? {
      AuthenticTokenIsKnown(s.db, token);
    }
  }

  lemma TimeKeepsInv(s: Sys, elapsed: nat, id: nat)
    requires SysInv(s)
    ensures SysInv(s.(now := s.now + elapsed)) && SysInv(s.(requests := s.requests - {id}))
  {
  }

  lemma NextKeepsInv(s: Sys, e: Event, base: string)
    requires SysInv(s)
    ensures SysInv(Next(s, e, base))
  {
    match e
    case Tick(elapsed) => TimeKeepsInv(s, elapsed, 0);
    case Authenticate(id, token, op) => AuthenticatedKeepsInv(s, id, token, op);
    case Abandon(id) => TimeKeepsInv(s, 0, id);
    case Execute(id) => ExecutedKeepsInv(s, id);
    case Create(drawn, token) => CreatedKeepsInv(s, drawn, token);
    case Rotate(tunnel, token) => RotatedKeepsInv(s, tunnel, token);
    case _ =>
  }

  lemma CreateOnlyAdds(db: Db, drawn: seq<string>, tok: Token)
    requires DbInv(db)
    ensures var r := CreateTunnel(db, drawn, tok).0;
            && (forall t :: t in db.tunnels ==> t in r.tunnels && r.tunnels[t] == db.tunnels[t])
            && r.leases == db.leases
            && (forall id :: id in r.tokens ==> id in db.tokens || id == tok.id)
            && (forall id :: id in db.tokens ==> id in r.tokens && r.tokens[id] == db.tokens[id])
  {
    if Planned(db, drawn, tok).Some? {
      PlannedIsFree(db, drawn, tok);
    }
  }

  lemma {:induction false} RunKeepsInv(s: Sys, es: seq<Event>, base: string)
    requires SysInv(s)
    ensures SysInv(Run(s, es, base))
    decreases |es|
  {
    if es != [] {
      RunKeepsInv(s, es[..|es| - 1], base);
      NextKeepsInv(Run(s, es[..|es| - 1], base), es[|es| - 1], base);
    }
  }

  ghost predicate Extends(tunnels: map<nat, Tunnel>, later: map<nat, Tunnel>) {
    forall t :: t in tunnels ==> t in later && later[t] == tunnels[t]
  }

  lemma NextTunnels(s: Sys, e: Event, base: string)
    ensures Next(s, e, base).db.tunnels ==
            if e.Create? then Created(s, e.drawn, e.token).db.tunnels else s.db.tunnels
  {
    if e.Execute? && e.id in s.requests {
      HandleFrame(s, s.requests[e.id]);
    }
  }

  lemma NextTimeAndIds(s: Sys, e: Event, base: string)
    ensures s.now <= Next(s, e, base).now && s.issued <= Next(s, e, base).issued
  {
    if e.Execute? && e.id in s.requests {
      HandleFrame(s, s.requests[e.id]);
    }
  }

  lemma NextTunnelsOnlyGrow(s: Sys, e: Event, base: string)
    requires DbInv(s.db)
    ensures Extends(s.db.tunnels, Next(s, e, base).db.tunnels)
  {
    NextTunnels(s, e, base);
    if e.Create? {
      CreateOnlyAdds(s.db, e.drawn, e.token);
    }
  }

  /** Time and the drawn ids only grow, and tunnels are never changed or
      removed. */
  lemma {:induction false} TunnelsOnlyGrow(s: Sys, es: seq<Event>, base: string)
    requires SysInv(s)
    ensures var r := Run(s, es, base);
            s.now <= r.now && s.issued <= r.issued && Extends(s.db.tunnels, r.db.tunnels)
    decreases |es|
  {
    if es != [] {
      var m := Run(s, es[..|es| - 1], base);
      TunnelsOnlyGrow(s, es[..|es| - 1], base);
      RunKeepsInv(s, es[..|es| - 1], base);
      NextTunnelsOnlyGrow(m, es[|es| - 1], base);
      NextTimeAndIds(m, es[|es| - 1], base);
    }
  }

  lemma Reachable(es: seq<Event>, base: string)
    ensures SysInv(Run(START, es, base))
  {
    RunKeepsInv(START, es, base);
  }

  /** In every run no two tunnels share an address or a subdomain, and no
      tunnel has a node's gateway address. */
  lemma TunnelAddresses(es: seq<Event>, base: string, t: nat, u: nat)
    requires t in Run(START, es, base).db.tunnels && u in Run(START, es, base).db.tunnels
    ensures var tunnels := Run(START, es, base).db.tunnels;
            && (t != u ==> tunnels[t].vpnIP != tunnels[u].vpnIP && tunnels[t].subdomain != tunnels[u].subdomain)
            && AddressPool.InPrefix(AddressPool.CLIENT_POOL, tunnels[t].vpnIP)
            && !AddressPool.InPrefix(AddressPool.GATEWAYS, tunnels[t].vpnIP)
  {
    Reachable(es, base);
    var db := Run(START, es, base).db;
    assert FromPool(db.tunnels[t].vpnIP, db.nextIP);
    var off :| 2 <= off < db.nextIP && AddressPool.Offset(AddressPool.CLIENT_POOL, off) == Some(db.tunnels[t].vpnIP);
    AddressPool.PoolSizes();
    AddressPool.OffsetStaysInside(AddressPool.CLIENT_POOL, off);
    AddressPool.ClientsAreNotGateways(off);
  }
}
