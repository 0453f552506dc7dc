/** Who holds a tunnel, over whole runs: exclusivity, what can replace a holder,
    and how often a heartbeat has to get through. */
module Leases {
  import opened Basics
  import opened Proto
  import opened Relay
  import opened Store

  // ----------------------------------------------------- what one step can do

  ghost predicate Holder(db: Db, t: nat, instance: string) {
    t in db.leases && db.leases[t].instance == instance
  }

  /** The event is an authenticated request of the given kind by the instance
      for the tunnel. */
  ghost predicate Requests(s: Sys, e: Event, t: nat, op: Op) {
    e.Execute? && e.id in s.requests && s.requests[e.id].tunnel == t && s.requests[e.id].op == op
  }

  /** A holder loses its row only to its own release, to a rotation, or to
      another instance registering after the lease has strictly expired. */
  lemma HolderIsReplacedOnlyBy(s: Sys, e: Event, base: string, t: nat, instance: string)
    requires Holder(s.db, t, instance) && !Holder(Next(s, e, base).db, t, instance)
    ensures
      || Requests(s, e, t, Release(instance))
      || (e.Rotate? && e.tunnel == t)
      || (e.Execute? && e.id in s.requests && s.requests[e.id].tunnel == t && s.requests[e.id].op.Register?
          && s.requests[e.id].op.instance != instance && s.db.leases[t].expiresAt < s.now
          && Holder(Next(s, e, base).db, t, s.requests[e.id].op.instance))
  {
  }

  /** A request touches at most its own tunnel's row; a heartbeat or a release
      of one instance never touches the row of another; and a heartbeat keeps
      its row alive whether or not it had expired. */
  lemma RequestsStayHome(s: Sys, r: Request, t: nat)
    ensures t != r.tunnel ==>
              (t in Handle(s, r).db.leases <==> t in s.db.leases)
              && (t in s.db.leases ==> Handle(s, r).db.leases[t] == s.db.leases[t])
    ensures !r.op.Register? && !Holder(s.db, r.tunnel, r.op.instance) ==> Handle(s, r).db == s.db
    ensures r.op.Heartbeat? && Holder(s.db, r.tunnel, r.op.instance) ==>
              Handle(s, r).db.leases ==
              s.db.leases[r.tunnel := s.db.leases[r.tunnel].(expiresAt := s.now + LEASE_TTL)]
    ensures r.op.Release? && Holder(s.db, r.tunnel, r.op.instance) ==>
              Handle(s, r).db.leases == s.db.leases - {r.tunnel}
  {
  }

  /** Registering succeeds exactly when the instance is valid, no other holder's
      lease is unexpired (the very instant of expiry included) and no other
      tunnel's row has the key; the row then is the new instance's. */
  lemma RegisterSucceedsExactly(s: Sys, tunnel: nat, instance: string, pubkey: Key, version: string)
    requires tunnel in s.db.tunnels
    ensures AcquireLease(s.db, s.now, tunnel, instance, pubkey, version, LEASE_TTL).1 == OK <==>
              && (forall other :: other != instance && Holder(s.db, tunnel, other) ==>
                    s.db.leases[tunnel].expiresAt < s.now)
              && (forall t :: t in s.db.leases && t != tunnel ==> s.db.leases[t].pubkey != pubkey)
    ensures AcquireLease(s.db, s.now, tunnel, instance, pubkey, version, LEASE_TTL).1 == LeaseHeld <==>
              exists other :: other != instance && Holder(s.db, tunnel, other)
                              && s.now <= s.db.leases[tunnel].expiresAt
  {
    if tunnel in s.db.leases {
      assert Holder(s.db, tunnel, s.db.leases[tunnel].instance);
    }
  }

  // ------------------------------------------ the three changes of the table

  datatype Change =
    | Same
    | Grant(t: nat, row: Lease)
    | End(t: nat, instance: Option<string>)

  /** The change turns one lease table and its history into the other. */
  ghost predicate Changes(
      c: Change, leases: map<nat, Lease>, now: Time, ps: seq<Period>, leases': map<nat, Lease>, ps': seq<Period>)
  {
    match c
    case Same => leases' == leases && ps' == ps
    case Grant(t, row) =>
      && leases' == leases[t := row] && row.expiresAt == now + LEASE_TTL
      && ps' == ps + [Period(t, row.instance, now, row.expiresAt)]
      && (t in leases && leases[t].instance != row.instance ==> leases[t].expiresAt < now)
    case End(t, instance) =>
      && leases' == leases - {t} && ps' == Ended(ps, t, instance, now)
      && (instance.Some? ==> t in leases && leases[t].instance == instance.value)
  }

  lemma HandleChange(s: Sys, r: Request) returns (c: Change)
    ensures Changes(c, s.db.leases, s.now, s.periods, Handle(s, r).db.leases, Handle(s, r).periods)
  {
    match r.op
    case Register(instance, pubkey, version) =>
      c := if Handle(s, r) == s then Same
           else Grant(r.tunnel, Lease(instance, pubkey, version, s.now, s.now + LEASE_TTL));
    case Heartbeat(instance) =>
      c := if Holder(s.db, r.tunnel, instance)
           then Grant(r.tunnel, s.db.leases[r.tunnel].(expiresAt := s.now + LEASE_TTL)) else Same;
    case Release(instance) =>
      c := if Holder(s.db, r.tunnel, instance) then End(r.tunnel, Some(instance)) else Same;
  }

  /** Every step leaves the lease table alone, or lets time pass, or grants one
      row that was free, the instance's own or strictly expired, or ends one. */
  lemma NextChange(s: Sys, e: Event, base: string) returns (c: Change)
    requires DbInv(s.db)
    ensures var r := Next(s, e, base); Changes(c, s.db.leases, s.now, s.periods, r.db.leases, r.periods)
    ensures s.now <= Next(s, e, base).now && (c != Same ==> Next(s, e, base).now == s.now)
  {
    c := Same;
    match e
    case Execute(id) =>
      if id in s.requests {
        c := HandleChange(s, s.requests[id]);
        HandleFrame(s, s.requests[id]);
      }
    case Create(drawn, token) => CreatedGrantsNothing(s, drawn, token);
    case Rotate(tunnel, token) =>
      c := RotatedChange(s, tunnel, token);
    case _ =>
  }

  lemma CreatedGrantsNothing(s: Sys, drawn: seq<string>, token: Token)
    requires DbInv(s.db)
    ensures var r := Created(s, drawn, token);
            r.db.leases == s.db.leases && r.periods == s.periods && r.now == s.now
  {
    CreateOnlyAdds(s.db, drawn, token);
  }

  lemma RotatedChange(s: Sys, tunnel: nat, token: Token) returns (c: Change)
    ensures var r := Rotated(s, tunnel, token); Changes(c, s.db.leases, s.now, s.periods, r.db.leases, r.periods)
  {
    c := if token.id !in s.issued && RotateToken(s.db, tunnel, token).1 == OK then End(tunnel, None) else Same;
  }

  // ------------------------------------------------------------- exclusivity

  /** Grants on one tunnel to different instances never overlap in time. */
  ghost predicate Exclusive(ps: seq<Period>) {
    forall i, j :: 0 <= i < |ps| && 0 <= j < |ps| ==> Apart(ps[i], ps[j])
  }

  ghost predicate Apart(p: Period, q: Period) {
    p.tunnel == q.tunnel && p.instance != q.instance ==> p.until <= q.from || q.until <= p.from
  }

  /** Every grant was made in the past; those to anyone but the present holder
      are over, and the holder's last no longer than its row. */
  ghost predicate Covered(leases: map<nat, Lease>, now: Time, ps: seq<Period>) {
    forall i :: 0 <= i < |ps| ==> InPast(leases, now, ps[i])
  }

  ghost predicate InPast(leases: map<nat, Lease>, now: Time, p: Period) {
    && p.from <= now
    && if p.tunnel in leases && leases[p.tunnel].instance == p.instance
       then p.until <= leases[p.tunnel].expiresAt else p.until <= now
  }

  ghost predicate PeriodsInv(leases: map<nat, Lease>, now: Time, ps: seq<Period>) {
    Exclusive(ps) && Covered(leases, now, ps)
  }

  /** A row may be granted when it is free, one's own, or over. */
  lemma GrantKeepsPeriods(leases: map<nat, Lease>, now: Time, ps: seq<Period>, t: nat, row: Lease)
    requires PeriodsInv(leases, now, ps)
    requires t in leases && leases[t].instance != row.instance ==> leases[t].expiresAt <= now
    requires t in leases && leases[t].instance == row.instance ==> leases[t].expiresAt <= row.expiresAt
    requires now <= row.expiresAt
    ensures PeriodsInv(leases[t := row], now, ps + [Period(t, row.instance, now, row.expiresAt)])
  {
  }

  /** Ending the grants of the row's holder frees the row. */
  lemma EndingKeepsPeriods(leases: map<nat, Lease>, now: Time, ps: seq<Period>, t: nat, instance: Option<string>)
    requires PeriodsInv(leases, now, ps)
    requires instance.Some? && t in leases ==> leases[t].instance == instance.value
    ensures PeriodsInv(leases - {t}, now, Ended(ps, t, instance, now))
  {
  }

  lemma TimeKeepsPeriods(leases: map<nat, Lease>, now: Time, ps: seq<Period>, later: Time)
    requires PeriodsInv(leases, now, ps) && now <= later
    ensures PeriodsInv(leases, later, ps)
  {
  }

  lemma ChangeKeepsPeriods(
      c: Change, leases: map<nat, Lease>, now: Time, ps: seq<Period>, leases': map<nat, Lease>, ps': seq<Period>)
    requires PeriodsInv(leases, now, ps) && Changes(c, leases, now, ps, leases', ps')
    requires forall t :: t in leases ==> leases[t].expiresAt <= now + LEASE_TTL
    ensures PeriodsInv(leases', now, ps')
  {
    match c
    case Same =>
    case Grant(t, row) => GrantKeepsPeriods(leases, now, ps, t, row);
    case End(t, instance) => EndingKeepsPeriods(leases, now, ps, t, instance);
  }

  lemma {:induction false} RunKeepsPeriods(es: seq<Event>, base: string)
    ensures var r := Run(START, es, base); PeriodsInv(r.db.leases, r.now, r.periods)
    decreases |es|
  {
    if es != [] {
      var m, e := Run(START, es[..|es| - 1], base), es[|es| - 1];
      RunKeepsPeriods(es[..|es| - 1], base);
      Reachable(es[..|es| - 1], base);
      var c := NextChange(m, e, base);
      var r := Next(m, e, base);
      ChangeKeepsPeriods(c, m.db.leases, m.now, m.periods, r.db.leases, r.periods);
      TimeKeepsPeriods(r.db.leases, m.now, r.periods, r.now);
    }
  }

  /** In every run the grants of one tunnel to two different instances never
      overlap: each is over, by expiry, release or rotation, before the other
      begins, even though a heartbeat can revive an expired row. */
  lemma GrantsNeverOverlap(es: seq<Event>, base: string, i: nat, j: nat)
    requires i < |Run(START, es, base).periods| && j < |Run(START, es, base).periods|
    ensures var p, q := Run(START, es, base).periods[i], Run(START, es, base).periods[j];
            p.tunnel == q.tunnel && p.instance != q.instance ==> p.until <= q.from || q.until <= p.from
  {
    RunKeepsPeriods(es, base);
    assert Apart(Run(START, es, base).periods[i], Run(START, es, base).periods[j]);
  }

  // --------------------------------------------------------------- heartbeat

  /** When the instance last got the tunnel granted or renewed. */
  function LastGrant(ps: seq<Period>, t: nat, instance: string): Option<Time> {
    if ps == [] then None
    else
      var p := ps[|ps| - 1];
      if p.tunnel == t && p.instance == instance then Some(p.from) else LastGrant(ps[..|ps| - 1], t, instance)
  }

  lemma {:induction false} EndedKeepsLastGrant(
      ps: seq<Period>, u: nat, ended: Option<string>, now: Time, t: nat, instance: string)
    ensures LastGrant(Ended(ps, u, ended, now), t, instance) == LastGrant(ps, t, instance)
    decreases |ps|
  {
    if ps != [] {
      var n := |ps| - 1;
      assert Ended(ps, u, ended, now)[..n] == Ended(ps[..n], u, ended, now);
      EndedKeepsLastGrant(ps[..n], u, ended, now, t, instance);
    }
  }

  lemma GrantIsLast(ps: seq<Period>, p: Period, t: nat, instance: string)
    ensures LastGrant(ps + [p], t, instance) ==
            if p.tunnel == t && p.instance == instance then Some(p.from) else LastGrant(ps, t, instance)
  {
  }

  /** Every row runs out exactly one term after its holder's last grant. */
  ghost predicate TermInv(leases: map<nat, Lease>, ps: seq<Period>) {
    forall t :: t in leases ==> LastGrant(ps, t, leases[t].instance) == Some(leases[t].expiresAt - LEASE_TTL)
  }

  lemma ChangeKeepsTerm(
      c: Change, leases: map<nat, Lease>, now: Time, ps: seq<Period>, leases': map<nat, Lease>, ps': seq<Period>)
    requires TermInv(leases, ps) && Changes(c, leases, now, ps, leases', ps')
    ensures TermInv(leases', ps')
  {
    forall t | t in leases'
      ensures LastGrant(ps', t, leases'[t].instance) == Some(leases'[t].expiresAt - LEASE_TTL)
    {
      match c
      case Same =>
      case Grant(u, row) =>
        GrantIsLast(ps, Period(u, row.instance, now, row.expiresAt), t, leases'[t].instance);
      case End(u, instance) =>
        EndedKeepsLastGrant(ps, u, instance, now, t, leases'[t].instance);
    }
  }

  lemma {:induction false} RunKeepsTerm(s: Sys, es: seq<Event>, base: string)
    requires SysInv(s) && TermInv(s.db.leases, s.periods)
    ensures TermInv(Run(s, es, base).db.leases, Run(s, es, base).periods)
    decreases |es|
  {
    if es != [] {
      var m, e := Run(s, es[..|es| - 1], base), es[|es| - 1];
      RunKeepsTerm(s, es[..|es| - 1], base);
      RunKeepsInv(s, es[..|es| - 1], base);
      var c := NextChange(m, e, base);
      ChangeKeepsTerm(c, m.db.leases, m.now, m.periods, Next(m, e, base).db.leases, Next(m, e, base).periods);
    }
  }

  /** Neither its own release nor a rotation of the tunnel. */
  ghost predicate Undisturbed(s: Sys, e: Event, t: nat, instance: string) {
    !Requests(s, e, t, Release(instance)) && !(e.Rotate? && e.tunnel == t)
  }

  /** In every state along the run the last grant is at most `gap` old, and
      nothing ends the lease from outside. */
  ghost predicate Beats(s: Sys, es: seq<Event>, base: string, t: nat, instance: string, gap: int) {
    var r := Run(s, es, base);
    && LastGrant(r.periods, t, instance).Some? && r.now - LastGrant(r.periods, t, instance).value <= gap
    && (es != [] ==>
          && Beats(s, es[..|es| - 1], base, t, instance, gap)
          && Undisturbed(Run(s, es[..|es| - 1], base), es[|es| - 1], t, instance))
  }

  lemma {:induction false} BeatsKeepHolder(s: Sys, es: seq<Event>, base: string, t: nat, instance: string, gap: int)
    requires SysInv(s) && TermInv(s.db.leases, s.periods) && Holder(s.db, t, instance)
    requires Beats(s, es, base, t, instance, gap) && gap <= LEASE_TTL
    ensures var r := Run(s, es, base);
            Holder(r.db, t, instance) && r.db.leases[t].expiresAt >= r.now + LEASE_TTL - gap
    decreases |es|
  {
    RunKeepsTerm(s, es, base);
    if es != [] {
      var m := Run(s, es[..|es| - 1], base);
      BeatsKeepHolder(s, es[..|es| - 1], base, t, instance, gap);
      if !Holder(Run(s, es, base).db, t, instance) {
        HolderIsReplacedOnlyBy(m, es[|es| - 1], base, t, instance);
      }
    }
  }

  /** The heartbeat bound: from any reachable state on, as long as the holder's
      renewals get through at most one lease term apart, whatever else happens,
      nobody else can take the tunnel: every other registration is told that
      the lease is held. */
  lemma HeartbeatsKeepTheTunnel(past: seq<Event>, es: seq<Event>, base: string, t: nat, instance: string,
                                other: string, pubkey: Key, version: string)
    requires Holder(Run(START, past, base).db, t, instance) && other != instance
    requires Beats(Run(START, past, base), es, base, t, instance, LEASE_TTL)
    ensures var r := Run(Run(START, past, base), es, base);
            && Holder(r.db, t, instance)
            && AcquireLease(r.db, r.now, t, other, pubkey, version, LEASE_TTL) == (r.db, LeaseHeld)
  {
    var s := Run(START, past, base);
    Reachable(past, base);
    RunKeepsTerm(START, past, base);
    BeatsKeepHolder(s, es, base, t, instance, LEASE_TTL);
    RunKeepsInv(s, es, base);
  }

  lemma HolderIsInSnapshot(db: Db, now: Time, base: string, t: nat, instance: string, dns: Option<DNSZone>)
    requires DbInv(db) && Holder(db, t, instance) && db.leases[t].expiresAt > now
    ensures t in db.tunnels
    ensures ProtoPeer(Some(db.leases[t].pubkey), Some(db.tunnels[t].vpnIP)) in Config(db, now, base, dns).peers
  {
    PeersBelowMembers(db, now, db.nextTunnel, PeerOf(db, t));
  }

  /** When they are strictly less than a term apart, the holder's key is also in
      every snapshot taken meanwhile. */
  lemma HeartbeatsKeepTheSnapshot(past: seq<Event>, es: seq<Event>, base: string, t: nat, instance: string,
                                  gap: int, dns: Option<DNSZone>)
    requires Holder(Run(START, past, base).db, t, instance) && gap < LEASE_TTL
    requires Beats(Run(START, past, base), es, base, t, instance, gap)
    ensures var r := Run(Run(START, past, base), es, base);
            && Holder(r.db, t, instance) && t in r.db.tunnels
            && ProtoPeer(Some(r.db.leases[t].pubkey), Some(r.db.tunnels[t].vpnIP))
                 in Config(r.db, r.now, base, dns).peers
  {
    var s := Run(START, past, base);
    Reachable(past, base);
    RunKeepsTerm(START, past, base);
    BeatsKeepHolder(s, es, base, t, instance, gap);
    RunKeepsInv(s, es, base);
    var r := Run(s, es, base);
    HolderIsInSnapshot(r.db, r.now, base, t, instance, dns);
  }

  /** The bound is sharp for snapshots: exactly one term after its last grant a
      holder is in no snapshot, yet still cannot be replaced. */
  lemma AtTheInstantOfExpiry(past: seq<Event>, base: string, t: nat, instance: string,
                             other: string, pubkey: Key, version: string, dns: Option<DNSZone>)
    requires Holder(Run(START, past, base).db, t, instance) && other != instance
    requires var s := Run(START, past, base); LastGrant(s.periods, t, instance) == Some(s.now - LEASE_TTL)
    ensures var s := Run(START, past, base);
            && AcquireLease(s.db, s.now, t, other, pubkey, version, LEASE_TTL).1 == LeaseHeld
            && t in s.db.tunnels && PeerOf(s.db, t) !in Config(s.db, s.now, base, dns).peers
  {
    var s := Run(START, past, base);
    Reachable(past, base);
    RunKeepsTerm(START, past, base);
    assert s.db.leases[t].expiresAt == s.now;
    forall u: nat | Live(s.db, s.now, u) ensures PeerOf(s.db, t) != PeerOf(s.db, u) {
      assert u != t;
    }
    PeersBelowMembers(s.db, s.now, s.db.nextTunnel, PeerOf(s.db, t));
  }
}
