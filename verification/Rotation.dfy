/** Rotating a token: internal/store/store.go RotateToken against requests that
    were authenticated before it (internal/api/api.go agent). */
module Rotation {
  import opened AddressPool
  import opened Basics
  import opened Leases
  import opened Relay
  import opened Store

  /** The token was issued once and is not in the table any more. */
  ghost predicate Dead(s: Sys, tok: Token) {
    tok.id in s.issued && tok.id !in s.db.tokens
  }

  ghost predicate Drained(s: Sys, tok: Token) {
    forall k :: k in s.requests ==> s.requests[k].token != tok
  }

  /** The tunnel's lease is there and was registered with the token. */
  ghost predicate HeldWith(s: Sys, t: nat, tok: Token) {
    t in s.db.leases && t in s.makers && s.makers[t] == tok
  }

  /** A registration of the tunnel that was authenticated with the token. */
  ghost predicate Registers(r: Request, t: nat, tok: Token) {
    r.token == tok && r.tunnel == t && r.op.Register? && ValidInstance(r.op.instance)
  }

  /** Such a registration is still to be executed. */
  ghost predicate Pending(s: Sys, t: nat, tok: Token) {
    exists k :: k in s.requests && Registers(s.requests[k], t, tok)
  }

  lemma RotateKillsTokens(s: Sys, tunnel: nat, newTok: Token, tok: Token)
    requires SysInv(s) && AuthAgent(s.db, tok) == Some(tunnel)
    requires newTok.id !in s.issued
    ensures RotateToken(s.db, tunnel, newTok).1 == OK
    ensures Dead(Rotated(s, tunnel, newTok), tok)
    ensures tunnel !in Rotated(s, tunnel, newTok).db.leases
    ensures AuthAgent(Rotated(s, tunnel, newTok).db, newTok) == Some(tunnel)
  {
    assert tok.id in TokensOf(s.db.tokens, tunnel);
  }

  lemma CreatedKeepsDead(s: Sys, drawn: seq<string>, token: Token, tok: Token)
    requires DbInv(s.db) && Dead(s, tok)
    ensures Dead(Created(s, drawn, token), tok)
  {
    CreateOnlyAdds(s.db, drawn, token);
  }

  lemma RotatedKeepsDead(s: Sys, tunnel: nat, token: Token, tok: Token)
    requires Dead(s, tok)
    ensures Dead(Rotated(s, tunnel, token), tok)
  {
  }

  lemma NextKeepsDead(s: Sys, e: Event, base: string, tok: Token)
    requires DbInv(s.db) && Dead(s, tok)
    ensures Dead(Next(s, e, base), tok)
  {
    match e
    case Execute(id) =>
      if id in s.requests {
        HandleFrame(s, s.requests[id]);
      }
    case Create(drawn, token) => CreatedKeepsDead(s, drawn, token, tok);
    case Rotate(tunnel, token) => RotatedKeepsDead(s, tunnel, token, tok);
    case _ =>
  }

  lemma {:induction false} RunKeepsDead(s: Sys, es: seq<Event>, base: string, tok: Token)
    requires SysInv(s) && Dead(s, tok)
    ensures Dead(Run(s, es, base), tok)
    decreases |es|
  {
    if es != [] {
      RunKeepsDead(s, es[..|es| - 1], base, tok);
      RunKeepsInv(s, es[..|es| - 1], base);
      NextKeepsDead(Run(s, es[..|es| - 1], base), es[|es| - 1], base, tok);
    }
  }

  /** After a rotation the old token never authenticates again, in any
      continuation; the tunnel is taken from its holder on the spot. */
  lemma RotatedTokenIsRefused(past: seq<Event>, tunnel: nat, newTok: Token, tok: Token, es: seq<Event>, base: string)
    requires AuthAgent(Run(START, past, base).db, tok) == Some(tunnel)
    requires newTok.id !in Run(START, past, base).issued
    ensures var rotated := Next(Run(START, past, base), Rotate(tunnel, newTok), base);
            && tunnel !in rotated.db.leases
            && AuthAgent(rotated.db, newTok) == Some(tunnel)
            && AuthAgent(Run(rotated, es, base).db, tok) == None
  {
    var s := Run(START, past, base);
    Reachable(past, base);
    RotateKillsTokens(s, tunnel, newTok, tok);
    NextKeepsInv(s, Rotate(tunnel, newTok), base);
    RunKeepsDead(Next(s, Rotate(tunnel, newTok), base), es, base, tok);
  }

  // --------------------------------------------- what becomes of its leases

  /** The event is a heartbeat, authenticated with some other token, under the
      instance name of the tunnel's lease. */
  ghost predicate Borrows(s: Sys, e: Event, t: nat, tok: Token) {
    && t in s.db.leases && Requests(s, e, t, Heartbeat(s.db.leases[t].instance))
    && s.requests[e.id].token != tok
  }

  /** Nothing was registered with the token, and what had been is as it was or
      was renewed under its instance name. */
  ghost predicate MakesNothing(s: Sys, e: Event, r: Sys, t: nat, tok: Token) {
    HeldWith(r, t, tok) ==>
      && HeldWith(s, t, tok)
      && (r.db.leases[t] == s.db.leases[t]
          || (r.db.leases[t] == s.db.leases[t].(expiresAt := s.now + LEASE_TTL)
              && Requests(s, e, t, Heartbeat(s.db.leases[t].instance))))
  }

  lemma ExecutedMakesNothing(s: Sys, id: nat, t: nat, tok: Token)
    requires id in s.requests ==> !Registers(s.requests[id], t, tok)
    ensures MakesNothing(s, Execute(id), Executed(s, id), t, tok)
  {
  }

  lemma CreatedMakesNothing(s: Sys, drawn: seq<string>, token: Token, t: nat, tok: Token)
    requires DbInv(s.db)
    ensures MakesNothing(s, Create(drawn, token), Created(s, drawn, token), t, tok)
  {
    CreateOnlyAdds(s.db, drawn, token);
  }

  lemma RotatedMakesNothing(s: Sys, tunnel: nat, token: Token, t: nat, tok: Token)
    ensures MakesNothing(s, Rotate(tunnel, token), Rotated(s, tunnel, token), t, tok)
  {
  }

  lemma NextMakesNothing(s: Sys, e: Event, base: string, t: nat, tok: Token)
    requires DbInv(s.db) && !Pending(s, t, tok)
    ensures MakesNothing(s, e, Next(s, e, base), t, tok)
  {
    match e
    case Execute(id) => ExecutedMakesNothing(s, id, t, tok);
    case Create(drawn, token) => CreatedMakesNothing(s, drawn, token, t, tok);
    case Rotate(tunnel, token) => RotatedMakesNothing(s, tunnel, token, t, tok);
    case _ =>
  }

  /** No step adds a request with a dead token. */
  lemma NextAddsNoRequest(s: Sys, e: Event, base: string, tok: Token)
    requires Dead(s, tok)
    ensures forall k :: k in Next(s, e, base).requests && Next(s, e, base).requests[k].token == tok ==>
              k in s.requests && s.requests[k] == Next(s, e, base).requests[k]
  {
    if e.Execute? && e.id in s.requests {
      HandleFrame(s, s.requests[e.id]);
    }
  }

  lemma NextKeepsIdle(s: Sys, e: Event, base: string, t: nat, tok: Token)
    requires Dead(s, tok)
    ensures !Pending(s, t, tok) ==> !Pending(Next(s, e, base), t, tok)
    ensures Drained(s, tok) ==> Drained(Next(s, e, base), tok)
  {
    NextAddsNoRequest(s, e, base, tok);
  }

  lemma {:induction false} RunKeepsIdle(s: Sys, es: seq<Event>, base: string, t: nat, tok: Token)
    requires SysInv(s) && Dead(s, tok)
    ensures !Pending(s, t, tok) ==> !Pending(Run(s, es, base), t, tok)
    ensures Drained(s, tok) ==> Drained(Run(s, es, base), tok)
    decreases |es|
  {
    if es != [] {
      RunKeepsIdle(s, es[..|es| - 1], base, t, tok);
      RunKeepsDead(s, es[..|es| - 1], base, tok);
      NextKeepsIdle(Run(s, es[..|es| - 1], base), es[|es| - 1], base, t, tok);
    }
  }

  /** Some step of the run borrowed the instance name of the tunnel's lease. */
  ghost predicate Borrowed(s: Sys, es: seq<Event>, base: string, t: nat, tok: Token) {
    es != [] && (Borrowed(s, es[..|es| - 1], base, t, tok)
                 || Borrows(Run(s, es[..|es| - 1], base), es[|es| - 1], t, tok))
  }

  /** What the run may have left of a dead token's lease. */
  ghost predicate LeftOver(s: Sys, es: seq<Event>, base: string, t: nat, tok: Token) {
    var r := Run(s, es, base);
    HeldWith(r, t, tok) ==>
      && HeldWith(s, t, tok)
      && r.db.leases[t] == s.db.leases[t].(expiresAt := r.db.leases[t].expiresAt)
      && (r.db.leases[t].expiresAt == s.db.leases[t].expiresAt || Borrowed(s, es, base, t, tok))
  }

  lemma {:induction false} RunLeavesOver(s: Sys, es: seq<Event>, base: string, t: nat, tok: Token)
    requires SysInv(s) && Dead(s, tok) && Drained(s, tok)
    ensures LeftOver(s, es, base, t, tok)
    decreases |es|
  {
    if es != [] {
      var init, e := es[..|es| - 1], es[|es| - 1];
      var m := Run(s, init, base);
      RunLeavesOver(s, init, base, t, tok);
      RunKeepsInv(s, init, base);
      RunKeepsIdle(s, init, base, t, tok);
      NextMakesNothing(m, e, base, t, tok);
    }
  }

  /** Once the requests authenticated with a dead token are over, it gains no
      lease any more, and one it had left is out of every snapshot after one
      term, unless somebody with another token renews it under its own instance
      name. */
  lemma {:induction false} RotationDrains(past: seq<Event>, es: seq<Event>, base: string, t: nat, tok: Token)
    requires Dead(Run(START, past, base), tok) && Drained(Run(START, past, base), tok)
    ensures var s, r := Run(START, past, base), Run(Run(START, past, base), es, base);
            && (HeldWith(r, t, tok) ==>
                  && HeldWith(s, t, tok)
                  && r.db.leases[t] == s.db.leases[t].(expiresAt := r.db.leases[t].expiresAt))
            && (HeldWith(r, t, tok) && !Borrowed(s, es, base, t, tok) ==> r.db.leases[t] == s.db.leases[t])
            && (HeldWith(r, t, tok) && Live(r.db, r.now, t) && r.now >= s.now + LEASE_TTL ==>
                  Borrowed(s, es, base, t, tok))
  {
    var s := Run(START, past, base);
    Reachable(past, base);
    RunLeavesOver(s, es, base, t, tok);
  }

  /** And that exception is real: whoever has the tunnel's present token can
      keep such a lease alive past its term. */
  lemma BorrowedNameKeepsLease(past: seq<Event>, base: string, t: nat, tok: Token, present: Token, id: nat)
    requires HeldWith(Run(START, past, base), t, tok)
    requires AuthAgent(Run(START, past, base).db, present) == Some(t) && id !in Run(START, past, base).requests
    ensures var s := Run(START, past, base);
            var es := [Authenticate(id, present, Heartbeat(s.db.leases[t].instance)), Tick(LEASE_TTL), Execute(id)];
            var r := Run(s, es, base);
            HeldWith(r, t, tok) && Live(r.db, r.now, t) && r.now == s.now + LEASE_TTL
  {
    var s := Run(START, past, base);
    var e1, e2, e3 := Authenticate(id, present, Heartbeat(s.db.leases[t].instance)), Tick(LEASE_TTL), Execute(id);
    Reachable(past, base);
    RunOfThree(s, e1, e2, e3, base);
    var s2 := Next(Next(s, e1, base), e2, base);
    assert s2.db == s.db && s2.makers == s.makers;
    assert s2.requests[id] == Request(present, t, e1.op);
  }

  lemma RunOfThree(s: Sys, e1: Event, e2: Event, e3: Event, base: string)
    ensures Run(s, [e1, e2, e3], base) == Next(Next(Next(s, e1, base), e2, base), e3, base)
  {
    assert [e1, e2, e3][..2] == [e1, e2] && [e1, e2][..1] == [e1] && [e1][..0] == [];
    assert Run(s, [e1], base) == Next(Run(s, [], base), e1, base);
    assert Run(s, [e1, e2], base) == Next(Run(s, [e1], base), e2, base);
  }

  // ------------------------------------------- when a rotation is not final

  ghost predicate HasTokens(db: Db) {
    forall t :: t in db.tunnels ==> TokensOf(db.tokens, t) != {}
  }

  lemma CreatedKeepsTokens(s: Sys, drawn: seq<string>, token: Token)
    requires DbInv(s.db) && HasTokens(s.db)
    ensures HasTokens(Created(s, drawn, token).db)
  {
    var r := Created(s, drawn, token);
    CreateOnlyAdds(s.db, drawn, token);
    forall t | t in r.db.tunnels ensures TokensOf(r.db.tokens, t) != {} {
      if t in s.db.tunnels {
        var id :| id in TokensOf(s.db.tokens, t);
        assert id in TokensOf(r.db.tokens, t);
      } else {
        assert token.id in TokensOf(r.db.tokens, t);
      }
    }
  }

  lemma RotatedKeepsTokens(s: Sys, tunnel: nat, token: Token)
    requires HasTokens(s.db)
    ensures HasTokens(Rotated(s, tunnel, token).db)
  {
    var r := Rotated(s, tunnel, token);
    forall t | t in r.db.tunnels ensures TokensOf(r.db.tokens, t) != {} {
      var id :| id in TokensOf(s.db.tokens, t);
      if t == tunnel && r.db != s.db {
        assert token.id in TokensOf(r.db.tokens, t);
      } else {
        assert id in TokensOf(r.db.tokens, t);
      }
    }
  }

  lemma NextKeepsTokens(s: Sys, e: Event, base: string)
    requires DbInv(s.db) && HasTokens(s.db)
    ensures HasTokens(Next(s, e, base).db)
  {
    match e
    case Execute(id) =>
      if id in s.requests {
        HandleFrame(s, s.requests[id]);
      }
    case Create(drawn, token) => CreatedKeepsTokens(s, drawn, token);
    case Rotate(tunnel, token) => RotatedKeepsTokens(s, tunnel, token);
    case _ =>
  }

  /** Every tunnel always has a token. */
  lemma {:induction false} RunKeepsTokens(es: seq<Event>, base: string)
    ensures HasTokens(Run(START, es, base).db)
    decreases |es|
  {
    if es != [] {
      RunKeepsTokens(es[..|es| - 1], base);
      Reachable(es[..|es| - 1], base);
      NextKeepsTokens(Run(START, es[..|es| - 1], base), es[|es| - 1], base);
    }
  }

  lemma {:induction false} LongerThanAll(ids: set<string>) returns (id: string)
    ensures forall x :: x in ids ==> |x| < |id|
  {
    if ids == {} {
      id := "";
    } else {
      var x :| x in ids;
      var longer := LongerThanAll(ids - {x});
      id := longer + x + "a";
    }
  }

  lemma RotatedFrees(s: Sys, u: nat, token: Token)
    requires AuthInv(s.db, s.now, s.requests, s.issued, s.makers)
    requires TokensOf(s.db.tokens, u) != {} && token.id !in s.issued
    ensures var r := Rotated(s, u, token);
            r.db.leases == s.db.leases - {u} && r.db.tunnels == s.db.tunnels && r.requests == s.requests
  {
  }

  lemma FreshToken(s: Sys) returns (token: Token)
    ensures token.id !in s.issued
  {
    var id := LongerThanAll(s.issued);
    token := Token(id, "");
  }

  /** Rotating a tunnel frees its row. */
  lemma RotationFrees(s: Sys, u: nat, base: string) returns (e: Event)
    requires SysInv(s) && HasTokens(s.db) && u in s.db.tunnels
    ensures SysInv(Next(s, e, base)) && HasTokens(Next(s, e, base).db)
    ensures var r := Next(s, e, base);
            r.db.leases == s.db.leases - {u} && r.db.tunnels == s.db.tunnels && r.requests == s.requests
  {
    var token := FreshToken(s);
    e := Rotate(u, token);
    RotatedFrees(s, u, token);
    assert Effect(s, e, base) == Rotated(s, u, token);
    RotatedKeepsInv(s, u, token);
    RotatedKeepsTokens(s, u, token);
  }

  /** Nothing stands in the way of a registration on a free tunnel. */
  lemma FreeTunnelIsGranted(s: Sys, id: nat, t: nat, tok: Token, base: string)
    requires id in s.requests && Registers(s.requests[id], t, tok)
    requires t in s.db.tunnels && t !in s.db.leases && !KeyTaken(s.db.leases, t, s.requests[id].op.pubkey)
    ensures HeldWith(Next(s, Execute(id), base), t, tok)
    ensures Live(Next(s, Execute(id), base).db, s.now, t)
  {
  }

  /** A pending registration can still be executed on a tunnel that has been
      freed, after freeing whoever has its key. */
  lemma PendingCanLand(s: Sys, t: nat, tok: Token, base: string) returns (es: seq<Event>)
    requires SysInv(s) && HasTokens(s.db) && Pending(s, t, tok)
    ensures HeldWith(Run(s, es, base), t, tok)
  {
    var id :| id in s.requests && Registers(s.requests[id], t, tok);
    assert RequestInv(s.db, s.issued, s.requests[id]);
    var pubkey := s.requests[id].op.pubkey;
    var e1 := RotationFrees(s, t, base);
    var s1 := Next(s, e1, base);
    var u := if KeyTaken(s1.db.leases, t, pubkey)
      then var k :| k in s1.db.leases && k != t && s1.db.leases[k].pubkey == pubkey; k else t;
    var e2 := RotationFrees(s1, u, base);
    es := [e1, e2, Execute(id)];
    RunOfThree(s, e1, e2, Execute(id), base);
    FreeTunnelIsGranted(Next(s1, e2, base), id, t, tok, base);
  }

  lemma {:induction false} IdleStaysWithout(s: Sys, es: seq<Event>, base: string, t: nat, tok: Token)
    requires SysInv(s) && Dead(s, tok) && !Pending(s, t, tok) && !HeldWith(s, t, tok)
    ensures !HeldWith(Run(s, es, base), t, tok)
    decreases |es|
  {
    if es != [] {
      var init := es[..|es| - 1];
      IdleStaysWithout(s, init, base, t, tok);
      RunKeepsInv(s, init, base);
      RunKeepsIdle(s, init, base, t, tok);
      NextMakesNothing(Run(s, init, base), es[|es| - 1], base, t, tok);
    }
  }

  /** The token holds the tunnel now or in some continuation. */
  ghost predicate EverHolds(s: Sys, base: string, t: nat, tok: Token) {
    exists es :: HeldWith(Run(s, es, base), t, tok)
  }

  lemma HoldsAtOnce(s: Sys, base: string, t: nat, tok: Token)
    requires HeldWith(s, t, tok)
    ensures EverHolds(s, base, t, tok)
  {
    assert Run(s, [], base) == s;
  }

  lemma PendingHoldsLater(s: Sys, base: string, t: nat, tok: Token)
    requires SysInv(s) && HasTokens(s.db) && Pending(s, t, tok)
    ensures EverHolds(s, base, t, tok)
  {
    var es := PendingCanLand(s, t, tok, base);
  }

  lemma IdleNeverHolds(s: Sys, base: string, t: nat, tok: Token)
    requires SysInv(s) && Dead(s, tok) && !Pending(s, t, tok) && !HeldWith(s, t, tok)
    ensures !EverHolds(s, base, t, tok)
  {
    forall es ensures !HeldWith(Run(s, es, base), t, tok) {
      IdleStaysWithout(s, es, base, t, tok);
    }
  }

  /** A dead token holds the tunnel now or in some continuation exactly when it
      does now or a registration authenticated with it is still to be
      executed. */
  lemma DeadTokenHoldsExactly(past: seq<Event>, base: string, t: nat, tok: Token)
    requires Dead(Run(START, past, base), tok)
    ensures var s := Run(START, past, base);
            EverHolds(s, base, t, tok) <==> HeldWith(s, t, tok) || Pending(s, t, tok)
  {
    var s := Run(START, past, base);
    Reachable(past, base);
    RunKeepsTokens(past, base);
    if HeldWith(s, t, tok) {
      HoldsAtOnce(s, base, t, tok);
    } else if Pending(s, t, tok) {
      PendingHoldsLater(s, base, t, tok);
    } else {
      IdleNeverHolds(s, base, t, tok);
    }
  }

  lemma RotationMoment(past: seq<Event>, t: nat, newTok: Token, tok: Token, base: string)
    requires AuthAgent(Run(START, past, base).db, tok) == Some(t)
    requires newTok.id !in Run(START, past, base).issued
    ensures var rotated := Next(Run(START, past, base), Rotate(t, newTok), base);
            && rotated == Run(START, past + [Rotate(t, newTok)], base)
            && rotated.requests == Run(START, past, base).requests
            && Dead(rotated, tok) && t in rotated.db.tunnels && t !in rotated.db.leases
  {
    Reachable(past, base);
    AuthenticTokenIsKnown(Run(START, past, base).db, tok);
    RotateKillsTokens(Run(START, past, base), t, newTok, tok);
    assert (past + [Rotate(t, newTok)])[..|past|] == past;
  }

  /** A rotation takes the tunnel from the old token for good, in every
      continuation, exactly when no registration authenticated with it is in
      flight at that moment. */
  lemma RotationIsFinalExactly(past: seq<Event>, t: nat, newTok: Token, tok: Token, base: string)
    requires AuthAgent(Run(START, past, base).db, tok) == Some(t)
    requires newTok.id !in Run(START, past, base).issued
    ensures var rotated := Next(Run(START, past, base), Rotate(t, newTok), base);
            EverHolds(rotated, base, t, tok) <==> Pending(rotated, t, tok)
  {
    RotationMoment(past, t, newTok, tok, base);
    DeadTokenHoldsExactly(past + [Rotate(t, newTok)], base, t, tok);
  }

  lemma LandsExactly(s: Sys, id: nat, t: nat, tok: Token, base: string)
    requires id in s.requests && t in s.db.tunnels && t !in s.db.leases
    ensures var r, landed := s.requests[id], Next(s, Execute(id), base);
            && (HeldWith(landed, t, tok) <==> Registers(r, t, tok) && !KeyTaken(s.db.leases, t, r.op.pubkey))
            && (HeldWith(landed, t, tok) ==> Live(landed.db, landed.now, t))
  {
    var r := s.requests[id];
    if !Registers(r, t, tok) {
      ExecutedMakesNothing(s, id, t, tok);
    } else if !KeyTaken(s.db.leases, t, r.op.pubkey) {
      FreeTunnelIsGranted(s, id, t, tok, base);
      HandleFrame(s, r);
    } else {
      assert Handle(s, r) == s;
    }
  }

  /** Executed right after the rotation, a request in flight gives the tunnel
      back to the old token exactly when it is such a registration and no other
      tunnel's row has its key. */
  lemma LateRequestLandsExactly(past: seq<Event>, id: nat, t: nat, newTok: Token, tok: Token, base: string)
    requires AuthAgent(Run(START, past, base).db, tok) == Some(t)
    requires newTok.id !in Run(START, past, base).issued && id in Run(START, past, base).requests
    ensures var rotated := Next(Run(START, past, base), Rotate(t, newTok), base);
            var r, landed := rotated.requests[id], Next(rotated, Execute(id), base);
            && (HeldWith(landed, t, tok) <==> Registers(r, t, tok) && !KeyTaken(rotated.db.leases, t, r.op.pubkey))
            && (HeldWith(landed, t, tok) ==> Live(landed.db, landed.now, t))
  {
    RotationMoment(past, t, newTok, tok, base);
    LandsExactly(Next(Run(START, past, base), Rotate(t, newTok), base), id, t, tok, base);
  }

  lemma RegisteredThenRotated(oldTok: Token, newTok: Token, base: string)
    requires oldTok.id != newTok.id
    ensures var es := [Create(["a"], oldTok), Authenticate(0, oldTok, Register("i", "k", "v")), Rotate(1, newTok)];
            var r := Run(START, es, base);
            && r.requests == map[0 := Request(oldTok, 1, Register("i", "k", "v"))]
            && 1 in r.db.tunnels && r.db.leases == map[]
            && Dead(r, oldTok) && AuthAgent(r.db, newTok) == Some(1)
  {
    var e1, e2, e3 := Create(["a"], oldTok), Authenticate(0, oldTok, Register("i", "k", "v")), Rotate(1, newTok);
    RunOfThree(START, e1, e2, e3, base);
    FirstTunnel(oldTok);
    var s1 := Next(START, e1, base);
    assert AuthAgent(s1.db, oldTok) == Some(1);
    assert s1.db.leases == map[] && s1.requests == map[] && s1.issued == {oldTok.id};
    var s2 := Next(s1, e2, base);
    assert s2.db == s1.db && s2.issued == s1.issued;
    assert s2.requests == map[0 := Request(oldTok, 1, e2.op)];
    assert TokensOf(s2.db.tokens, 1) == {oldTok.id};
  }

  /** A whole run in which that happens. */
  lemma LateRegistrationRun(oldTok: Token, newTok: Token, base: string)
    requires oldTok.id != newTok.id
    ensures var es := [Create(["a"], oldTok), Authenticate(0, oldTok, Register("i", "k", "v")),
                       Rotate(1, newTok), Execute(0)];
            var r := Run(START, es, base);
            && HeldWith(r, 1, oldTok) && Live(r.db, r.now, 1)
            && Dead(r, oldTok) && AuthAgent(r.db, newTok) == Some(1)
  {
    var es := [Create(["a"], oldTok), Authenticate(0, oldTok, Register("i", "k", "v")),
               Rotate(1, newTok), Execute(0)];
    RegisteredThenRotated(oldTok, newTok, base);
    assert es[..3] == [es[0], es[1], es[2]];
    var s := Run(START, es[..3], base);
    assert Run(START, es, base) == Next(s, es[3], base);
    LandsExactly(s, 0, 1, oldTok, base);
    HandleFrame(s, s.requests[0]);
  }

  lemma FirstTunnel(tok: Token)
    ensures var r := CreateTunnel(EMPTY_DB, ["a"], tok).0;
            r.tunnels.Keys == {1} && r.tokens == map[tok.id := TokenRow(1, tok.secret)] && r.leases == map[]
  {
    FirstTunnelRow("a", tok);
  }

  /** The first tunnel ever created is number 1, at 10.64.0.2, with its one
      token. */
  lemma FirstTunnelRow(subdomain: string, tok: Token)
    ensures var r := CreateTunnel(EMPTY_DB, [subdomain], tok).0;
            && r.tunnels == map[1 := Tunnel(subdomain, 10 * 0x100_0000 + 64 * 0x1_0000 + 2)]
            && r.tokens == map[tok.id := TokenRow(1, tok.secret)] && r.leases == map[]
  {
    PoolsAreThese(2, 0);
    assert Tries(EMPTY_DB.tunnels, [subdomain]) == 0;
  }
}
