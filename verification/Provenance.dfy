/** Where the rows of the database come from, in terms of the run's events:
    what a lease holds is what the last granted registration of its tunnel
    asked for, and the token that authenticates a tunnel is the one issued for
    it last. */
module Provenance {
  import opened Basics
  import opened Leases
  import opened Proto
  import opened Relay
  import opened Rotation
  import opened Store

  // ------------------------------------------------------------ the requests

  /** The request was authenticated at the i-th event, for the tunnel its token
      was good for then. */
  ghost predicate AuthenticatedAt(es: seq<Event>, base: string, k: nat, r: Request, i: nat) {
    && i < |es| && es[i] == Authenticate(k, r.token, r.op)
    && AuthAgent(Run(START, es[..i], base).db, r.token) == Some(r.tunnel)
  }

  lemma NextRequests(s: Sys, e: Event, base: string, k: nat)
    requires k in Next(s, e, base).requests
    ensures var r := Next(s, e, base).requests[k];
            || (k in s.requests && s.requests[k] == r)
            || (e == Authenticate(k, r.token, r.op) && AuthAgent(s.db, r.token) == Some(r.tunnel))
  {
    if e.Execute? && e.id in s.requests {
      HandleFrame(s, s.requests[e.id]);
    }
  }

  lemma AuthenticatedLasts(init: seq<Event>, e: Event, base: string, k: nat, r: Request, i: nat)
    requires AuthenticatedAt(init, base, k, r, i)
    ensures AuthenticatedAt(init + [e], base, k, r, i)
  {
    assert (init + [e])[..i] == init[..i];
  }

  lemma AuthenticatedLast(init: seq<Event>, e: Event, base: string, k: nat, r: Request)
    requires e == Authenticate(k, r.token, r.op) && AuthAgent(Run(START, init, base).db, r.token) == Some(r.tunnel)
    ensures AuthenticatedAt(init + [e], base, k, r, |init|)
  {
    assert (init + [e])[..|init|] == init;
  }

  /** Every request in flight carries the token, tunnel and content it was
      authenticated with. */
  lemma {:induction false} RequestsAreAuthenticated(es: seq<Event>, base: string, k: nat)
    requires k in Run(START, es, base).requests
    ensures exists i: nat :: AuthenticatedAt(es, base, k, Run(START, es, base).requests[k], i)
    decreases |es|
  {
    var init, e := es[..|es| - 1], es[|es| - 1];
    var s := Run(START, init, base);
    var r := Next(s, e, base).requests[k];
    assert es == init + [e];
    NextRequests(s, e, base, k);
    if k in s.requests && s.requests[k] == r {
      RequestsAreAuthenticated(init, base, k);
      var i: nat :| AuthenticatedAt(init, base, k, r, i);
      AuthenticatedLasts(init, e, base, k, r, i);
    } else {
      AuthenticatedLast(init, e, base, k, r);
    }
  }

  // -------------------------------------------------------------- the leases

  /** The server has to grant this registration. */
  ghost predicate Grantable(db: Db, now: Time, r: Request) {
    && r.op.Register? && r.op.instance != "" && |r.op.instance| <= 64
    && r.tunnel in db.tunnels
    && (r.tunnel in db.leases && db.leases[r.tunnel].instance != r.op.instance ==>
          db.leases[r.tunnel].expiresAt < now)
    && (forall t :: t in db.leases && t != r.tunnel ==> db.leases[t].pubkey != r.op.pubkey)
  }

  /** The event executes such a registration of the tunnel. */
  ghost predicate Grants(s: Sys, e: Event, t: nat) {
    e.Execute? && e.id in s.requests && s.requests[e.id].tunnel == t && Grantable(s.db, s.now, s.requests[e.id])
  }

  datatype Registration = Registration(request: Request, at: Time)

  /** The last registration of the tunnel that was granted, and when. */
  ghost function LastRegistration(es: seq<Event>, base: string, t: nat): Option<Registration> {
    if es == [] then None
    else
      var s, e := Run(START, es[..|es| - 1], base), es[|es| - 1];
      if Grants(s, e, t) then Some(Registration(s.requests[e.id], s.now))
      else LastRegistration(es[..|es| - 1], base, t)
  }

  /** The row is what the registration asked for. */
  ghost predicate RowOf(row: Lease, g: Registration) {
    && g.request.op.Register?
    && row.instance == g.request.op.instance && row.pubkey == g.request.op.pubkey
    && row.version == g.request.op.version && row.acquiredAt == g.at
  }

  lemma GrantedRow(s: Sys, r: Request)
    requires Grantable(s.db, s.now, r)
    ensures var h := Handle(s, r);
            && r.tunnel in h.db.leases && RowOf(h.db.leases[r.tunnel], Registration(r, s.now))
            && h.db.leases[r.tunnel].expiresAt == s.now + 45_000_000
            && r.tunnel in h.makers && h.makers[r.tunnel] == r.token
  {
  }

  /** The row is still there and only its expiry may have changed. */
  ghost predicate SameRow(leases: map<nat, Lease>, leases': map<nat, Lease>, t: nat) {
    t in leases' ==> t in leases && leases'[t] == leases[t].(expiresAt := leases'[t].expiresAt)
  }

  lemma UngrantedRegister(s: Sys, r: Request)
    requires r.op.Register? && r.tunnel in s.db.tunnels && !Grantable(s.db, s.now, r)
    ensures Handle(s, r) == s
  {
  }

  /** Nothing else changes what a row holds. */
  lemma OtherwiseSameRow(s: Sys, r: Request, t: nat)
    requires r.tunnel in s.db.tunnels && !(r.tunnel == t && Grantable(s.db, s.now, r))
    ensures SameRow(s.db.leases, Handle(s, r).db.leases, t)
    ensures t in s.makers ==> t in Handle(s, r).makers && Handle(s, r).makers[t] == s.makers[t]
  {
    if r.op.Register? && r.tunnel == t {
      UngrantedRegister(s, r);
    }
  }

  lemma RotatedRow(s: Sys, u: nat, token: Token, t: nat)
    ensures SameRow(s.db.leases, Rotated(s, u, token).db.leases, t) && Rotated(s, u, token).makers == s.makers
  {
  }

  lemma NextRow(s: Sys, e: Event, base: string, t: nat)
    requires SysInv(s) && !Grants(s, e, t)
    ensures SameRow(s.db.leases, Next(s, e, base).db.leases, t)
    ensures t in s.makers ==> t in Next(s, e, base).makers && Next(s, e, base).makers[t] == s.makers[t]
  {
    match e
    case Execute(id) =>
      if id in s.requests {
        assert RequestInv(s.db, s.issued, s.requests[id]);
        OtherwiseSameRow(s, s.requests[id], t);
      }
    case Create(drawn, token) => CreatedGrantsNothing(s, drawn, token);
    case Rotate(u, token) => RotatedRow(s, u, token, t);
    case _ =>
  }

  /** In every run the instance, key, version and time of a lease, expired or
      not, are those of the last granted registration of its tunnel, and its
      maker is the token that registration was authenticated with. */
  lemma {:induction false} LeasesAreRegistered(es: seq<Event>, base: string, t: nat)
    requires t in Run(START, es, base).db.leases
    ensures LastRegistration(es, base, t).Some?
    ensures RowOf(Run(START, es, base).db.leases[t], LastRegistration(es, base, t).value)
    ensures t in Run(START, es, base).makers
    ensures Run(START, es, base).makers[t] == LastRegistration(es, base, t).value.request.token
    decreases |es|
  {
    var init, e := es[..|es| - 1], es[|es| - 1];
    var s := Run(START, init, base);
    Reachable(init, base);
    if Grants(s, e, t) {
      GrantedRow(s, s.requests[e.id]);
    } else {
      NextRow(s, e, base, t);
      LeasesAreRegistered(init, base, t);
    }
  }

  /** A granted registration is in the next snapshot with its own key, at the
      address of its tunnel; one that is not granted changes no lease. */
  lemma RegistrationIsRouted(past: seq<Event>, id: nat, base: string, dns: Option<DNSZone>)
    requires id in Run(START, past, base).requests && Run(START, past, base).requests[id].op.Register?
    ensures var s, r := Run(START, past, base), Next(Run(START, past, base), Execute(id), base);
            var request := s.requests[id];
            && request.tunnel in s.db.tunnels
            && (Grantable(s.db, s.now, request) ==>
                  ProtoPeer(Some(request.op.pubkey), Some(s.db.tunnels[request.tunnel].vpnIP))
                  in Config(r.db, r.now, base, dns).peers)
            && (!Grantable(s.db, s.now, request) ==> r.db == s.db)
  {
    var s := Run(START, past, base);
    var r, request := Next(s, Execute(id), base), s.requests[id];
    Reachable(past, base);
    assert RequestInv(s.db, s.issued, request);
    HandleFrame(s, request);
    if Grantable(s.db, s.now, request) {
      GrantedRow(s, request);
      NextKeepsInv(s, Execute(id), base);
      HolderIsInSnapshot(r.db, r.now, base, request.tunnel, request.op.instance, dns);
    }
  }

  // -------------------------------------------------------------- the tokens

  /** The event issues its token to the tunnel: it is created with it, or
      rotated to it. */
  ghost predicate Issues(s: Sys, e: Event, base: string, t: nat) {
    if e.Create? then t !in s.db.tunnels && t in Next(s, e, base).db.tunnels
    else e.Rotate? && e.tunnel == t && t in s.db.tunnels && e.token.id !in s.issued
  }

  /** The token issued for the tunnel last. */
  ghost function LastToken(es: seq<Event>, base: string, t: nat): Option<Token> {
    if es == [] then None
    else
      var init, e := es[..|es| - 1], es[|es| - 1];
      if Issues(Run(START, init, base), e, base, t) then Some(e.token) else LastToken(init, base, t)
  }

  ghost predicate HasRow(tokens: map<string, TokenRow>, tok: Token, t: nat) {
    tok.id in tokens && tokens[tok.id] == TokenRow(t, tok.secret)
  }

  lemma CreatedToken(s: Sys, drawn: seq<string>, token: Token, t: nat)
    requires DbInv(s.db) && t in Created(s, drawn, token).db.tunnels
    ensures t !in s.db.tunnels ==> HasRow(Created(s, drawn, token).db.tokens, token, t)
  {
  }

  lemma CreatedKeepsToken(s: Sys, drawn: seq<string>, token: Token, tok: Token, t: nat)
    requires DbInv(s.db) && HasRow(s.db.tokens, tok, t)
    ensures HasRow(Created(s, drawn, token).db.tokens, tok, t)
  {
    CreateOnlyAdds(s.db, drawn, token);
  }

  lemma RotatedToken(s: Sys, t: nat, token: Token)
    requires SysInv(s) && TokensOf(s.db.tokens, t) != {} && token.id !in s.issued
    ensures HasRow(Rotated(s, t, token).db.tokens, token, t)
  {
  }

  lemma RotatedKeepsToken(s: Sys, u: nat, token: Token, tok: Token, t: nat)
    requires SysInv(s) && HasRow(s.db.tokens, tok, t) && !(u == t && token.id !in s.issued)
    ensures HasRow(Rotated(s, u, token).db.tokens, tok, t)
  {
    if token.id !in s.issued {
      assert u != t && tok.id !in TokensOf(s.db.tokens, u);
      assert token.id != tok.id;
    } else {
      assert Rotated(s, u, token) == s;
    }
  }

  lemma NextToken(s: Sys, e: Event, base: string, t: nat)
    requires SysInv(s) && HasTokens(s.db) && Issues(s, e, base, t)
    ensures t in Next(s, e, base).db.tunnels && HasRow(Next(s, e, base).db.tokens, e.token, t)
  {
    if e.Create? {
      CreatedToken(s, e.drawn, e.token, t);
    } else {
      RotatedToken(s, t, e.token);
      NextTunnels(s, e, base);
    }
  }

  lemma NextKeepsToken(s: Sys, e: Event, base: string, t: nat, tok: Token)
    requires SysInv(s) && HasRow(s.db.tokens, tok, t) && !Issues(s, e, base, t) && t in s.db.tunnels
    ensures HasRow(Next(s, e, base).db.tokens, tok, t)
  {
    match e
    case Execute(id) =>
      if id in s.requests {
        HandleFrame(s, s.requests[id]);
      }
    case Create(drawn, token) => CreatedKeepsToken(s, drawn, token, tok, t);
    case Rotate(u, token) => RotatedKeepsToken(s, u, token, tok, t);
    case _ =>
  }

  lemma {:induction false} LastTokenIsThere(es: seq<Event>, base: string, t: nat)
    ensures t in Run(START, es, base).db.tunnels <==> LastToken(es, base, t).Some?
    ensures LastToken(es, base, t).Some? ==> HasRow(Run(START, es, base).db.tokens, LastToken(es, base, t).value, t)
    decreases |es|
  {
    if es != [] {
      var init, e := es[..|es| - 1], es[|es| - 1];
      var s := Run(START, init, base);
      Reachable(init, base);
      RunKeepsTokens(init, base);
      LastTokenIsThere(init, base, t);
      if Issues(s, e, base, t) {
        NextToken(s, e, base, t);
      } else {
        NextTunnelsOnlyGrow(s, e, base);
        NextTunnels(s, e, base);
        if t in s.db.tunnels {
          NextKeepsToken(s, e, base, t, LastToken(init, base, t).value);
        }
      }
    }
  }

  /** In every run a token authenticates a tunnel exactly when it is, id and
      secret, the one issued last for it. */
  lemma AuthenticatesExactly(es: seq<Event>, base: string, tok: Token, t: nat)
    ensures AuthAgent(Run(START, es, base).db, tok) == Some(t) <==> LastToken(es, base, t) == Some(tok)
  {
    var s := Run(START, es, base);
    Reachable(es, base);
    LastTokenIsThere(es, base, t);
    if AuthAgent(s.db, tok) == Some(t) {
      AuthenticTokenIsKnown(s.db, tok);
    }
  }
}
