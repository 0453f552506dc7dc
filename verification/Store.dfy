/** internal/store/store.go: the tunnel, token and lease statements over the
    tables of migrations/001_init.sql. Each statement is one atomic step; the
    current time is a parameter. */
module Store {
  import opened AddressPool
  import opened Basics
  import opened Proto

  type Time = int // microseconds

  /** A token's hash is taken to be injective, so the row keeps the secret. */
  datatype Token = Token(id: string, secret: string)

  datatype Tunnel = Tunnel(subdomain: string, vpnIP: IPv4)

  datatype TokenRow = TokenRow(tunnel: nat, secret: string)

  datatype Lease = Lease(instance: string, pubkey: Key, version: string, acquiredAt: Time, expiresAt: Time)

  datatype Db = Db(
    tunnels: map<nat, Tunnel>,
    tokens: map<string, TokenRow>,
    leases: map<nat, Lease>,
    nextTunnel: nat,  // sequences: a value handed out is never handed out again
    nextIP: nat)

  const EMPTY_DB := Db(map[], map[], map[], 1, 2)

  datatype Status = OK | LeaseHeld | PubkeyInUse | Superseded | Unauthorized | NotFound | Internal

  // ------------------------------------------------------------- statements

  /** UNIQUE(wg_pubkey): some other row already has the key. */
  predicate KeyTaken(leases: map<nat, Lease>, tunnel: nat, pubkey: Key) {
    exists t :: t in leases && t != tunnel && leases[t].pubkey == pubkey
  }

  function AcquireLease(db: Db, now: Time, tunnel: nat, instance: string, pubkey: Key, version: string, ttl: int)
    : (Db, Status)
  {
    if tunnel in db.leases
       && db.leases[tunnel].instance != instance && !(db.leases[tunnel].expiresAt < now) then (db, LeaseHeld)
    else if KeyTaken(db.leases, tunnel, pubkey) then (db, PubkeyInUse)
    else if tunnel !in db.tunnels then (db, Internal) // the foreign key is checked last
    else (db.(leases := db.leases[tunnel := Lease(instance, pubkey, version, now, now + ttl)]), OK)
  }

  function RenewLease(db: Db, now: Time, tunnel: nat, instance: string, ttl: int): (Db, Status) {
    if tunnel in db.leases && db.leases[tunnel].instance == instance then
      (db.(leases := db.leases[tunnel := db.leases[tunnel].(expiresAt := now + ttl)]), OK)
    else (db, Superseded)
  }

  function ReleaseLease(db: Db, tunnel: nat, instance: string): Db {
    if tunnel in db.leases && db.leases[tunnel].instance == instance then
      db.(leases := db.leases - {tunnel})
    else db
  }

  function TokensOf(tokens: map<string, TokenRow>, tunnel: nat): set<string> {
    set id | id in tokens && tokens[id].tunnel == tunnel
  }

  function RotateToken(db: Db, tunnel: nat, tok: Token): (Db, Status) {
    var revoked := TokensOf(db.tokens, tunnel);
    if revoked == {} then (db, NotFound)
    else if tok.id in db.tokens - revoked then (db, Internal)
    else
      (db.(tokens := (db.tokens - revoked)[tok.id := TokenRow(tunnel, tok.secret)], leases := db.leases - {tunnel}), OK)
  }

  function AuthAgent(db: Db, tok: Token): Option<nat> {
    if tok.id in db.tokens && db.tokens[tok.id].secret == tok.secret then Some(db.tokens[tok.id].tunnel) else None
  }

  predicate SubdomainTaken(tunnels: map<nat, Tunnel>, subdomain: string) {
    exists t :: t in tunnels && tunnels[t].subdomain == subdomain
  }

  predicate IPTaken(tunnels: map<nat, Tunnel>, ip: IPv4) {
    exists t :: t in tunnels && tunnels[t].vpnIP == ip
  }

  /** How many of the drawn subdomains are tried: each try takes an id, and the
      first free subdomain ends the loop. */
  function Tries(tunnels: map<nat, Tunnel>, drawn: seq<string>): nat {
    if drawn == [] then 0
    else if SubdomainTaken(tunnels, drawn[0]) then 1 + Tries(tunnels, drawn[1..])
    else 0
  }

  /** The id and row a new tunnel gets, unless something makes it fail. */
  function Planned(db: Db, drawn: seq<string>, tok: Token): Option<(nat, Tunnel)> {
    var ip := Offset(CLIENT_POOL, db.nextIP);
    var n := Tries(db.tunnels, drawn);
    if ip.None? || n >= |drawn| || IPTaken(db.tunnels, ip.value) || tok.id in db.tokens then None
    else Some((db.nextTunnel + n, Tunnel(drawn[n], ip.value)))
  }

  /** The tunnel ids a failed attempt takes from the sequence. */
  function Burned(db: Db, drawn: seq<string>): nat {
    if Offset(CLIENT_POOL, db.nextIP).None? then 0
    else
      var n := Tries(db.tunnels, drawn);
      if n < |drawn| then n + 1 else |drawn|
  }

  /** The five subdomains and the token it draws at random are parameters. A
      failure rolls everything back except the sequences. */
  function CreateTunnel(db: Db, drawn: seq<string>, tok: Token): (Db, Status) {
    match Planned(db, drawn, tok)
    case Some((id, t)) =>
      (Db(db.tunnels[id := t], db.tokens[tok.id := TokenRow(id, tok.secret)], db.leases, id + 1, db.nextIP + 1), OK)
    case None =>
      (db.(nextTunnel := db.nextTunnel + Burned(db, drawn), nextIP := db.nextIP + 1), Internal)
  }

  // --------------------------------------------------------------- snapshot

  predicate Live(db: Db, now: Time, t: nat) {
    t in db.leases && t in db.tunnels && db.leases[t].expiresAt > now
  }

  function Domain(t: Tunnel, base: string): string {
    t.subdomain + "." + base
  }

  function PeerOf(db: Db, t: nat): ProtoPeer
    requires t in db.leases && t in db.tunnels
  {
    ProtoPeer(Some(db.leases[t].pubkey), Some(db.tunnels[t].vpnIP))
  }

  function RoutesOf(t: Tunnel, base: string): seq<ProtoRoute> {
    [ProtoRoute(Domain(t, base), Some(t.vpnIP)), ProtoRoute("*." + Domain(t, base), Some(t.vpnIP))]
  }

  /** Peers of the live tunnels with an id below `n`, in order of id. */
  function PeersBelow(db: Db, now: Time, n: nat): seq<ProtoPeer> {
    if n == 0 then []
    else PeersBelow(db, now, n - 1) + if Live(db, now, n - 1) then [PeerOf(db, n - 1)] else []
  }

  function RoutesBelow(db: Db, now: Time, base: string, n: nat): seq<ProtoRoute> {
    if n == 0 then []
    else RoutesBelow(db, now, base, n - 1)
         + if Live(db, now, n - 1) then RoutesOf(db.tunnels[n - 1], base) else []
  }

  /** The DNS part is read by statements of its own and given here. */
  function Config(db: Db, now: Time, base: string, dns: Option<DNSZone>): NodeConfig {
    NodeConfig(PeersBelow(db, now, db.nextTunnel), RoutesBelow(db, now, base, db.nextTunnel), dns)
  }

  lemma {:induction false} PeersBelowMembers(db: Db, now: Time, n: nat, p: ProtoPeer)
    ensures p in PeersBelow(db, now, n) <==> exists t: nat :: t < n && Live(db, now, t) && p == PeerOf(db, t)
    decreases n
  {
    if n > 0 {
      PeersBelowMembers(db, now, n - 1, p);
    }
  }

  lemma {:induction false} RoutesBelowMembers(db: Db, now: Time, base: string, n: nat, r: ProtoRoute)
    ensures r in RoutesBelow(db, now, base, n) <==>
            exists t: nat :: t < n && Live(db, now, t) && r in RoutesOf(db.tunnels[t], base)
    decreases n
  {
    if n > 0 {
      RoutesBelowMembers(db, now, base, n - 1, r);
    }
  }

  // -------------------------------------------------------------- invariant

  /** What auth.Random draws: lower case letters and the digits 2 to 7. */
  predicate PlainLabel(s: string) {
    s != "" && forall i :: 0 <= i < |s| ==> 'a' <= s[i] <= 'z' || '2' <= s[i] <= '7'
  }

  /** The schema's uniqueness and foreign keys, plus what the code adds: every
      address comes from the pool by an offset already handed out. */
  ghost predicate DbInv(db: Db) {
    TunnelsInv(db.tunnels, db.nextTunnel, db.nextIP) && AccessInv(db.tunnels, db.tokens, db.leases)
  }

  ghost predicate AccessInv(tunnels: map<nat, Tunnel>, tokens: map<string, TokenRow>, leases: map<nat, Lease>) {
    && (forall id :: id in tokens ==> tokens[id].tunnel in tunnels)
    && (forall i, j :: i in tokens && j in tokens && i != j ==> tokens[i].tunnel != tokens[j].tunnel)
    && (forall t :: t in leases ==> t in tunnels)
    && (forall t, u :: t in leases && u in leases && t != u ==> leases[t].pubkey != leases[u].pubkey)
  }

  ghost predicate TunnelsInv(tunnels: map<nat, Tunnel>, nextTunnel: nat, nextIP: nat) {
    && nextIP >= 2
    && (forall t :: t in tunnels ==> t < nextTunnel && PlainLabel(tunnels[t].subdomain))
    && (forall t :: t in tunnels ==> FromPool(tunnels[t].vpnIP, nextIP))
    && (forall t, u :: t in tunnels && u in tunnels && t != u ==>
          tunnels[t].subdomain != tunnels[u].subdomain && tunnels[t].vpnIP != tunnels[u].vpnIP)
  }

  ghost predicate FromPool(ip: IPv4, nextIP: nat) {
    exists off :: 2 <= off < nextIP && Offset(CLIENT_POOL, off) == Some(ip)
  }

  lemma AcquireKeepsInv(db: Db, now: Time, tunnel: nat, instance: string, pubkey: Key, version: string, ttl: int)
    requires DbInv(db)
    ensures DbInv(AcquireLease(db, now, tunnel, instance, pubkey, version, ttl).0)
  {
  }

  lemma SameKeyKeepsAccess(
      tunnels: map<nat, Tunnel>, tokens: map<string, TokenRow>, leases: map<nat, Lease>, t: nat, row: Lease)
    requires AccessInv(tunnels, tokens, leases) && t in leases && row.pubkey == leases[t].pubkey
    ensures AccessInv(tunnels, tokens, leases[t := row])
  {
  }

  lemma RenewKeepsInv(db: Db, now: Time, tunnel: nat, instance: string, ttl: int)
    requires DbInv(db)
    ensures DbInv(RenewLease(db, now, tunnel, instance, ttl).0)
  {
    if RenewLease(db, now, tunnel, instance, ttl).1 == OK {
      SameKeyKeepsAccess(db.tunnels, db.tokens, db.leases, tunnel, db.leases[tunnel].(expiresAt := now + ttl));
    }
  }

  lemma ReleaseKeepsInv(db: Db, tunnel: nat, instance: string)
    requires DbInv(db)
    ensures DbInv(ReleaseLease(db, tunnel, instance))
  {
  }

  lemma RotateKeepsInv(db: Db, tunnel: nat, tok: Token)
    requires DbInv(db)
    ensures DbInv(RotateToken(db, tunnel, tok).0)
  {
  }

  lemma {:induction false} TriesStopsAtFree(tunnels: map<nat, Tunnel>, drawn: seq<string>)
    ensures var n := Tries(tunnels, drawn);
            && n <= |drawn|
            && (forall i :: 0 <= i < n ==> SubdomainTaken(tunnels, drawn[i]))
            && (n < |drawn| ==> !SubdomainTaken(tunnels, drawn[n]))
    decreases |drawn|
  {
    if drawn != [] && SubdomainTaken(tunnels, drawn[0]) {
      TriesStopsAtFree(tunnels, drawn[1..]);
      var n := Tries(tunnels, drawn);
      forall i | 0 <= i < n ensures SubdomainTaken(tunnels, drawn[i]) {
        if i > 0 {
          assert drawn[i] == drawn[1..][i - 1];
        }
      }
    }
  }

  /** The next offset's address is nobody's: the unique constraint on vpn_ip
      never fires. */
  lemma NextAddressIsFree(db: Db)
    requires DbInv(db) && Offset(CLIENT_POOL, db.nextIP).Some?
    ensures !IPTaken(db.tunnels, Offset(CLIENT_POOL, db.nextIP).value)
  {
    var ip := Offset(CLIENT_POOL, db.nextIP).value;
    forall t | t in db.tunnels ensures db.tunnels[t].vpnIP != ip {
      var off :| 2 <= off < db.nextIP && Offset(CLIENT_POOL, off) == Some(db.tunnels[t].vpnIP);
      PoolSizes();
      if db.tunnels[t].vpnIP == ip {
        OffsetIsInjective(CLIENT_POOL, off, db.nextIP);
      }
    }
  }

  lemma SequencesOnlyGrow(tunnels: map<nat, Tunnel>, nextTunnel: nat, nextIP: nat, moreTunnels: nat, moreIPs: nat)
    requires TunnelsInv(tunnels, nextTunnel, nextIP)
    ensures TunnelsInv(tunnels, nextTunnel + moreTunnels, nextIP + moreIPs)
  {
  }

  lemma AddTunnelKeepsInv(tunnels: map<nat, Tunnel>, nextTunnel: nat, nextIP: nat, id: nat, t: Tunnel)
    requires TunnelsInv(tunnels, nextTunnel, nextIP) && id >= nextTunnel
    requires PlainLabel(t.subdomain) && !SubdomainTaken(tunnels, t.subdomain) && !IPTaken(tunnels, t.vpnIP)
    requires Offset(CLIENT_POOL, nextIP) == Some(t.vpnIP)
    ensures TunnelsInv(tunnels[id := t], id + 1, nextIP + 1)
  {
    SequencesOnlyGrow(tunnels, nextTunnel, nextIP, id + 1 - nextTunnel, 1);
    assert FromPool(t.vpnIP, nextIP + 1);
  }

  lemma PlannedIsFree(db: Db, drawn: seq<string>, tok: Token)
    requires Planned(db, drawn, tok).Some?
    ensures var (id, t) := Planned(db, drawn, tok).value;
            && id >= db.nextTunnel && t.subdomain in drawn && tok.id !in db.tokens
            && !SubdomainTaken(db.tunnels, t.subdomain) && !IPTaken(db.tunnels, t.vpnIP)
            && Offset(CLIENT_POOL, db.nextIP) == Some(t.vpnIP)
  {
    TriesStopsAtFree(db.tunnels, drawn);
  }

  lemma AddedKeepsInv(db: Db, id: nat, t: Tunnel, tok: Token)
    requires DbInv(db) && id >= db.nextTunnel && tok.id !in db.tokens
    requires PlainLabel(t.subdomain) && !SubdomainTaken(db.tunnels, t.subdomain) && !IPTaken(db.tunnels, t.vpnIP)
    requires Offset(CLIENT_POOL, db.nextIP) == Some(t.vpnIP)
    ensures DbInv(Db(db.tunnels[id := t], db.tokens[tok.id := TokenRow(id, tok.secret)],
                     db.leases, id + 1, db.nextIP + 1))
  {
    AddTunnelKeepsInv(db.tunnels, db.nextTunnel, db.nextIP, id, t);
  }

  lemma RolledBackKeepsInv(db: Db, burned: nat)
    requires DbInv(db)
    ensures DbInv(db.(nextTunnel := db.nextTunnel + burned, nextIP := db.nextIP + 1))
  {
  }

  lemma CreateKeepsInv(db: Db, drawn: seq<string>, tok: Token)
    requires DbInv(db) && forall i :: 0 <= i < |drawn| ==> PlainLabel(drawn[i])
    ensures DbInv(CreateTunnel(db, drawn, tok).0)
  {
    match Planned(db, drawn, tok)
    case Some((id, t)) =>
      PlannedIsFree(db, drawn, tok);
      AddedKeepsInv(db, id, t, tok);
    case None =>
      RolledBackKeepsInv(db, Burned(db, drawn));
  }

  /** A new tunnel fails only for an exhausted pool, five taken subdomains or a
      token id that exists; otherwise it gets the first free subdomain, the
      next address, and the only token of its own. */
  lemma CreateTunnelOutcome(db: Db, drawn: seq<string>, tok: Token)
    requires DbInv(db)
    ensures var (r, status) := CreateTunnel(db, drawn, tok);
            && (status == OK <==>
                  && db.nextIP < 0x40_0000 && tok.id !in db.tokens
                  && exists i :: 0 <= i < |drawn| && !SubdomainTaken(db.tunnels, drawn[i]))
            && (status == OK ==>
                  AuthAgent(r, tok).Some? && AuthAgent(r, tok).value !in db.tunnels
                  && r.tunnels[AuthAgent(r, tok).value].vpnIP == CLIENT_POOL.addr + db.nextIP)
            && (status != OK ==> r == db.(nextIP := r.nextIP, nextTunnel := r.nextTunnel))
            && (forall t :: t in db.tunnels ==> t in r.tunnels && r.tunnels[t] == db.tunnels[t])
            && r.leases == db.leases && r.nextIP == db.nextIP + 1
  {
    TriesStopsAtFree(db.tunnels, drawn);
    PoolSizes();
    OffsetStaysInside(CLIENT_POOL, db.nextIP);
    if Offset(CLIENT_POOL, db.nextIP).Some? {
      NextAddressIsFree(db);
    }
  }

  /** The tunnel gets the first of the drawn subdomains that nobody has, and its
      id is the first of the sequence not used up by trying. */
  lemma FirstFreeSubdomain(db: Db, drawn: seq<string>, tok: Token, n: nat)
    requires DbInv(db) && CreateTunnel(db, drawn, tok).1 == OK
    requires n < |drawn| && !SubdomainTaken(db.tunnels, drawn[n])
    requires forall i :: 0 <= i < n ==> SubdomainTaken(db.tunnels, drawn[i])
    ensures var r := CreateTunnel(db, drawn, tok).0;
            && AuthAgent(r, tok) == Some(db.nextTunnel + n) && r.nextTunnel == db.nextTunnel + n + 1
            && db.nextTunnel + n in r.tunnels && r.tunnels[db.nextTunnel + n].subdomain == drawn[n]
            && r.tunnels == db.tunnels[db.nextTunnel + n := r.tunnels[db.nextTunnel + n]]
            && r.tokens == db.tokens[tok.id := TokenRow(db.nextTunnel + n, tok.secret)]
  {
    TriesStopsAtFree(db.tunnels, drawn);
    assert Tries(db.tunnels, drawn) == n;
  }

  /** The tunnel ids a failed creation leaves unused: none without an address,
      and otherwise one for every subdomain tried. */
  lemma FailureUsesIds(db: Db, drawn: seq<string>, tok: Token, n: nat)
    requires CreateTunnel(db, drawn, tok).1 != OK
    requires n <= |drawn| && forall i :: 0 <= i < n ==> SubdomainTaken(db.tunnels, drawn[i])
    requires n < |drawn| ==> !SubdomainTaken(db.tunnels, drawn[n])
    ensures CreateTunnel(db, drawn, tok).0.nextTunnel ==
            db.nextTunnel + if !(0 < db.nextIP < 0x40_0000) then 0 else if n < |drawn| then n + 1 else n
  {
    TriesStopsAtFree(db.tunnels, drawn);
    assert Tries(db.tunnels, drawn) == n;
    PoolSizes();
  }

  // ------------------------------------------------------ the whole snapshot

  /** The ids of the live tunnels, in order. */
  ghost predicate LiveOnes(db: Db, now: Time, n: nat, ids: seq<nat>) {
    && (forall i, j :: 0 <= i < j < |ids| ==> ids[i] < ids[j])
    && (forall t: nat :: t in ids <==> t < n && Live(db, now, t))
  }

  /** The peer and the two routes of one tunnel. */
  ghost predicate EntryOf(db: Db, base: string, t: nat, peer: ProtoPeer, apex: ProtoRoute, below: ProtoRoute) {
    && t in db.leases && t in db.tunnels
    && peer == ProtoPeer(Some(db.leases[t].pubkey), Some(db.tunnels[t].vpnIP))
    && apex == ProtoRoute(db.tunnels[t].subdomain + "." + base, Some(db.tunnels[t].vpnIP))
    && below == ProtoRoute("*." + (db.tunnels[t].subdomain + "." + base), Some(db.tunnels[t].vpnIP))
  }

  ghost predicate InOrder(db: Db, base: string, ids: seq<nat>, peers: seq<ProtoPeer>, routes: seq<ProtoRoute>) {
    && |peers| == |ids| && |routes| == 2 * |ids|
    && forall i :: 0 <= i < |ids| ==> EntryOf(db, base, ids[i], peers[i], routes[2 * i], routes[2 * i + 1])
  }

  lemma {:induction false} BelowInOrder(db: Db, now: Time, base: string, n: nat) returns (ids: seq<nat>)
    ensures LiveOnes(db, now, n, ids)
    ensures InOrder(db, base, ids, PeersBelow(db, now, n), RoutesBelow(db, now, base, n))
    decreases n
  {
    if n == 0 {
      ids := [];
    } else {
      ids := BelowInOrder(db, now, base, n - 1);
      if Live(db, now, n - 1) {
        OneMoreLive(db, now, n - 1, ids);
        OneMoreEntry(db, base, ids, PeersBelow(db, now, n - 1), RoutesBelow(db, now, base, n - 1), n - 1);
        ids := ids + [n - 1];
      }
    }
  }

  lemma OneMoreLive(db: Db, now: Time, n: nat, ids: seq<nat>)
    requires LiveOnes(db, now, n, ids) && Live(db, now, n)
    ensures LiveOnes(db, now, n + 1, ids + [n])
  {
    var more := ids + [n];
    assert forall i :: 0 <= i < |ids| ==> more[i] == ids[i] && ids[i] in ids;
    assert more[|ids|] == n;
  }

  lemma OneMoreEntry(
      db: Db, base: string, ids: seq<nat>, peers: seq<ProtoPeer>, routes: seq<ProtoRoute>, t: nat)
    requires InOrder(db, base, ids, peers, routes) && t in db.leases && t in db.tunnels
    ensures InOrder(db, base, ids + [t], peers + [PeerOf(db, t)], routes + RoutesOf(db.tunnels[t], base))
  {
    var ids', peers', routes' := ids + [t], peers + [PeerOf(db, t)], routes + RoutesOf(db.tunnels[t], base);
    forall i | 0 <= i < |ids'| ensures EntryOf(db, base, ids'[i], peers'[i], routes'[2 * i], routes'[2 * i + 1]) {
      if i < |ids| {
        assert EntryOf(db, base, ids[i], peers[i], routes[2 * i], routes[2 * i + 1]);
      } else {
        assert routes'[2 * i..] == RoutesOf(db.tunnels[t], base);
      }
    }
  }

  /** A snapshot has one peer and its two routes for every live tunnel, in order
      of tunnel id, and passes the zone on as it was read. */
  lemma SnapshotIsInOrder(db: Db, now: Time, base: string, dns: Option<DNSZone>) returns (ids: seq<nat>)
    requires DbInv(db)
    ensures forall i, j :: 0 <= i < j < |ids| ==> ids[i] < ids[j]
    ensures forall t: nat :: t in ids <==> t in db.tunnels && t in db.leases && db.leases[t].expiresAt > now
    ensures InOrder(db, base, ids, Config(db, now, base, dns).peers, Config(db, now, base, dns).routes)
    ensures Config(db, now, base, dns).dns == dns
  {
    ids := BelowInOrder(db, now, base, db.nextTunnel);
  }

  // ------------------------------------------------------- the Go methods

  class Database {
    var tunnels: map<nat, Tunnel>
    var tokens: map<string, TokenRow>
    var leases: map<nat, Lease>
    var nextTunnel: nat
    var nextIP: nat

    function View(): Db
      reads this
    {
      Db(tunnels, tokens, leases, nextTunnel, nextIP)
    }

    constructor ()
      ensures View() == EMPTY_DB
    {
      tunnels, tokens, leases, nextTunnel, nextIP := map[], map[], map[], 1, 2;
    }

    method Acquire(now: Time, tunnel: nat, instance: string, pubkey: Key, version: string, ttl: int)
      returns (status: Status)
      modifies this`leases
      ensures (View(), status) == AcquireLease(old(View()), now, tunnel, instance, pubkey, version, ttl)
    {
      if tunnel in leases {
        var row := leases[tunnel];
        if !(row.instance == instance || row.expiresAt < now) {
          return LeaseHeld;
        }
      }
      if KeyTaken(leases, tunnel, pubkey) {
        return PubkeyInUse;
      }
      if tunnel !in tunnels {
        return Internal;
      }
      leases := leases[tunnel := Lease(instance, pubkey, version, now, now + ttl)];
      return OK;
    }

    method Renew(now: Time, tunnel: nat, instance: string, ttl: int) returns (status: Status)
      modifies this`leases
      ensures (View(), status) == RenewLease(old(View()), now, tunnel, instance, ttl)
    {
      if tunnel !in leases || leases[tunnel].instance != instance {
        return Superseded;
      }
      leases := leases[tunnel := leases[tunnel].(expiresAt := now + ttl)];
      return OK;
    }

    method Release(tunnel: nat, instance: string)
      modifies this`leases
      ensures View() == ReleaseLease(old(View()), tunnel, instance)
    {
      if tunnel in leases && leases[tunnel].instance == instance {
        leases := leases - {tunnel};
      }
    }

    method Rotate(tunnel: nat, tok: Token) returns (status: Status)
      modifies this`tokens, this`leases
      ensures (View(), status) == RotateToken(old(View()), tunnel, tok)
    {
      var revoked := TokensOf(tokens, tunnel);
      if revoked == {} {
        return NotFound;
      }
      if tok.id in tokens - revoked {
        return Internal; // the transaction rolls back
      }
      tokens := (tokens - revoked)[tok.id := TokenRow(tunnel, tok.secret)];
      leases := leases - {tunnel};
      return OK;
    }

    method Auth(tok: Token) returns (tunnel: Option<nat>)
      ensures tunnel == AuthAgent(View(), tok)
    {
      if tok.id !in tokens || tokens[tok.id].secret != tok.secret {
        return None;
      }
      return Some(tokens[tok.id].tunnel);
    }

    /** Tries the drawn subdomains in turn; every try takes a tunnel id. */
    method Insert(drawn: seq<string>) returns (n: nat)
      modifies this`nextTunnel
      ensures n == Tries(tunnels, drawn) <= |drawn|
      ensures nextTunnel == old(nextTunnel) + if n < |drawn| then n + 1 else n
    {
      n := 0;
      while n < |drawn|
        invariant n <= |drawn| && nextTunnel == old(nextTunnel) + n
        invariant Tries(tunnels, drawn) == n + Tries(tunnels, drawn[n..])
      {
        nextTunnel := nextTunnel + 1;
        if !SubdomainTaken(tunnels, drawn[n]) {
          return;
        }
        n := n + 1;
      }
    }

    method Create(drawn: seq<string>, tok: Token) returns (status: Status)
      modifies this`tunnels, this`tokens, this`nextTunnel, this`nextIP
      ensures (View(), status) == CreateTunnel(old(View()), drawn, tok)
    {
      var off := nextIP;
      nextIP := nextIP + 1;
      var ip := OffsetAddr(CLIENT_POOL, off);
      if ip.None? {
        return Internal;
      }
      var n := Insert(drawn);
      if n == |drawn| || IPTaken(tunnels, ip.value) || tok.id in tokens {
        return Internal; // rolled back but for the sequences
      }
      var id := nextTunnel - 1;
      tunnels := tunnels[id := Tunnel(drawn[n], ip.value)];
      tokens := tokens[tok.id := TokenRow(id, tok.secret)];
      return OK;
    }

    /** Row by row in order of tunnel id, as the query returns them. */
    method Snapshot(now: Time, base: string, dns: Option<DNSZone>) returns (cfg: NodeConfig)
      ensures cfg == Config(View(), now, base, dns)
    {
      var peers: seq<ProtoPeer> := [];
      var routes: seq<ProtoRoute> := [];
      for t := 0 to nextTunnel
        invariant peers == PeersBelow(View(), now, t)
        invariant routes == RoutesBelow(View(), now, base, t)
      {
        if t in leases && t in tunnels && leases[t].expiresAt > now {
          var domain := tunnels[t].subdomain + "." + base;
          var ip := tunnels[t].vpnIP;
          peers := peers + [ProtoPeer(Some(leases[t].pubkey), Some(ip))];
          routes := routes + [ProtoRoute(domain, Some(ip)), ProtoRoute("*." + domain, Some(ip))];
        }
      }
      return NodeConfig(peers, routes, dns);
    }
  }
}
