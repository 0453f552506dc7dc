/** internal/wgnet/wgnet.go: turning a wanted peer list into a WireGuard
    configuration script, and what that script does to the device.

    The device is modelled by the line semantics of the WireGuard
    configuration protocol: `public_key` selects (and creates if needed) the
    current peer, the following lines act on it, and an allowed IP belongs to
    one peer at a time, so giving it to one peer takes it from another. */
module WgNet {
  import opened Basics

  datatype Peer = Peer(allowedIP: IPv4, endpoint: Option<string>, keepalive: nat)

  /** One entry of the list handed to SetPeers. */
  datatype ListedPeer = ListedPeer(key: Key, peer: Peer)

  type Record = map<Key, Peer>

  datatype Line =
    | PublicKey(key: Key)
    | Remove
    | ReplaceAllowedIPs
    | AllowedIP(ip: IPv4)
    | Keepalive(seconds: nat)
    | Endpoint(endpoint: string)

  // ------------------------------------------------------------ the device

  datatype DevicePeer = DevicePeer(keepalive: nat, endpoint: Option<string>)

  datatype DeviceState = DeviceState(
    peers: map<Key, DevicePeer>,
    owner: map<IPv4, Key>,
    current: Option<Key>)

  /** Every allowed IP is held by a peer the device knows, and so is the
      current peer. */
  ghost predicate WellFormed(d: DeviceState) {
    && (forall ip :: ip in d.owner ==> d.owner[ip] in d.peers)
    && (d.current.Some? ==> d.current.value in d.peers)
  }

  function WithoutOwner(owner: map<IPv4, Key>, k: Key): map<IPv4, Key> {
    map ip | ip in owner && owner[ip] != k :: owner[ip]
  }

  function Exec(d: DeviceState, line: Line): DeviceState {
    if line.PublicKey? then
      d.(peers := if line.key in d.peers then d.peers else d.peers[line.key := DevicePeer(0, None)],
         current := Some(line.key))
    else if d.current.Some? && d.current.value in d.peers then
      ExecOn(d, d.current.value, line)
    else
      d
  }

  function ExecOn(d: DeviceState, k: Key, line: Line): DeviceState
    requires k in d.peers && !line.PublicKey?
  {
    match line
    case Remove => DeviceState(d.peers - {k}, WithoutOwner(d.owner, k), None)
    case ReplaceAllowedIPs => d.(owner := WithoutOwner(d.owner, k))
    case AllowedIP(ip) => d.(owner := d.owner[ip := k])
    case Keepalive(n) => d.(peers := d.peers[k := d.peers[k].(keepalive := n)])
    case Endpoint(e) => d.(peers := d.peers[k := d.peers[k].(endpoint := Some(e))])
  }

  function Run(d: DeviceState, lines: seq<Line>): DeviceState
    decreases |lines|
  {
    if lines == [] then d else Run(Exec(d, lines[0]), lines[1..])
  }

  lemma {:induction false} RunConcat(d: DeviceState, a: seq<Line>, b: seq<Line>)
    ensures Run(d, a + b) == Run(Run(d, a), b)
    decreases |a|
  {
    if a == [] {
      assert a + b == b;
    } else {
      assert (a + b)[0] == a[0] && (a + b)[1..] == a[1..] + b;
      RunConcat(Exec(d, a[0]), a[1..], b);
    }
  }

  lemma {:induction false} RunKeepsWellFormed(d: DeviceState, lines: seq<Line>)
    requires WellFormed(d)
    ensures WellFormed(Run(d, lines))
    decreases |lines|
  {
    if lines != [] {
      RunKeepsWellFormed(Exec(d, lines[0]), lines[1..]);
    }
  }

  // ------------------------------------------------------------ the script

  /** The map SetPeers builds from its list: the last entry of a key wins. */
  function Wanted(list: seq<ListedPeer>): Record {
    if list == [] then map[]
    else Wanted(list[..|list| - 1])[list[|list| - 1].key := list[|list| - 1].peer]
  }

  /** A key is wanted exactly when it is listed, with its last entry. */
  lemma {:induction false} LastEntryWins(list: seq<ListedPeer>, i: nat)
    requires i < |list| && forall j :: i < j < |list| ==> list[j].key != list[i].key
    ensures list[i].key in Wanted(list) && Wanted(list)[list[i].key] == list[i].peer
    decreases |list|
  {
    if i < |list| - 1 {
      assert list[..|list| - 1][i] == list[i];
      LastEntryWins(list[..|list| - 1], i);
    }
  }

  lemma {:induction false} WantedIsListed(list: seq<ListedPeer>, k: Key)
    requires k in Wanted(list)
    ensures exists i :: 0 <= i < |list| && list[i].key == k
    decreases |list|
  {
    if list[|list| - 1].key != k {
      WantedIsListed(list[..|list| - 1], k);
    }
  }

  function RemoveBlock(k: Key): seq<Line> {
    [PublicKey(k), Remove]
  }

  function UpdateBlock(k: Key, p: Peer): seq<Line> {
    [PublicKey(k), ReplaceAllowedIPs, AllowedIP(p.allowedIP), Keepalive(p.keepalive)]
    + if p.endpoint.Some? then [Endpoint(p.endpoint.value)] else []
  }

  function RemoveScript(order: seq<Key>): seq<Line> {
    if order == [] then []
    else RemoveScript(order[..|order| - 1]) + RemoveBlock(order[|order| - 1])
  }

  function UpdateScript(order: seq<Key>, want: Record): seq<Line>
    requires Elems(order) <= want.Keys
  {
    if order == [] then []
    else
      var last := order[|order| - 1];
      UpdateScript(order[..|order| - 1], want) + UpdateBlock(last, want[last])
  }

  lemma UpdateScriptAppend(order: seq<Key>, k: Key, want: Record)
    requires Elems(order) <= want.Keys && k in want
    ensures Elems(order + [k]) <= want.Keys
    ensures UpdateScript(order + [k], want) == UpdateScript(order, want) + UpdateBlock(k, want[k])
  {
  }

  /** Peers of the record that are no longer wanted. */
  function Gone(rec: Record, want: Record): set<Key> {
    rec.Keys - want.Keys
  }

  /** Wanted peers the record already has with the very same settings. */
  function Same(rec: Record, want: Record): set<Key> {
    set k | k in want && k in rec && rec[k] == want[k]
  }

  function Changed(rec: Record, want: Record): set<Key> {
    want.Keys - Same(rec, want)
  }

  /** The orders in which the two map iterations may visit their keys. */
  ghost predicate Orders(rec: Record, want: Record, gone: seq<Key>, changed: seq<Key>) {
    && IsOrder(gone, Gone(rec, want))
    && IsOrder(changed, Changed(rec, want))
  }

  function Script(want: Record, gone: seq<Key>, changed: seq<Key>): seq<Line>
    requires Elems(changed) <= want.Keys
  {
    RemoveScript(gone) + UpdateScript(changed, want)
  }

  // ---------------------------------------------------------- what is wanted

  ghost predicate Distinct(want: Record) {
    forall j, k :: j in want && k in want && j != k ==> want[j].allowedIP != want[k].allowedIP
  }

  ghost predicate Settled(p: Peer, d: DevicePeer) {
    d.keepalive == p.keepalive && (p.endpoint.Some? ==> d.endpoint == p.endpoint)
  }

  /** The device has exactly the peers of `r`, with their keepalives and valid
      endpoints, and exactly their allowed IPs. */
  ghost predicate Agrees(r: Record, d: DeviceState) {
    && d.peers.Keys == r.Keys
    && (forall k :: k in r ==> Settled(r[k], d.peers[k]))
    && (forall k :: k in r ==> r[k].allowedIP in d.owner && d.owner[r[k].allowedIP] == k)
    && (forall ip :: ip in d.owner ==> d.owner[ip] in r && r[d.owner[ip]].allowedIP == ip)
  }

  /** The device condition a run of the script needs: no peer outside record
      and list, and every peer the script will not mention already in place;
      it may hold an extra IP only if the script is about to take it away. */
  ghost predicate Ready(rec: Record, want: Record, d: DeviceState) {
    && d.peers.Keys <= rec.Keys + want.Keys
    && forall k :: k in Same(rec, want) ==> InPlace(rec, want, d, k)
  }

  ghost predicate InPlace(rec: Record, want: Record, d: DeviceState, k: Key)
    requires k in want
  {
    && k in d.peers && Settled(want[k], d.peers[k])
    && want[k].allowedIP in d.owner && d.owner[want[k].allowedIP] == k
    && forall ip :: ip in d.owner && d.owner[ip] == k && ip != want[k].allowedIP ==>
         exists j :: j in Changed(rec, want) && want[j].allowedIP == ip
  }

  // ---------------------------------------------- running the whole script

  /** What the device looks like once the peers in `gone` were removed and
      those in `done` were configured, starting from `d0`. */
  ghost predicate Progress(d0: DeviceState, want: Record, gone: set<Key>, done: set<Key>, d: DeviceState) {
    && done <= want.Keys && gone !! want.Keys
    && PeersProgress(d0.peers, want, gone, done, d.peers)
    && OwnerProgress(d0.owner, want, gone, done, d.owner)
  }

  ghost predicate PeersProgress(
      p0: map<Key, DevicePeer>, want: Record, gone: set<Key>, done: set<Key>, p: map<Key, DevicePeer>)
    requires done <= want.Keys && gone !! want.Keys
  {
    && p.Keys == (p0.Keys - gone) + done
    && (forall k :: k in p && k !in done ==> p[k] == p0[k])
    && (forall k :: k in done ==> p[k] == Configured(p0, k, want[k]))
  }

  /** What configuring `k` makes of its device entry: an endpoint the wanted
      peer does not have is left as it was. */
  function Configured(p0: map<Key, DevicePeer>, k: Key, p: Peer): DevicePeer {
    DevicePeer(p.keepalive,
               if p.endpoint.Some? then p.endpoint else if k in p0 then p0[k].endpoint else None)
  }

  ghost predicate OwnerProgress(
      o0: map<IPv4, Key>, want: Record, gone: set<Key>, done: set<Key>, o: map<IPv4, Key>)
    requires done <= want.Keys && gone !! want.Keys
  {
    && (forall ip :: ip in o && o[ip] in done ==> ip == want[o[ip]].allowedIP)
    && (forall ip :: ip in o && o[ip] !in done ==> o[ip] !in gone && ip in o0 && o0[ip] == o[ip])
    && (forall ip :: ip in o0 && o0[ip] !in gone && o0[ip] !in done ==>
          ip in o && (o[ip] == o0[ip] || o[ip] in done))
    && (forall k :: k in done ==> want[k].allowedIP in o && o[want[k].allowedIP] in done)
  }

  lemma RemoveBlockProgress(d0: DeviceState, want: Record, gone: set<Key>, d: DeviceState, k: Key)
    requires Progress(d0, want, gone, {}, d) && k !in want
    ensures Progress(d0, want, gone + {k}, {}, Run(d, RemoveBlock(k)))
  {
    var d1 := Exec(d, PublicKey(k));
    assert Run(d, RemoveBlock(k)) == Exec(d1, Remove) by {
      assert RemoveBlock(k)[1..] == [Remove];
      assert Run(d1, [Remove]) == Run(Exec(d1, Remove), []);
    }
  }

  lemma UpdateBlockResult(d: DeviceState, k: Key, p: Peer)
    ensures var r := Run(d, UpdateBlock(k, p));
            && r.peers == d.peers[k := Configured(d.peers, k, p)]
            && r.owner == WithoutOwner(d.owner, k)[p.allowedIP := k]
  {
    var head := [PublicKey(k), ReplaceAllowedIPs, AllowedIP(p.allowedIP), Keepalive(p.keepalive)];
    var tail := if p.endpoint.Some? then [Endpoint(p.endpoint.value)] else [];
    RunConcat(d, head, tail);
    var d1 := Exec(d, PublicKey(k));
    var d2 := Exec(d1, ReplaceAllowedIPs);
    var d3 := Exec(d2, AllowedIP(p.allowedIP));
    var d4 := Exec(d3, Keepalive(p.keepalive));
    assert Run(d, head) == d4 by {
      assert Run(d, head) == Run(d1, head[1..]) == Run(d2, head[1..][1..]) == Run(d3, head[1..][1..][1..]);
      assert head[1..][1..][1..] == [Keepalive(p.keepalive)];
      assert Run(d3, [Keepalive(p.keepalive)]) == Run(d4, []);
    }
    if tail != [] {
      assert Run(d4, tail) == Run(Exec(d4, tail[0]), []);
    }
  }

  lemma UpdateOwnerProgress(
      o0: map<IPv4, Key>, want: Record, gone: set<Key>, done: set<Key>, o: map<IPv4, Key>, k: Key)
    requires done <= want.Keys && gone !! want.Keys && k in want && k !in done
    requires OwnerProgress(o0, want, gone, done, o)
    ensures OwnerProgress(o0, want, gone, done + {k}, WithoutOwner(o, k)[want[k].allowedIP := k])
  {
  }

  lemma UpdateBlockProgress(d0: DeviceState, want: Record, gone: set<Key>, done: set<Key>, d: DeviceState, k: Key)
    requires Progress(d0, want, gone, done, d) && k in want && k !in done
    ensures Progress(d0, want, gone, done + {k}, Run(d, UpdateBlock(k, want[k])))
  {
    UpdateBlockResult(d, k, want[k]);
    UpdateOwnerProgress(d0.owner, want, gone, done, d.owner, k);
  }

  lemma {:induction false} RemoveScriptProgress(d0: DeviceState, want: Record, order: seq<Key>)
    requires Elems(order) !! want.Keys
    ensures Progress(d0, want, Elems(order), {}, Run(d0, RemoveScript(order)))
    decreases |order|
  {
    if order != [] {
      var init, last := order[..|order| - 1], order[|order| - 1];
      RemoveScriptProgress(d0, want, init);
      RunConcat(d0, RemoveScript(init), RemoveBlock(last));
      RemoveBlockProgress(d0, want, Elems(init), Run(d0, RemoveScript(init)), last);
      assert Elems(order) == Elems(init) + {last};
    }
  }

  lemma {:induction false} UpdateScriptProgress(
      d0: DeviceState, want: Record, gone: set<Key>, d: DeviceState, order: seq<Key>)
    requires Progress(d0, want, gone, {}, d)
    requires Elems(order) <= want.Keys && IsOrder(order, Elems(order))
    ensures Progress(d0, want, gone, Elems(order), Run(d, UpdateScript(order, want)))
    decreases |order|
  {
    if order == [] {
      assert Elems(order) == {};
    } else {
      var init, last := order[..|order| - 1], order[|order| - 1];
      OrderInit(order);
      UpdateScriptProgress(d0, want, gone, d, init);
      var d1 := Run(d, UpdateScript(init, want));
      UpdateBlockProgress(d0, want, gone, Elems(init), d1, last);
      RunConcat(d, UpdateScript(init, want), UpdateBlock(last, want[last]));
      assert UpdateScript(order, want) == UpdateScript(init, want) + UpdateBlock(last, want[last]);
      assert Run(d, UpdateScript(order, want)) == Run(d1, UpdateBlock(last, want[last]));
    }
  }

  lemma ScriptProgress(d0: DeviceState, rec: Record, want: Record, gone: seq<Key>, changed: seq<Key>)
    requires Orders(rec, want, gone, changed)
    ensures Progress(d0, want, Gone(rec, want), Changed(rec, want), Run(d0, Script(want, gone, changed)))
  {
    RemoveScriptProgress(d0, want, gone);
    var d1 := Run(d0, RemoveScript(gone));
    assert Elems(gone) == Gone(rec, want);
    UpdateScriptProgress(d0, want, Gone(rec, want), d1, changed);
    assert Elems(changed) == Changed(rec, want);
    RunConcat(d0, RemoveScript(gone), UpdateScript(changed, want));
  }

  /** No call ever clears an endpoint: whatever the orders, a peer that stays
      wanted without an endpoint keeps the one the device knew. */
  lemma EndpointsAreNeverCleared(
      d: DeviceState, rec: Record, want: Record, gone: seq<Key>, changed: seq<Key>, k: Key)
    requires Orders(rec, want, gone, changed)
    requires k in want && want[k].endpoint.None? && k in d.peers
    ensures var r := Run(d, Script(want, gone, changed));
            k in r.peers && r.peers[k].endpoint == d.peers[k].endpoint
  {
    ScriptProgress(d, rec, want, gone, changed);
  }

  lemma ConvergenceNeedsReady(d: DeviceState, rec: Record, want: Record, r: DeviceState)
    requires Progress(d, want, Gone(rec, want), Changed(rec, want), r) && Agrees(want, r)
    ensures Distinct(want) && Ready(rec, want, d)
  {
  }

  lemma ReadyConverges(d: DeviceState, rec: Record, want: Record, r: DeviceState)
    requires WellFormed(d) && Progress(d, want, Gone(rec, want), Changed(rec, want), r)
    requires Distinct(want) && Ready(rec, want, d)
    ensures Agrees(want, r)
  {
    forall k | k in want
      ensures k in r.peers && Settled(want[k], r.peers[k])
      ensures want[k].allowedIP in r.owner && r.owner[want[k].allowedIP] == k
    {
      if k in Same(rec, want) {
        assert InPlace(rec, want, d, k);
      }
    }
    forall ip | ip in r.owner ensures r.owner[ip] in want && want[r.owner[ip]].allowedIP == ip {
      var k := r.owner[ip];
      if k !in Changed(rec, want) {
        assert k in d.peers && k in Same(rec, want);
        assert InPlace(rec, want, d, k);
      }
    }
  }

  /** Exact convergence: for every order of both iterations, the whole script
      leaves the wanted state if and only if no two wanted peers share an
      allowed IP and the device was ready for it. */
  lemma ConvergesExactlyWhenReady(d: DeviceState, rec: Record, want: Record, gone: seq<Key>, changed: seq<Key>)
    requires WellFormed(d) && Orders(rec, want, gone, changed)
    ensures Agrees(want, Run(d, Script(want, gone, changed))) <==> Distinct(want) && Ready(rec, want, d)
  {
    ScriptProgress(d, rec, want, gone, changed);
    var r := Run(d, Script(want, gone, changed));
    if Agrees(want, r) {
      ConvergenceNeedsReady(d, rec, want, r);
    }
    if Distinct(want) && Ready(rec, want, d) {
      ReadyConverges(d, rec, want, r);
    }
  }

  /** A device that agrees with the record is ready for every wanted list. */
  lemma AgreementIsReady(rec: Record, want: Record, d: DeviceState)
    requires Agrees(rec, d)
    ensures Ready(rec, want, d)
  {
  }

  // ------------------------------------------------------ stopping midway

  /** Lines that leave the peers both maps share alone. */
  ghost predicate Harmless(rec: Record, want: Record, line: Line) {
    && (line.PublicKey? ==> line.key in Gone(rec, want) + Changed(rec, want))
    && (line.AllowedIP? ==> forall k :: k in Same(rec, want) ==> want[k].allowedIP != line.ip)
  }

  ghost predicate AwayFromSame(rec: Record, want: Record, d: DeviceState) {
    d.current.Some? ==> d.current.value in Gone(rec, want) + Changed(rec, want)
  }

  lemma HarmlessLineKeepsReady(rec: Record, want: Record, d: DeviceState, line: Line)
    requires Ready(rec, want, d) && AwayFromSame(rec, want, d) && Harmless(rec, want, line)
    ensures Ready(rec, want, Exec(d, line)) && AwayFromSame(rec, want, Exec(d, line))
    ensures forall k :: k in Same(rec, want) ==> Exec(d, line).peers[k] == d.peers[k]
  {
    var r := Exec(d, line);
    forall k | k in Same(rec, want) ensures InPlace(rec, want, r, k) && r.peers[k] == d.peers[k] {
      assert InPlace(rec, want, d, k);
    }
  }

  lemma {:induction false} HarmlessLinesKeepReady(rec: Record, want: Record, d: DeviceState, lines: seq<Line>)
    requires Ready(rec, want, d) && AwayFromSame(rec, want, d)
    requires forall l :: l in lines ==> Harmless(rec, want, l)
    ensures Ready(rec, want, Run(d, lines))
    ensures forall k :: k in Same(rec, want) ==> Run(d, lines).peers[k] == d.peers[k]
    decreases |lines|
  {
    if lines != [] {
      HarmlessLineKeepsReady(rec, want, d, lines[0]);
      var d1 := Exec(d, lines[0]);
      HarmlessLinesKeepReady(rec, want, d1, lines[1..]);
      forall k | k in Same(rec, want) ensures Run(d, lines).peers[k] == d.peers[k] {
        assert InPlace(rec, want, d, k) && InPlace(rec, want, d1, k);
      }
    }
  }

  lemma {:induction false} RemoveScriptLines(order: seq<Key>)
    ensures forall l :: l in RemoveScript(order) ==>
              l == Remove || (l.PublicKey? && l.key in order)
    decreases |order|
  {
    if order != [] {
      RemoveScriptLines(order[..|order| - 1]);
    }
  }

  lemma {:induction false} UpdateScriptLines(order: seq<Key>, want: Record)
    requires Elems(order) <= want.Keys
    ensures forall l :: l in UpdateScript(order, want) ==>
              && (l.PublicKey? ==> l.key in order)
              && (l.AllowedIP? ==> exists k :: k in order && want[k].allowedIP == l.ip)
    decreases |order|
  {
    if order != [] {
      var init, last := order[..|order| - 1], order[|order| - 1];
      UpdateScriptLines(init, want);
      forall l | l in UpdateScript(order, want)
        ensures l.PublicKey? ==> l.key in order
        ensures l.AllowedIP? ==> exists k :: k in order && want[k].allowedIP == l.ip
      {
        if l in UpdateBlock(last, want[last]) {
          assert last in order;
        } else {
          assert l in UpdateScript(init, want);
        }
      }
    }
  }

  /** Peers equal in both maps are never mentioned, and no line of the script
      takes one of their allowed IPs. */
  lemma ScriptIsHarmless(rec: Record, want: Record, gone: seq<Key>, changed: seq<Key>)
    requires Orders(rec, want, gone, changed) && Distinct(want)
    ensures forall l :: l in Script(want, gone, changed) ==> Harmless(rec, want, l)
  {
    RemoveScriptLines(gone);
    UpdateScriptLines(changed, want);
  }

  /** The script never selects a peer that is equal in both maps. */
  lemma UnchangedPeersAreNeverMentioned(rec: Record, want: Record, gone: seq<Key>, changed: seq<Key>, k: Key)
    requires Orders(rec, want, gone, changed) && k in rec && k in want && rec[k] == want[k]
    ensures PublicKey(k) !in Script(want, gone, changed)
  {
    assert k in Same(rec, want);
    assert k !in Elems(gone) && k !in Elems(changed);
    RemoveScriptLines(gone);
    UpdateScriptLines(changed, want);
  }

  /** One call of SetPeers for `want` whose IpcSet executed the first `stop`
      lines. */
  datatype Attempt = Attempt(want: Record, gone: seq<Key>, changed: seq<Key>, stop: nat)

  ghost predicate IsAttempt(rec: Record, a: Attempt) {
    Orders(rec, a.want, a.gone, a.changed) && a.stop <= |Script(a.want, a.gone, a.changed)|
  }

  /** Failed calls, each for one of the lists. */
  ghost predicate AllAttempts(rec: Record, lists: set<Record>, attempts: seq<Attempt>) {
    forall i :: 0 <= i < |attempts| ==> attempts[i].want in lists && IsAttempt(rec, attempts[i])
  }

  ghost function AfterAttempt(d: DeviceState, rec: Record, a: Attempt): DeviceState
    requires IsAttempt(rec, a)
  {
    Run(d.(current := None), Script(a.want, a.gone, a.changed)[..a.stop])
  }

  ghost function AfterAttempts(d: DeviceState, rec: Record, lists: set<Record>, attempts: seq<Attempt>): DeviceState
    requires AllAttempts(rec, lists, attempts)
    decreases |attempts|
  {
    if attempts == [] then d
    else AfterAttempts(AfterAttempt(d, rec, attempts[0]), rec, lists, attempts[1..])
  }

  /** A failed call for `other` cannot spoil a later one for `want`: it knows no
      stranger, agrees with the record on every peer the later call leaves
      alone, and gives no address of theirs away. */
  ghost predicate Compatible(rec: Record, other: Record, want: Record) {
    && other.Keys <= rec.Keys + want.Keys
    && Same(rec, want) <= Same(rec, other)
    && forall j, k :: j in Changed(rec, other) && k in Same(rec, want) ==> other[j].allowedIP != want[k].allowedIP
  }

  lemma CompatibleScriptIsHarmless(rec: Record, other: Record, want: Record, gone: seq<Key>, changed: seq<Key>)
    requires Orders(rec, other, gone, changed) && Compatible(rec, other, want)
    ensures forall l :: l in Script(other, gone, changed) ==> Harmless(rec, want, l)
  {
    RemoveScriptLines(gone);
    UpdateScriptLines(changed, other);
    assert forall k :: k in gone ==> k in Elems(gone);
    assert forall k :: k in changed ==> k in Elems(changed);
  }

  lemma ReadyUnselected(rec: Record, want: Record, d: DeviceState)
    ensures Ready(rec, want, d.(current := None)) <==> Ready(rec, want, d)
  {
    forall k | k in Same(rec, want) ensures InPlace(rec, want, d.(current := None), k) <==> InPlace(rec, want, d, k) {
    }
  }

  lemma AttemptKeepsReady(d: DeviceState, rec: Record, want: Record, a: Attempt)
    requires WellFormed(d) && Ready(rec, want, d)
    requires IsAttempt(rec, a) && Compatible(rec, a.want, want)
    ensures Ready(rec, want, AfterAttempt(d, rec, a)) && WellFormed(AfterAttempt(d, rec, a))
  {
    var lines := Script(a.want, a.gone, a.changed);
    CompatibleScriptIsHarmless(rec, a.want, want, a.gone, a.changed);
    ReadyUnselected(rec, want, d);
    HarmlessLinesKeepReady(rec, want, d.(current := None), lines[..a.stop]);
    RunKeepsWellFormed(d.(current := None), lines[..a.stop]);
  }

  lemma {:induction false} AttemptsKeepReady(
      d: DeviceState, rec: Record, lists: set<Record>, want: Record, attempts: seq<Attempt>)
    requires WellFormed(d) && Ready(rec, want, d)
    requires forall other :: other in lists ==> Compatible(rec, other, want)
    requires AllAttempts(rec, lists, attempts)
    ensures Ready(rec, want, AfterAttempts(d, rec, lists, attempts))
    ensures WellFormed(AfterAttempts(d, rec, lists, attempts))
    decreases |attempts|
  {
    if attempts != [] {
      AttemptKeepsReady(d, rec, want, attempts[0]);
      AttemptsKeepReady(AfterAttempt(d, rec, attempts[0]), rec, lists, want, attempts[1..]);
    }
  }

  /** One whole call for `want` reaches its state, for every order. */
  ghost predicate Converges(d: DeviceState, rec: Record, want: Record) {
    forall gone, changed :: Orders(rec, want, gone, changed) ==>
      Agrees(want, Run(d.(current := None), Script(want, gone, changed)))
  }

  /** It does after whatever failed calls for the lists. */
  ghost predicate AlwaysRecovers(d: DeviceState, rec: Record, lists: set<Record>, want: Record) {
    forall attempts :: AllAttempts(rec, lists, attempts) ==>
      Converges(AfterAttempts(d, rec, lists, attempts), rec, want)
  }

  lemma {:induction false} AnyOrder(s: set<Key>) returns (order: seq<Key>)
    ensures IsOrder(order, s)
  {
    if s == {} {
      order := [];
      assert Elems(order) == {};
    } else {
      var x :| x in s;
      order := AnyOrder(s - {x});
      OrderAppend(order, s - {x}, x);
      order := order + [x];
      assert s - {x} + {x} == s;
    }
  }

  lemma OrderStarting(s: set<Key>, x: Key) returns (order: seq<Key>)
    requires x in s
    ensures IsOrder(order, s) && |order| > 0 && order[0] == x
  {
    var rest := AnyOrder(s - {x});
    order := [x] + rest;
    assert forall k :: k in rest ==> k in Elems(rest);
    assert Elems(order) == {x} + Elems(rest) == s;
  }

  lemma ConvergesExactly(d: DeviceState, rec: Record, want: Record)
    requires WellFormed(d)
    ensures Converges(d, rec, want) <==> Distinct(want) && Ready(rec, want, d)
  {
    var d0 := d.(current := None);
    ReadyUnselected(rec, want, d);
    forall gone, changed | Orders(rec, want, gone, changed)
      ensures Agrees(want, Run(d0, Script(want, gone, changed))) <==> Distinct(want) && Ready(rec, want, d)
    {
      ConvergesExactlyWhenReady(d0, rec, want, gone, changed);
    }
    var gone := AnyOrder(Gone(rec, want));
    var changed := AnyOrder(Changed(rec, want));
    assert Orders(rec, want, gone, changed);
  }

  lemma {:induction false} UpdateScriptBegins(want: Record, changed: seq<Key>)
    requires Elems(changed) <= want.Keys && changed != [] && changed[0] in want
    ensures UpdateBlock(changed[0], want[changed[0]]) <= UpdateScript(changed, want)
    decreases |changed|
  {
    var init := changed[..|changed| - 1];
    if init == [] {
      assert UpdateScript(init, want) == [];
    } else {
      assert forall k :: k in init ==> k in Elems(changed);
      UpdateScriptBegins(want, init);
    }
  }

  lemma TakeInside<T>(a: seq<T>, b: seq<T>, c: seq<T>, n: nat)
    requires b <= c && n <= |b|
    ensures |a| + n <= |a + c| && (a + c)[..|a| + n] == a + b[..n]
  {
    assert b[..n] == c[..n];
  }

  /** The first block of the changes comes right after the removals. */
  lemma ScriptBegins(want: Record, gone: seq<Key>, changed: seq<Key>, n: nat)
    requires Elems(changed) <= want.Keys && changed != [] && changed[0] in want && n <= 4
    ensures |RemoveScript(gone)| + n <= |Script(want, gone, changed)|
    ensures Script(want, gone, changed)[..|RemoveScript(gone)| + n] ==
            RemoveScript(gone) + UpdateBlock(changed[0], want[changed[0]])[..n]
  {
    UpdateScriptBegins(want, changed);
    TakeInside(RemoveScript(gone), UpdateBlock(changed[0], want[changed[0]]), UpdateScript(changed, want), n);
  }

  lemma BlockBegins(d: DeviceState, k: Key, p: Peer, n: nat)
    requires 1 <= n <= 3
    ensures var r := Run(d, UpdateBlock(k, p)[..n]);
            && k in r.peers
            && (n == 2 ==> r.owner == WithoutOwner(d.owner, k))
            && (n == 3 ==> p.allowedIP in r.owner && r.owner[p.allowedIP] == k)
  {
    var head := [PublicKey(k), ReplaceAllowedIPs, AllowedIP(p.allowedIP)];
    assert UpdateBlock(k, p)[..n] == head[..n];
    var d1 := Exec(d, PublicKey(k));
    var d2 := Exec(d1, ReplaceAllowedIPs);
    var d3 := Exec(d2, AllowedIP(p.allowedIP));
    assert head[..n][1..] == head[1..n];
    assert Run(d, head[..n]) == Run(d1, head[1..n]);
    if n >= 2 {
      assert head[1..n][1..] == head[2..n];
      assert Run(d1, head[1..n]) == Run(d2, head[2..n]);
    }
    if n == 3 {
      assert head[2..3][1..] == [];
      assert Run(d2, head[2..3]) == Run(d3, []);
    }
  }

  /** Stopping within the first block of the changes. */
  lemma StopInFirstBlock(d: DeviceState, rec: Record, other: Record, x: Key, n: nat) returns (a: Attempt)
    requires x in Changed(rec, other) && 1 <= n <= 3
    ensures a.want == other && IsAttempt(rec, a)
    ensures var r := AfterAttempt(d, rec, a);
            && x in r.peers
            && (n == 2 ==> forall ip :: ip in r.owner ==> r.owner[ip] != x)
            && (n == 3 ==> other[x].allowedIP in r.owner && r.owner[other[x].allowedIP] == x)
  {
    var gone := AnyOrder(Gone(rec, other));
    var changed := OrderStarting(Changed(rec, other), x);
    ScriptBegins(other, gone, changed, n);
    a := Attempt(other, gone, changed, |RemoveScript(gone)| + n);
    var d0 := d.(current := None);
    RunConcat(d0, RemoveScript(gone), UpdateBlock(x, other[x])[..n]);
    BlockBegins(Run(d0, RemoveScript(gone)), x, other[x], n);
  }

  lemma StopAfterRemovals(d: DeviceState, rec: Record, other: Record, k: Key) returns (a: Attempt)
    requires k in Gone(rec, other)
    ensures a.want == other && IsAttempt(rec, a) && k !in AfterAttempt(d, rec, a).peers
  {
    var gone := AnyOrder(Gone(rec, other));
    var changed := AnyOrder(Changed(rec, other));
    a := Attempt(other, gone, changed, |RemoveScript(gone)|);
    assert Script(other, gone, changed)[..a.stop] == RemoveScript(gone);
    RemoveScriptProgress(d.(current := None), other, gone);
  }

  /** Without the condition some single failed call does spoil it. */
  lemma IncompatibleSpoils(d: DeviceState, rec: Record, other: Record, want: Record) returns (a: Attempt)
    requires !Compatible(rec, other, want)
    ensures a.want == other && IsAttempt(rec, a) && !Ready(rec, want, AfterAttempt(d, rec, a))
  {
    if !(other.Keys <= rec.Keys + want.Keys) {
      var x :| x in other.Keys && x !in rec.Keys + want.Keys;
      a := StopInFirstBlock(d, rec, other, x, 1);
    } else if !(Same(rec, want) <= Same(rec, other)) {
      var k :| k in Same(rec, want) && k !in Same(rec, other);
      if k in other {
        a := StopInFirstBlock(d, rec, other, k, 2);
      } else {
        a := StopAfterRemovals(d, rec, other, k);
      }
      assert !InPlace(rec, want, AfterAttempt(d, rec, a), k);
    } else {
      var j, k :| j in Changed(rec, other) && k in Same(rec, want) && other[j].allowedIP == want[k].allowedIP;
      a := StopInFirstBlock(d, rec, other, j, 3);
      assert j != k;
      assert !InPlace(rec, want, AfterAttempt(d, rec, a), k);
    }
  }

  lemma RecoveryNeedsCompatible(d: DeviceState, rec: Record, lists: set<Record>, want: Record, other: Record)
    requires WellFormed(d) && AlwaysRecovers(d, rec, lists, want) && other in lists
    ensures Compatible(rec, other, want)
  {
    if !Compatible(rec, other, want) {
      var a := IncompatibleSpoils(d, rec, other, want);
      var r := AfterAttempt(d, rec, a);
      assert AllAttempts(rec, lists, [a]);
      assert AfterAttempts(d, rec, lists, [a]) == AfterAttempts(r, rec, lists, [a][1..]) == r;
      RunKeepsWellFormed(d.(current := None), Script(other, a.gone, a.changed)[..a.stop]);
      ConvergesExactly(r, rec, want);
      assert false;
    }
  }

  /** When a retry is safe, in terms of the lists alone: starting from a device
      that agrees with the record, a call for `want` that goes through reaches
      its state after any number of failed calls for any of the lists, each
      stopped after any of its lines in any order, exactly when the wanted
      addresses are distinct and every one of the lists is compatible. */
  lemma RecoversExactly(d: DeviceState, rec: Record, lists: set<Record>, want: Record)
    requires WellFormed(d) && Agrees(rec, d)
    ensures AlwaysRecovers(d, rec, lists, want) <==>
            Distinct(want) && forall other :: other in lists ==> Compatible(rec, other, want)
  {
    if AlwaysRecovers(d, rec, lists, want) {
      assert AllAttempts(rec, lists, []);
      assert Converges(AfterAttempts(d, rec, lists, []), rec, want);
      ConvergesExactly(d, rec, want);
      forall other | other in lists ensures Compatible(rec, other, want) {
        RecoveryNeedsCompatible(d, rec, lists, want, other);
      }
    }
    if Distinct(want) && forall other :: other in lists ==> Compatible(rec, other, want) {
      AgreementIsReady(rec, want, d);
      forall attempts | AllAttempts(rec, lists, attempts)
        ensures Converges(AfterAttempts(d, rec, lists, attempts), rec, want)
      {
        AttemptsKeepReady(d, rec, lists, want, attempts);
        ConvergesExactly(AfterAttempts(d, rec, lists, attempts), rec, want);
      }
    }
  }

  /** Retrying with the same list is always safe: after any number of calls,
      each stopped after any prefix of its script in its own order, one call
      that goes through still reaches the wanted device state. */
  lemma RetryReachesWantedState(
      d: DeviceState, rec: Record, want: Record, attempts: seq<Attempt>, gone: seq<Key>, changed: seq<Key>)
    requires WellFormed(d) && Agrees(rec, d) && Distinct(want)
    requires AllAttempts(rec, {want}, attempts)
    requires Orders(rec, want, gone, changed)
    ensures Agrees(want, Run(AfterAttempts(d, rec, {want}, attempts).(current := None), Script(want, gone, changed)))
  {
    RecoversExactly(d, rec, {want}, want);
    assert Compatible(rec, want, want);
    assert Converges(AfterAttempts(d, rec, {want}, attempts), rec, want);
  }

  /** With another list the retry can miss: a call that stopped after its
      first line leaves a peer neither record nor new list knows, the next
      script is empty, and the stranger stays on the device. */
  lemma RetryWithAnotherListCanMiss(k: Key, p: Peer)
    ensures var d := DeviceState(map[], map[], None);
            var failed := Run(d, Script(map[k := p], [], [k])[..1]);
            && Agrees(map[], d)
            && Orders(map[], map[k := p], [], [k])
            && Orders(map[], map[], [], [])
            && Script(map[], [], []) == []
            && !Ready(map[], map[], failed)
            && !Agrees(map[], Run(failed, Script(map[], [], [])))
  {
    var d := DeviceState(map[], map[], None);
    var lines := Script(map[k := p], [], [k]);
    assert RemoveScript([]) == [];
    assert [k][..0] == [];
    UpdateScriptAppend([], k, map[k := p]);
    assert [] + [k] == [k];
    assert lines == UpdateBlock(k, p);
    assert lines[..1] == [PublicKey(k)];
    var failed := Run(d, lines[..1]);
    assert Run(d, [PublicKey(k)]) == Run(Exec(d, PublicKey(k)), []);
    assert failed == Exec(d, PublicKey(k));
    assert k in failed.peers;
  }

  // ------------------------------------------------------- the Go methods

  class Device {
    var peers: map<Key, DevicePeer>
    var owner: map<IPv4, Key>
    var current: Option<Key>

    function State(): DeviceState
      reads this
    {
      DeviceState(peers, owner, current)
    }

    constructor ()
      ensures State() == DeviceState(map[], map[], None)
    {
      peers, owner, current := map[], map[], None;
    }

    /** Applies the lines one by one; it may fail before any of them, or after
        the last one. */
    method IpcSet(lines: seq<Line>) returns (err: bool, ghost stop: nat)
      modifies this
      ensures stop <= |lines| && (!err ==> stop == |lines|)
      ensures State() == Run(old(State()).(current := None), lines[..stop])
    {
      current := None;
      ghost var start := State();
      err, stop := false, 0;
      var i := 0;
      while i < |lines|
        invariant stop == i <= |lines|
        invariant State() == Run(start, lines[..i])
      {
        if * {
          err := true;
          return;
        }
        assert lines[..i + 1] == lines[..i] + [lines[i]];
        RunConcat(start, lines[..i], [lines[i]]);
        Step(lines[i]);
        i, stop := i + 1, i + 1;
      }
      assert lines[..i] == lines;
      err := *;
    }

    method Step(line: Line)
      modifies this
      ensures State() == Exec(old(State()), line)
    {
      if line.PublicKey? {
        if line.key !in peers {
          peers := peers[line.key := DevicePeer(0, None)];
        }
        current := Some(line.key);
      } else if current.Some? && current.value in peers {
        var k := current.value;
        match line {
          case Remove =>
            peers, owner, current := peers - {k}, WithoutOwner(owner, k), None;
          case ReplaceAllowedIPs => owner := WithoutOwner(owner, k);
          case AllowedIP(ip) => owner := owner[ip := k];
          case Keepalive(n) => peers := peers[k := peers[k].(keepalive := n)];
          case Endpoint(e) => peers := peers[k := peers[k].(endpoint := Some(e))];
        }
      }
    }
  }

  class Net {
    const dev: Device
    var peers: Record

    constructor ()
      ensures fresh(dev) && peers == map[] && dev.State() == DeviceState(map[], map[], None)
    {
      dev := new Device();
      peers := map[];
    }

    static method BuildWanted(list: seq<ListedPeer>) returns (want: Record)
      ensures want == Wanted(list)
    {
      want := map[];
      for i := 0 to |list|
        invariant want == Wanted(list[..i])
      {
        assert list[..i + 1][..i] == list[..i];
        want := want[list[i].key := list[i].peer];
      }
      assert list[..|list|] == list;
    }

    /** First loop of SetPeers: recorded peers that are no longer wanted. */
    method WriteRemovals(want: Record) returns (b: seq<Line>, ghost gone: seq<Key>)
      ensures IsOrder(gone, Gone(peers, want)) && b == RemoveScript(gone)
    {
      b, gone := [], [];
      var todo := peers.Keys;
      while todo != {}
        invariant todo <= peers.Keys
        invariant IsOrder(gone, Gone(peers, want) - todo)
        invariant b == RemoveScript(gone)
        decreases todo
      {
        var k :| k in todo;
        todo := todo - {k};
        if k !in want {
          assert (gone + [k])[..|gone|] == gone;
          OrderAppend(gone, Gone(peers, want) - todo - {k}, k);
          b := b + [PublicKey(k), Remove];
          gone := gone + [k];
        }
      }
      assert Gone(peers, want) - todo == Gone(peers, want);
    }

    /** Second loop of SetPeers: wanted peers that are new or differ. */
    method WriteChanges(want: Record, before: seq<Line>) returns (b: seq<Line>, ghost changed: seq<Key>)
      ensures IsOrder(changed, Changed(peers, want)) && b == before + UpdateScript(changed, want)
    {
      b, changed := before, [];
      var todo := want.Keys;
      while todo != {}
        invariant todo <= want.Keys
        invariant IsOrder(changed, Changed(peers, want) - todo)
        invariant b == before + UpdateScript(changed, want)
        decreases todo
      {
        var k :| k in todo;
        todo := todo - {k};
        var p := want[k];
        if k in peers && peers[k] == p {
          continue;
        }
        ghost var script := UpdateScript(changed, want);
        b := b + [PublicKey(k), ReplaceAllowedIPs, AllowedIP(p.allowedIP), Keepalive(p.keepalive)];
        if p.endpoint.Some? {
          b := b + [Endpoint(p.endpoint.value)];
        }
        assert b == before + (script + UpdateBlock(k, p));
        UpdateScriptAppend(changed, k, want);
        OrderAppend(changed, Changed(peers, want) - todo - {k}, k);
        changed := changed + [k];
      }
      assert Changed(peers, want) - todo == Changed(peers, want);
    }

    /** Replaces the peer set, sending the device only the differences. */
    method SetPeers(list: seq<ListedPeer>) returns (err: bool, ghost attempt: Attempt)
      requires WellFormed(dev.State())
      modifies this`peers, dev
      ensures WellFormed(dev.State())
      ensures attempt.want == Wanted(list) && IsAttempt(old(peers), attempt)
      ensures var script := Script(Wanted(list), attempt.gone, attempt.changed);
              && (!err ==> attempt.stop == |script|)
              && (script == [] ==> !err && dev.State() == old(dev.State()))
              && (script != [] ==>
                    dev.State() == Run(old(dev.State()).(current := None), script[..attempt.stop]))
      ensures peers == if err then old(peers) else Wanted(list)
      ensures !err ==>
                (Agrees(peers, dev.State()) <==> Distinct(peers) && Ready(old(peers), peers, old(dev.State())))
      ensures err && Distinct(Wanted(list)) && Ready(peers, Wanted(list), old(dev.State())) ==>
                Ready(peers, Wanted(list), dev.State())
    {
      var want := BuildWanted(list);
      ghost var gone, changed;
      var b;
      b, gone := WriteRemovals(want);
      b, changed := WriteChanges(want, b);
      assert b == Script(want, gone, changed);
      SetPeersFacts(dev.State(), peers, want, gone, changed);

      if |b| == 0 {
        EmptyScript(peers, want, gone, changed);
        return false, Attempt(want, gone, changed, 0);
      }
      ghost var stop;
      err, stop := dev.IpcSet(b);
      attempt := Attempt(want, gone, changed, stop);
      assert !err ==> b[..stop] == b;
      if err {
        return;
      }
      peers := want;
    }
  }

  /** An empty script means record and list already coincide. */
  lemma EmptyScript(rec: Record, want: Record, gone: seq<Key>, changed: seq<Key>)
    requires Orders(rec, want, gone, changed) && Script(want, gone, changed) == []
    ensures rec == want
  {
    assert RemoveScript(gone) == [] && UpdateScript(changed, want) == [];
    assert gone == [] && changed == [];
    assert Elems(gone) == {} && Elems(changed) == {};
    assert Gone(rec, want) == {} && Changed(rec, want) == {};
    forall k | k in want ensures k in Same(rec, want) {
      assert k !in Changed(rec, want);
    }
    assert forall k :: k in rec && k !in Gone(rec, want) ==> k in want;
    assert rec.Keys == want.Keys;
  }

  /** What one call guarantees, gathered for every prefix of its script. */
  lemma SetPeersFacts(d: DeviceState, rec: Record, want: Record, gone: seq<Key>, changed: seq<Key>)
    requires WellFormed(d) && Orders(rec, want, gone, changed)
    ensures var script := Script(want, gone, changed);
            && (forall n :: 0 <= n <= |script| ==> WellFormed(Run(d.(current := None), script[..n])))
            && (Agrees(want, Run(d.(current := None), script)) <==> Distinct(want) && Ready(rec, want, d))
            && (script == [] ==> (Agrees(want, d) <==> Distinct(want) && Ready(rec, want, d)))
            && (Distinct(want) && Ready(rec, want, d) ==>
                  forall n :: 0 <= n <= |script| ==> Ready(rec, want, Run(d.(current := None), script[..n])))
  {
    var script := Script(want, gone, changed);
    var d0 := d.(current := None);
    ReadyUnselected(rec, want, d);
    ConvergesExactlyWhenReady(d0, rec, want, gone, changed);
    forall n | 0 <= n <= |script| ensures WellFormed(Run(d0, script[..n])) {
      RunKeepsWellFormed(d0, script[..n]);
    }
    if Distinct(want) && Ready(rec, want, d) {
      ScriptIsHarmless(rec, want, gone, changed);
      forall n | 0 <= n <= |script| ensures Ready(rec, want, Run(d0, script[..n])) {
        HarmlessLinesKeepReady(rec, want, d0, script[..n]);
      }
    }
  }
}
