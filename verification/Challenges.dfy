/** internal/api/api.go acmeDNSCreate and validACMEDNSName with the dns_challenge
    statements of internal/store/store.go: which names a tunnel may publish,
    and what visitors of the nodes' DNS get to see of them. */
module Challenges {
  import opened Basics
  import Dns
  import opened Proto
  import opened Store
  import opened Text

  const CHALLENGE := "_acme-challenge."

  datatype Row = Row(tunnel: nat, fqdn: string, value: string)

  type Table = map<string, Row>

  predicate ValidName(fqdn: string, domain: string) {
    HasPrefix(fqdn, CHALLENGE)
    && (fqdn[|CHALLENGE|..] == domain || HasSuffix(fqdn[|CHALLENGE|..], "." + domain))
  }

  datatype Reply = Created | Deleted | BadRequest | Unknown | Failed

  /** The request's name as it is checked and stored. */
  function Requested(fqdn: string): string {
    ToLower(TrimSuffix(fqdn, "."))
  }

  /** The row's random id is a parameter. */
  function Create(t: Table, tunnel: nat, domain: string, fqdn: string, value: string, id: string): (Table, Reply) {
    if !ValidName(Requested(fqdn), domain) || value == "" || |value| > 512 then (t, BadRequest)
    else if id in t then (t, Failed)
    else (t[id := Row(tunnel, Requested(fqdn), value)], Created)
  }

  function Delete(t: Table, tunnel: nat, id: string): (Table, Reply) {
    if id in t && t[id].tunnel == tunnel then (t - {id}, Deleted) else (t, Unknown)
  }

  function Listing(t: Table, ids: seq<string>): seq<DNSTXT>
    requires Elems(ids) <= t.Keys
  {
    if ids == [] then []
    else
      var id := ids[|ids| - 1];
      Listing(t, ids[..|ids| - 1]) + [DNSTXT(t[id].fqdn, t[id].value)]
  }

  class ChallengeStore {
    var rows: Table

    constructor ()
      ensures rows == map[]
    {
      rows := map[];
    }

    method AcmeCreate(tunnel: nat, domain: string, reqFqdn: string, value: string, id: string) returns (reply: Reply)
      modifies this
      ensures (rows, reply) == Create(old(rows), tunnel, domain, reqFqdn, value, id)
    {
      var fqdn := ToLower(TrimSuffix(reqFqdn, "."));
      if !ValidName(fqdn, domain) {
        return BadRequest;
      }
      if value == "" || |value| > 512 {
        return BadRequest;
      }
      if id in rows {
        return Failed;
      }
      rows := rows[id := Row(tunnel, fqdn, value)];
      return Created;
    }

    method AcmeDelete(tunnel: nat, id: string) returns (reply: Reply)
      modifies this
      ensures (rows, reply) == Delete(old(rows), tunnel, id)
    {
      if id !in rows || rows[id].tunnel != tunnel {
        return Unknown;
      }
      rows := rows - {id};
      return Deleted;
    }

    /** Every row once, in some order. */
    method List() returns (txt: seq<DNSTXT>, ghost ids: seq<string>)
      ensures IsOrder(ids, rows.Keys) && txt == Listing(rows, ids)
    {
      txt, ids := [], [];
      var todo := rows.Keys;
      while todo != {}
        invariant todo <= rows.Keys
        invariant IsOrder(ids, rows.Keys - todo) && txt == Listing(rows, ids)
        decreases todo
      {
        var id :| id in todo;
        todo := todo - {id};
        OrderAppend(ids, rows.Keys - todo - {id}, id);
        assert (ids + [id])[..|ids|] == ids;
        txt := txt + [DNSTXT(rows[id].fqdn, rows[id].value)];
        ids := ids + [id];
      }
      assert rows.Keys - todo == rows.Keys;
    }
  }

  // --------------------------------------------------------- what is accepted

  /** The names a tunnel may publish are exactly `_acme-challenge.` followed by
      its domain or a name below it. */
  lemma ValidNameExactly(fqdn: string, domain: string)
    ensures ValidName(fqdn, domain) <==> exists host :: Under(host, domain) && fqdn == "_acme-challenge." + host
  {
    if ValidName(fqdn, domain) {
      assert fqdn == "_acme-challenge." + fqdn[|CHALLENGE|..];
    }
    forall host | fqdn == "_acme-challenge." + host ensures fqdn[|CHALLENGE|..] == host && HasPrefix(fqdn, CHALLENGE) {
    }
  }

  /** A request is granted exactly when the name, in lower case and without a
      final dot, is one the tunnel may publish, the value has 1 to 512
      characters and the drawn id is new; then exactly its row is added, with
      the value as it was sent, and otherwise nothing changes. */
  lemma CreatesExactly(t: Table, tunnel: nat, domain: string, name: string, value: string, id: string, dot: string)
    requires (dot == "." || dot == "") && !HasSuffix(name, ".")
    ensures var (r, reply) := Create(t, tunnel, domain, name + dot, value, id);
            && (reply == Created <==>
                  && 1 <= |value| <= 512 && id !in t
                  && exists host :: Under(host, domain) && ToLower(name) == "_acme-challenge." + host)
            && (reply == Created ==> r == t[id := Row(tunnel, ToLower(name), value)])
            && (reply != Created ==> r == t)
  {
    TrimmedOnce(name, dot);
    ValidNameExactly(ToLower(name), domain);
  }

  lemma TrimmedOnce(name: string, dot: string)
    requires (dot == "." || dot == "") && !HasSuffix(name, ".")
    ensures Requested(name + dot) == ToLower(name)
  {
    assert (name + ".")[|name|..] == "." && (name + ".")[..|name|] == name;
    assert name + "" == name;
  }

  /** Only the owner's deletion removes a row, and exactly that one. */
  lemma DeletesExactly(t: Table, tunnel: nat, id: string)
    ensures var (r, reply) := Delete(t, tunnel, id);
            && (reply == Deleted <==> id in t && t[id].tunnel == tunnel)
            && (forall k :: k in r <==> k in t && !(k == id && t[k].tunnel == tunnel))
            && (forall k :: k in r ==> r[k] == t[k])
  {
  }

  // -------------------------------------------------------------- one owner

  lemma ValidNameIsUnder(fqdn: string, domain: string)
    requires ValidName(fqdn, domain)
    ensures Under(fqdn[|CHALLENGE|..], domain) && Under(fqdn, domain)
  {
  }

  /** A name accepted for one tunnel is accepted for no other. */
  lemma AcceptedForOneTunnelOnly(fqdn: string, base: string, t: Tunnel, u: Tunnel)
    requires PlainLabel(t.subdomain) && PlainLabel(u.subdomain)
    requires ValidName(fqdn, Domain(t, base)) && ValidName(fqdn, Domain(u, base))
    ensures t.subdomain == u.subdomain
  {
    ValidNameIsUnder(fqdn, Domain(t, base));
    ValidNameIsUnder(fqdn, Domain(u, base));
    OneOwner(t.subdomain, u.subdomain, base, fqdn);
  }

  // -------------------------------------------------------------- invariant

  /** A base domain as operators configure it: lower case, not empty, without
      a final dot. */
  ghost predicate PlainBase(base: string) {
    base != "" && IsLower(base) && !HasSuffix(base, ".")
  }

  /** Every stored name is one its own tunnel may publish. */
  ghost predicate TableInv(t: Table, tunnels: map<nat, Tunnel>, base: string) {
    forall id :: id in t ==> RowInv(t[id], tunnels, base)
  }

  ghost predicate RowInv(row: Row, tunnels: map<nat, Tunnel>, base: string) {
    && row.tunnel in tunnels
    && ValidName(row.fqdn, Domain(tunnels[row.tunnel], base)) && Dns.StoredForm(row.fqdn)
  }

  lemma EndsLike(name: string, base: string)
    requires Under(name, base) && base != "" && !HasSuffix(base, ".")
    ensures name != "" && !HasSuffix(name, ".")
  {
  }

  lemma DomainIsUnderBase(t: Tunnel, base: string)
    ensures Under(Domain(t, base), base)
  {
  }

  lemma AcceptedRow(tunnels: map<nat, Tunnel>, base: string, tunnel: nat, fqdn: string, value: string)
    requires PlainBase(base) && tunnel in tunnels
    requires ValidName(Requested(fqdn), Domain(tunnels[tunnel], base))
    ensures RowInv(Row(tunnel, Requested(fqdn), value), tunnels, base)
  {
    var name, domain := Requested(fqdn), Domain(tunnels[tunnel], base);
    ValidNameIsUnder(name, domain);
    DomainIsUnderBase(tunnels[tunnel], base);
    UnderTransitive(name, domain, base);
    EndsLike(name, base);
    ToLowerIsLower(TrimSuffix(fqdn, "."));
  }

  lemma CreateKeepsInv(t: Table, tunnels: map<nat, Tunnel>, base: string,
                       tunnel: nat, fqdn: string, value: string, id: string)
    requires PlainBase(base) && TableInv(t, tunnels, base) && tunnel in tunnels
    ensures TableInv(Create(t, tunnel, Domain(tunnels[tunnel], base), fqdn, value, id).0, tunnels, base)
  {
    var domain := Domain(tunnels[tunnel], base);
    var (r, reply) := Create(t, tunnel, domain, fqdn, value, id);
    if reply == Created {
      var row := Row(tunnel, Requested(fqdn), value);
      AcceptedRow(tunnels, base, tunnel, fqdn, value);
      AddRow(t, tunnels, base, id, row);
      assert r == t[id := row];
    } else {
      assert r == t;
    }
  }

  lemma AddRow(t: Table, tunnels: map<nat, Tunnel>, base: string, id: string, row: Row)
    requires TableInv(t, tunnels, base) && RowInv(row, tunnels, base)
    ensures TableInv(t[id := row], tunnels, base)
  {
  }

  datatype Event =
    | CreateEvent(tunnel: nat, fqdn: string, value: string, id: string)
    | DeleteEvent(tunnel: nat, id: string)

  function Run(es: seq<Event>, tunnels: map<nat, Tunnel>, base: string): Table {
    if es == [] then map[]
    else
      var t := Run(es[..|es| - 1], tunnels, base);
      match es[|es| - 1]
      case CreateEvent(tunnel, fqdn, value, id) =>
        if tunnel in tunnels then Create(t, tunnel, Domain(tunnels[tunnel], base), fqdn, value, id).0 else t
      case DeleteEvent(tunnel, id) => Delete(t, tunnel, id).0
  }

  lemma {:induction false} RunKeepsInv(es: seq<Event>, tunnels: map<nat, Tunnel>, base: string)
    requires PlainBase(base)
    ensures TableInv(Run(es, tunnels, base), tunnels, base)
    decreases |es|
  {
    if es != [] {
      var t := Run(es[..|es| - 1], tunnels, base);
      RunKeepsInv(es[..|es| - 1], tunnels, base);
      match es[|es| - 1]
      case CreateEvent(tunnel, fqdn, value, id) =>
        if tunnel in tunnels {
          CreateKeepsInv(t, tunnels, base, tunnel, fqdn, value, id);
        }
      case DeleteEvent(tunnel, id) =>
    }
  }

  // --------------------------------------------------- what visitors receive

  lemma {:induction false} ListingMembers(t: Table, ids: seq<string>, c: DNSTXT)
    requires Elems(ids) <= t.Keys && c in Listing(t, ids)
    ensures exists id :: id in t && c == DNSTXT(t[id].fqdn, t[id].value)
    decreases |ids|
  {
    if c in Listing(t, ids[..|ids| - 1]) {
      ListingMembers(t, ids[..|ids| - 1], c);
    }
  }

  function ValuesIn(t: Table, ids: seq<string>): seq<string>
    requires Elems(ids) <= t.Keys
  {
    if ids == [] then [] else ValuesIn(t, ids[..|ids| - 1]) + [t[ids[|ids| - 1]].value]
  }

  function Named(t: Table, fqdn: string): set<string> {
    set id | id in t && t[id].fqdn == fqdn
  }

  lemma ValuesOfAppend(txt: seq<DNSTXT>, c: DNSTXT, fqdn: string)
    ensures Dns.ValuesOf(txt + [c], fqdn) ==
            Dns.ValuesOf(txt, fqdn) + if c.fqdn == fqdn then [c.value] else []
  {
    assert (txt + [c])[..|txt|] == txt;
  }

  /** The values listed under a name are those of the rows with that name, each
      row exactly once. */
  lemma {:induction false} ListedValues(t: Table, ids: seq<string>, fqdn: string) returns (hits: seq<string>)
    requires Elems(ids) <= t.Keys && IsOrder(ids, Elems(ids))
    ensures IsOrder(hits, Named(t, fqdn) * Elems(ids))
    ensures Dns.ValuesOf(Listing(t, ids), fqdn) == ValuesIn(t, hits)
    decreases |ids|
  {
    if ids == [] {
      hits := [];
    } else {
      var init, id := ids[..|ids| - 1], ids[|ids| - 1];
      OrderInit(ids);
      hits := ListedValues(t, init, fqdn);
      var row := DNSTXT(t[id].fqdn, t[id].value);
      assert Listing(t, ids) == Listing(t, init) + [row];
      ValuesOfAppend(Listing(t, init), row, fqdn);
      if t[id].fqdn == fqdn {
        OrderAppend(hits, Named(t, fqdn) * Elems(init), id);
        assert Named(t, fqdn) * Elems(ids) == Named(t, fqdn) * Elems(init) + {id};
        assert (hits + [id])[..|hits|] == hits;
        hits := hits + [id];
      } else {
        assert Named(t, fqdn) * Elems(ids) == Named(t, fqdn) * Elems(init);
      }
    }
  }

  lemma UnderWithDot(name: string, base: string)
    requires Under(name, base)
    ensures Under(name + ".", base + ".")
  {
  }

  /** In every run of creations and deletions by any tunnels: for every order
      in which the rows are listed and the names normalised, a TXT query in any
      letter case gets exactly the values of the rows stored under that name,
      each row once. */
  lemma ServesExactlyWhatIsStored(
      es: seq<Event>, tunnels: map<nat, Tunnel>, base: string, ids: seq<string>, z: Dns.Zone,
      qname: string, fqdn: string) returns (hits: seq<string>)
    requires PlainBase(base)
    requires IsOrder(ids, Run(es, tunnels, base).Keys)
    requires z.name == Dns.Canonical(base)
    requires Dns.Recanonised(Dns.Group(Listing(Run(es, tunnels, base), ids)), z.challenges)
    requires Dns.StoredForm(fqdn) && ToLower(qname) == fqdn + "."
    ensures var t := Run(es, tunnels, base);
            && IsOrder(hits, Named(t, fqdn))
            && Dns.TextOf(Dns.AnswerOf(Some(z), [Dns.Question(qname, Dns.TXT)]).answer) == ValuesIn(t, hits)
  {
    var t := Run(es, tunnels, base);
    var txt := Listing(t, ids);
    RunKeepsInv(es, tunnels, base);
    forall c | c in txt ensures Dns.StoredForm(c.fqdn) && Under(Dns.Canonical(c.fqdn), z.name) {
      ListingMembers(t, ids, c);
      var id :| id in t && c == DNSTXT(t[id].fqdn, t[id].value);
      StoredNameIsInZone(t[id], tunnels, base);
    }
    Dns.TXTPipeline(txt, z, qname, fqdn);
    hits := ListedValues(t, ids, fqdn);
    assert Named(t, fqdn) * Elems(ids) == Named(t, fqdn);
  }

  lemma StoredNameIsInZone(row: Row, tunnels: map<nat, Tunnel>, base: string)
    requires PlainBase(base) && RowInv(row, tunnels, base)
    ensures Under(Dns.Canonical(row.fqdn), Dns.Canonical(base))
  {
    var domain := Domain(tunnels[row.tunnel], base);
    ValidNameIsUnder(row.fqdn, domain);
    DomainIsUnderBase(tunnels[row.tunnel], base);
    UnderTransitive(row.fqdn, domain, base);
    UnderWithDot(row.fqdn, base);
  }

  /** And those rows are all the owner's: nobody else can add a value to a name
      that a tunnel may publish, nor take one away. */
  lemma StoredUnderOwnNameOnly(
      es: seq<Event>, tunnels: map<nat, Tunnel>, base: string, owner: nat, fqdn: string, id: string)
    requires PlainBase(base) && owner in tunnels
    requires forall t, u :: t in tunnels && u in tunnels && t != u ==> tunnels[t].subdomain != tunnels[u].subdomain
    requires forall t :: t in tunnels ==> PlainLabel(tunnels[t].subdomain)
    requires ValidName(fqdn, Domain(tunnels[owner], base))
    requires id in Named(Run(es, tunnels, base), fqdn)
    ensures Run(es, tunnels, base)[id].tunnel == owner
    ensures forall other, k :: other != owner ==> id in Delete(Run(es, tunnels, base), other, k).0
  {
    RunKeepsInv(es, tunnels, base);
    var row := Run(es, tunnels, base)[id];
    assert RowInv(row, tunnels, base);
    AcceptedForOneTunnelOnly(fqdn, base, tunnels[row.tunnel], tunnels[owner]);
  }

  /** The row is what some creation of the run asked for. */
  ghost predicate AskedAt(es: seq<Event>, id: string, row: Row, i: int) {
    && 0 <= i < |es| && es[i].CreateEvent? && es[i].id == id
    && row == Row(es[i].tunnel, ToLower(TrimSuffix(es[i].fqdn, ".")), es[i].value)
  }

  /** In every run every row has the tunnel, name and value of the request that
      created it. */
  lemma {:induction false} RowsAreAskedFor(es: seq<Event>, tunnels: map<nat, Tunnel>, base: string, id: string)
    requires id in Run(es, tunnels, base)
    ensures exists i :: AskedAt(es, id, Run(es, tunnels, base)[id], i)
    decreases |es|
  {
    var init, e := es[..|es| - 1], es[|es| - 1];
    var t, row := Run(init, tunnels, base), Run(es, tunnels, base)[id];
    if id in t && t[id] == row {
      RowsAreAskedFor(init, tunnels, base, id);
      var i :| AskedAt(init, id, row, i);
      assert AskedAt(es, id, row, i);
    } else {
      assert AskedAt(es, id, row, |es| - 1);
    }
  }
}
