/** internal/dnsserver: normalising a zone and answering from it, and
    internal/node/node.go dnsChallenges, which groups the flat list first.

    Names are plain: no escaped dots, ASCII letters. */
module Dns {
  import opened Basics
  import opened Proto
  import opened Text

  datatype Zone = Zone(
    name: string, nsNames: seq<string>, soaEmail: string, edge: seq<Option<IPv4>>,
    challenges: map<string, seq<string>>)

  const NO_ZONE := Zone("", [], "", [], map[])

  // ----------------------------------------------------------- grouping

  function Group(txt: seq<DNSTXT>): map<string, seq<string>> {
    if txt == [] then map[]
    else
      var m, c := Group(txt[..|txt| - 1]), txt[|txt| - 1];
      m[c.fqdn := (if c.fqdn in m then m[c.fqdn] else []) + [c.value]]
  }

  method DnsChallenges(txt: seq<DNSTXT>) returns (m: map<string, seq<string>>)
    ensures m == Group(txt)
  {
    m := map[];
    for i := 0 to |txt|
      invariant m == Group(txt[..i])
    {
      assert txt[..i + 1][..i] == txt[..i];
      var c := txt[i];
      m := m[c.fqdn := (if c.fqdn in m then m[c.fqdn] else []) + [c.value]];
    }
    assert txt[..|txt|] == txt;
  }

  /** The values listed under a name, in order. */
  function ValuesOf(txt: seq<DNSTXT>, fqdn: string): seq<string> {
    if txt == [] then []
    else
      var c := txt[|txt| - 1];
      ValuesOf(txt[..|txt| - 1], fqdn) + if c.fqdn == fqdn then [c.value] else []
  }

  /** Grouping loses and mixes nothing. */
  lemma {:induction false} GroupIsByName(txt: seq<DNSTXT>, fqdn: string)
    ensures fqdn in Group(txt) <==> exists c :: c in txt && c.fqdn == fqdn
    ensures ValuesOf(txt, fqdn) == if fqdn in Group(txt) then Group(txt)[fqdn] else []
    decreases |txt|
  {
    if txt != [] {
      GroupIsByName(txt[..|txt| - 1], fqdn);
      assert txt == txt[..|txt| - 1] + [txt[|txt| - 1]];
    }
  }

  // -------------------------------------------------------- normalisation

  function Fqdn(s: string): string {
    if HasSuffix(s, ".") then s else s + "."
  }

  function Canonical(name: string): string {
    Fqdn(ToLower(name))
  }

  function CanonicalAll(names: seq<string>): seq<string> {
    if names == [] then []
    else CanonicalAll(names[..|names| - 1]) + [Canonical(names[|names| - 1])]
  }

  /** Every entry of `out` comes from one of `m` under a name with the same
      canonical form, and no name of `m` is without an entry. When two names
      share their canonical form, either may win: map order is arbitrary. */
  ghost predicate Recanonised(m: map<string, seq<string>>, out: map<string, seq<string>>) {
    && (forall f :: f in m ==> Canonical(f) in out)
    && (forall c :: c in out ==> exists f :: f in m && Canonical(f) == c && out[c] == m[f])
  }

  method Normalize(z: Zone) returns (out: Zone)
    ensures out.name == if z.name == "" then "" else Canonical(z.name)
    ensures out.nsNames == CanonicalAll(z.nsNames) && out.soaEmail == z.soaEmail && out.edge == z.edge
    ensures Recanonised(z.challenges, out.challenges)
  {
    var name := if z.name != "" then Fqdn(ToLower(z.name)) else "";
    var nsNames: seq<string> := [];
    for i := 0 to |z.nsNames|
      invariant nsNames == CanonicalAll(z.nsNames[..i])
    {
      assert z.nsNames[..i + 1][..i] == z.nsNames[..i];
      nsNames := nsNames + [Fqdn(ToLower(z.nsNames[i]))];
    }
    assert z.nsNames[..|z.nsNames|] == z.nsNames;
    var challenges: map<string, seq<string>> := map[];
    var todo := z.challenges.Keys;
    while todo != {}
      invariant todo <= z.challenges.Keys
      invariant forall f :: f in z.challenges && f !in todo ==> Canonical(f) in challenges
      invariant forall c :: c in challenges ==>
                  exists f :: f in z.challenges && Canonical(f) == c && challenges[c] == z.challenges[f]
      decreases todo
    {
      var f :| f in todo;
      todo := todo - {f};
      challenges := challenges[Fqdn(ToLower(f)) := z.challenges[f]];
    }
    out := Zone(name, nsNames, z.soaEmail, z.edge, challenges);
  }

  // --------------------------------------------------------------- answers

  datatype QType = SOA | NS | TXT | A | Other

  datatype Question = Question(name: string, qtype: QType)

  datatype RR =
    | SOARecord(owner: string, mname: string, rname: string)
    | NSRecord(owner: string, ns: string)
    | TXTRecord(owner: string, value: string)
    | ARecord(owner: string, ip: IPv4)

  datatype Rcode = NoError | FormatError | Refused

  datatype Msg = Msg(rcode: Rcode, authoritative: bool, answer: seq<RR>, authority: seq<RR>)

  function IndexAt(s: string): int {
    IndexByte(s, '@')
  }

  /** Every dot of the local part written with a backslash. */
  function EscapeDots(s: string): string {
    if s == "" then ""
    else (if s[0] == '.' then "\\." else [s[0]]) + EscapeDots(s[1..])
  }

  /** The mailbox name of the SOA record (section 8 of RFC 1035). */
  function RName(email: string, zone: string): string {
    if email == "" then Fqdn("hostmaster." + TrimSuffix(zone, "."))
    else
      var i := IndexAt(email);
      if i < 0 then Fqdn(email) else Fqdn(EscapeDots(email[..i]) + "." + email[i + 1..])
  }

  function SoaRecord(z: Zone): RR {
    SOARecord(z.name, if |z.nsNames| > 0 then z.nsNames[0] else z.name, RName(z.soaEmail, z.name))
  }

  function NSRecords(owner: string, ns: seq<string>): seq<RR> {
    if ns == [] then [] else NSRecords(owner, ns[..|ns| - 1]) + [NSRecord(owner, ns[|ns| - 1])]
  }

  function TXTRecords(owner: string, vs: seq<string>): seq<RR> {
    if vs == [] then [] else TXTRecords(owner, vs[..|vs| - 1]) + [TXTRecord(owner, vs[|vs| - 1])]
  }

  function ARecords(owner: string, edge: seq<Option<IPv4>>): seq<RR> {
    if edge == [] then []
    else
      var ip := edge[|edge| - 1];
      ARecords(owner, edge[..|edge| - 1]) + if ip.Some? then [ARecord(owner, ip.value)] else []
  }

  function Records(z: Zone, q: Question): seq<RR> {
    var qname := ToLower(q.name);
    match q.qtype
    case SOA => if qname == z.name then [SoaRecord(z)] else []
    case NS => if qname == z.name then NSRecords(q.name, z.nsNames) else []
    case TXT => TXTRecords(q.name, if qname in z.challenges then z.challenges[qname] else [])
    case A => ARecords(q.name, z.edge)
    case Other => []
  }

  function AnswerOf(z: Option<Zone>, questions: seq<Question>): Msg {
    if |questions| != 1 then Msg(FormatError, false, [], [])
    else if z.None? || z.value.name == "" || !Under(ToLower(questions[0].name), z.value.name) then
      Msg(Refused, false, [], [])
    else
      var answer := Records(z.value, questions[0]);
      Msg(NoError, true, answer, if answer == [] then [SoaRecord(z.value)] else [])
  }

  method Answer(z: Option<Zone>, questions: seq<Question>) returns (m: Msg)
    ensures m == AnswerOf(z, questions)
  {
    if |questions| != 1 {
      return Msg(FormatError, false, [], []);
    }
    var q := questions[0];
    var qname := ToLower(q.name);
    if z.None? || z.value.name == "" || !Under(qname, z.value.name) {
      return Msg(Refused, false, [], []);
    }
    var zone := z.value;
    var answer: seq<RR> := [];
    match q.qtype {
      case SOA =>
        if qname == zone.name {
          answer := answer + [SoaRecord(zone)];
        }
      case NS =>
        if qname == zone.name {
          for i := 0 to |zone.nsNames|
            invariant answer == NSRecords(q.name, zone.nsNames[..i])
          {
            assert zone.nsNames[..i + 1][..i] == zone.nsNames[..i];
            answer := answer + [NSRecord(q.name, zone.nsNames[i])];
          }
          assert zone.nsNames[..|zone.nsNames|] == zone.nsNames;
        }
      case TXT =>
        answer := AppendTXT(q.name, if qname in zone.challenges then zone.challenges[qname] else []);
      case A =>
        answer := AppendA(q.name, zone.edge);
      case Other =>
    }
    return Msg(NoError, true, answer, if |answer| == 0 then [SoaRecord(zone)] else []);
  }

  method AppendTXT(owner: string, vs: seq<string>) returns (answer: seq<RR>)
    ensures answer == TXTRecords(owner, vs)
  {
    answer := [];
    for i := 0 to |vs|
      invariant answer == TXTRecords(owner, vs[..i])
    {
      assert vs[..i + 1][..i] == vs[..i];
      answer := answer + [TXTRecord(owner, vs[i])];
    }
    assert vs[..|vs|] == vs;
  }

  method AppendA(owner: string, edge: seq<Option<IPv4>>) returns (answer: seq<RR>)
    ensures answer == ARecords(owner, edge)
  {
    answer := [];
    for i := 0 to |edge|
      invariant answer == ARecords(owner, edge[..i])
    {
      assert edge[..i + 1][..i] == edge[..i];
      if edge[i].None? {
        continue;
      }
      answer := answer + [ARecord(owner, edge[i].value)];
    }
    assert edge[..|edge|] == edge;
  }

  // ------------------------------------------------------------- properties

  lemma {:induction false} NSRecordsAt(owner: string, ns: seq<string>)
    ensures |NSRecords(owner, ns)| == |ns|
    ensures forall i :: 0 <= i < |ns| ==> NSRecords(owner, ns)[i] == NSRecord(owner, ns[i])
    decreases |ns|
  {
    if ns != [] {
      NSRecordsAt(owner, ns[..|ns| - 1]);
    }
  }

  /** The positions of the entries that are IPv4 addresses, in order. */
  ghost predicate AddressesAt(edge: seq<Option<IPv4>>, at: seq<nat>) {
    && (forall i, j :: 0 <= i < j < |at| ==> at[i] < at[j])
    && (forall i :: 0 <= i < |at| ==> at[i] < |edge| && edge[at[i]].Some?)
    && (forall k :: 0 <= k < |edge| && edge[k].Some? ==> k in at)
  }

  /** The records are those of exactly these entries. */
  ghost predicate Lists(rrs: seq<RR>, owner: string, edge: seq<Option<IPv4>>, at: seq<nat>) {
    && AddressesAt(edge, at) && |rrs| == |at|
    && forall i :: 0 <= i < |at| ==> rrs[i] == ARecord(owner, edge[at[i]].value)
  }

  lemma ListsOneMore(rrs: seq<RR>, owner: string, edge: seq<Option<IPv4>>, at: seq<nat>, ip: IPv4)
    requires Lists(rrs, owner, edge, at)
    ensures Lists(rrs + [ARecord(owner, ip)], owner, edge + [Some(ip)], at + [|edge|])
  {
    var edge', at' := edge + [Some(ip)], at + [|edge|];
    assert forall k :: 0 <= k < |edge| ==> edge'[k] == edge[k];
    assert forall i :: 0 <= i < |at| ==> at'[i] == at[i] && at[i] < |edge|;
    forall k | 0 <= k < |edge'| && edge'[k].Some? ensures k in at' {
      if k < |edge| {
        assert k in at;
      } else {
        assert at'[|at|] == k;
      }
    }
  }

  lemma ListsNoMore(rrs: seq<RR>, owner: string, edge: seq<Option<IPv4>>, at: seq<nat>)
    requires Lists(rrs, owner, edge, at)
    ensures Lists(rrs, owner, edge + [None], at)
  {
    var edge' := edge + [None];
    assert forall k :: 0 <= k < |edge| ==> edge'[k] == edge[k];
  }

  lemma {:induction false} ARecordsAt(owner: string, edge: seq<Option<IPv4>>) returns (at: seq<nat>)
    ensures Lists(ARecords(owner, edge), owner, edge, at)
    decreases |edge|
  {
    if edge == [] {
      at := [];
    } else {
      var init, ip := edge[..|edge| - 1], edge[|edge| - 1];
      at := ARecordsAt(owner, init);
      assert edge == init + [ip];
      if ip.Some? {
        ListsOneMore(ARecords(owner, init), owner, init, at, ip.value);
        at := at + [|init|];
      } else {
        ListsNoMore(ARecords(owner, init), owner, init, at);
      }
    }
  }

  /** An A query for any name of the zone, in any letter case and existing or
      not, gets exactly the IPv4 entries of the edge list, each once and in
      order, under the name as it was asked. */
  lemma AnyNameGetsTheEdge(z: Zone, qname: string) returns (at: seq<nat>)
    requires z.name != "" && Under(ToLower(qname), z.name)
    ensures AddressesAt(z.edge, at)
    ensures var m := AnswerOf(Some(z), [Question(qname, A)]);
            && m.rcode == NoError && m.authoritative && |m.answer| == |at|
            && (forall i :: 0 <= i < |at| ==> m.answer[i] == ARecord(qname, z.edge[at[i]].value))
            && m.authority == if at == [] then [SoaRecord(z)] else []
  {
    at := ARecordsAt(qname, z.edge);
  }

  /** The name servers are answered for the zone's own name only, all of them
      in order, and everything the zone has no records for, at that name or
      below it, is answered with its SOA and nothing else. */
  lemma NameServersAtTheApex(z: Zone, qname: string)
    requires z.name != "" && Under(ToLower(qname), z.name)
    ensures var m := AnswerOf(Some(z), [Question(qname, NS)]);
            && m.rcode == NoError && m.authoritative
            && (ToLower(qname) == z.name ==>
                  |m.answer| == |z.nsNames|
                  && forall i :: 0 <= i < |z.nsNames| ==> m.answer[i] == NSRecord(qname, z.nsNames[i]))
            && (ToLower(qname) != z.name || z.nsNames == [] ==> m.answer == [] && m.authority == [SoaRecord(z)])
            && (m.answer != [] ==> m.authority == [])
  {
    NSRecordsAt(qname, z.nsNames);
  }

  /** A canonical name is in lower case with a final dot, and otherwise the name
      it was made from. */
  lemma CanonicalExactly(name: string)
    ensures IsLower(Canonical(name)) && HasSuffix(Canonical(name), ".")
    ensures SameFold(Canonical(name), if HasSuffix(name, ".") then name else name + ".")
  {
    ToLowerIsLower(name);
    ToLowerConcat(name, ".");
    ToLowerConcat(ToLower(name), ".");
    assert ToLower(".") == ".";
    if name != "" {
      assert name[|name| - 1..] == [name[|name| - 1]];
      assert ToLower(name)[|name| - 1..] == [ToLower(name)[|name| - 1]];
      assert LowerChar(name[|name| - 1]) == '.' <==> name[|name| - 1] == '.';
    }
  }

  lemma {:induction false} CanonicalAllAt(names: seq<string>)
    ensures |CanonicalAll(names)| == |names|
    ensures forall i :: 0 <= i < |names| ==> CanonicalAll(names)[i] == Canonical(names[i])
    decreases |names|
  {
    if names != [] {
      CanonicalAllAt(names[..|names| - 1]);
    }
  }

  /** What is turned away: anything but one question as malformed, and a name
      outside the zone, or any name while there is no zone, as refused. */
  lemma RefusesExactly(z: Option<Zone>, questions: seq<Question>)
    ensures var m := AnswerOf(z, questions);
            && (m.rcode == FormatError <==> |questions| != 1)
            && (m.rcode == NoError <==>
                  && |questions| == 1 && z.Some? && |z.value.name| > 0
                  && (ToLower(questions[0].name) == z.value.name
                      || exists labels :: ToLower(questions[0].name) == labels + "." + z.value.name))
            && (m.rcode == NoError <==> m.authoritative)
            && (m.rcode != NoError ==> m.answer == [] && m.authority == [])
  {
    if |questions| == 1 && z.Some? {
      UnderExactly(ToLower(questions[0].name), z.value.name);
    }
  }

  lemma UnderExactly(name: string, zone: string)
    ensures Under(name, zone) <==> name == zone || exists labels :: name == labels + "." + zone
  {
    if HasSuffix(name, "." + zone) {
      var labels := name[..|name| - |zone| - 1];
      assert name == labels + ("." + zone);
      assert name == labels + "." + zone;
    }
    forall labels | name == labels + "." + zone ensures HasSuffix(name, "." + zone) {
      assert name == labels + ("." + zone);
    }
  }

  /** The zone's own SOA names its first name server, or itself when there is
      none; below the zone's name, and for types that are not served, it is all
      there is. */
  lemma SoaAtTheApex(z: Zone, qname: string)
    requires z.name != "" && Under(ToLower(qname), z.name)
    ensures var m := AnswerOf(Some(z), [Question(qname, SOA)]);
            && (ToLower(qname) == z.name ==>
                  && m.authority == []
                  && m.answer == [SOARecord(z.name, if z.nsNames == [] then z.name else z.nsNames[0],
                                            RName(z.soaEmail, z.name))])
            && (ToLower(qname) != z.name ==> m.answer == [] && m.authority == [SoaRecord(z)])
    ensures var m := AnswerOf(Some(z), [Question(qname, Other)]);
            m.rcode == NoError && m.answer == [] && m.authority == [SoaRecord(z)]
  {
  }

  /** Without an address the mailbox is the zone's hostmaster, and one without
      an at sign is taken to be a mailbox name already. */
  lemma MailboxDefaults(email: string, zone: string)
    requires zone != "" && !HasSuffix(zone, ".")
    ensures RName("", zone + ".") == "hostmaster." + zone + "."
    ensures email != "" && '@' !in email ==> RName(email, zone) == email || RName(email, zone) == email + "."
    ensures email != "" && '@' !in email ==> HasSuffix(RName(email, zone), ".")
  {
    assert (zone + ".")[|zone|..] == "." && (zone + ".")[..|zone|] == zone;
    var text := "hostmaster." + zone;
    assert text[|text| - 1..] == [zone[|zone| - 1]] && zone[|zone| - 1..] == [zone[|zone| - 1]];
    assert (email + ".")[|email|..] == ".";
  }

  /** The text values of an answer, in order. */
  function TextOf(rrs: seq<RR>): seq<string> {
    if rrs == [] then []
    else
      var r := rrs[|rrs| - 1];
      TextOf(rrs[..|rrs| - 1]) + if r.TXTRecord? then [r.value] else []
  }

  lemma {:induction false} TextOfTXTRecords(owner: string, vs: seq<string>)
    ensures TextOf(TXTRecords(owner, vs)) == vs
    ensures |TXTRecords(owner, vs)| == |vs|
    decreases |vs|
  {
    if vs != [] {
      TextOfTXTRecords(owner, vs[..|vs| - 1]);
      var all := TXTRecords(owner, vs);
      assert all[..|all| - 1] == TXTRecords(owner, vs[..|vs| - 1]);
    }
  }

  /** A name as acmeDNSCreate stores it: lower case, without a final dot. */
  predicate StoredForm(fqdn: string) {
    IsLower(fqdn) && !HasSuffix(fqdn, ".")
  }

  lemma CanonicalIsInjectiveOnStored(f: string, g: string)
    requires StoredForm(f) && StoredForm(g) && Canonical(f) == Canonical(g)
    ensures f == g
  {
    assert (f + ".")[..|f|] == f && (g + ".")[..|g|] == g;
  }

  function ValuesAt(z: Zone, name: string): seq<string> {
    if name in z.challenges then z.challenges[name] else []
  }

  lemma StoredLookup(txt: seq<DNSTXT>, z: Zone, fqdn: string)
    requires Recanonised(Group(txt), z.challenges) && StoredForm(fqdn)
    requires forall c :: c in txt ==> StoredForm(c.fqdn)
    ensures ValuesAt(z, fqdn + ".") == ValuesOf(txt, fqdn)
  {
    var name := fqdn + ".";
    assert Canonical(fqdn) == name;
    GroupIsByName(txt, fqdn);
    if name in z.challenges {
      var f :| f in Group(txt) && Canonical(f) == name && z.challenges[name] == Group(txt)[f];
      GroupIsByName(txt, f);
      CanonicalIsInjectiveOnStored(f, fqdn);
    }
  }

  lemma AnswersText(z: Zone, qname: string)
    requires z.name != ""
    requires Under(ToLower(qname), z.name) || ValuesAt(z, ToLower(qname)) == []
    ensures AnswerOf(Some(z), [Question(qname, TXT)]).answer == TXTRecords(qname, ValuesAt(z, ToLower(qname)))
  {
  }

  /** The whole way from the flat list through grouping, normalisation and
      lookup: a TXT query, in any letter case, for any name at all, gets exactly
      the values listed under that name, in order and with repetitions. */
  lemma TXTPipeline(txt: seq<DNSTXT>, z: Zone, qname: string, fqdn: string)
    requires z.name != "" && Recanonised(Group(txt), z.challenges)
    requires forall c :: c in txt ==> StoredForm(c.fqdn) && Under(Canonical(c.fqdn), z.name)
    requires StoredForm(fqdn) && ToLower(qname) == fqdn + "."
    ensures TextOf(AnswerOf(Some(z), [Question(qname, TXT)]).answer) == ValuesOf(txt, fqdn)
    ensures AnswerOf(Some(z), [Question(qname, TXT)]).answer == TXTRecords(qname, ValuesOf(txt, fqdn))
  {
    StoredLookup(txt, z, fqdn);
    GroupIsByName(txt, fqdn);
    assert Canonical(fqdn) == fqdn + ".";
    AnswersText(z, qname);
    TextOfTXTRecords(qname, ValuesOf(txt, fqdn));
  }

  // ---------------------------------------------------------------- RNAME

  /** Reading the first label of a mailbox name back, undoing the escapes. */
  function FirstLabel(s: string): (string, string) {
    if s == "" then ("", "")
    else if s[0] == '.' then ("", s[1..])
    else if s[0] == '\\' && |s| > 1 then
      var (l, rest) := FirstLabel(s[2..]);
      ([s[1]] + l, rest)
    else
      var (l, rest) := FirstLabel(s[1..]);
      ([s[0]] + l, rest)
  }

  lemma ReadsPlain(c: char, tail: string)
    requires c != '.' && c != '\\'
    ensures FirstLabel([c] + tail) == ([c] + FirstLabel(tail).0, FirstLabel(tail).1)
  {
    assert ([c] + tail)[0] == c && ([c] + tail)[1..] == tail;
  }

  lemma ReadsEscaped(c: char, tail: string)
    ensures FirstLabel(['\\', c] + tail) == ([c] + FirstLabel(tail).0, FirstLabel(tail).1)
  {
    var text := ['\\', c] + tail;
    assert text[0] == '\\' && text[1] == c && text[2..] == tail;
  }

  lemma Regroup(head: string, middle: string, rest: string)
    ensures head + middle + "." + rest == head + (middle + "." + rest)
  {
  }

  /** Reading the first character of what an ordinary one was written as. */
  lemma ReadsHead(s: string, rest: string)
    requires s != "" && s[0] != '\\'
    ensures var text, tail := EscapeDots(s) + "." + rest, EscapeDots(s[1..]) + "." + rest;
            FirstLabel(text) == ([s[0]] + FirstLabel(tail).0, FirstLabel(tail).1)
  {
    var escaped, tail := EscapeDots(s[1..]), EscapeDots(s[1..]) + "." + rest;
    if s[0] == '.' {
      Regroup(['\\', '.'], escaped, rest);
      ReadsEscaped('.', tail);
    } else {
      Regroup([s[0]], escaped, rest);
      ReadsPlain(s[0], tail);
    }
  }

  lemma {:induction false} EscapedReadsBack(local: string, rest: string)
    requires '\\' !in local
    ensures FirstLabel(EscapeDots(local) + "." + rest) == (local, rest)
    decreases |local|
  {
    if local == "" {
      assert ("" + "." + rest)[0] == '.' && ("" + "." + rest)[1..] == rest;
    } else {
      EscapedReadsBack(local[1..], rest);
      ReadsHead(local, rest);
      assert local == [local[0]] + local[1..];
    }
  }

  function Backslashes(k: nat): string {
    if k == 0 then "" else "\\" + Backslashes(k - 1)
  }

  function Label(local: string, rest: string): string {
    FirstLabel(EscapeDots(local) + "." + rest).0
  }

  lemma NothingReads(rest: string)
    ensures Label("", rest) == ""
  {
  }

  lemma LastBackslashReads(s: string, rest: string)
    requires s == "\\"
    ensures Label(s, rest) != "" && Label(s, rest)[0] == '.'
  {
    assert EscapeDots(s[1..]) == "";
    assert EscapeDots(s) + "." + rest == "\\." + rest;
  }

  /** A backslash followed by something takes that for itself. */
  lemma BackslashReads(s: string, rest: string)
    requires |s| >= 2 && s[0] == '\\'
    ensures s[1] == '.' ==> Label(s, rest) == "\\"
    ensures s[1] != '.' ==> Label(s, rest) == [s[1]] + Label(s[2..], rest)
  {
    var tail := EscapeDots(s[2..]) + "." + rest;
    var text := EscapeDots(s) + "." + rest;
    assert s[1..][0] == s[1] && s[1..][1..] == s[2..];
    assert EscapeDots(s[1..]) == (if s[1] == '.' then "\\." else [s[1]]) + EscapeDots(s[2..]);
    if s[1] == '.' {
      assert text == ['\\', '\\'] + ("." + tail);
      ReadsEscaped('\\', "." + tail);
      assert FirstLabel("." + tail).0 == "";
    } else {
      assert text == ['\\', s[1]] + tail;
      ReadsEscaped(s[1], tail);
    }
  }

  /** A label that begins with a backslash never reads back, however many more
      backslashes are expected in front of it. */
  lemma {:induction false} LeadingBackslashIsLost(s: string, rest: string, k: nat)
    requires k >= 1 || (s != "" && s[0] == '\\')
    ensures Label(s, rest) != Backslashes(k) + s
    decreases |s|
  {
    var expected := Backslashes(k) + s;
    assert expected[0] == '\\';
    if s == "" {
      NothingReads(rest);
    } else if s[0] != '\\' {
      ReadsHead(s, rest);
    } else if |s| == 1 {
      LastBackslashReads(s, rest);
    } else {
      BackslashReads(s, rest);
      if s[1] == '\\' {
        LeadingBackslashIsLost(s[2..], rest, k + 1);
        BackslashesCommute(k, s);
        assert expected[1..] == Backslashes(k + 1) + s[2..];
      }
    }
  }

  lemma {:induction false} BackslashesCommute(k: nat, s: string)
    requires |s| >= 2 && s[0] == '\\' && s[1] == '\\'
    ensures Backslashes(k) + s == ['\\'] + (Backslashes(k + 1) + s[2..])
  {
    BackslashesAppend(k);
    assert s == ['\\', '\\'] + s[2..];
    assert Backslashes(k) + s == (Backslashes(k) + "\\") + "\\" + s[2..];
  }

  lemma {:induction false} BackslashesAppend(k: nat)
    ensures Backslashes(k) + "\\" == Backslashes(k + 1)
  {
    if k > 0 {
      BackslashesAppend(k - 1);
    }
  }

  lemma {:induction false} BackslashIsLost(local: string, rest: string)
    requires '\\' in local
    ensures Label(local, rest) != local
    decreases |local|
  {
    if local[0] == '\\' {
      LeadingBackslashIsLost(local, rest, 0);
      assert Backslashes(0) + local == local;
    } else {
      ReadsHead(local, rest);
      assert local == [local[0]] + local[1..];
      BackslashIsLost(local[1..], rest);
      assert Label(local, rest)[1..] == Label(local[1..], rest);
    }
  }

  lemma AddressWritten(local: string, domain: string, zone: string)
    requires '@' !in local
    ensures RName(local + "@" + domain, zone) == Fqdn(EscapeDots(local) + "." + domain)
  {
    var email := local + "@" + domain;
    assert email[|local|] == '@';
    assert IndexAt(email) == |local| by {
      assert forall j :: 0 <= j < |local| ==> email[j] == local[j];
    }
    assert email[..|local|] == local && email[|local| + 1..] == domain;
  }

  lemma FqdnOfTail(head: string, domain: string)
    ensures Fqdn(head + "." + domain) == head + "." + Fqdn("." + domain)[1..]
  {
    assert head + "." + domain == head + ("." + domain);
    SuffixOfTail(head, "." + domain);
    assert ("." + domain + ".")[1..] == domain + "." && ("." + domain)[1..] == domain;
  }

  /** The mailbox of the SOA record spells the configured address, its first
      label the local part and what follows the domain, exactly when the local
      part has no backslash: only the dots are escaped. */
  lemma MailboxReadsBackExactly(local: string, domain: string, zone: string)
    requires '@' !in local
    ensures FirstLabel(RName(local + "@" + domain, zone)) == (local, Fqdn("." + domain)[1..]) <==> '\\' !in local
  {
    var after := Fqdn("." + domain)[1..];
    AddressWritten(local, domain, zone);
    FqdnOfTail(EscapeDots(local), domain);
    if '\\' in local {
      BackslashIsLost(local, after);
    } else {
      EscapedReadsBack(local, after);
    }
  }

  lemma SuffixOfTail(a: string, b: string)
    requires b != ""
    ensures HasSuffix(a + b, ".") <==> HasSuffix(b, ".")
  {
  }
}
