/** internal/sni/sni.go: host matching, and the connection that replays the
    bytes read while looking for the server name. */
module Sni {
  import opened Basics
  import opened Stream
  import opened Text

  /** The wildcard part of the search: climb one label at a time. */
  function Climb<V>(table: map<string, V>, rest: string): Option<V>
    decreases |rest|
  {
    var i := IndexByte(rest, '.');
    if i < 0 then None
    else
      var up := rest[i + 1..];
      if "*." + up in table then Some(table["*." + up]) else Climb(table, up)
  }

  function Lookup<V>(table: map<string, V>, host: string): Option<V> {
    if host in table then Some(table[host]) else Climb(table, host)
  }

  method Match<V>(table: map<string, V>, host: string) returns (r: Option<V>)
    ensures r == Lookup(table, host)
  {
    if host in table {
      return Some(table[host]);
    }
    var rest := host;
    while true
      invariant Climb(table, rest) == Climb(table, host)
      decreases |rest|
    {
      var i := IndexByte(rest, '.');
      if i < 0 {
        return None;
      }
      rest := rest[i + 1..];
      if "*." + rest in table {
        return Some(table["*." + rest]);
      }
    }
  }

  // ---------------------------------------------------- what matching means

  /** The pattern is `*.` followed by what is left of host after some dot. */
  ghost predicate Wildcards(pattern: string, host: string) {
    exists i :: 0 <= i < |host| && host[i] == '.' && pattern == "*." + host[i + 1..]
  }

  ghost predicate Covers(pattern: string, host: string) {
    pattern == host || Wildcards(pattern, host)
  }

  /** A covering pattern of the table that no other covering pattern beats: the
      host itself beats every wildcard, a longer wildcard beats a shorter. */
  ghost predicate MostSpecific<V>(table: map<string, V>, host: string, pattern: string) {
    && pattern in table && Covers(pattern, host)
    && forall q :: q in table && Covers(q, host) ==> pattern == host || (q != host && |q| <= |pattern|)
  }

  lemma {:induction false} ClimbFindsLongest<V>(table: map<string, V>, rest: string)
    ensures Climb(table, rest).None? ==> forall q :: q in table ==> !Wildcards(q, rest)
    ensures Climb(table, rest).Some? ==>
              exists p :: && p in table && Wildcards(p, rest) && Climb(table, rest) == Some(table[p])
                          && forall q :: q in table && Wildcards(q, rest) ==> |q| <= |p|
    decreases |rest|
  {
    var i := IndexByte(rest, '.');
    if i >= 0 {
      var up := rest[i + 1..];
      var first := "*." + up;
      assert Wildcards(first, rest);
      WildcardsAfterFirstDot(rest, i);
      if first !in table {
        ClimbFindsLongest(table, up);
      }
    }
  }

  lemma WildcardsAfterFirstDot(rest: string, i: nat)
    requires i == IndexByte(rest, '.')
    ensures forall q :: Wildcards(q, rest) <==> q == "*." + rest[i + 1..] || Wildcards(q, rest[i + 1..])
    ensures forall q :: Wildcards(q, rest) ==> |q| <= |rest| - i + 1
  {
    var up := rest[i + 1..];
    forall q | Wildcards(q, rest) ensures q == "*." + up || Wildcards(q, up) {
      var j :| 0 <= j < |rest| && rest[j] == '.' && q == "*." + rest[j + 1..];
      assert j >= i;
      if j > i {
        assert up[j - i - 1] == '.' && up[j - i - 1 + 1..] == rest[j + 1..];
      }
    }
    forall q | Wildcards(q, up) ensures Wildcards(q, rest) {
      var j :| 0 <= j < |up| && up[j] == '.' && q == "*." + up[j + 1..];
      assert rest[j + i + 1] == '.' && rest[j + i + 1 + 1..] == up[j + 1..];
    }
  }

  /** Match fails exactly when no pattern of the table covers the host, and
      otherwise returns the entry of the most specific one. */
  lemma MatchIsMostSpecific<V>(table: map<string, V>, host: string)
    ensures Lookup(table, host).None? <==> forall q :: q in table ==> !Covers(q, host)
    ensures Lookup(table, host).Some? ==>
              exists p :: MostSpecific(table, host, p) && Lookup(table, host) == Some(table[p])
  {
    ClimbFindsLongest(table, host);
    if host in table {
      assert MostSpecific(table, host, host);
    } else if Climb(table, host).Some? {
      var p :| && p in table && Wildcards(p, host) && Climb(table, host) == Some(table[p])
               && forall q :: q in table && Wildcards(q, host) ==> |q| <= |p|;
      assert MostSpecific(table, host, p);
    }
  }

  /** There is only one most specific pattern, so the answer is determined. */
  lemma MostSpecificIsUnique<V>(table: map<string, V>, host: string, p: string, q: string)
    requires MostSpecific(table, host, p) && MostSpecific(table, host, q)
    ensures p == q
  {
  }

  lemma StarIsUnder(rest: string, domain: string)
    requires Under("*." + rest, domain) && !HasPrefix(domain, "*.")
    ensures Under(rest, domain)
  {
    var pattern := "*." + rest;
    assert pattern[..2] == "*.";
    UnderSplit(pattern, domain);
    var j := |pattern| - |domain| - 1;
    assert pattern[0] != '.';
    assert pattern[j + 1..] == domain && pattern[j + 1..] == rest[j - 1..];
    if j >= 2 {
      SplitUnder(rest, j - 2);
    }
  }

  /** A host covered by a pattern under a domain is itself under the domain. */
  lemma CoveredHostIsUnder(pattern: string, host: string, domain: string)
    requires Covers(pattern, host) && Under(pattern, domain) && !HasPrefix(domain, "*.")
    ensures Under(host, domain)
  {
    if pattern != host {
      var i :| 0 <= i < |host| && host[i] == '.' && pattern == "*." + host[i + 1..];
      var rest := host[i + 1..];
      SplitUnder(host, i);
      assert pattern[..2] == "*." && pattern[2..] == rest;
      StarIsUnder(rest, domain);
      UnderTransitive(host, rest, domain);
    }
  }

  /** The two patterns a node publishes for a domain cover every host under it. */
  lemma UnderIsCovered(host: string, domain: string)
    requires Under(host, domain)
    ensures Covers(domain, host) || Covers("*." + domain, host)
  {
    if host != domain {
      UnderSplit(host, domain);
    }
  }

  // ------------------------------------------------------- peek and replay

  /** Delivers `prefix` before going on reading from the connection. */
  class PrefixConn {
    const conn: Conn
    var prefix: seq<Byte>

    constructor (conn: Conn, prefix: seq<Byte>)
      ensures this.conn == conn && this.prefix == prefix
    {
      this.conn, this.prefix := conn, prefix;
    }

    /** All the bytes its reader will still see. */
    function Unread(): seq<Byte>
      reads this, conn
    {
      prefix + conn.incoming
    }

    method Read(max: nat) returns (data: seq<Byte>)
      requires max > 0
      modifies this`prefix, conn`incoming
      ensures old(Unread()) == data + Unread() && |data| <= max
      ensures data == [] <==> old(Unread()) == []
      ensures old(prefix) != [] ==> conn.incoming == old(conn.incoming) && data <= old(prefix)
    {
      if |prefix| > 0 {
        var n := if |prefix| < max then |prefix| else max;
        data, prefix := prefix[..n], prefix[n..];
        return;
      }
      data := conn.Read(max);
    }
  }

  /** Looks for the server name. The TLS library is an arbitrary reader: it
      reads some chunks through the tee and then has `hello`, the name it found
      (possibly empty), or gives up; so it does when a deadline cannot be
      set. */
  method Peek(c: Conn, hello: Option<string>) returns (host: string, conn: PrefixConn?)
    modifies c`incoming
    ensures conn == null <==> hello.None? || hello.value == ""
    ensures conn != null ==>
              && fresh(conn) && conn.conn == c && conn.Unread() == old(c.incoming)
              && host == ToLower(hello.value)
  {
    var buf: seq<Byte> := [];
    while c.incoming != []
      invariant buf + c.incoming == old(c.incoming)
      decreases |c.incoming|
    {
      if * {
        break;
      }
      var max :| max > 0;
      var data := c.Read(max);
      buf := buf + data;
    }
    if hello.None? || hello.value == "" {
      return "", null;
    }
    host := ToLower(hello.value);
    conn := new PrefixConn(c, buf);
  }
}
