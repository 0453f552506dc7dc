/** internal/agent/config.go Resolve: the agent's routes as names inside the
    domain assigned to its tunnel. */
module AgentConfig {
  import opened Basics
  import opened Sni
  import opened Text

  datatype Mode = Passthrough | Terminate

  datatype RouteSpec = RouteSpec(host: string, mode: Mode, target: string, proxyProtocol: bool)

  datatype Split = Bad | Split(star: string, name: string)

  /** The wildcard part of a declared host and the rest of it. */
  function SplitStar(h: string, domain: string): Split {
    if h == "*" then Split("*.", domain)
    else if HasPrefix(h, "*.") then
      if h[2..] == "" || h[2..] == "@" then Bad else Split("*.", h[2..])
    else Split("", h)
  }

  function Qualify(name: string, domain: string): Option<string> {
    if name == "@" then Some(domain)
    else if '.' !in name then Some(name + "." + domain)
    else if name != domain && !HasSuffix(name, "." + domain) then None
    else Some(name)
  }

  /** The table key a declared host stands for, if it is acceptable. */
  function KeyOf(host: string, domain: string): Option<string> {
    match SplitStar(ToLower(TrimSuffix(host, ".")), domain)
    case Bad => None
    case Split(star, name) =>
      match Qualify(name, domain)
      case None => None
      case Some(n) => Some(star + n)
  }

  /** What each declared host resolves to, in order. */
  function KeysOf(specs: seq<RouteSpec>, domain: string): (r: seq<Option<string>>)
    ensures |r| == |specs|
  {
    seq(|specs|, i requires 0 <= i < |specs| => KeyOf(specs[i].host, domain))
  }

  function FileOne(out: Option<map<string, RouteSpec>>, key: Option<string>, spec: RouteSpec)
    : Option<map<string, RouteSpec>>
  {
    if out.None? || key.None? || key.value in out.value then None else Some(out.value[key.value := spec])
  }

  /** Filing the specs under their keys; any bad or repeated key spoils all. */
  function Collect(specs: seq<RouteSpec>, keys: seq<Option<string>>): Option<map<string, RouteSpec>>
    requires |specs| == |keys|
  {
    if specs == [] then Some(map[])
    else
      var n := |specs| - 1;
      FileOne(Collect(specs[..n], keys[..n]), keys[n], specs[n])
  }

  function Resolved(specs: seq<RouteSpec>, domain: string): Option<map<string, RouteSpec>> {
    Collect(specs, KeysOf(specs, domain))
  }

  lemma CollectNext(specs: seq<RouteSpec>, keys: seq<Option<string>>, i: nat)
    requires |specs| == |keys| && i < |specs|
    ensures Collect(specs[..i + 1], keys[..i + 1]) == FileOne(Collect(specs[..i], keys[..i]), keys[i], specs[i])
  {
    assert specs[..i + 1][..i] == specs[..i] && keys[..i + 1][..i] == keys[..i];
  }

  lemma {:induction false} CollectFailsForGood(specs: seq<RouteSpec>, keys: seq<Option<string>>, n: nat)
    requires |specs| == |keys|
    requires n <= |specs| && Collect(specs[..n], keys[..n]).None?
    ensures Collect(specs, keys).None?
    decreases |specs|
  {
    if n < |specs| {
      var m := |specs| - 1;
      assert specs[..m][..n] == specs[..n] && keys[..m][..n] == keys[..n];
      CollectFailsForGood(specs[..m], keys[..m], n);
    } else {
      assert specs[..n] == specs && keys[..n] == keys;
    }
  }

  /** The body of Resolve's loop up to the duplicate test. */
  method ResolveHost(host: string, domain: string) returns (r: Option<string>)
    ensures r == KeyOf(host, domain)
  {
    var h := ToLower(TrimSuffix(host, "."));
    var star := "";
    if h == "*" {
      star, h := "*.", domain;
    } else if HasPrefix(h, "*.") {
      var rest := h[2..];
      if rest == "" || rest == "@" {
        return None;
      }
      star, h := "*.", rest;
    }
    if h == "@" {
      h := domain;
    } else if '.' !in h {
      h := h + "." + domain;
    } else if h != domain && !HasSuffix(h, "." + domain) {
      return None;
    }
    return Some(star + h);
  }

  method Resolve(specs: seq<RouteSpec>, domain: string) returns (r: Option<map<string, RouteSpec>>)
    ensures r == Resolved(specs, domain)
  {
    ghost var keys := KeysOf(specs, domain);
    var out: map<string, RouteSpec> := map[];
    for i := 0 to |specs|
      invariant Collect(specs[..i], keys[..i]) == Some(out)
    {
      CollectNext(specs, keys, i);
      var key := ResolveHost(specs[i].host, domain);
      if key.None? || key.value in out {
        CollectFailsForGood(specs, keys, i + 1);
        return None;
      }
      out := out[key.value := specs[i]];
    }
    assert specs[..|specs|] == specs && keys[..|specs|] == keys;
    return Some(out);
  }

  // -------------------------------------------------------------- its meaning

  lemma AppendUnder(a: string, domain: string)
    ensures Under(a + "." + domain, domain)
  {
  }

  /** Every accepted key is the domain or below it, wildcards included. */
  lemma KeysAreUnderDomain(host: string, domain: string)
    requires KeyOf(host, domain).Some?
    ensures Under(KeyOf(host, domain).value, domain)
  {
    var split := SplitStar(ToLower(TrimSuffix(host, ".")), domain);
    var name := Qualify(split.name, domain).value;
    AppendUnder(split.name, domain);
    if split.star == "*." {
      assert "*." + name == "*" + "." + name;
      AppendUnder("*", name);
      UnderTransitive("*." + name, name, domain);
    } else {
      assert split.star + name == name;
    }
  }

  ghost predicate AllDistinct(keys: seq<Option<string>>) {
    && (forall i :: 0 <= i < |keys| ==> keys[i].Some?)
    && (forall i, j :: 0 <= i < j < |keys| ==> keys[i] != keys[j])
  }

  /** The table holds exactly the specs, each under its own key. */
  ghost predicate FiledUnder(out: map<string, RouteSpec>, specs: seq<RouteSpec>, keys: seq<Option<string>>)
    requires |specs| == |keys|
  {
    && |out| == |specs|
    && (forall i :: 0 <= i < |specs| ==>
          keys[i].Some? && keys[i].value in out && out[keys[i].value] == specs[i])
    && (forall k :: k in out ==> Some(k) in keys)
  }

  ghost predicate Exactly(out: Option<map<string, RouteSpec>>, specs: seq<RouteSpec>, keys: seq<Option<string>>)
    requires |specs| == |keys|
  {
    && (out.Some? <==> AllDistinct(keys))
    && (out.Some? ==> FiledUnder(out.value, specs, keys))
  }

  lemma FiledOne(
      out: map<string, RouteSpec>, specs: seq<RouteSpec>, keys: seq<Option<string>>, key: string, spec: RouteSpec)
    requires |specs| == |keys| && FiledUnder(out, specs, keys) && key !in out
    ensures FiledUnder(out[key := spec], specs + [spec], keys + [Some(key)])
  {
  }

  lemma OneMoreDistinct(keys: seq<Option<string>>, key: Option<string>)
    ensures AllDistinct(keys + [key]) <==> AllDistinct(keys) && key.Some? && key !in keys
  {
    var all := keys + [key];
    if AllDistinct(all) {
      assert all[|keys|] == key;
      forall i | 0 <= i < |keys| ensures keys[i].Some? && keys[i] != key {
        assert all[i] == keys[i];
      }
      forall i, j | 0 <= i < j < |keys| ensures keys[i] != keys[j] {
        assert all[i] == keys[i] && all[j] == keys[j];
      }
    }
  }

  lemma FileOneExactly(
      out: Option<map<string, RouteSpec>>, specs: seq<RouteSpec>, keys: seq<Option<string>>,
      key: Option<string>, spec: RouteSpec)
    requires |specs| == |keys| && Exactly(out, specs, keys)
    ensures Exactly(FileOne(out, key, spec), specs + [spec], keys + [key])
  {
    OneMoreDistinct(keys, key);
    if out.Some? && key.Some? {
      assert key.value in out.value <==> key in keys;
      if key.value !in out.value {
        FiledOne(out.value, specs, keys, key.value, spec);
      }
    }
  }

  lemma {:induction false} CollectExactly(specs: seq<RouteSpec>, keys: seq<Option<string>>)
    requires |specs| == |keys|
    ensures Exactly(Collect(specs, keys), specs, keys)
    decreases |specs|
  {
    if specs != [] {
      var n := |specs| - 1;
      CollectExactly(specs[..n], keys[..n]);
      assert specs == specs[..n] + [specs[n]] && keys == keys[..n] + [keys[n]];
      FileOneExactly(Collect(specs[..n], keys[..n]), specs[..n], keys[..n], keys[n], specs[n]);
    }
  }

  /** Resolve succeeds exactly when every host is acceptable and no two of them
      stand for the same name, and then the table is exactly the specs, one
      entry each under its own key. */
  lemma ResolveIsOneKeyPerSpec(specs: seq<RouteSpec>, domain: string)
    ensures Resolved(specs, domain).Some? <==> AllDistinct(KeysOf(specs, domain))
    ensures Resolved(specs, domain).Some? ==>
              FiledUnder(Resolved(specs, domain).value, specs, KeysOf(specs, domain))
  {
    CollectExactly(specs, KeysOf(specs, domain));
  }

  /** Every key of a resolved table is the domain or below it, and so is every
      host the table matches. */
  lemma TableIsUnderDomain(specs: seq<RouteSpec>, domain: string, host: string)
    requires Resolved(specs, domain).Some? && !HasPrefix(domain, "*.")
    ensures forall k :: k in Resolved(specs, domain).value ==> Under(k, domain)
    ensures Lookup(Resolved(specs, domain).value, host).Some? ==> Under(host, domain)
  {
    var out, keys := Resolved(specs, domain).value, KeysOf(specs, domain);
    ResolveIsOneKeyPerSpec(specs, domain);
    forall k | k in out ensures Under(k, domain) {
      var i :| 0 <= i < |keys| && keys[i] == Some(k);
      KeysAreUnderDomain(specs[i].host, domain);
    }
    MatchIsMostSpecific(out, host);
    if Lookup(out, host).Some? {
      var p :| MostSpecific(out, host, p);
      CoveredHostIsUnder(p, host, domain);
    }
  }

  /** The shape of an assigned domain: lower case, at least two labels, not a
      wildcard and without a final dot. */
  ghost predicate AssignedDomain(domain: string) {
    && IsLower(domain) && '.' in domain
    && !HasPrefix(domain, "*.") && !HasSuffix(domain, ".")
  }

  /** Spelling out the key a host resolved to resolves to that same key, in any
      letter case and with or without the final dot. */
  lemma KeysAreFixedPoints(host: string, domain: string, spelled: string)
    requires AssignedDomain(domain) && KeyOf(host, domain).Some?
    requires SameFold(spelled, KeyOf(host, domain).value)
    ensures KeyOf(spelled, domain) == KeyOf(host, domain)
    ensures KeyOf(spelled + ".", domain) == KeyOf(host, domain)
  {
    var h := ToLower(TrimSuffix(host, "."));
    ToLowerIsLower(TrimSuffix(host, "."));
    KeysAreUnderDomain(host, domain);
    NameIsLower(h, domain);
    KeyEndsWell(KeyOf(host, domain).value, domain, spelled);
    KeyResolvesAgain(h, domain);
  }

  /** The same, on a host already in lower case and without its final dot. */
  lemma KeyResolvesAgain(h: string, domain: string)
    requires AssignedDomain(domain) && SplitStar(h, domain).Split?
    requires Qualify(SplitStar(h, domain).name, domain).Some?
    ensures var split := SplitStar(h, domain);
            var name := Qualify(split.name, domain).value;
            && SplitStar(split.star + name, domain) == Split(split.star, name)
            && Qualify(name, domain) == Some(name)
  {
    var split := SplitStar(h, domain);
    var name := Qualify(split.name, domain).value;
    QualifiedHasDot(split.name, domain);
    if split.star == "*." {
      StarNameSplits(name, domain);
    } else {
      PlainNameSplits(h, name, domain);
      assert split.star + name == name;
    }
  }

  lemma StarNameSplits(name: string, domain: string)
    requires '.' in name
    ensures SplitStar("*." + name, domain) == Split("*.", name)
  {
  }

  lemma PlainNameSplits(h: string, name: string, domain: string)
    requires !HasPrefix(domain, "*.") && h != "*" && !HasPrefix(h, "*.")
    requires Qualify(h, domain) == Some(name) && '.' in name
    ensures SplitStar(name, domain) == Split("", name)
  {
    if name != domain && name != h {
      assert name == h + "." + domain;
      if |h| >= 2 {
        assert name[0] == h[0] && name[1] == h[1];
      } else if |h| == 1 {
        assert name[0] == h[0] && h == [h[0]];
      } else {
        assert name[0] == '.';
      }
    }
  }

  lemma KeyEndsWell(key: string, domain: string, spelled: string)
    requires IsLower(key) && Under(key, domain) && SameFold(spelled, key)
    requires domain != "" && !HasSuffix(domain, ".")
    ensures ToLower(TrimSuffix(spelled, ".")) == key
    ensures ToLower(TrimSuffix(spelled + ".", ".")) == key
  {
  }

  lemma NameIsLower(h: string, domain: string)
    requires IsLower(h) && IsLower(domain)
    requires SplitStar(h, domain).Split? && Qualify(SplitStar(h, domain).name, domain).Some?
    ensures var split := SplitStar(h, domain);
            IsLower(split.star + Qualify(split.name, domain).value)
  {
  }

  lemma QualifiedHasDot(name: string, domain: string)
    requires '.' in domain && Qualify(name, domain).Some?
    ensures '.' in Qualify(name, domain).value && Under(Qualify(name, domain).value, domain)
  {
  }

  // --------------------------------------------- what a declaration stands for

  /** A declared host as it is read. */
  function Written(host: string): string {
    ToLower(TrimSuffix(host, "."))
  }

  /** The name, relative to the domain unless it has a dot. */
  function FullName(name: string, domain: string): string {
    if '.' in name then name else name + "." + domain
  }

  /** A declaration the domain allows: relative names, and full names that are
      the domain or below it, plain or as a wildcard. */
  ghost predicate Allowed(h: string, domain: string) {
    if HasPrefix(h, "*.") then h[2..] != "" && h[2..] != "@" && Under(FullName(h[2..], domain), domain)
    else h == "*" || h == "@" || Under(FullName(h, domain), domain)
  }

  /** The hosts it stands for: `@` is the domain, `*` what lies below it,
      `*.name` what lies below that name, and a name itself. */
  ghost predicate Means(h: string, domain: string, host: string) {
    if h == "@" then host == domain
    else if h == "*" then HasSuffix(host, "." + domain)
    else if HasPrefix(h, "*.") then HasSuffix(host, "." + FullName(h[2..], domain))
    else host == FullName(h, domain)
  }

  ghost predicate SameHosts(g: string, h: string, domain: string) {
    forall host :: Means(g, domain, host) <==> Means(h, domain, host)
  }

  lemma WildcardCovers(name: string, host: string)
    ensures Covers("*." + name, host) <==> HasSuffix(host, "." + name)
  {
    var q := "*." + name;
    assert q[2..] == name && q[1..] == "." + name;
    if HasSuffix(host, "." + name) {
      UnderSplit(host, name);
      var i := |host| - |name| - 1;
      assert host[i] == '.' && q == "*." + host[i + 1..];
    }
    if Wildcards(q, host) {
      var i :| 0 <= i < |host| && host[i] == '.' && q == "*." + host[i + 1..];
      assert q[2..] == host[i + 1..];
      SplitUnder(host, i);
    }
  }

  lemma WildcardsHaveStar(name: string, host: string)
    requires Wildcards(name, host)
    ensures HasPrefix(name, "*.")
  {
    var i :| 0 <= i < |host| && host[i] == '.' && name == "*." + host[i + 1..];
    assert name[..2] == "*.";
  }

  lemma PlainCovers(name: string, host: string)
    requires !HasPrefix(name, "*.")
    ensures Covers(name, host) <==> host == name
  {
    if Wildcards(name, host) {
      WildcardsHaveStar(name, host);
      assert false;
    }
  }

  lemma FullNameIsPlain(h: string, domain: string)
    requires h != "*" && !HasPrefix(h, "*.")
    ensures !HasPrefix(FullName(h, domain), "*.")
  {
    var name := FullName(h, domain);
    if name != h {
      if |h| == 0 {
        assert name[0] == '.';
      } else if |h| == 1 {
        assert name[0] == h[0] && h == [h[0]];
      } else {
        assert name[0] == h[0] && name[1] == h[1];
        assert h[..2] == [h[0], h[1]];
      }
    }
  }

  lemma QualifyExactly(name: string, domain: string)
    requires name != "@"
    ensures Qualify(name, domain) ==
            if Under(FullName(name, domain), domain) then Some(FullName(name, domain)) else None
  {
    AppendUnder(name, domain);
  }

  /** A declaration has a key exactly when the domain allows it, and the key
      covers exactly the hosts it stands for. */
  lemma KeyStandsForHosts(host: string, domain: string, visited: string)
    requires !HasPrefix(domain, "*.") && '.' in domain
    ensures KeyOf(host, domain).Some? <==> Allowed(Written(host), domain)
    ensures KeyOf(host, domain).Some? ==>
              (Covers(KeyOf(host, domain).value, visited) <==> Means(Written(host), domain, visited))
  {
    var h := Written(host);
    if h == "*" {
      QualifyExactly(domain, domain);
      WildcardCovers(domain, visited);
    } else if HasPrefix(h, "*.") {
      if h[2..] != "" && h[2..] != "@" {
        QualifyExactly(h[2..], domain);
        WildcardCovers(FullName(h[2..], domain), visited);
      }
    } else if h == "@" {
      assert "" + domain == domain;
      PlainCovers(domain, visited);
    } else {
      QualifyExactly(h, domain);
      assert "" + FullName(h, domain) == FullName(h, domain);
      FullNameIsPlain(h, domain);
      PlainCovers(FullName(h, domain), visited);
    }
  }

  lemma LongerSuffixIsNarrower(host: string, m: string, n: string, other: string)
    requires HasSuffix(host, "." + m) && HasSuffix(host, "." + n) && |m| <= |n| && HasSuffix(other, "." + n)
    ensures HasSuffix(other, "." + m)
  {
    var a, b := "." + m, "." + n;
    assert b[|b| - |a|..] == host[|host| - |a|..] == a;
    assert other[|other| - |a|..] == b[|b| - |a|..];
  }

  /** Of two declarations that cover a host, the one whose key is the more
      specific stands for no host that the other does not. */
  lemma MoreSpecificIsNarrower(table: map<string, RouteSpec>, host: string, p: string, q: string, other: string)
    requires MostSpecific(table, host, p) && q in table && Covers(q, host) && Covers(p, other)
    ensures Covers(q, other)
  {
    if HasPrefix(p, "*.") {
      assert p == "*." + p[2..];
      WildcardCovers(p[2..], host);
      WildcardCovers(p[2..], other);
      if HasPrefix(q, "*.") {
        assert q == "*." + q[2..];
        WildcardCovers(q[2..], host);
        WildcardCovers(q[2..], other);
        UnderSplit(host, q[2..]);
        assert |q| <= |p|;
        LongerSuffixIsNarrower(host, q[2..], p[2..], other);
      } else {
        PlainCovers(q, host);
        assert false;
      }
    } else {
      PlainCovers(p, host);
      PlainCovers(p, other);
    }
  }

  /** The declaration covers a host through the resolved table exactly when it
      stands for it. */
  ghost predicate Declares(specs: seq<RouteSpec>, domain: string, host: string, i: int) {
    0 <= i < |specs| && Means(Written(specs[i].host), domain, host)
  }

  ghost predicate Narrowest(specs: seq<RouteSpec>, domain: string, host: string, i: int) {
    forall j, other :: Declares(specs, domain, host, j) && Declares(specs, domain, other, i) ==>
      Declares(specs, domain, other, j)
  }

  lemma MostSpecificIsNarrowest(specs: seq<RouteSpec>, domain: string, host: string, p: string, i: nat)
    requires !HasPrefix(domain, "*.") && '.' in domain && Resolved(specs, domain).Some?
    requires MostSpecific(Resolved(specs, domain).value, host, p)
    requires i < |specs| && KeysOf(specs, domain)[i] == Some(p)
    ensures Narrowest(specs, domain, host, i)
  {
    var out, keys := Resolved(specs, domain).value, KeysOf(specs, domain);
    ResolveIsOneKeyPerSpec(specs, domain);
    forall j, other | Declares(specs, domain, host, j) && Declares(specs, domain, other, i)
      ensures Declares(specs, domain, other, j)
    {
      KeyStandsForHosts(specs[i].host, domain, other);
      KeyStandsForHosts(specs[j].host, domain, host);
      KeyStandsForHosts(specs[j].host, domain, other);
      MoreSpecificIsNarrower(out, host, p, keys[j].value, other);
    }
  }

  lemma KeyHasSpec(specs: seq<RouteSpec>, domain: string, p: string) returns (i: nat)
    requires Resolved(specs, domain).Some? && p in Resolved(specs, domain).value
    ensures i < |specs| && KeyOf(specs[i].host, domain) == Some(p) && Resolved(specs, domain).value[p] == specs[i]
    ensures KeysOf(specs, domain)[i] == Some(p)
  {
    var keys := KeysOf(specs, domain);
    ResolveIsOneKeyPerSpec(specs, domain);
    assert Some(p) in keys;
    i :| 0 <= i < |keys| && keys[i] == Some(p);
  }

  lemma MatchedIsDeclared(specs: seq<RouteSpec>, domain: string, host: string) returns (i: nat)
    requires !HasPrefix(domain, "*.") && '.' in domain && Resolved(specs, domain).Some?
    requires Lookup(Resolved(specs, domain).value, host).Some?
    ensures Declares(specs, domain, host, i) && Lookup(Resolved(specs, domain).value, host) == Some(specs[i])
    ensures Narrowest(specs, domain, host, i)
  {
    var out := Resolved(specs, domain).value;
    MatchIsMostSpecific(out, host);
    var p :| MostSpecific(out, host, p) && Lookup(out, host) == Some(out[p]);
    i := KeyHasSpec(specs, domain, p);
    KeyStandsForHosts(specs[i].host, domain, host);
    MostSpecificIsNarrowest(specs, domain, host, p, i);
  }

  lemma DeclaredIsMatched(specs: seq<RouteSpec>, domain: string, host: string, i: nat)
    requires !HasPrefix(domain, "*.") && '.' in domain && Resolved(specs, domain).Some?
    requires Declares(specs, domain, host, i)
    ensures Lookup(Resolved(specs, domain).value, host).Some?
  {
    var out, keys := Resolved(specs, domain).value, KeysOf(specs, domain);
    ResolveIsOneKeyPerSpec(specs, domain);
    MatchIsMostSpecific(out, host);
    KeyStandsForHosts(specs[i].host, domain, host);
    assert keys[i].value in out && Covers(keys[i].value, host);
  }

  /** What a resolved table matches: exactly the hosts its declarations stand
      for, each with a declaration that stands for it and for no host that
      another one standing for it does not. */
  lemma TableMatchesDeclared(specs: seq<RouteSpec>, domain: string, host: string)
    requires !HasPrefix(domain, "*.") && '.' in domain && Resolved(specs, domain).Some?
    ensures var r := Lookup(Resolved(specs, domain).value, host);
            && (r.Some? <==> exists i :: Declares(specs, domain, host, i))
            && (r.Some? ==>
                  exists i :: && Declares(specs, domain, host, i) && r == Some(specs[i])
                              && Narrowest(specs, domain, host, i))
  {
    if Lookup(Resolved(specs, domain).value, host).Some? {
      var i := MatchedIsDeclared(specs, domain, host);
    }
    if i :| Declares(specs, domain, host, i) {
      DeclaredIsMatched(specs, domain, host, i);
    }
  }

  // ------------------------------------------------------- when they collide

  lemma SameWildcard(m: string, n: string)
    requires HasSuffix("a." + m, "." + n) && HasSuffix("a." + n, "." + m)
    ensures m == n
  {
    UnderSplit("a." + m, n);
    UnderSplit("a." + n, m);
    assert ("a." + m)[0] == 'a' && ("a." + n)[0] == 'a';
    assert |m| == |n|;
    assert ("a." + m)[2..] == m;
  }

  lemma BelowIsCovered(name: string)
    ensures Covers("*." + name, "a." + name) && Covers("*." + name, "b." + name)
    ensures "a." + name != "b." + name
  {
    assert ("a." + name)[1..] == "." + name && ("b." + name)[1..] == "." + name;
    WildcardCovers(name, "a." + name);
    WildcardCovers(name, "b." + name);
    assert ("a." + name)[0] != ("b." + name)[0];
  }

  lemma OnePlainOneWildcard(name: string, plain: string)
    requires !HasPrefix(plain, "*.")
    ensures exists host :: !(Covers("*." + name, host) <==> Covers(plain, host))
  {
    BelowIsCovered(name);
    PlainCovers(plain, "a." + name);
    PlainCovers(plain, "b." + name);
    assert !(Covers("*." + name, "a." + name) <==> Covers(plain, "a." + name))
        || !(Covers("*." + name, "b." + name) <==> Covers(plain, "b." + name));
  }

  lemma TwoWildcards(m: string, n: string)
    requires Covers("*." + m, "a." + n) && Covers("*." + n, "a." + m)
    ensures m == n
  {
    WildcardCovers(n, "a." + m);
    WildcardCovers(m, "a." + n);
    SameWildcard(m, n);
  }

  lemma StarSplit(p: string)
    requires HasPrefix(p, "*.")
    ensures p == "*." + p[2..]
  {
  }

  /** The key is determined by the hosts it covers. */
  lemma KeysByHosts(p: string, q: string)
    requires forall host :: Covers(p, host) <==> Covers(q, host)
    ensures p == q
  {
    if HasPrefix(p, "*.") {
      StarSplit(p);
      if HasPrefix(q, "*.") {
        StarSplit(q);
        BelowIsCovered(p[2..]);
        BelowIsCovered(q[2..]);
        TwoWildcards(p[2..], q[2..]);
      } else {
        OnePlainOneWildcard(p[2..], q);
        assert false;
      }
    } else if HasPrefix(q, "*.") {
      StarSplit(q);
      OnePlainOneWildcard(q[2..], p);
      assert false;
    } else {
      assert Covers(p, p);
      PlainCovers(q, p);
    }
  }

  lemma CollideExactly(a: string, b: string, domain: string)
    requires !HasPrefix(domain, "*.") && '.' in domain
    requires KeyOf(a, domain).Some? && KeyOf(b, domain).Some?
    ensures KeyOf(a, domain) == KeyOf(b, domain) <==> SameHosts(Written(a), Written(b), domain)
  {
    var p, q := KeyOf(a, domain).value, KeyOf(b, domain).value;
    forall host
      ensures Covers(p, host) <==> Means(Written(a), domain, host)
      ensures Covers(q, host) <==> Means(Written(b), domain, host)
    {
      KeyStandsForHosts(a, domain, host);
      KeyStandsForHosts(b, domain, host);
    }
    if SameHosts(Written(a), Written(b), domain) {
      KeysByHosts(p, q);
    }
  }

  /** Resolving succeeds exactly when the domain allows every declaration and no
      two of them stand for the same hosts. */
  lemma ResolvesExactly(specs: seq<RouteSpec>, domain: string)
    requires !HasPrefix(domain, "*.") && '.' in domain
    ensures Resolved(specs, domain).Some? <==>
              && (forall i :: 0 <= i < |specs| ==> Allowed(Written(specs[i].host), domain))
              && (forall i, j :: 0 <= i < j < |specs| ==>
                    !SameHosts(Written(specs[i].host), Written(specs[j].host), domain))
  {
    var keys := KeysOf(specs, domain);
    ResolveIsOneKeyPerSpec(specs, domain);
    forall i | 0 <= i < |specs| ensures keys[i].Some? <==> Allowed(Written(specs[i].host), domain) {
      KeyStandsForHosts(specs[i].host, domain, "");
    }
    if forall i :: 0 <= i < |specs| ==> keys[i].Some? {
      forall i, j | 0 <= i < j < |specs|
        ensures keys[i] == keys[j] <==> SameHosts(Written(specs[i].host), Written(specs[j].host), domain)
      {
        CollideExactly(specs[i].host, specs[j].host, domain);
      }
    }
  }
}
