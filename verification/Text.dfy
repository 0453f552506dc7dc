/** The few string operations the repository uses, on ASCII text, and when two
    domain names can cover the same host. */
module Text {

  predicate HasPrefix(s: string, prefix: string) {
    prefix <= s
  }

  predicate HasSuffix(s: string, suffix: string) {
    |suffix| <= |s| && s[|s| - |suffix|..] == suffix
  }

  /** Position of the first `c`, or -1. */
  function IndexByte(s: string, c: char): (i: int)
    ensures -1 <= i < |s|
    ensures i >= 0 ==> s[i] == c
    ensures forall j :: 0 <= j < (if i < 0 then |s| else i) ==> s[j] != c
  {
    if s == "" then -1
    else if s[0] == c then 0
    else
      var i := IndexByte(s[1..], c);
      if i < 0 then -1 else i + 1
  }

  function TrimSuffix(s: string, suffix: string): string {
    if HasSuffix(s, suffix) then s[..|s| - |suffix|] else s
  }

  /** The suffix is taken off once, if it is there. */
  lemma TrimmedExactly(s: string, suffix: string)
    ensures HasSuffix(s, suffix) ==> TrimSuffix(s, suffix) + suffix == s
    ensures (forall t :: s != t + suffix) ==> TrimSuffix(s, suffix) == s
  {
    if HasSuffix(s, suffix) {
      assert s == s[..|s| - |suffix|] + suffix;
    }
  }

  function LowerChar(c: char): (r: char)
    ensures !('A' <= r <= 'Z')
    ensures r != c ==> 'A' <= c <= 'Z' && r as int - 'a' as int == c as int - 'A' as int
  {
    if 'A' <= c <= 'Z' then (c as int + 32) as char else c
  }

  function ToLower(s: string): (r: string)
    ensures |r| == |s|
    ensures forall i :: 0 <= i < |s| ==> r[i] == LowerChar(s[i])
  {
    seq(|s|, i requires 0 <= i < |s| => LowerChar(s[i]))
  }

  predicate IsLower(s: string) {
    ToLower(s) == s
  }

  lemma ToLowerIsLower(s: string)
    ensures IsLower(ToLower(s))
  {
  }

  lemma ToLowerConcat(a: string, b: string)
    ensures ToLower(a + b) == ToLower(a) + ToLower(b)
  {
  }

  /** Two names are the same up to letter case. */
  predicate SameFold(a: string, b: string) {
    ToLower(a) == ToLower(b)
  }

  /** The host is the domain or one of its dotted descendants. */
  predicate Under(host: string, domain: string) {
    host == domain || HasSuffix(host, "." + domain)
  }

  lemma UnderSplit(host: string, domain: string)
    requires HasSuffix(host, "." + domain)
    ensures |domain| < |host|
    ensures host[|host| - |domain| - 1] == '.'
    ensures host[|host| - |domain|..] == domain
  {
  }

  lemma SplitUnder(host: string, i: nat)
    requires i < |host| && host[i] == '.'
    ensures HasSuffix(host, "." + host[i + 1..])
  {
  }

  /** Being under a domain is transitive. */
  lemma UnderTransitive(host: string, middle: string, domain: string)
    requires Under(host, middle) && Under(middle, domain)
    ensures Under(host, domain)
  {
  }

  /** Two tunnel domains under one base cannot both cover a host: their labels
      have no dot, so the longer one would have to contain the shorter one's. */
  lemma OneOwner(sub1: string, sub2: string, base: string, host: string)
    requires '.' !in sub1 && '.' !in sub2
    requires Under(host, sub1 + "." + base) && Under(host, sub2 + "." + base)
    ensures sub1 == sub2
  {
    var d1, d2 := sub1 + "." + base, sub2 + "." + base;
    CoverIsSuffix(host, d1);
    CoverIsSuffix(host, d2);
    if |d1| == |d2| {
      assert d1[..|sub1|] == sub1 && d2[..|sub2|] == sub2;
    } else if |d1| < |d2| {
      ShorterNeedsDot(sub1, sub2, base, host);
    } else {
      ShorterNeedsDot(sub2, sub1, base, host);
    }
  }

  lemma CoverIsSuffix(host: string, d: string)
    requires Under(host, d)
    ensures |d| <= |host| && host[|host| - |d|..] == d
  {
  }

  lemma ShorterNeedsDot(sub1: string, sub2: string, base: string, host: string)
    requires |sub1| < |sub2|
    requires Under(host, sub1 + "." + base) && Under(host, sub2 + "." + base)
    ensures '.' in sub2
  {
    var d1, d2 := sub1 + "." + base, sub2 + "." + base;
    CoverIsSuffix(host, d2);
    UnderSplit(host, d1);
    var i := |sub2| - |sub1| - 1;
    assert sub2[i] == d2[i] == host[|host| - |d2| + i] == '.';
  }
}
