/** internal/agent/storage.go childKeys: listing the keys under a directory,
    behind the server's textual prefix filter. */
module AgentStorage {
  import opened Basics
  import opened Text

  // --------------------------------------------------------------- listing

  function DirPrefix(base: string): string {
    if base == "" then "" else base + "/"
  }

  /** What key `k` contributes to a listing of `base`. */
  function ChildOf(k: string, base: string, recursive: bool): Option<string> {
    if !HasPrefix(k, DirPrefix(base)) then None
    else
      var rest := k[|DirPrefix(base)|..];
      if rest == "" then None
      else if recursive then Some(k)
      else
        var i := IndexByte(rest, '/');
        Some(DirPrefix(base) + if i >= 0 then rest[..i] else rest)
  }

  /** What each key contributes, in order. */
  function Contributions(keys: seq<string>, base: string, recursive: bool): (r: seq<Option<string>>)
    ensures |r| == |keys|
  {
    seq(|keys|, i requires 0 <= i < |keys| => ChildOf(keys[i], base, recursive))
  }

  /** The values in order, each kept only the first time it appears. */
  function FirstTimes(vs: seq<Option<string>>): seq<string> {
    if vs == [] then []
    else
      var n := |vs| - 1;
      var out := FirstTimes(vs[..n]);
      if vs[n].None? || vs[n].value in out then out else out + [vs[n].value]
  }

  function Children(keys: seq<string>, base: string, recursive: bool): seq<string> {
    FirstTimes(Contributions(keys, base, recursive))
  }

  function ChildKeysOf(keys: seq<string>, prefix: string, recursive: bool): seq<string> {
    Children(keys, TrimSuffix(prefix, "/"), recursive)
  }

  /** The body of the loop up to the `seen` test. */
  method Child(k: string, base: string, recursive: bool) returns (r: Option<string>)
    ensures r == ChildOf(k, base, recursive)
  {
    var rest: string;
    if base == "" {
      rest := k;
    } else if HasPrefix(k, base + "/") {
      rest := k[|base| + 1..];
    } else {
      return None;
    }
    assert rest == k[|DirPrefix(base)|..];
    if rest == "" {
      return None;
    }
    if recursive {
      return Some(k);
    }
    var i := IndexByte(rest, '/');
    if i >= 0 {
      rest := rest[..i];
    }
    assert "" + rest == rest;
    return Some(if base == "" then rest else base + "/" + rest);
  }

  method ChildKeys(keys: seq<string>, prefix: string, recursive: bool) returns (out: seq<string>)
    ensures out == ChildKeysOf(keys, prefix, recursive)
  {
    var base := TrimSuffix(prefix, "/");
    ghost var vs := Contributions(keys, base, recursive);
    var seen: set<string> := {};
    out := [];
    for n := 0 to |keys|
      invariant out == FirstTimes(vs[..n])
      invariant seen == Elems(out)
    {
      assert vs[..n + 1][..n] == vs[..n];
      var key := Child(keys[n], base, recursive);
      if key.Some? && key.value !in seen {
        seen := seen + {key.value};
        ElemsAppend(out, key.value);
        out := out + [key.value];
      }
    }
    assert vs[..|keys|] == vs;
  }

  /** `at[i]` is the first position that contributes `out[i]`. */
  ghost predicate FirstOccurrences(vs: seq<Option<string>>, out: seq<string>, at: seq<nat>) {
    && |at| == |out|
    && (forall i :: 0 <= i < |at| ==> at[i] < |vs| && vs[at[i]] == Some(out[i]))
    && (forall i, n :: 0 <= i < |at| && 0 <= n < at[i] ==> vs[n] != Some(out[i]))
    && (forall i, j :: 0 <= i < j < |at| ==> at[i] < at[j])
  }

  lemma {:induction false} FirstTimesOccur(vs: seq<Option<string>>) returns (at: seq<nat>)
    ensures FirstOccurrences(vs, FirstTimes(vs), at)
    ensures forall c :: c in FirstTimes(vs) <==> Some(c) in vs
    decreases |vs|
  {
    if vs == [] {
      return [];
    }
    var n := |vs| - 1;
    at := FirstTimesOccur(vs[..n]);
    assert vs == vs[..n] + [vs[n]];
    if vs[n].Some? && vs[n].value !in FirstTimes(vs[..n]) {
      at := at + [n];
    }
  }

  /** A listing has every child exactly once, in order of first occurrence. */
  lemma ListsEachChildOnce(keys: seq<string>, prefix: string, recursive: bool) returns (at: seq<nat>)
    ensures var vs := Contributions(keys, TrimSuffix(prefix, "/"), recursive);
            FirstOccurrences(vs, ChildKeysOf(keys, prefix, recursive), at)
    ensures forall i, j :: 0 <= i < j < |ChildKeysOf(keys, prefix, recursive)| ==>
              ChildKeysOf(keys, prefix, recursive)[i] != ChildKeysOf(keys, prefix, recursive)[j]
  {
    at := FirstTimesOccur(Contributions(keys, TrimSuffix(prefix, "/"), recursive));
  }

  /** And nothing else: the children are what the keys contribute. */
  lemma ChildrenMembers(keys: seq<string>, base: string, recursive: bool, c: string)
    ensures c in Children(keys, base, recursive) <==>
            exists k :: k in keys && ChildOf(k, base, recursive) == Some(c)
  {
    var vs := Contributions(keys, base, recursive);
    var at := FirstTimesOccur(vs);
    if Some(c) in vs {
      var n :| 0 <= n < |vs| && vs[n] == Some(c);
      assert keys[n] in keys;
    }
    if k :| k in keys && ChildOf(k, base, recursive) == Some(c) {
      var n :| 0 <= n < |keys| && keys[n] == k;
      assert vs[n] == Some(c);
    }
  }

  // ------------------------------------------- the server's textual filter

  function StartsWith(keys: seq<string>, prefix: string): seq<string> {
    if keys == [] then []
    else
      var n := |keys| - 1;
      StartsWith(keys[..n], prefix) + if HasPrefix(keys[n], prefix) then [keys[n]] else []
  }

  ghost predicate FilterIsHarmless(prefix: string) {
    forall keys: seq<string>, recursive ::
      ChildKeysOf(StartsWith(keys, prefix), prefix, recursive) == ChildKeysOf(keys, prefix, recursive)
  }

  lemma ContributionsAppend(keys: seq<string>, k: string, base: string, recursive: bool)
    ensures Contributions(keys + [k], base, recursive) ==
            Contributions(keys, base, recursive) + [ChildOf(k, base, recursive)]
  {
  }

  lemma FirstTimesAppend(vs: seq<Option<string>>, v: Option<string>)
    ensures FirstTimes(vs + [v]) ==
            var out := FirstTimes(vs);
            if v.None? || v.value in out then out else out + [v.value]
  {
  }

  lemma {:induction false} FilterChangesNothing(keys: seq<string>, prefix: string, recursive: bool)
    requires prefix != "/"
    ensures ChildKeysOf(StartsWith(keys, prefix), prefix, recursive) == ChildKeysOf(keys, prefix, recursive)
    decreases |keys|
  {
    if keys != [] {
      var n, base := |keys| - 1, TrimSuffix(prefix, "/");
      var init, k := keys[..n], keys[n];
      FilterChangesNothing(init, prefix, recursive);
      assert keys == init + [k];
      ContributionsAppend(init, k, base, recursive);
      FirstTimesAppend(Contributions(init, base, recursive), ChildOf(k, base, recursive));
      if HasPrefix(k, prefix) {
        var kept := StartsWith(init, prefix);
        ContributionsAppend(kept, k, base, recursive);
        FirstTimesAppend(Contributions(kept, base, recursive), ChildOf(k, base, recursive));
      } else {
        NoPrefixNoChild(k, prefix, recursive);
        assert StartsWith(keys, prefix) == StartsWith(init, prefix);
      }
    }
  }

  lemma NoPrefixNoChild(k: string, prefix: string, recursive: bool)
    requires prefix != "/" && !HasPrefix(k, prefix)
    ensures ChildOf(k, TrimSuffix(prefix, "/"), recursive).None?
  {
  }

  lemma OnlyChildOfRoot(k: string)
    requires k != ""
    ensures ChildKeysOf([k], "/", true) == [k]
  {
    assert TrimSuffix("/", "/") == "";
    assert k[0..] == k;
    assert Contributions([k], "", true) == [] + [Some(k)];
    FirstTimesAppend([], Some(k));
  }

  /** Filtering by the server's textual prefix first never changes a listing,
      exactly when the prefix is not a lone slash. */
  lemma FilterIsHarmlessExactly(prefix: string)
    ensures FilterIsHarmless(prefix) <==> prefix != "/"
  {
    if prefix == "/" {
      var keys := ["a"];
      assert keys[..0] == [];
      assert "a"[0] != "/"[0];
      assert StartsWith(keys, prefix) == [];
      OnlyChildOfRoot("a");
      assert ChildKeysOf(keys, prefix, true) == ["a"];
      assert ChildKeysOf(StartsWith(keys, prefix), prefix, true) == [];
    } else {
      forall keys: seq<string>, recursive
        ensures ChildKeysOf(StartsWith(keys, prefix), prefix, recursive) == ChildKeysOf(keys, prefix, recursive)
      {
        FilterChangesNothing(keys, prefix, recursive);
      }
    }
  }

  // ------------------------------------------------------- the directory view

  /** No empty component: no slash at either end and no two in a row. */
  ghost predicate WellNamed(k: string) {
    && k != "" && k[0] != '/' && k[|k| - 1] != '/'
    && forall i :: 0 <= i < |k| - 1 ==> !(k[i] == '/' && k[i + 1] == '/')
  }

  ghost predicate AllWellNamed(keys: seq<string>) {
    forall k :: k in keys ==> WellNamed(k)
  }

  function MaxLen(keys: seq<string>): (m: nat)
    ensures forall k :: k in keys ==> |k| <= m
  {
    if keys == [] then 0
    else
      var n := |keys| - 1;
      var m := MaxLen(keys[..n]);
      assert forall k :: k in keys ==> k in keys[..n] || k == keys[n];
      if |keys[n]| > m then |keys[n]| else m
  }

  lemma ComponentStarts(k: string, base: string)
    requires WellNamed(k) && HasPrefix(k, DirPrefix(base)) && |k| > |DirPrefix(base)|
    ensures k[|DirPrefix(base)|] != '/'
  {
    var p := |DirPrefix(base)|;
    if p > 0 {
      assert k[p - 1] == DirPrefix(base)[p - 1] == '/';
      assert k[p - 1 + 1] == k[p];
    }
  }

  /** A child is a part of its key that ends at a slash or at the end. */
  lemma ChildIsPart(k: string, base: string) returns (n: nat)
    requires WellNamed(k) && ChildOf(k, base, false).Some?
    ensures |DirPrefix(base)| < n <= |k| && ChildOf(k, base, false).value == k[..n]
    ensures n < |k| ==> k[n] == '/' && n + 1 < |k|
  {
    var p := |DirPrefix(base)|;
    var rest := k[p..];
    var i := IndexByte(rest, '/');
    ComponentStarts(k, base);
    assert rest[0] == k[p];
    if i >= 0 {
      n := p + i;
      assert k[n] == rest[i];
      Pieces(k, DirPrefix(base), i);
    } else {
      n := |k|;
      Pieces(k, DirPrefix(base), |rest|);
    }
  }

  lemma Pieces(k: string, dir: string, i: nat)
    requires dir <= k && |dir| + i <= |k|
    ensures dir + k[|dir|..][..i] == k[..|dir| + i]
    ensures |dir| + i == |k| ==> dir + k[|dir|..] == k == k[..|k|]
  {
  }

  lemma PartExtends(k: string, dir: string, n: nat)
    requires dir <= k && |dir| < n <= |k| && (n < |k| ==> k[n] == '/' && n + 1 < |k|)
    ensures dir <= k[..n] && (k == k[..n] || (k[..n] + "/" <= k && |k| > n + 1))
  {
    if n < |k| {
      assert k[..n] + "/" == k[..n + 1];
    }
  }

  /** A child is longer than its directory, and the key it comes from is the
      child itself or lies under it. */
  lemma ChildExtends(k: string, base: string)
    requires WellNamed(k) && ChildOf(k, base, false).Some?
    ensures var c := ChildOf(k, base, false).value;
            && |base| < |c| <= |k| && HasPrefix(c, DirPrefix(base)) && |c| > |DirPrefix(base)|
            && (k == c || (HasPrefix(k, DirPrefix(c)) && |k| > |DirPrefix(c)|))
            && TrimSuffix(c, "/") == c
  {
    var n := ChildIsPart(k, base);
    PartExtends(k, DirPrefix(base), n);
    assert k[n - 1] != '/' by {
      assert n < |k| ==> k[n - 1 + 1] == '/';
    }
    NoFinalSlash(k[..n]);
  }

  lemma NoFinalSlash(c: string)
    requires c != "" && c[|c| - 1] != '/'
    ensures TrimSuffix(c, "/") == c
  {
    assert c[|c| - 1..] == [c[|c| - 1]];
  }

  lemma ChildIsLonger(keys: seq<string>, prefix: string, c: string)
    requires AllWellNamed(keys) && c in ChildKeysOf(keys, prefix, false)
    ensures |TrimSuffix(prefix, "/")| < |c| <= MaxLen(keys) && TrimSuffix(c, "/") == c
  {
    var base := TrimSuffix(prefix, "/");
    ChildrenMembers(keys, base, false, c);
    var k :| k in keys && ChildOf(k, base, false) == Some(c);
    ChildExtends(k, base);
  }

  /** Listing non-recursively again and again from `prefix` comes to `k`. That
      this definition is accepted says the descent always ends: every child is
      longer than its directory and no longer than the longest key. */
  ghost predicate Reaches(keys: seq<string>, prefix: string, k: string)
    requires AllWellNamed(keys)
    decreases MaxLen(keys) + 1 - |TrimSuffix(prefix, "/")|
  {
    exists c :: c in ChildKeysOf(keys, prefix, false)
                && (c == k || (ChildIsLonger(keys, prefix, c); Reaches(keys, c, k)))
  }

  lemma PrefixOfPrefix(k: string, c: string, base: string)
    requires HasPrefix(c, DirPrefix(base)) && |c| > |DirPrefix(base)| && HasPrefix(k, DirPrefix(c))
    ensures HasPrefix(k, DirPrefix(base)) && |k| > |DirPrefix(base)|
  {
  }

  lemma ReachedIsListed(keys: seq<string>, base: string, c: string, k: string)
    requires AllWellNamed(keys) && k in keys && c in Children(keys, base, false)
    requires c == k || k in Children(keys, c, true)
    ensures k in Children(keys, base, true)
  {
    ChildrenMembers(keys, base, false, c);
    var from :| from in keys && ChildOf(from, base, false) == Some(c);
    ChildExtends(from, base);
    var p := |DirPrefix(base)|;
    if c != k {
      ChildrenMembers(keys, c, true, k);
      PrefixOfPrefix(k, c, base);
    }
    assert ChildOf(k, base, true) == Some(k);
    ChildrenMembers(keys, base, true, k);
  }

  lemma ListedStartsDescent(keys: seq<string>, base: string, k: string) returns (c: string)
    requires AllWellNamed(keys) && k in keys && k in Children(keys, base, true)
    ensures c in Children(keys, base, false) && (c == k || k in Children(keys, c, true))
  {
    ChildrenMembers(keys, base, true, k);
    assert ChildOf(k, base, false).Some?;
    c := ChildOf(k, base, false).value;
    ChildrenMembers(keys, base, false, c);
    ChildExtends(k, base);
    if c != k {
      assert ChildOf(k, c, true) == Some(k);
      ChildrenMembers(keys, c, true, k);
    }
  }

  /** Descending directory by directory reaches exactly the keys of the
      recursive listing, when no key has an empty component. */
  lemma {:induction false} DescentIsRecursiveListing(keys: seq<string>, prefix: string, k: string)
    requires AllWellNamed(keys) && k in keys
    ensures Reaches(keys, prefix, k) <==> k in ChildKeysOf(keys, prefix, true)
    decreases MaxLen(keys) + 1 - |TrimSuffix(prefix, "/")|
  {
    var base := TrimSuffix(prefix, "/");
    if Reaches(keys, prefix, k) {
      var c :| c in ChildKeysOf(keys, prefix, false)
               && (c == k || (ChildIsLonger(keys, prefix, c); Reaches(keys, c, k)));
      ChildIsLonger(keys, prefix, c);
      if c != k {
        DescentIsRecursiveListing(keys, c, k);
      }
      ReachedIsListed(keys, base, c, k);
    }
    if k in ChildKeysOf(keys, prefix, true) {
      var c := ListedStartsDescent(keys, base, k);
      ChildIsLonger(keys, prefix, c);
      if c != k {
        DescentIsRecursiveListing(keys, c, k);
      }
    }
  }

  // ------------------------------------------------- what is in a directory

  /** The directory a prefix names, with its final slash; the root has none. */
  function Directory(prefix: string): string {
    if prefix == "" || prefix == "/" then ""
    else if prefix[|prefix| - 1] == '/' then prefix
    else prefix + "/"
  }

  lemma DirectoryOfPrefix(prefix: string)
    ensures DirPrefix(TrimSuffix(prefix, "/")) == Directory(prefix)
  {
    if prefix != "" {
      assert prefix[|prefix| - 1..] == [prefix[|prefix| - 1]];
      if prefix[|prefix| - 1] == '/' {
        assert prefix[..|prefix| - 1] + "/" == prefix;
      }
    }
  }

  ghost predicate InDirectory(k: string, dir: string) {
    dir <= k && |k| > |dir|
  }

  /** The entry of its directory that a key is, or is inside of: one component
      and no more. */
  ghost predicate IsEntryOf(c: string, k: string, dir: string) {
    && dir <= c && '/' !in c[|dir|..]
    && InDirectory(k, dir) && (k == c || c + "/" <= k)
  }

  lemma FirstSlash(rest: string, r: string)
    requires '/' !in r && r + "/" <= rest
    ensures IndexByte(rest, '/') == |r| && rest[..|r|] == r
  {
    var i := IndexByte(rest, '/');
    assert (r + "/")[|r|] == '/' && rest[|r|] == (r + "/")[|r|];
    forall j | 0 <= j < |r| ensures rest[j] != '/' {
      assert rest[j] == (r + "/")[j] == r[j];
    }
  }

  lemma ChildOfEntry(k: string, base: string, c: string)
    requires IsEntryOf(c, k, DirPrefix(base))
    ensures ChildOf(k, base, false) == Some(c)
  {
    var dir := DirPrefix(base);
    var r, rest := c[|dir|..], k[|dir|..];
    assert c == dir + r;
    if k == c {
      assert IndexByte(rest, '/') < 0;
    } else {
      assert r + "/" == (c + "/")[|dir|..];
      assert r + "/" <= rest;
      FirstSlash(rest, r);
    }
  }

  lemma EntryOfChild(k: string, base: string)
    requires ChildOf(k, base, false).Some?
    ensures IsEntryOf(ChildOf(k, base, false).value, k, DirPrefix(base))
  {
    var dir := DirPrefix(base);
    var rest := k[|dir|..];
    var i := IndexByte(rest, '/');
    var r := if i >= 0 then rest[..i] else rest;
    var c := dir + r;
    assert c[|dir|..] == r;
    assert k == dir + rest;
    if i >= 0 {
      assert rest[..i + 1] == r + "/";
      assert c + "/" == k[..|dir| + i + 1];
    }
  }

  /** A listing holds, without recursion, exactly the entries of the directory:
      a text without a slash after it that some key is, or goes on from with a
      slash; recursively, exactly the keys inside. */
  lemma ListsExactly(keys: seq<string>, prefix: string, c: string)
    ensures c in ChildKeysOf(keys, prefix, false) <==>
              exists k :: k in keys && IsEntryOf(c, k, Directory(prefix))
    ensures c in ChildKeysOf(keys, prefix, true) <==> c in keys && InDirectory(c, Directory(prefix))
  {
    var base := TrimSuffix(prefix, "/");
    DirectoryOfPrefix(prefix);
    ChildrenMembers(keys, base, false, c);
    ChildrenMembers(keys, base, true, c);
    forall k | ChildOf(k, base, false) == Some(c) ensures IsEntryOf(c, k, DirPrefix(base)) {
      EntryOfChild(k, base);
    }
    forall k | IsEntryOf(c, k, DirPrefix(base)) ensures ChildOf(k, base, false) == Some(c) {
      ChildOfEntry(k, base, c);
    }
    forall k ensures ChildOf(k, base, true) == if InDirectory(k, DirPrefix(base)) then Some(k) else None {
      assert HasPrefix(k, DirPrefix(base)) ==> (k[|DirPrefix(base)|..] == "" <==> |k| == |DirPrefix(base)|);
    }
  }

  // ------------------------------------------------------ empty components

  lemma ComponentKeepsEnd(base: string, r: string)
    requires r != "" && '/' !in r
    ensures TrimSuffix(DirPrefix(base) + r, "/") != base
  {
  }

  lemma SelfListingKey(k: string, base: string)
    requires !HasSuffix(base, "/") && ChildOf(k, base, false).Some?
    requires TrimSuffix(ChildOf(k, base, false).value, "/") == base
    ensures HasPrefix(k, DirPrefix(base) + "/")
  {
    var dir, c := DirPrefix(base), ChildOf(k, base, false).value;
    EntryOfChild(k, base);
    assert c == dir + c[|dir|..];
    if c[|dir|..] != "" {
      ComponentKeepsEnd(base, c[|dir|..]);
      assert false;
    }
    assert c == dir;
  }

  lemma DoubleSlashKey(k: string, base: string)
    requires !HasSuffix(base, "/") && HasPrefix(k, DirPrefix(base) + "/")
    ensures ChildOf(k, base, false) == Some(DirPrefix(base))
    ensures TrimSuffix(DirPrefix(base), "/") == base
  {
    var p := |DirPrefix(base)|;
    assert k[..p] == k[..p + 1][..p] == DirPrefix(base);
    assert k[p] == k[..p + 1][p] == '/';
    assert k[p..][0] == '/' && k[p..][..0] == "" && DirPrefix(base) + "" == DirPrefix(base);
    assert base != "" ==> (base + "/")[|base|..] == "/";
  }

  /** With an empty component the descent does not end: a directory lists
      itself, under a final slash, exactly when some key continues it with two
      slashes in a row. */
  lemma ListsItselfExactly(keys: seq<string>, base: string)
    requires !HasSuffix(base, "/")
    ensures (exists c :: c in Children(keys, base, false) && TrimSuffix(c, "/") == base) <==>
            (exists k :: k in keys && HasPrefix(k, DirPrefix(base) + "/"))
  {
    if c :| c in Children(keys, base, false) && TrimSuffix(c, "/") == base {
      ChildrenMembers(keys, base, false, c);
      var k :| k in keys && ChildOf(k, base, false) == Some(c);
      SelfListingKey(k, base);
    }
    if k :| k in keys && HasPrefix(k, DirPrefix(base) + "/") {
      DoubleSlashKey(k, base);
      ChildrenMembers(keys, base, false, DirPrefix(base));
    }
  }

  // ------------------------------------------------------------ a whole List

  lemma {:induction false} StartsWithMembers(keys: seq<string>, prefix: string)
    ensures forall k :: k in StartsWith(keys, prefix) <==> k in keys && prefix <= k
    decreases |keys|
  {
    if keys != [] {
      StartsWithMembers(keys[..|keys| - 1], prefix);
      assert keys == keys[..|keys| - 1] + [keys[|keys| - 1]];
    }
  }

  /** storage.go List over the server's filter; None stands for fs.ErrNotExist. */
  method List(stored: seq<string>, prefix: string, recursive: bool) returns (r: Option<seq<string>>)
    ensures r.Some? ==> r.value == ChildKeysOf(StartsWith(stored, prefix), prefix, recursive) && r.value != []
    ensures r.None? <==> ChildKeysOf(StartsWith(stored, prefix), prefix, recursive) == []
    ensures prefix != "/" ==> (r.None? <==> forall k :: k in stored ==> !InDirectory(k, Directory(prefix)))
  {
    var keys := StartsWith(stored, prefix);
    var out := ChildKeys(keys, prefix, recursive);
    NothingListedExactly(stored, prefix, recursive);
    if |out| == 0 {
      return None;
    }
    return Some(out);
  }

  /** A listing is empty exactly when no stored key is inside the directory. */
  lemma NothingListedExactly(stored: seq<string>, prefix: string, recursive: bool)
    ensures prefix != "/" ==>
              (ChildKeysOf(StartsWith(stored, prefix), prefix, recursive) == [] <==>
               forall k :: k in stored ==> !InDirectory(k, Directory(prefix)))
  {
    if prefix != "/" {
      var base := TrimSuffix(prefix, "/");
      FilterChangesNothing(stored, prefix, recursive);
      DirectoryOfPrefix(prefix);
      var out := ChildKeysOf(stored, prefix, recursive);
      forall k | k in stored ensures ChildOf(k, base, recursive).Some? <==> InDirectory(k, Directory(prefix)) {
        assert HasPrefix(k, DirPrefix(base)) ==> (k[|DirPrefix(base)|..] == "" <==> |k| == |DirPrefix(base)|);
      }
      if k :| k in stored && InDirectory(k, Directory(prefix)) {
        ChildrenMembers(stored, base, recursive, ChildOf(k, base, recursive).value);
      }
      if out != [] {
        ChildrenMembers(stored, base, recursive, out[0]);
      }
    }
  }
}
