/** internal/agent/storage.go Lock and Unlock: a lock per name, and one channel
    per holding that is closed to wake its waiters. */
module StorageLock {
  import opened Basics

  /** Channels are numbered in creation order. */
  datatype Table = Table(locks: map<string, nat>, closed: set<nat>, next: nat)

  /** One pass through Lock's critical section: no channel means acquired. */
  function TryLock(t: Table, name: string): (Table, Option<nat>) {
    if name in t.locks then (t, Some(t.locks[name]))
    else (t.(locks := t.locks[name := t.next], next := t.next + 1), None)
  }

  function Unlock(t: Table, name: string): Table {
    if name in t.locks then t.(locks := t.locks - {name}, closed := t.closed + {t.locks[name]}) else t
  }

  class Locks {
    var locks: map<string, nat>
    var closed: set<nat>
    var next: nat

    function View(): Table
      reads this
    {
      Table(locks, closed, next)
    }

    constructor ()
      ensures View() == Table(map[], {}, 0)
    {
      locks, closed, next := map[], {}, 0;
    }

    method TryLockOnce(name: string) returns (ch: Option<nat>)
      modifies this
      ensures (View(), ch) == TryLock(old(View()), name)
    {
      if name !in locks {
        locks, next := locks[name := next], next + 1;
        return None;
      }
      return Some(locks[name]);
    }

    method Release(name: string)
      modifies this
      ensures View() == Unlock(old(View()), name)
    {
      if name in locks {
        closed := closed + {locks[name]};
        locks := locks - {name};
      }
    }
  }

  // ------------------------------------------------ any number of goroutines

  /** The progress of one Lock call and the Unlock that answers it. */
  datatype Caller = Idle | Wanting(name: string) | Waiting(name: string, ch: nat) | Holding(name: string)

  datatype State = State(table: Table, callers: map<nat, Caller>)

  datatype Event =
    | Begin(p: nat, name: string)
    | Enter(p: nat)   // the critical section
    | Wake(p: nat)    // its channel was closed
    | GiveUp(p: nat)  // context done or timeout
    | Leave(p: nat)   // Unlock by the holder
    | Intrude(p: nat, name: string) // Unlock by anybody else

  function CallerOf(s: State, p: nat): Caller {
    if p in s.callers then s.callers[p] else Idle
  }

  /** A step that is not possible in a state changes nothing. */
  function Next(s: State, e: Event): State {
    var c := CallerOf(s, e.p);
    match e
    case Begin(p, name) => if c.Idle? then s.(callers := s.callers[p := Wanting(name)]) else s
    case Enter(p) =>
      if c.Wanting? then
        var (t, ch) := TryLock(s.table, c.name);
        State(t, s.callers[p := if ch.None? then Holding(c.name) else Waiting(c.name, ch.value)])
      else s
    case Wake(p) =>
      if c.Waiting? && c.ch in s.table.closed then s.(callers := s.callers[p := Wanting(c.name)]) else s
    case GiveUp(p) => if c.Waiting? then s.(callers := s.callers[p := Idle]) else s
    case Leave(p) =>
      if c.Holding? then State(Unlock(s.table, c.name), s.callers[p := Idle]) else s
    case Intrude(p, name) =>
      if c != Holding(name) then s.(table := Unlock(s.table, name)) else s
  }

  /** Only holders unlock. */
  ghost predicate Proper(es: seq<Event>) {
    forall i :: 0 <= i < |es| ==> !es[i].Intrude?
  }

  function Run(s: State, es: seq<Event>): State {
    if es == [] then s else Next(Run(s, es[..|es| - 1]), es[|es| - 1])
  }

  const START := State(Table(map[], {}, 0), map[])

  ghost predicate Holds(s: State, p: nat, name: string) {
    CallerOf(s, p) == Holding(name)
  }

  ghost predicate Inv(s: State) {
    && HeldOnce(s) && FreshChannels(s.table)
    && (forall p :: p in s.callers && s.callers[p].Waiting? ==> Awake(s.table, s.callers[p]))
  }

  /** A name is in the table exactly while one caller holds it. */
  ghost predicate HeldOnce(s: State) {
    && (forall p, q, name :: Holds(s, p, name) && Holds(s, q, name) ==> p == q)
    && (forall name :: name in s.table.locks <==> exists p :: Holds(s, p, name))
  }

  /** Every name in the table has its own channel, not closed yet. */
  ghost predicate FreshChannels(t: Table) {
    && (forall name :: name in t.locks ==> t.locks[name] < t.next && t.locks[name] !in t.closed)
    && (forall m, n :: m in t.locks && n in t.locks && t.locks[m] == t.locks[n] ==> m == n)
    && (forall ch :: ch in t.closed ==> ch < t.next)
  }

  /** The waiter's channel is closed already, or is the one in the table under
      its name. */
  ghost predicate Awake(t: Table, c: Caller)
    requires c.Waiting?
  {
    c.ch in t.closed || (c.name in t.locks && t.locks[c.name] == c.ch)
  }

  lemma EnterKeepsHeldOnce(s: State, p: nat)
    requires HeldOnce(s) && CallerOf(s, p).Wanting? && CallerOf(s, p).name !in s.table.locks
    ensures HeldOnce(Next(s, Enter(p)))
  {
    var r, name := Next(s, Enter(p)), CallerOf(s, p).name;
    assert forall q, n :: Holds(r, q, n) <==> (q == p && n == name) || Holds(s, q, n);
    forall n | n in r.table.locks ensures exists q :: Holds(r, q, n) {
      if n == name {
        assert Holds(r, p, n);
      } else {
        var q :| Holds(s, q, n);
        assert Holds(r, q, n);
      }
    }
  }

  lemma EnterKeepsInv(s: State, p: nat)
    requires Inv(s) && CallerOf(s, p).Wanting?
    ensures Inv(Next(s, Enter(p)))
  {
    if CallerOf(s, p).name !in s.table.locks {
      EnterKeepsHeldOnce(s, p);
    } else {
      SameHolders(s, Next(s, Enter(p)), p);
    }
  }

  lemma SameHolders(s: State, r: State, p: nat)
    requires !CallerOf(s, p).Holding? && !CallerOf(r, p).Holding?
    requires forall q :: q != p ==> CallerOf(r, q) == CallerOf(s, q)
    ensures forall q, n :: Holds(r, q, n) <==> Holds(s, q, n)
  {
  }

  lemma LeaveKeepsHeldOnce(s: State, p: nat)
    requires HeldOnce(s) && CallerOf(s, p).Holding?
    ensures HeldOnce(Next(s, Leave(p)))
  {
    var r, name := Next(s, Leave(p)), CallerOf(s, p).name;
    assert Holds(s, p, name);
    assert forall q, n :: Holds(r, q, n) ==> Holds(s, q, n) && q != p;
    forall n | n in r.table.locks ensures exists q :: Holds(r, q, n) {
      var q :| Holds(s, q, n);
      assert Holds(r, q, n);
    }
  }

  lemma LeaveKeepsInv(s: State, p: nat)
    requires Inv(s) && CallerOf(s, p).Holding?
    ensures Inv(Next(s, Leave(p)))
  {
    LeaveKeepsHeldOnce(s, p);
    assert Holds(s, p, CallerOf(s, p).name);
  }

  lemma NextKeepsInv(s: State, e: Event)
    requires Inv(s) && !e.Intrude?
    ensures Inv(Next(s, e))
  {
    var c := CallerOf(s, e.p);
    if e.Enter? && c.Wanting? {
      EnterKeepsInv(s, e.p);
    } else if e.Leave? && c.Holding? {
      LeaveKeepsInv(s, e.p);
    } else if Next(s, e) != s {
      SameHolders(s, Next(s, e), e.p);
    }
  }

  lemma {:induction false} RunKeepsInv(s: State, es: seq<Event>)
    requires Inv(s) && Proper(es)
    ensures Inv(Run(s, es))
    decreases |es|
  {
    if es != [] {
      RunKeepsInv(s, es[..|es| - 1]);
      NextKeepsInv(Run(s, es[..|es| - 1]), es[|es| - 1]);
    }
  }

  /** In every run in which only holders unlock, at most one caller holds a
      name, a held name is exactly one in the table, and no channel is ever
      closed twice. */
  lemma MutualExclusion(es: seq<Event>, p: nat, q: nat, name: string)
    requires Proper(es)
    ensures var s := Run(START, es);
            && (Holds(s, p, name) && Holds(s, q, name) ==> p == q)
            && (Holds(s, p, name) ==> name in s.table.locks && s.table.locks[name] !in s.table.closed)
  {
    RunKeepsInv(START, es);
  }

  /** No wake-up is lost: a waiter's channel is closed already or is the one in
      the table, so once nobody holds the name every waiter for it can wake,
      and then the first one to enter gets it. */
  lemma NoLostWakeUp(es: seq<Event>, p: nat)
    requires Proper(es) && CallerOf(Run(START, es), p).Waiting?
    ensures var s, c := Run(START, es), CallerOf(Run(START, es), p);
            && Awake(s.table, c)
            && ((forall q :: !Holds(s, q, c.name)) ==>
                  CallerOf(Next(Next(s, Wake(p)), Enter(p)), p) == Holding(c.name))
  {
    RunKeepsInv(START, es);
  }

  // ------------------------------------------------ an unlock by anybody else

  ghost predicate Shared(s: State, name: string) {
    exists p, q :: p != q && Holds(s, p, name) && Holds(s, q, name)
  }

  /** From here on, with holders unlocking only, two callers can come to hold
      the name together. */
  ghost predicate CanBeShared(s: State, name: string) {
    exists es :: Proper(es) && Shared(Run(s, es), name)
  }

  lemma {:induction false} Newcomer(callers: set<nat>) returns (p: nat)
    ensures forall q :: q in callers ==> q < p
  {
    if callers == {} {
      p := 0;
    } else {
      var q :| q in callers;
      var r := Newcomer(callers - {q});
      p := if q < r then r else q + 1;
      assert forall x :: x in callers ==> x == q || x in callers - {q};
    }
  }

  lemma RunAppend(s: State, es: seq<Event>, e: Event)
    ensures Run(s, es + [e]) == Next(Run(s, es), e)
  {
    assert (es + [e])[..|es|] == es;
  }

  /** A name that is held but not in the table is there for the taking. */
  lemma UnlistedIsShared(s: State, p: nat, name: string)
    requires Holds(s, p, name) && name !in s.table.locks
    ensures CanBeShared(s, name)
  {
    var q := Newcomer(s.callers.Keys);
    var es := [] + [Begin(q, name)] + [Enter(q)];
    RunAppend(s, [], Begin(q, name));
    RunAppend(s, [] + [Begin(q, name)], Enter(q));
    assert Proper(es) && p != q;
    assert Holds(Run(s, es), p, name) && Holds(Run(s, es), q, name);
  }

  lemma InvIsNeverShared(s: State, name: string)
    requires Inv(s)
    ensures !CanBeShared(s, name)
  {
    forall es | Proper(es) ensures !Shared(Run(s, es), name) {
      RunKeepsInv(s, es);
    }
  }

  /** Unlock does not check its caller: after a run in which only holders
      unlocked, one call by anybody else lets two callers hold the name together
      exactly when somebody holds it at that moment. */
  lemma ForeignUnlockBreaksExactly(es: seq<Event>, p: nat, name: string)
    requires Proper(es) && !Holds(Run(START, es), p, name)
    ensures CanBeShared(Next(Run(START, es), Intrude(p, name)), name) <==> exists h :: Holds(Run(START, es), h, name)
  {
    var s := Run(START, es);
    var r := Next(s, Intrude(p, name));
    RunKeepsInv(START, es);
    if h :| Holds(s, h, name) {
      assert Holds(r, h, name);
      UnlistedIsShared(r, h, name);
    } else {
      assert name !in s.table.locks && r == s;
      InvIsNeverShared(s, name);
    }
  }

  /** A whole run in which that happens. */
  lemma ForeignUnlockRun(name: string)
    ensures var es := [Begin(0, name), Enter(0), Intrude(1, name), Begin(1, name), Enter(1)];
            Holds(Run(START, es), 0, name) && Holds(Run(START, es), 1, name)
  {
    var es := [Begin(0, name), Enter(0), Intrude(1, name), Begin(1, name), Enter(1)];
    var s1 := Next(START, es[0]);
    var s2 := Next(s1, es[1]);
    var s3 := Next(s2, es[2]);
    var s4 := Next(s3, es[3]);
    RunAppend(START, [], es[0]);
    RunAppend(START, es[..1], es[1]);
    RunAppend(START, es[..2], es[2]);
    RunAppend(START, es[..3], es[3]);
    RunAppend(START, es[..4], es[4]);
    assert [] + [es[0]] == es[..1] && es[..1] + [es[1]] == es[..2] && es[..2] + [es[2]] == es[..3];
    assert es[..3] + [es[3]] == es[..4] && es[..4] + [es[4]] == es;
    assert Holds(s2, 0, name) && CallerOf(s2, 1) == Idle && name !in s3.table.locks;
    assert Run(START, es) == Next(s4, es[4]);
  }

  /** A caller that wants a name gets it exactly when nobody holds it, and
      otherwise waits for the channel of the present holding. */
  lemma EntersExactly(es: seq<Event>, p: nat)
    requires Proper(es) && CallerOf(Run(START, es), p).Wanting?
    ensures var s := Run(START, es);
            var name, c := CallerOf(s, p).name, CallerOf(Next(s, Enter(p)), p);
            && (c == Holding(name) <==> forall q :: !Holds(s, q, name))
            && (c != Holding(name) ==> name in s.table.locks && c == Waiting(name, s.table.locks[name]))
  {
    RunKeepsInv(START, es);
  }
}
