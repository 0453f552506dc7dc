/** internal/pipe/pipe.go: Join as two interleaved copiers with half-close.

    Everything is written for the direction from `a` to `b`; the other one is
    its mirror image. A step that is not possible in a state changes nothing,
    so every sequence of events is a run. */
module Pipe {
  import opened Basics

  datatype Side = Side(
    sent: seq<Byte>,      // all its remote end ever sent to us
    incoming: seq<Byte>,  // the part of it we have not read
    ended: bool,          // its remote end will send no more
    outgoing: seq<Byte>,  // all we have written to it
    halfClose: bool,      // it supports CloseWrite
    writable: bool,
    open: bool)

  datatype Copier = Reading | Holding(chunk: seq<Byte>) | Finished | Aborted

  datatype State = State(
    a: Side, b: Side, fromA: Copier, fromB: Copier,
    failed: bool,         // some read or write failed on a side still open
    returned: bool)

  datatype Step =
    | Send(bytes: seq<Byte>)  // the remote end of the source
    | End
    | ReadChunk(n: nat)       // the copier
    | ReadEnd
    | ReadError
    | WriteChunk
    | WriteError(n: nat)

  datatype Event = FromA(step: Step) | FromB(step: Step) | Return

  function Mirror(s: State): State {
    State(s.b, s.a, s.fromB, s.fromA, s.failed, s.returned)
  }

  predicate Over(c: Copier) {
    c.Finished? || c.Aborted?
  }

  /** The error branch: both connections are closed. */
  function Abort(s: State, failed: bool): State {
    s.(a := s.a.(open := false), b := s.b.(open := false), fromA := Aborted, failed := s.failed || failed)
  }

  function StepA(s: State, step: Step): State {
    match step
    case Send(bytes) =>
      if s.a.ended then s
      else s.(a := s.a.(sent := s.a.sent + bytes, incoming := s.a.incoming + bytes))
    case End => s.(a := s.a.(ended := true))
    case ReadChunk(n) =>
      if s.fromA.Reading? && s.a.open && 1 <= n <= |s.a.incoming| then
        s.(a := s.a.(incoming := s.a.incoming[n..]), fromA := Holding(s.a.incoming[..n]))
      else s
    case ReadEnd =>
      if s.fromA.Reading? && s.a.open && s.a.ended && s.a.incoming == [] then
        s.(b := if s.b.halfClose then s.b.(writable := false) else s.b.(open := false), fromA := Finished)
      else s
    case ReadError =>
      if s.fromA.Reading? then Abort(s, s.a.open) else s
    case WriteChunk =>
      if s.fromA.Holding? && s.b.open && s.b.writable then
        s.(b := s.b.(outgoing := s.b.outgoing + s.fromA.chunk), fromA := Reading)
      else s
    case WriteError(n) =>
      if s.fromA.Holding? && n <= |s.fromA.chunk| then
        if s.b.open && s.b.writable then
          Abort(s.(b := s.b.(outgoing := s.b.outgoing + s.fromA.chunk[..n])), true)
        else Abort(s, false)
      else s
  }

  function Next(s: State, e: Event): State {
    match e
    case FromA(step) => StepA(s, step)
    case FromB(step) => Mirror(StepA(Mirror(s), step))
    case Return =>
      if Over(s.fromA) && Over(s.fromB) then
        s.(a := s.a.(open := false), b := s.b.(open := false), returned := true)
      else s
  }

  function Run(s: State, es: seq<Event>): State {
    if es == [] then s else Next(Run(s, es[..|es| - 1]), es[|es| - 1])
  }

  function Start(halfCloseA: bool, halfCloseB: bool): State {
    State(Side([], [], false, [], halfCloseA, true, true), Side([], [], false, [], halfCloseB, true, true),
          Reading, Reading, false, false)
  }

  // -------------------------------------------------------------- invariant

  function Held(c: Copier): seq<Byte> {
    if c.Holding? then c.chunk else []
  }

  /** The invariant of the direction from `a` to `b`. */
  ghost predicate Flow(s: State) {
    && (!Over(s.fromA) ==> s.a.sent == s.b.outgoing + Held(s.fromA) + s.a.incoming)
    && s.b.outgoing <= s.a.sent
    && (s.fromA.Finished? ==> s.a.ended && s.b.outgoing == s.a.sent)
    && (s.fromA.Aborted? ==> !s.a.open && !s.b.open)
    && (!s.b.writable ==> s.fromA.Finished? && s.b.halfClose)
    && (s.fromA.Finished? ==> if s.b.halfClose then !s.b.writable else !s.b.open)
    && (!s.a.open && !s.returned ==>
          (s.fromB.Finished? && !s.a.halfClose) || s.fromA.Aborted? || s.fromB.Aborted?)
    && (s.fromA.Aborted? && !s.failed ==> s.fromB.Finished? && !s.a.halfClose)
    && (s.returned ==> Over(s.fromA) && !s.a.open)
  }

  ghost predicate Inv(s: State) {
    Flow(s) && Flow(Mirror(s))
  }

  lemma StepAKeepsFlow(s: State, step: Step)
    requires Inv(s)
    ensures Flow(StepA(s, step))
  {
  }

  lemma StepAKeepsOtherFlow(s: State, step: Step)
    requires Inv(s)
    ensures Flow(Mirror(StepA(s, step)))
  {
  }

  lemma StepAKeepsInv(s: State, step: Step)
    requires Inv(s)
    ensures Inv(StepA(s, step))
    ensures s.b.outgoing <= StepA(s, step).b.outgoing && s.a.outgoing == StepA(s, step).a.outgoing
    ensures StepA(s, step).a.halfClose == s.a.halfClose && StepA(s, step).b.halfClose == s.b.halfClose
  {
    StepAKeepsFlow(s, step);
    StepAKeepsOtherFlow(s, step);
    StepAOnlyAppends(s, step);
  }

  lemma StepAOnlyAppends(s: State, step: Step)
    ensures s.b.outgoing <= StepA(s, step).b.outgoing && s.a.outgoing == StepA(s, step).a.outgoing
    ensures StepA(s, step).a.halfClose == s.a.halfClose && StepA(s, step).b.halfClose == s.b.halfClose
  {
    match step
    case WriteChunk =>
    case WriteError(n) =>
    case _ => assert StepA(s, step).b.outgoing == s.b.outgoing;
  }

  lemma NextKeepsInv(s: State, e: Event)
    requires Inv(s)
    ensures Inv(Next(s, e))
    ensures Next(s, e).a.halfClose == s.a.halfClose && Next(s, e).b.halfClose == s.b.halfClose
  {
    match e
    case FromA(step) => StepAKeepsInv(s, step);
    case FromB(step) => StepAKeepsInv(Mirror(s), step);
    case Return =>
  }

  lemma {:induction false} RunKeepsInv(s: State, es: seq<Event>)
    requires Inv(s)
    ensures Inv(Run(s, es))
    ensures Run(s, es).a.halfClose == s.a.halfClose && Run(s, es).b.halfClose == s.b.halfClose
    decreases |es|
  {
    if es != [] {
      RunKeepsInv(s, es[..|es| - 1]);
      NextKeepsInv(Run(s, es[..|es| - 1]), es[|es| - 1]);
    }
  }

  // ---------------------------------------------------------------- results

  /** In every state of every run each direction has delivered a prefix of what
      its source sent, and a direction that ended by itself all of it. */
  lemma {:induction false} DeliversPrefixes(halfCloseA: bool, halfCloseB: bool, es: seq<Event>)
    ensures var s := Run(Start(halfCloseA, halfCloseB), es);
            && s.b.outgoing <= s.a.sent && s.a.outgoing <= s.b.sent
            && (s.fromA.Finished? ==> s.b.outgoing == s.a.sent)
            && (s.fromB.Finished? ==> s.a.outgoing == s.b.sent)
  {
    RunKeepsInv(Start(halfCloseA, halfCloseB), es);
  }

  /** The end of a stream is passed on, in every run: once the copier from `a`
      has ended by itself the other side has been closed for writing, and only
      then; without half-close it has been closed altogether. */
  lemma EndIsPassedOn(halfCloseA: bool, halfCloseB: bool, es: seq<Event>)
    ensures var s := Run(Start(halfCloseA, halfCloseB), es);
            && (halfCloseB ==> (!s.b.writable <==> s.fromA.Finished?))
            && (halfCloseA ==> (!s.a.writable <==> s.fromB.Finished?))
            && (!halfCloseB ==> s.b.writable && (s.fromA.Finished? ==> !s.b.open))
            && (!halfCloseA ==> s.a.writable && (s.fromB.Finished? ==> !s.a.open))
  {
    RunKeepsInv(Start(halfCloseA, halfCloseB), es);
  }

  /** With half-close on both ends and no failure, a side closed for writing can
      still be read from until Join returns, so its answer is not cut off. */
  lemma EndedSideStaysReadable(es: seq<Event>)
    ensures var s := Run(Start(true, true), es);
            !s.failed && !s.returned ==> s.a.open && s.b.open && !s.fromA.Aborted? && !s.fromB.Aborted?
  {
    RunKeepsInv(Start(true, true), es);
  }

  /** Join returns only when both copies are over and both ends are closed. */
  lemma ReturnsWithBothClosed(halfCloseA: bool, halfCloseB: bool, es: seq<Event>)
    ensures var s := Run(Start(halfCloseA, halfCloseB), es);
            s.returned ==> Over(s.fromA) && Over(s.fromB) && !s.a.open && !s.b.open
  {
    RunKeepsInv(Start(halfCloseA, halfCloseB), es);
  }

  /** With half-close on both ends and no error, both directions are delivered
      whole, whichever of them ends first. */
  lemma CleanJoinDeliversBoth(es: seq<Event>)
    ensures var s := Run(Start(true, true), es);
            s.returned && !s.failed ==>
              s.a.ended && s.b.ended && s.b.outgoing == s.a.sent && s.a.outgoing == s.b.sent
  {
    RunKeepsInv(Start(true, true), es);
  }

  ghost predicate AlwaysWhole(halfCloseA: bool, halfCloseB: bool) {
    forall es :: var s := Run(Start(halfCloseA, halfCloseB), es);
      s.returned && !s.failed ==> s.b.outgoing == s.a.sent
  }

  /** Exactly when a direction is safe: without errors it is always delivered
      whole if and only if its own source supports half-close; otherwise the
      other direction, by ending first, closes that source. */
  lemma WholeExactlyWhenSourceHalfCloses(halfCloseA: bool, halfCloseB: bool)
    ensures AlwaysWhole(halfCloseA, halfCloseB) <==> halfCloseA
  {
    if halfCloseA {
      forall es
        ensures var s := Run(Start(halfCloseA, halfCloseB), es);
          s.returned && !s.failed ==> s.b.outgoing == s.a.sent
      {
        RunKeepsInv(Start(halfCloseA, halfCloseB), es);
      }
    } else {
      LosingRun(halfCloseB);
    }
  }

  lemma LosingRun(halfCloseB: bool)
    ensures !AlwaysWhole(false, halfCloseB)
  {
    var es := [FromA(Send([7])), FromB(End), FromB(ReadEnd), FromA(ReadError), Return];
    var s0 := Start(false, halfCloseB);
    var s1 := Next(s0, es[0]);
    var s2 := Next(s1, es[1]);
    var s3 := Next(s2, es[2]);
    var s4 := Next(s3, es[3]);
    var s5 := Next(s4, es[4]);
    assert es[..4][..3] == es[..3] && es[..3][..2] == es[..2] && es[..2][..1] == es[..1] && es[..1][..0] == [];
    assert Run(s0, es[..1]) == s1;
    assert Run(s0, es[..2]) == s2;
    assert Run(s0, es[..3]) == s3;
    assert Run(s0, es[..4]) == s4;
    assert Run(s0, es) == s5;
    assert s5.returned && !s5.failed && s5.b.outgoing == [] && s5.a.sent == [7];
  }

  /** Once a copier aborts, nothing more is delivered either way, and the other
      copier can only end. */
  lemma ErrorEndsBothCopies(s: State, e: Event)
    requires Inv(s) && (s.fromA.Aborted? || s.fromB.Aborted?)
    ensures !s.a.open && !s.b.open
    ensures Next(s, e).a.outgoing == s.a.outgoing && Next(s, e).b.outgoing == s.b.outgoing
    ensures Next(s, e).fromA == s.fromA || Next(s, e).fromA == Aborted
    ensures Next(s, e).fromB == s.fromB || Next(s, e).fromB == Aborted
  {
  }

  /** And it does end, without any further failure: reading or writing the
      closed connections is no new one. */
  lemma AbortSpreads(s: State)
    requires Inv(s) && (s.fromA.Aborted? || s.fromB.Aborted?)
    ensures !Over(s.fromA) ==> exists f :: Next(s, f).fromA == Aborted && Next(s, f).failed == s.failed
    ensures !Over(s.fromB) ==> exists f :: Next(s, f).fromB == Aborted && Next(s, f).failed == s.failed
  {
    if !Over(s.fromA) {
      var f := AbortingStep(s);
      assert Next(s, FromA(f)).fromA == Aborted;
    }
    if !Over(s.fromB) {
      var f := AbortingStep(Mirror(s));
      assert Next(s, FromB(f)).fromB == Aborted;
    }
  }

  lemma AbortingStep(s: State) returns (f: Step)
    requires Inv(s) && s.fromB.Aborted? && !Over(s.fromA)
    ensures StepA(s, f).fromA == Aborted && StepA(s, f).failed == s.failed
    ensures StepA(s, f).fromB == s.fromB
  {
    f := if s.fromA.Reading? then ReadError else WriteError(0);
  }

  lemma RunOfOne(s: State, e: Event)
    ensures Run(s, [e]) == Next(s, e)
  {
    assert [e][..0] == [];
    assert Run(s, [][..0]) == s;
  }

  lemma RunOfTwo(s: State, e: Event, f: Event)
    ensures Run(s, [e, f]) == Next(Next(s, e), f)
  {
    RunOfOne(s, e);
    assert [e, f][..1] == [e];
  }

  /** From any state in which a copier has aborted, Join can return within two
      more steps, with nothing more delivered and no new failure, whether or
      not the sources have ended. */
  lemma AbortReturns(s: State) returns (es: seq<Event>)
    requires Inv(s) && (s.fromA.Aborted? || s.fromB.Aborted?)
    ensures |es| <= 2 && Run(s, es).returned && Run(s, es).failed == s.failed
    ensures Run(s, es).a.outgoing == s.a.outgoing && Run(s, es).b.outgoing == s.b.outgoing
  {
    if Over(s.fromA) && Over(s.fromB) {
      es := [Return];
      RunOfOne(s, Return);
    } else {
      var e: Event;
      if Over(s.fromA) {
        var f := AbortingStep(Mirror(s));
        e := FromB(f);
      } else {
        var f := AbortingStep(s);
        e := FromA(f);
      }
      es := [e, Return];
      RunOfTwo(s, e, Return);
      ErrorEndsBothCopies(s, e);
    }
  }

  /** Work left: bytes to move, chunks in hand, copiers still running. */
  function Left(s: State): nat {
    3 * (|s.a.incoming| + |s.b.incoming|) + CopierLeft(s.fromA) + CopierLeft(s.fromB)
    + if s.returned then 0 else 1
  }

  function CopierLeft(c: Copier): nat {
    match c
    case Reading => 1
    case Holding(_) => 2
    case _ => 0
  }

  lemma {:induction false} RunConcat(s: State, es: seq<Event>, fs: seq<Event>)
    ensures Run(s, es + fs) == Run(Run(s, es), fs)
    decreases |fs|
  {
    if fs == [] {
      assert es + fs == es;
    } else {
      var n := |fs| - 1;
      assert (es + fs)[..|es| + n] == es + fs[..n];
      RunConcat(s, es, fs[..n]);
    }
  }

  lemma StepAKeepsEnded(s: State, step: Step)
    ensures s.a.ended ==> StepA(s, step).a.ended
    ensures s.b.ended ==> StepA(s, step).b.ended
  {
  }

  lemma NextKeepsEnded(s: State, e: Event)
    ensures s.a.ended ==> Next(s, e).a.ended
    ensures s.b.ended ==> Next(s, e).b.ended
  {
    match e
    case FromA(step) => StepAKeepsEnded(s, step);
    case FromB(step) => StepAKeepsEnded(Mirror(s), step);
    case Return =>
  }

  /** Join never hangs: once both sources have ended, every state before the
      return has a step that leaves less work, without any new failure. */
  lemma JoinAlwaysAdvances(s: State)
    requires Inv(s) && s.a.ended && s.b.ended && !s.returned
    ensures exists e :: Left(Next(s, e)) < Left(s) && Next(s, e).failed == s.failed
  {
    if Over(s.fromA) && Over(s.fromB) {
      assert Left(Next(s, Return)) < Left(s);
    } else if !Over(s.fromA) {
      var step := AdvancingStep(s);
      assert Left(Next(s, FromA(step))) < Left(s);
    } else {
      var step := AdvancingStep(Mirror(s));
      assert Left(Next(s, FromB(step))) < Left(s);
    }
  }

  lemma AdvancingStep(s: State) returns (step: Step)
    requires Inv(s) && s.a.ended && !Over(s.fromA)
    ensures Left(StepA(s, step)) < Left(s) && StepA(s, step).failed == s.failed
  {
    if s.fromA.Holding? {
      step := if s.b.open && s.b.writable then WriteChunk else WriteError(0);
    } else if !s.a.open {
      step := ReadError;
    } else if s.a.incoming == [] {
      step := ReadEnd;
    } else {
      step := ReadChunk(1);
    }
  }

  /** Once both sources have ended Join can return, without any new failure, in
      at most as many steps as there is work left. */
  lemma {:induction false} JoinReturns(s: State) returns (es: seq<Event>)
    requires Inv(s) && s.a.ended && s.b.ended
    ensures |es| <= Left(s) && Run(s, es).returned && Run(s, es).failed == s.failed
    decreases Left(s)
  {
    es := [];
    if !s.returned {
      JoinAlwaysAdvances(s);
      var e :| Left(Next(s, e)) < Left(s) && Next(s, e).failed == s.failed;
      NextKeepsInv(s, e);
      NextKeepsEnded(s, e);
      var rest := JoinReturns(Next(s, e));
      es := [e] + rest;
      RunOfOne(s, e);
      RunConcat(s, [e], rest);
    }
  }

  // --------------------------------------------------------- clean turns

  /** Both copiers are between two chunks, both sources have ended and nothing
      has failed. */
  ghost predicate Turning(s: State) {
    && s.fromA.Reading? && s.fromB.Reading? && s.a.ended && s.b.ended && !s.failed && !s.returned
    && s.a.open && s.b.open && s.a.writable && s.b.writable && s.a.halfClose && s.b.halfClose
  }

  /** The run has left the copiers between two chunks: what each end sent, what
      of it has not been read, and what has been delivered to the other. */
  datatype Halfway = Halfway(
    sentA: seq<Byte>, sentB: seq<Byte>, leftA: seq<Byte>, leftB: seq<Byte>, toA: seq<Byte>, toB: seq<Byte>)

  ghost predicate Reached(es: seq<Event>, h: Halfway) {
    var s := Run(Start(true, true), es);
    && Turning(s) && s.a.sent == h.sentA && s.b.sent == h.sentB
    && s.a.incoming == h.leftA && s.b.incoming == h.leftB && s.a.outgoing == h.toA && s.b.outgoing == h.toB
  }

  /** Everything both ends will send is there from the start. */
  lemma FilledRun(fromA: seq<Byte>, fromB: seq<Byte>) returns (es: seq<Event>)
    ensures Reached(es, Halfway(fromA, fromB, fromA, fromB, [], []))
  {
    var s := Start(true, true);
    var front, back := [FromA(Send(fromA)), FromA(End)], [FromB(Send(fromB)), FromB(End)];
    es := front + back;
    RunConcat(s, front, back);
    RunOfTwo(s, front[0], front[1]);
    RunOfTwo(Run(s, front), back[0], back[1]);
  }

  /** Two steps move one chunk from `a` to `b`. */
  lemma MoveForward(es: seq<Event>, h: Halfway, chunk: seq<Byte>, rest: seq<Byte>) returns (fs: seq<Event>)
    requires Reached(es, h) && h.leftA == chunk + rest && chunk != []
    ensures Reached(fs, h.(leftA := rest, toB := h.toB + chunk))
  {
    var s := Run(Start(true, true), es);
    var e, f := FromA(ReadChunk(|chunk|)), FromA(WriteChunk);
    fs := es + [e, f];
    RunConcat(Start(true, true), es, [e, f]);
    RunOfTwo(s, e, f);
    assert s.a.incoming[..|chunk|] == chunk && s.a.incoming[|chunk|..] == rest;
  }

  lemma MoveBack(es: seq<Event>, h: Halfway, chunk: seq<Byte>, rest: seq<Byte>) returns (fs: seq<Event>)
    requires Reached(es, h) && h.leftB == chunk + rest && chunk != []
    ensures Reached(fs, h.(leftB := rest, toA := h.toA + chunk))
  {
    var s := Run(Start(true, true), es);
    var e, f := FromB(ReadChunk(|chunk|)), FromB(WriteChunk);
    fs := es + [e, f];
    RunConcat(Start(true, true), es, [e, f]);
    RunOfTwo(s, e, f);
    assert s.b.incoming[..|chunk|] == chunk && s.b.incoming[|chunk|..] == rest;
  }

  /** The run is over without an error: what each end sent and what was
      delivered to it. */
  ghost predicate CleanRun(es: seq<Event>, sentA: seq<Byte>, sentB: seq<Byte>, toA: seq<Byte>, toB: seq<Byte>) {
    var s := Run(Start(true, true), es);
    && s.returned && !s.failed
    && s.a.sent == sentA && s.b.sent == sentB && s.a.outgoing == toA && s.b.outgoing == toB
  }

  /** With nothing left to move both copiers end and Join returns. */
  lemma WindUp(es: seq<Event>, h: Halfway) returns (fs: seq<Event>)
    requires Reached(es, h) && h.leftA == [] && h.leftB == []
    ensures CleanRun(fs, h.sentA, h.sentB, h.toA, h.toB)
  {
    var s := Run(Start(true, true), es);
    var ends := [FromA(ReadEnd), FromB(ReadEnd)];
    fs := es + ends + [Return];
    RunConcat(Start(true, true), es, ends);
    RunConcat(Start(true, true), es + ends, [Return]);
    RunOfTwo(s, ends[0], ends[1]);
    RunOfOne(Run(s, ends), Return);
  }

  lemma CleanRunDelivers(es: seq<Event>, sentA: seq<Byte>, sentB: seq<Byte>, toA: seq<Byte>, toB: seq<Byte>)
    requires CleanRun(es, sentA, sentB, toA, toB)
    ensures toB == sentA && toA == sentB
  {
    CleanJoinDeliversBoth(es);
  }
}
