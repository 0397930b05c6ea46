/**
 The two threads of inf18-2.c over a socket pair: thread 0 subtracts 3, thread 1 adds 5,
 until a number is 0 or above 100.  Reads, tests, prints and writes are separate steps.
 */
module PingPong {
  import opened Arithmetic
  import opened Runs

  datatype Stage =
    | Begin              // thread 0 prints start - 3
    | SendFirst(v: int)
    | Reading
    | Got(v: int)        // if (current > 100 || current == 0)
    | Printing(v: int)
    | Sending(v: int)    // write, then the test of the loop
    | Stopping           // write 101
    | Exited

  /** `box[t]` holds the numbers thread t has not read yet. */
  datatype State = State(pc: seq<Stage>, box: seq<seq<int>>, printed: seq<int>)

  function Init(): State {
    State([Begin, Reading], [[], []], [])
  }

  predicate Stop(v: int) {
    v > 100 || v == 0
  }

  function Mode(t: nat): int {
    if t == 0 then -3 else 5
  }

  function To(s: State, t: nat, stage: Stage): State
    requires t < |s.pc|
  {
    s.(pc := s.pc[t := stage])
  }

  /** write: the number goes to the other thread. */
  function Write(s: State, t: nat, v: int): State
    requires t < 2 && |s.box| == 2
  {
    s.(box := s.box[1-t := s.box[1-t] + [v]])
  }

  function Next(start: int, s: State, t: nat): Option<State> {
    if t >= 2 || |s.pc| != 2 || |s.box| != 2 then None
    else
      match s.pc[t]
      case Begin => Some(To(s, t, SendFirst(start + Mode(t))).(printed := s.printed + [start + Mode(t)]))
      case SendFirst(v) => Some(Write(To(s, t, Reading), t, v))
      case Reading =>
        if s.box[t] == [] then None
        else Some(To(s, t, Got(s.box[t][0])).(box := s.box[t := s.box[t][1..]]))
      case Got(v) => Some(To(s, t, if Stop(v) then Stopping else Printing(v + Mode(t))))
      case Printing(v) => Some(To(s, t, Sending(v)).(printed := s.printed + [v]))
      case Sending(v) => Some(Write(To(s, t, if Stop(v) then Exited else Reading), t, v))
      case Stopping => Some(Write(To(s, t, Exited), t, 101))
      case Exited => None
  }

  function Step(start: int): (State, nat) -> Option<State> {
    (s: State, t: nat) => Next(start, s, t)
  }

  /** The k-th number of the session. */
  function Val(start: int, k: nat): int {
    if k == 0 then start - 3 else Val(start, k-1) + Mode(k % 2)
  }

  /** Two numbers further on it is 2 more. */
  lemma {:induction false} ValIs(start: int, k: nat)
    ensures Val(start, k) == start - 3 + k + 4 * (k % 2)
  {
    if k > 0 {
      ValIs(start, k-1);
    }
  }

  // ----- the invariant -----

  /** The numbers printed so far; only the last one can end the session. */
  ghost predicate PrintedInv(start: int, s: State) {
    && (forall i | 0 <= i < |s.printed| :: s.printed[i] == Val(start, i))
    && (forall i | 0 <= i < |s.printed| - 1 :: !Stop(s.printed[i]))
  }

  /** Where the session is: before a number is printed, or how far the last one has come. */
  datatype Phase = Opens | Prints | Sends | Flies | Arrives | Stops | Answers | AnswerArrives | LastStops | Over

  /** x for thread t, y for the other. */
  function Pair<T>(t: nat, x: T, y: T): seq<T> {
    if t == 0 then [x, y] else [y, x]
  }

  /** The thread that printed number k, once it has sent it. */
  function Sent(start: int, k: nat): Stage {
    if k == 0 || !Stop(Val(start, k)) then Reading else Exited
  }

  predicate At(start: int, s: State, phase: Phase) {
    var n := |s.printed|;
    if n == 0 then phase.Opens? && s.pc == [Begin, Reading] && s.box == [[], []]
    else
      var k := n - 1;
      var v, t := Val(start, k), k % 2;
      match phase
      case Prints => !Stop(v) && s.pc == Pair(t, Reading, Printing(v + Mode(1 - t))) && s.box == [[], []]
      case Sends => s.pc == Pair(t, if k == 0 then SendFirst(v) else Sending(v), Reading) && s.box == [[], []]
      case Flies => s.pc == Pair(t, Sent(start, k), Reading) && s.box == Pair(t, [], [v])
      case Arrives => s.pc == Pair(t, Sent(start, k), Got(v)) && s.box == [[], []]
      case Stops => Stop(v) && s.pc == Pair(t, Sent(start, k), Stopping) && s.box == [[], []]
      case Answers => Stop(v) && s.pc == Pair(t, Sent(start, k), Exited) && s.box == Pair(t, [101], [])
      case AnswerArrives => k == 0 && Stop(v) && s.pc == [Got(101), Exited] && s.box == [[], []]
      case LastStops => k == 0 && Stop(v) && s.pc == [Stopping, Exited] && s.box == [[], []]
      case Over => k == 0 && Stop(v) && s.pc == [Exited, Exited] && s.box == [[], [101]]
      case Opens => false
  }

  ghost predicate Inv(start: int, s: State) {
    PrintedInv(start, s) && exists phase :: At(start, s, phase)
  }

  function NextPhase(phase: Phase, stop: bool): Phase {
    match phase
    case Opens => Sends
    case Prints => Sends
    case Sends => Flies
    case Flies => Arrives
    case Arrives => if stop then Stops else Prints
    case Stops => Answers
    case Answers => AnswerArrives
    case AnswerArrives => LastStops
    case LastStops => Over
    case Over => Over
  }

  lemma Printed(start: int, s: State, t: nat, phase: Phase)
    requires At(start, s, phase) && PrintedInv(start, s) && Next(start, s, t).Some?
    requires phase.Opens? || phase.Prints?
    ensures PrintedInv(start, Next(start, s, t).value) && At(start, Next(start, s, t).value, Sends)
  {
    var s' := Next(start, s, t).value;
    assert s'.printed[..|s.printed|] == s.printed;
  }

  lemma BoxesAre(s: State, t: nat, x: seq<int>, y: seq<int>)
    requires t < 2 && |s.box| == 2 && s.box[t] == x && s.box[1-t] == y
    ensures s.box == Pair(t, x, y)
  {
  }

  /** A number is written. */
  lemma Wrote(start: int, s: State, t: nat, phase: Phase)
    requires At(start, s, phase) && Next(start, s, t).Some? && (phase.Sends? || phase.Stops? || phase.LastStops?)
    ensures Next(start, s, t).value.printed == s.printed
    ensures At(start, Next(start, s, t).value, NextPhase(phase, Stop(Val(start, |s.printed|-1))))
  {
    var s' := Next(start, s, t).value;
    var v := if phase.Sends? then Val(start, |s.printed|-1) else 101;
    assert s'.box[1-t] == [] + [v] == [v];
    BoxesAre(s', t, [], [v]);
  }

  /** A number is read. */
  lemma Received(start: int, s: State, t: nat, phase: Phase)
    requires At(start, s, phase) && Next(start, s, t).Some? && (phase.Flies? || phase.Answers?)
    ensures Next(start, s, t).value.printed == s.printed
    ensures At(start, Next(start, s, t).value, NextPhase(phase, Stop(Val(start, |s.printed|-1))))
  {
    BoxesAre(Next(start, s, t).value, t, [], []);
  }

  /** A number is tested, or nothing can happen. */
  lemma Tested(start: int, s: State, t: nat, phase: Phase)
    requires At(start, s, phase) && Next(start, s, t).Some?
    requires phase.Arrives? || phase.AnswerArrives? || phase.Over?
    ensures Next(start, s, t).value.printed == s.printed
    ensures At(start, Next(start, s, t).value, NextPhase(phase, Stop(Val(start, |s.printed|-1))))
  {
  }

  lemma Moved(start: int, s: State, t: nat, phase: Phase)
    requires At(start, s, phase) && Next(start, s, t).Some? && !phase.Opens? && !phase.Prints?
    ensures Next(start, s, t).value.printed == s.printed
    ensures At(start, Next(start, s, t).value, NextPhase(phase, Stop(Val(start, |s.printed|-1))))
  {
    match phase
    case Sends => Wrote(start, s, t, phase);
    case Stops => Wrote(start, s, t, phase);
    case LastStops => Wrote(start, s, t, phase);
    case Flies => Received(start, s, t, phase);
    case Answers => Received(start, s, t, phase);
    case _ => Tested(start, s, t, phase);
  }

  lemma StepKeepsInv(start: int, s: State, t: nat)
    requires Inv(start, s) && Next(start, s, t).Some?
    ensures Inv(start, Next(start, s, t).value)
  {
    var phase :| At(start, s, phase);
    if phase.Opens? || phase.Prints? {
      Printed(start, s, t, phase);
    } else {
      Moved(start, s, t, phase);
    }
  }

  lemma InitInv(start: int)
    ensures Inv(start, Init())
  {
    assert At(start, Init(), Opens);
  }

  lemma ReachableInv(start: int, s: State)
    requires Reachable(Init(), Step(start), s)
    ensures Inv(start, s)
  {
    InitInv(start);
    forall x, t | Inv(start, x) && Step(start)(x, t).Some? ensures Inv(start, Step(start)(x, t).value) {
      StepKeepsInv(start, x, t);
    }
    Always(Init(), Step(start), x => Inv(start, x), s);
  }

  // ----- main results -----

  predicate Done(s: State) {
    s.pc == [Exited, Exited]
  }

  /** Until a thread exits at most one number is unread. */
  lemma OneInFlight(start: int, s: State)
    requires Reachable(Init(), Step(start), s)
    ensures |s.box| == 2 && (Exited !in s.pc ==> |s.box[0]| + |s.box[1]| <= 1)
  {
    ReachableInv(start, s);
  }

  lemma Progress(start: int, s: State) returns (t: nat)
    requires Inv(start, s) && !Done(s)
    ensures Next(start, s, t).Some?
  {
    var phase :| At(start, s, phase);
    t := if Next(start, s, 0).Some? then 0 else 1;
  }

  /** The session prints start - 3, then alternately 5 more and 3 less, up to the first 0 or number above 100. */
  ghost predicate Session(start: int, printed: seq<int>) {
    && printed != [] && printed[0] == start - 3
    && (forall i | 1 <= i < |printed| :: printed[i] == printed[i-1] + if i % 2 == 1 then 5 else -3)
    && (forall i | 0 <= i < |printed| - 1 :: printed[i] <= 100 && printed[i] != 0)
    && (printed[|printed|-1] > 100 || printed[|printed|-1] == 0)
  }

  lemma DonePrinted(start: int, s: State)
    requires Inv(start, s) && Done(s)
    ensures Session(start, s.printed)
  {
    forall i | 1 <= i < |s.printed| ensures s.printed[i] == s.printed[i-1] + Mode(i % 2) {
      assert s.printed[i] == Val(start, i) && s.printed[i-1] == Val(start, i-1);
    }
  }

  /** A run that cannot be continued has ended both threads and printed the session. */
  lemma BothExit(start: int, sched: seq<nat>)
    ensures var r := Exec(Init(), Step(start), sched);
      r.Some? && Stuck(Step(start), r.value) ==> Done(r.value) && Session(start, r.value.printed)
  {
    var r := Exec(Init(), Step(start), sched);
    if r.Some? {
      assert Reachable(Init(), Step(start), r.value);
      ReachableInv(start, r.value);
      if Done(r.value) {
        DonePrinted(start, r.value);
      } else {
        var t := Progress(start, r.value);
        assert Step(start)(r.value, t) == Next(start, r.value, t);
      }
    }
  }

  /** Steps until the next number is printed or the session is over. */
  function Left(phase: Phase): nat {
    match phase
    case Opens => 8
    case Prints => 1
    case Sends => 7
    case Flies => 6
    case Arrives => 5
    case Stops => 4
    case Answers => 3
    case AnswerArrives => 2
    case LastStops => 1
    case Over => 0
  }

  ghost function Measure(start: int): State -> nat {
    (s: State) =>
      7 * AtLeastZero(105 - start - |s.printed|) +
      if exists phase :: At(start, s, phase) then (var phase :| At(start, s, phase); Left(phase)) else 0
  }

  lemma OnePhase(start: int, s: State, phase: Phase)
    requires At(start, s, phase)
    ensures Measure(start)(s) == 7 * AtLeastZero(105 - start - |s.printed|) + Left(phase)
  {
    var other :| At(start, s, other);
    SamePhase(start, s, phase, other);
  }

  lemma SamePhase(start: int, s: State, phase: Phase, other: Phase)
    requires At(start, s, phase) && At(start, s, other)
    ensures phase == other
  {
    if phase != Opens {
      ValIs(start, |s.printed| - 1);
    }
  }

  lemma PrintedDescends(start: int, s: State, t: nat, phase: Phase)
    requires At(start, s, phase) && PrintedInv(start, s) && Next(start, s, t).Some?
    requires phase.Opens? || phase.Prints?
    ensures Measure(start)(Next(start, s, t).value) < Measure(start)(s)
  {
    OnePhase(start, s, phase);
    if phase.Prints? {
      ValIs(start, |s.printed| - 1);
    }
    Printed(start, s, t, phase);
    OnePhase(start, Next(start, s, t).value, Sends);
  }

  lemma MovedDescends(start: int, s: State, t: nat, phase: Phase)
    requires At(start, s, phase) && Next(start, s, t).Some? && !phase.Opens? && !phase.Prints?
    ensures Measure(start)(Next(start, s, t).value) < Measure(start)(s)
  {
    OnePhase(start, s, phase);
    Moved(start, s, t, phase);
    OnePhase(start, Next(start, s, t).value, NextPhase(phase, Stop(Val(start, |s.printed|-1))));
  }

  lemma StepDescends(start: int, s: State, t: nat)
    requires Inv(start, s) && Next(start, s, t).Some?
    ensures Measure(start)(Next(start, s, t).value) < Measure(start)(s)
  {
    var phase :| At(start, s, phase);
    if phase.Opens? || phase.Prints? {
      PrintedDescends(start, s, t, phase);
    } else {
      MovedDescends(start, s, t, phase);
    }
  }

  lemma StepsKeepInv(start: int)
    ensures Preserved(Step(start), (x: State) => Inv(start, x))
    ensures Descends(Step(start), (x: State) => Inv(start, x), Measure(start))
  {
    forall x, t | Inv(start, x) && Step(start)(x, t).Some?
      ensures Inv(start, Step(start)(x, t).value)
      ensures Measure(start)(Step(start)(x, t).value) < Measure(start)(x)
    {
      StepKeepsInv(start, x, t);
      StepDescends(start, x, t);
    }
  }

  /** The net gain of 2 in two numbers bounds every run. */
  lemma RunsAreFinite(start: int, sched: seq<nat>)
    ensures Exec(Init(), Step(start), sched).Some? ==> |sched| <= 7 * AtLeastZero(105 - start) + 8
  {
    InitInv(start);
    StepsKeepInv(start);
    RunsAreShort(Init(), Step(start), x => Inv(start, x), Measure(start), sched);
    OnePhase(start, Init(), Opens);
  }

  /** No addition leaves the range of int exactly when the first one does not. */
  lemma FitsExactly(start: int)
    requires -0x8000_0000 <= start <= 0x7FFF_FFFF
    ensures start >= -0x7FFF_FFFD
       <==> forall s, v | Reachable(Init(), Step(start), s) && v in s.printed :: -0x8000_0000 <= v <= 0x7FFF_FFFF
  {
    if start >= -0x7FFF_FFFD {
      forall s, v | Reachable(Init(), Step(start), s) && v in s.printed ensures -0x8000_0000 <= v <= 0x7FFF_FFFF {
        ReachableInv(start, s);
        var i :| 0 <= i < |s.printed| && s.printed[i] == v;
        ValIs(start, i);
        if i > 0 {
          ValIs(start, i-1);
          assert !Stop(s.printed[i-1]);
        }
      }
    } else {
      Initially(Init(), Step(start));
      OneMore(Init(), Step(start), Init(), 0);
      var s := Step(start)(Init(), 0).value;
      assert s.printed[0] == start - 3;
      assert start - 3 in s.printed && start - 3 < -0x8000_0000;
    }
  }

  // ----- the threads, updated in place -----

  class Threads {
    const start: int
    var pc: seq<Stage>
    var box: seq<seq<int>>
    var printed: seq<int>

    function Snapshot(): State
      reads this
    {
      State(pc, box, printed)
    }

    constructor (start: int)
      ensures this.start == start && Snapshot() == Init()
    {
      this.start := start;
      pc, box, printed := [Begin, Reading], [[], []], [];
    }

    /** write (fd, &v, sizeof (int)) by thread t */
    method Send(t: nat, v: int)
      requires t < 2 && |box| == 2
      modifies this`box
      ensures box == old(box)[1-t := old(box)[1-t] + [v]]
    {
      box := box[1-t := box[1-t] + [v]];
    }

    /** One step of read_and_write in thread t. */
    method Advance(t: nat)
      requires Next(start, Snapshot(), t).Some?
      modifies this
      ensures Some(Snapshot()) == Next(start, old(Snapshot()), t)
    {
      var current;
      match pc[t] {
        case Begin =>
          current := start + Mode(t);
          printed := printed + [current];
          pc := pc[t := SendFirst(current)];
        case SendFirst(v) =>
          Send(t, v);
          pc := pc[t := Reading];
        case Reading =>
          current := box[t][0];
          box := box[t := box[t][1..]];
          pc := pc[t := Got(current)];
        case Got(v) =>
          if v > 100 || v == 0 {
            pc := pc[t := Stopping];
          } else {
            current := v + Mode(t);
            pc := pc[t := Printing(current)];
          }
        case Printing(v) =>
          printed := printed + [v];
          pc := pc[t := Sending(v)];
        case Sending(v) =>
          Send(t, v);
          pc := pc[t := if v <= 100 && v != 0 then Reading else Exited];
        case Stopping =>
          Send(t, 101);
          pc := pc[t := Exited];
      }
    }

    /** Both threads in any order, until both are joined. */
    method RunAll()
      requires Snapshot() == Init()
      modifies this
      ensures Done(Snapshot()) && Session(start, printed)
    {
      InitInv(start);
      while pc != [Exited, Exited]
        invariant Inv(start, Snapshot())
        decreases Measure(start)(Snapshot())
      {
        ghost var some := Progress(start, Snapshot());
        var t: nat := *;
        if Next(start, Snapshot(), t).None? {
          t := if Next(start, Snapshot(), 0).Some? then 0 else 1;
        }
        StepKeepsInv(start, Snapshot(), t);
        StepDescends(start, Snapshot(), t);
        Advance(t);
      }
      DonePrinted(start, Snapshot());
    }
  }
}
