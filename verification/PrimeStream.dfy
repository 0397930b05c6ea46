/**
 The producer and the consumer of inf19-1.c.  The producer publishes primes into a buffer
 in which 0 means "not yet" and -1 means "no more"; the consumer waits on a condition
 variable for its next slot.  Every shared access, lock, unlock, wait and signal is a
 step of its own.  The -1 is written without the mutex.
 */
module PrimeStream {
  import opened Runs
  import opened Primes
  import opened Arithmetic

  /** Publish the primes of [low, high], at most `size` of them. */
  datatype Config = Config(low: nat, high: int, size: nat)

  datatype ProducerPc =
    | Test        // loop head, is_prime and the test of the counter
    | Acquire     // lock
    | Publish     // write the slot, count it
    | Release     // unlock
    | Signal      // wake the consumer, next candidate
    | End         // write -1 without the mutex
    | EndAcquire
    | EndRelease
    | EndSignal
    | Exited

  datatype ConsumerPc =
    | Check       // while (counter < N)
    | Enter       // lock
    | Look        // is the slot 0?
    | Wait        // about to release the mutex and sleep, in one step
    | Asleep
    | Wake        // signalled, must take the mutex again
    | LookEnd     // is the slot -1?
    | Break       // unlock and leave the loop
    | Bump        // ++counter
    | Leave       // unlock
    | Print       // read the slot after the unlock
    | Join        // wait for the producer to exit
    | Finished

  datatype Owner = Free | Producer | Consumer

  datatype State = State(
    i: int, pcount: nat, ppc: ProducerPc,
    ccount: nat, cpc: ConsumerPc,
    mutex: Owner, buf: seq<int>, printed: seq<int>)

  /** `Spuriously` is a wakeup without a signal. */
  datatype Move = Produce | Consume | Spuriously

  function Init(c: Config): State {
    State(c.low, 0, Test, 0, Check, Free, seq(c.size + 1, _ => 0), [])
  }

  predicate Candidate(i: int) {
    i >= 0 && Accepted(i)
  }

  /** A signal wakes the consumer if it sleeps and is lost otherwise. */
  function Signalled(cpc: ConsumerPc): ConsumerPc {
    if cpc == Asleep then Wake else cpc
  }

  function ProducerStep(c: Config, s: State): Option<State> {
    match s.ppc
    case Test =>
      Some(
        if s.i > c.high then s.(ppc := End)
        else if !Candidate(s.i) then s.(i := s.i + 1)
        else if s.pcount >= c.size then s.(ppc := End)
        else s.(ppc := Acquire))
    case Acquire => if s.mutex == Free then Some(s.(mutex := Producer, ppc := Publish)) else None
    case Publish =>
      if s.pcount < |s.buf| then Some(s.(buf := s.buf[s.pcount := s.i], pcount := s.pcount + 1, ppc := Release))
      else None
    case Release => Some(s.(mutex := Free, ppc := Signal))
    case Signal => Some(s.(cpc := Signalled(s.cpc), i := s.i + 1, ppc := Test))
    case End => if s.pcount < |s.buf| then Some(s.(buf := s.buf[s.pcount := -1], ppc := EndAcquire)) else None
    case EndAcquire => if s.mutex == Free then Some(s.(mutex := Producer, ppc := EndRelease)) else None
    case EndRelease => Some(s.(mutex := Free, ppc := EndSignal))
    case EndSignal => Some(s.(cpc := Signalled(s.cpc), ppc := Exited))
    case Exited => None
  }

  function ConsumerStep(c: Config, s: State): Option<State> {
    match s.cpc
    case Check => Some(s.(cpc := if s.ccount < c.size then Enter else Join))
    case Enter => if s.mutex == Free then Some(s.(mutex := Consumer, cpc := Look)) else None
    case Look => if s.ccount < |s.buf| then Some(s.(cpc := if s.buf[s.ccount] == 0 then Wait else LookEnd)) else None
    case Wait => Some(s.(mutex := Free, cpc := Asleep))
    case Asleep => None
    case Wake => if s.mutex == Free then Some(s.(mutex := Consumer, cpc := Look)) else None
    case LookEnd => if s.ccount < |s.buf| then Some(s.(cpc := if s.buf[s.ccount] == -1 then Break else Bump)) else None
    case Break => Some(s.(mutex := Free, cpc := Join))
    case Bump => Some(s.(ccount := s.ccount + 1, cpc := Leave))
    case Leave => Some(s.(mutex := Free, cpc := Print))
    case Print =>
      if 0 < s.ccount <= |s.buf| then Some(s.(printed := s.printed + [s.buf[s.ccount-1]], cpc := Check)) else None
    case Join => if s.ppc.Exited? then Some(s.(cpc := Finished)) else None
    case Finished => None
  }

  function Next(c: Config, s: State, m: Move): Option<State> {
    match m
    case Produce => ProducerStep(c, s)
    case Consume => ConsumerStep(c, s)
    case Spuriously => if s.cpc.Asleep? then Some(s.(cpc := Wake)) else None
  }

  function Step(c: Config): (State, Move) -> Option<State> {
    (s: State, m: Move) => Next(c, s, m)
  }

  /** The moves of the two threads, without the spurious wakeups of the system. */
  function ThreadStep(c: Config): (State, Move) -> Option<State> {
    (s: State, m: Move) => if m.Spuriously? then None else Next(c, s, m)
  }

  /**
   The inputs on which the program does its work.  On the others the producer takes 0 for
   a prime and publishes it, which the consumer reads as "not yet".
   */
  predicate Sound(c: Config) {
    c.low >= 1 || c.high < 0 || c.size == 0
  }

  // ----- the invariant -----

  /** The first candidate that has not been published. */
  function Upto(s: State): int {
    if s.ppc.Release? || s.ppc.Signal? then s.i + 1 else s.i
  }

  predicate Ended(s: State) {
    (s.ppc.EndAcquire? || s.ppc.EndRelease? || s.ppc.EndSignal? || s.ppc.Exited?)
  }

  ghost predicate ProducerInv(c: Config, s: State) {
    && c.low <= s.i && (s.i <= c.high + 1 || s.i == c.low)
    && s.pcount <= c.size
    && (s.mutex == Producer <==> s.ppc.Publish? || s.ppc.Release? || s.ppc.EndRelease?)
    && (s.ppc.Acquire? || s.ppc.Publish? ==> s.i <= c.high && s.pcount < c.size && Candidate(s.i))
    && (s.ppc.Release? || s.ppc.Signal? ==> s.i <= c.high)
    && (s.ppc.End? || Ended(s) ==> s.i > c.high || s.pcount == c.size)
  }

  /** The slots: numbers above 0, then possibly the end mark, then zeros. */
  ghost predicate SlotsInv(c: Config, s: State) {
    && |s.buf| == c.size + 1 && s.pcount <= c.size
    && (forall k | 0 <= k < s.pcount :: s.buf[k] > 0)
    && s.buf[s.pcount] == (if Ended(s) then -1 else 0)
    && forall k | s.pcount < k <= c.size :: s.buf[k] == 0
  }

  /** Exactly the primes met so far have been published. */
  ghost predicate Published(c: Config, s: State) {
    && |PrimesIn(c.low, Upto(s))| == s.pcount <= |s.buf|
    && forall k | 0 <= k < s.pcount :: s.buf[k] == PrimesIn(c.low, Upto(s))[k]
  }

  ghost predicate ConsumerInv(c: Config, s: State)
    requires |s.buf| == c.size + 1 && s.pcount <= c.size
  {
    && s.ccount <= s.pcount
    && (s.mutex == Consumer
      <==> (s.cpc.Look? || s.cpc.Wait? || s.cpc.LookEnd? || s.cpc.Break? || s.cpc.Bump? || s.cpc.Leave?))
    && ((s.cpc.Enter? || s.cpc.Look? || s.cpc.Wait? || s.cpc.Asleep? || s.cpc.Wake?
        || s.cpc.LookEnd? || s.cpc.Break? || s.cpc.Bump?) ==> s.ccount < c.size)
    && ((s.cpc.LookEnd? || s.cpc.Break? || s.cpc.Bump?) ==> s.buf[s.ccount] != 0)
    && (s.cpc.Bump? ==> s.buf[s.ccount] != -1)
    && (s.cpc.Break? ==> s.buf[s.ccount] == -1)
    && ((s.cpc.Join? || s.cpc.Finished?) ==> s.ccount == c.size || s.buf[s.ccount] == -1)
    && (s.cpc.Finished? ==> s.ppc.Exited?)
    && |s.printed| + (if (s.cpc.Leave? || s.cpc.Print?) then 1 else 0) == s.ccount
    && (forall k | 0 <= k < |s.printed| :: s.printed[k] == s.buf[k])
    // no lost wakeup
    && (s.cpc.Wait? && s.buf[s.ccount] != 0 ==> s.ppc.EndAcquire?)
    && (s.cpc.Asleep? && s.buf[s.ccount] != 0 ==> SignalDue(s))
  }

  /** The producer has not yet passed a signal that follows its latest write. */
  predicate SignalDue(s: State) {
    (s.ppc.Release? || s.ppc.Signal? || s.ppc.EndAcquire? || s.ppc.EndRelease? || s.ppc.EndSignal?)
  }

  ghost predicate Inv(c: Config, s: State) {
    ProducerInv(c, s) && SlotsInv(c, s) && ConsumerInv(c, s) && Published(c, s)
  }

  lemma InitInv(c: Config)
    requires Sound(c)
    ensures Inv(c, Init(c))
  {
  }

  lemma ProducerKeepsOwn(c: Config, s: State)
    requires Sound(c) && ProducerInv(c, s) && ProducerStep(c, s).Some?
    ensures ProducerInv(c, ProducerStep(c, s).value)
  {
  }

  lemma ProducerKeepsSlots(c: Config, s: State)
    requires Sound(c) && ProducerInv(c, s) && SlotsInv(c, s) && ProducerStep(c, s).Some?
    ensures SlotsInv(c, ProducerStep(c, s).value)
  {
  }

  lemma ProducerKeepsPublished(c: Config, s: State)
    requires Sound(c) && ProducerInv(c, s) && Published(c, s) && ProducerStep(c, s).Some?
    ensures Published(c, ProducerStep(c, s).value)
  {
    if s.ppc.Publish? {
      assert PrimesIn(c.low, s.i + 1) == PrimesIn(c.low, s.i) + [s.i];
    }
  }

  /** A slot is written, which the consumer may have found empty. */
  lemma ProducerWrites(c: Config, s: State)
    requires ProducerInv(c, s) && SlotsInv(c, s) && ConsumerInv(c, s) && ProducerStep(c, s).Some?
    requires s.ppc.Publish? || s.ppc.End?
    ensures SlotsInv(c, ProducerStep(c, s).value) ==> ConsumerInv(c, ProducerStep(c, s).value)
  {
  }

  lemma ProducerMoves(c: Config, s: State)
    requires ProducerInv(c, s) && SlotsInv(c, s) && ConsumerInv(c, s) && ProducerStep(c, s).Some?
    requires !s.ppc.Publish? && !s.ppc.End?
    ensures SlotsInv(c, ProducerStep(c, s).value) ==> ConsumerInv(c, ProducerStep(c, s).value)
  {
  }

  lemma ProducerKeepsOther(c: Config, s: State)
    requires ProducerInv(c, s) && SlotsInv(c, s) && ConsumerInv(c, s) && ProducerStep(c, s).Some?
    ensures SlotsInv(c, ProducerStep(c, s).value) ==> ConsumerInv(c, ProducerStep(c, s).value)
  {
    if s.ppc.Publish? || s.ppc.End? {
      ProducerWrites(c, s);
    } else {
      ProducerMoves(c, s);
    }
  }

  lemma ConsumerKeepsOwn(c: Config, s: State)
    requires ProducerInv(c, s) && SlotsInv(c, s) && ConsumerInv(c, s) && ConsumerStep(c, s).Some?
    ensures ConsumerInv(c, ConsumerStep(c, s).value)
  {
  }

  /** The consumer writes nothing that the producer's part of the invariant reads, except the mutex. */
  lemma ConsumerLeaves(c: Config, s: State)
    requires ConsumerStep(c, s).Some?
    ensures var s' := ConsumerStep(c, s).value;
      s'.i == s.i && s'.pcount == s.pcount && s'.ppc == s.ppc && s'.buf == s.buf
  {
  }

  lemma ConsumerKeepsOther(c: Config, s: State)
    requires ProducerInv(c, s) && SlotsInv(c, s) && ConsumerInv(c, s) && ConsumerStep(c, s).Some?
    ensures ProducerInv(c, ConsumerStep(c, s).value)
  {
  }

  lemma StepKeepsInv(c: Config, s: State, m: Move)
    requires Sound(c) && Inv(c, s) && Step(c)(s, m).Some?
    ensures Inv(c, Step(c)(s, m).value)
  {
    match m
    case Produce =>
      ProducerKeepsOwn(c, s);
      ProducerKeepsSlots(c, s);
      ProducerKeepsPublished(c, s);
      ProducerKeepsOther(c, s);
    case Consume =>
      ConsumerKeepsOwn(c, s);
      ConsumerKeepsOther(c, s);
      ConsumerLeaves(c, s);
    case Spuriously =>
  }

  lemma ReachableInv(c: Config, s: State)
    requires Sound(c) && Reachable(Init(c), Step(c), s)
    ensures Inv(c, s)
  {
    InitInv(c);
    forall x, m | Inv(c, x) && Step(c)(x, m).Some? ensures Inv(c, Step(c)(x, m).value) {
      StepKeepsInv(c, x, m);
    }
    Always(Init(c), Step(c), x => Inv(c, x), s);
  }

  // ----- main results -----

  /** A consumer that sleeps although its slot is filled will still be signalled. */
  lemma NoLostWakeup(c: Config, s: State)
    requires Sound(c) && Reachable(Init(c), Step(c), s)
    ensures s.ccount < |s.buf|
    ensures s.cpc.Asleep? && s.buf[s.ccount] != 0 ==> SignalDue(s)
    ensures s.cpc.Asleep? ==> !s.ppc.Exited?
  {
    ReachableInv(c, s);
  }

  predicate Done(s: State) {
    s.ppc.Exited? && s.cpc.Finished?
  }

  /** Without any spurious wakeup, one of the threads can move until both are done. */
  lemma Progress(c: Config, s: State)
    requires Sound(c) && Reachable(Init(c), Step(c), s) && !Done(s)
    ensures !Stuck(ThreadStep(c), s)
  {
    ReachableInv(c, s);
    assert ProducerStep(c, s).Some? || ConsumerStep(c, s).Some?;
    assert ThreadStep(c)(s, if ProducerStep(c, s).Some? then Produce else Consume).Some?;
  }

  /** What the consumer is asked for: the first `size` primes of [low, high]. */
  function Wanted(c: Config): seq<int> {
    var all := PrimesIn(c.low, c.high + 1);
    if |all| <= c.size then all else all[..c.size]
  }

  ghost predicate Ascending(w: seq<int>) {
    forall a, b | 0 <= a < b < |w| :: w[a] < w[b]
  }

  /** What a prefix of an ascending list lacks is above all of it. */
  lemma PrefixLacks(all: seq<int>, w: seq<int>, x: int)
    requires Ascending(all) && w <= all && x in all && x !in w
    ensures |w| < |all| && forall y | y in w :: y < x
  {
    var j :| 0 <= j < |all| && all[j] == x;
    assert forall i | 0 <= i < |w| :: all[i] == w[i] && all[i] in w;
  }

  lemma PrefixHas(all: seq<int>, w: seq<int>)
    requires Ascending(all) && w <= all
    ensures Ascending(w) && forall x | x in w :: x in all
  {
    assert forall i | 0 <= i < |w| :: w[i] == all[i];
  }

  /** They are primes of the range, in order; one is missing only when there are `size` smaller ones. */
  lemma WantedAre(c: Config)
    ensures var w := Wanted(c);
      && |w| <= c.size && Ascending(w)
      && (forall x | x in w :: c.low <= x <= c.high && Prime(x))
      && forall x | c.low <= x <= c.high && Prime(x) && x !in w :: |w| == c.size && forall y | y in w :: y < x
  {
    var all, w := PrimesIn(c.low, c.high + 1), Wanted(c);
    PrimesInAre(c.low, c.high + 1);
    PrefixHas(all, w);
    forall x | x in all && x !in w ensures |w| == c.size && forall y | y in w :: y < x {
      PrefixLacks(all, w, x);
    }
  }

  lemma PublishedIsWanted(c: Config, s: State)
    requires ProducerInv(c, s) && SlotsInv(c, s) && Published(c, s)
    ensures s.buf[..s.pcount] <= Wanted(c)
    ensures Ended(s) ==> s.buf[..s.pcount] == Wanted(c)
  {
    var met := PrimesIn(c.low, Upto(s));
    assert s.buf[..s.pcount] == met;
    if Upto(s) <= c.high + 1 {
      PrimesInGrow(c.low, Upto(s), c.high + 1);
    } else {
      assert met == [] && PrimesIn(c.low, c.high + 1) == [];
    }
  }

  /** At every moment the output is a prefix of the wanted primes; at the end it is all of them. */
  lemma OutputIsPrimes(c: Config, s: State)
    requires Sound(c) && Reachable(Init(c), Step(c), s)
    ensures s.printed <= Wanted(c)
    ensures s.cpc.Finished? ==> s.printed == Wanted(c)
  {
    ReachableInv(c, s);
    PublishedIsWanted(c, s);
    assert s.printed <= s.buf[..s.pcount];
  }

  /** A slot that has been written is never written again, and every access is within the buffer. */
  lemma SlotsAreStable(c: Config, s: State, m: Move, k: nat)
    requires Sound(c) && Reachable(Init(c), Step(c), s) && Step(c)(s, m).Some?
    requires k <= c.size
    ensures s.ccount <= s.pcount < |s.buf| == |Step(c)(s, m).value.buf| == c.size + 1
    ensures s.buf[k] != 0 ==> Step(c)(s, m).value.buf[k] == s.buf[k]
  {
    ReachableInv(c, s);
  }

  // ----- every run without spurious wakeups ends -----

  /** Producer steps that are still possible. */
  function ProducerLeft(c: Config, s: State): nat {
    5 * AtLeastZero(c.high + 1 - s.i) +
    match s.ppc
    case Test => 6
    case Acquire => 5
    case Publish => 4
    case Release => 3
    case Signal => 2
    case End => 4
    case EndAcquire => 3
    case EndRelease => 2
    case EndSignal => 1
    case Exited => 0
  }

  /** Consumer steps that are still possible without a signal. */
  function ConsumerLeft(c: Config, s: State): nat {
    10 * AtLeastZero(c.size - s.ccount) +
    match s.cpc
    case Check => 10
    case Enter => 9
    case Wake => 9
    case Look => 8
    case Wait => 7
    case Asleep => 6
    case LookEnd => 7
    case Break => 6
    case Bump => 6
    case Leave => 15
    case Print => 14
    case Join => 1
    case Finished => 0
  }

  function Measure(c: Config): State -> nat {
    (s: State) => ProducerLeft(c, s) * (10 * c.size + 20) + ConsumerLeft(c, s)
  }

  lemma ProducerDescends(c: Config, s: State)
    requires ProducerInv(c, s) && ProducerStep(c, s).Some?
    ensures ProducerLeft(c, ProducerStep(c, s).value) + 1 <= ProducerLeft(c, s)
  {
  }

  lemma ConsumerDescends(c: Config, s: State)
    requires ProducerInv(c, s) && SlotsInv(c, s) && ConsumerInv(c, s) && ConsumerStep(c, s).Some?
    ensures ConsumerLeft(c, ConsumerStep(c, s).value) < ConsumerLeft(c, s)
    ensures ProducerLeft(c, ConsumerStep(c, s).value) == ProducerLeft(c, s)
  {
  }

  /** One step less of the producer outweighs all steps of the consumer. */
  lemma Weigh(p': nat, p: nat, c': nat, c: nat, scale: nat)
    requires p' < p && c' < scale
    ensures p' * scale + c' < p * scale + c
  {
    MulMonotone(p' + 1, p, scale, scale);
  }

  lemma StepDescends(c: Config, s: State, m: Move)
    requires Inv(c, s) && !m.Spuriously? && Next(c, s, m).Some?
    ensures Measure(c)(Next(c, s, m).value) < Measure(c)(s)
  {
    if m.Produce? {
      ProducerDescends(c, s);
      var s' := ProducerStep(c, s).value;
      Weigh(ProducerLeft(c, s'), ProducerLeft(c, s), ConsumerLeft(c, s'), ConsumerLeft(c, s), 10 * c.size + 20);
    } else {
      ConsumerDescends(c, s);
    }
  }

  lemma ThreadsKeepInv(c: Config)
    requires Sound(c)
    ensures Preserved(ThreadStep(c), (x: State) => Inv(c, x))
    ensures Descends(ThreadStep(c), (x: State) => Inv(c, x), Measure(c))
  {
    forall x, m | Inv(c, x) && ThreadStep(c)(x, m).Some?
      ensures Inv(c, ThreadStep(c)(x, m).value)
      ensures Measure(c)(ThreadStep(c)(x, m).value) < Measure(c)(x)
    {
      StepKeepsInv(c, x, m);
      StepDescends(c, x, m);
    }
  }

  /** Every schedule of the two threads is finite ... */
  lemma ThreadRunsAreShort(c: Config, sched: seq<Move>)
    requires Sound(c)
    ensures Exec(Init(c), ThreadStep(c), sched).Some? ==> |sched| <= Measure(c)(Init(c))
  {
    InitInv(c);
    ThreadsKeepInv(c);
    RunsAreShort(Init(c), ThreadStep(c), x => Inv(c, x), Measure(c), sched);
  }

  /** ... and one that cannot be continued has printed exactly the wanted primes. */
  lemma ThreadsFinish(c: Config, sched: seq<Move>)
    requires Sound(c)
    ensures var r := Exec(Init(c), ThreadStep(c), sched);
      r.Some? && Stuck(ThreadStep(c), r.value) ==> Done(r.value) && r.value.printed == Wanted(c)
  {
    var r := Exec(Init(c), ThreadStep(c), sched);
    if r.Some? {
      Simulated(Init(c), ThreadStep(c), Step(c), sched);
      OutputIsPrimes(c, r.value);
      if !Done(r.value) {
        Progress(c, r.value);
      }
    }
  }

  // ----- when the program finishes at all -----

  /** The consumer waits for slot 0, which stays 0. */
  ghost predicate Starved(c: Config, s: State) {
    && |s.buf| == c.size + 1 && s.buf[0] == 0 && s.i >= 0
    && s.ccount == 0
    && (s.cpc.Check? || s.cpc.Enter? || s.cpc.Look? || s.cpc.Wait? || s.cpc.Asleep? || s.cpc.Wake?)
    && (s.pcount == 0 ==> s.i == 0 && (s.ppc.Test? || s.ppc.Acquire? || s.ppc.Publish?))
  }

  lemma StarvedForever(c: Config, s: State)
    requires !Sound(c) && Reachable(Init(c), Step(c), s)
    ensures Starved(c, s)
  {
    forall x, m | Starved(c, x) && Step(c)(x, m).Some? ensures Starved(c, Step(c)(x, m).value) {
      assert Accepted(0);
    }
    Always(Init(c), Step(c), x => Starved(c, x), s);
  }

  ghost predicate CanFinish(c: Config) {
    exists s :: Reachable(Init(c), Step(c), s) && s.cpc.Finished?
  }

  /** The consumer can come to its end exactly on the sound inputs. */
  lemma FinishesExactly(c: Config)
    ensures CanFinish(c) <==> c.low >= 1 || c.high < 0 || c.size == 0
  {
    if Sound(c) {
      InitInv(c);
      ThreadsKeepInv(c);
      Initially(Init(c), ThreadStep(c));
      var last, sched := RunsOut(Init(c), ThreadStep(c), x => Inv(c, x), Measure(c), Init(c));
      ThreadsFinish(c, sched);
      Simulated(Init(c), ThreadStep(c), Step(c), sched);
    } else if CanFinish(c) {
      var s :| Reachable(Init(c), Step(c), s) && s.cpc.Finished?;
      StarvedForever(c, s);
    }
  }

  // ----- the program itself, updated in place -----

  /** One turn of the scheduler below. */
  lemma Turn(c: Config, s: State, m: Move)
    requires Sound(c) && Inv(c, s) && Reachable(Init(c), Step(c), s) && Next(c, s, m).Some?
    ensures Inv(c, Next(c, s, m).value) && Reachable(Init(c), Step(c), Next(c, s, m).value)
    ensures !m.Spuriously? ==> Measure(c)(Next(c, s, m).value) < Measure(c)(s)
  {
    StepKeepsInv(c, s, m);
    OneMore(Init(c), Step(c), s, m);
    if !m.Spuriously? {
      StepDescends(c, s, m);
    }
  }

  class Program {
    const c: Config
    var i: int
    var pcount: nat
    var ppc: ProducerPc
    var ccount: nat
    var cpc: ConsumerPc
    var mutex: Owner
    var buf: seq<int>
    var printed: seq<int>

    function Snapshot(): State
      reads this
    {
      State(i, pcount, ppc, ccount, cpc, mutex, buf, printed)
    }

    constructor (c: Config)
      ensures this.c == c && Snapshot() == Init(c)
    {
      this.c := c;
      i, pcount, ppc := c.low, 0, Test;
      ccount, cpc := 0, Check;
      mutex, buf, printed := Free, seq(c.size + 1, _ => 0), [];
    }

    /** pthread_cond_signal */
    method Wakeup()
      modifies this`cpc
      ensures cpc == Signalled(old(cpc))
    {
      if cpc.Asleep? {
        cpc := Wake;
      }
    }

    /** One step of find_primes. */
    method Produce()
      requires ProducerStep(c, Snapshot()).Some? && i >= 0
      modifies this
      ensures Some(Snapshot()) == ProducerStep(c, old(Snapshot()))
    {
      match ppc {
        case Test =>
          var answer := 0;
          if i <= c.high {
            answer := IsPrime(i);
          }
          if i > c.high {
            ppc := End;
          } else if answer != 1 {
            i := i + 1;
          } else if pcount >= c.size {
            ppc := End;
          } else {
            ppc := Acquire;
          }
        case Acquire => mutex, ppc := Producer, Publish;
        case Publish => buf, pcount, ppc := buf[pcount := i], pcount + 1, Release;
        case Release => mutex, ppc := Free, Signal;
        case Signal =>
          Wakeup();
          i, ppc := i + 1, Test;
        case End => buf, ppc := buf[pcount := -1], EndAcquire;
        case EndAcquire => mutex, ppc := Producer, EndRelease;
        case EndRelease => mutex, ppc := Free, EndSignal;
        case EndSignal =>
          Wakeup();
          ppc := Exited;
      }
    }

    /** One step of the consumer loop in main. */
    method Consume()
      requires ConsumerStep(c, Snapshot()).Some?
      modifies this
      ensures Some(Snapshot()) == ConsumerStep(c, old(Snapshot()))
    {
      match cpc {
        case Check => cpc := if ccount < c.size then Enter else Join;
        case Enter => mutex, cpc := Consumer, Look;
        case Look => cpc := if buf[ccount] == 0 then Wait else LookEnd;
        case Wait => mutex, cpc := Free, Asleep;
        case Wake => mutex, cpc := Consumer, Look;
        case LookEnd => cpc := if buf[ccount] == -1 then Break else Bump;
        case Break => mutex, cpc := Free, Join;
        case Bump => ccount, cpc := ccount + 1, Leave;
        case Leave => mutex, cpc := Free, Print;
        case Print => printed, cpc := printed + [buf[ccount-1]], Check;
        case Join => cpc := Finished;
      }
    }

    /** The two threads in any order, with at most `budget` spurious wakeups. */
    method RunAll(budget: nat)
      requires Sound(c) && Snapshot() == Init(c)
      modifies this
      ensures Done(Snapshot()) && printed == Wanted(c)
    {
      InitInv(c);
      Initially(Init(c), Step(c));
      var left := budget;
      while !(ppc.Exited? && cpc.Finished?)
        invariant Inv(c, Snapshot()) && Reachable(Init(c), Step(c), Snapshot())
        decreases left, Measure(c)(Snapshot())
      {
        ghost var before := Snapshot();
        var choice: Move := *;
        if choice.Spuriously? && cpc.Asleep? && left > 0 {
          left := left - 1;
          Turn(c, before, Spuriously);
          cpc := Wake;
        } else {
          Progress(c, before);
          var producer := ProducerStep(c, Snapshot()).Some?;
          if producer && (choice.Produce? || !ConsumerStep(c, Snapshot()).Some?) {
            Turn(c, before, Move.Produce);
            Produce();
          } else {
            Turn(c, before, Move.Consume);
            Consume();
          }
        }
      }
      OutputIsPrimes(c, Snapshot());
    }
  }

  /** The whole program; on the other inputs it never ends. */
  method RunProgram(c: Config, budget: nat) returns (printed: seq<int>)
    requires Sound(c)
    ensures printed == Wanted(c)
  {
    var program := new Program(c);
    program.RunAll(budget);
    printed := program.printed;
  }
}
