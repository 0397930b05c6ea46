/**
 Threads that repeat a straight-line program of mutex and memory instructions.

 An addition to a shared cell is a Load followed by a Store, so two threads that
 are not kept apart by a mutex can overwrite each other's update.  The lemmas of
 this module hold for every set of programs in which one mutex covers all accesses
 to a cell (`Guarded`) and, for progress, every thread takes its mutexes in the
 order of one rank (`Ordered`).
 */
module LockPrograms {
  import opened Arithmetic
  import opened Runs

  datatype Instr =
    | Lock(m: nat)
    | Unlock(m: nat)
    | Load(c: nat)
    | Store(c: nat, amount: int)

  datatype Owner = Free | HeldBy(t: nat)

  /** `round` counts finished repetitions; `pc` is the next instruction of the current one. */
  datatype Thread = Thread(round: nat, pc: nat, reg: int)

  datatype State = State(threads: seq<Thread>, owner: seq<Owner>, cells: seq<int>)

  /** Thread t repeats programs[t]; there are `size` mutexes and as many cells. */
  datatype System = System(programs: seq<seq<Instr>>, rounds: nat, size: nat)

  predicate InRange(size: nat, i: Instr) {
    match i
    case Lock(m) => m < size
    case Unlock(m) => m < size
    case Load(c) => c < size
    case Store(c, _) => c < size
  }

  /** Every program is nonempty and names only existing mutexes and cells. */
  predicate Runnable(sys: System) {
    && (forall t | 0 <= t < |sys.programs| :: 0 < |sys.programs[t]|)
    && (forall t, i | 0 <= t < |sys.programs| && 0 <= i < |sys.programs[t]| ::
          InRange(sys.size, sys.programs[t][i]))
  }

  predicate Shaped(sys: System, s: State) {
    && |s.threads| == |sys.programs|
    && |s.owner| == |s.cells| == sys.size
    && forall t | 0 <= t < |s.threads| ::
         s.threads[t].round <= sys.rounds && s.threads[t].pc < |sys.programs[t]|
  }

  function Init(sys: System): State {
    State(seq(|sys.programs|, _ => Thread(0, 0, 0)), seq(sys.size, _ => Free), seq(sys.size, _ => 0))
  }

  predicate Unfinished(sys: System, s: State, t: nat) {
    t < |s.threads| && s.threads[t].round < sys.rounds
  }

  predicate Finished(sys: System, s: State) {
    forall t | 0 <= t < |s.threads| :: s.threads[t].round == sys.rounds
  }

  function Current(sys: System, s: State, t: nat): Instr
    requires Shaped(sys, s) && t < |s.threads|
  {
    sys.programs[t][s.threads[t].pc]
  }

  /** A thread can move unless it has finished or waits for a mutex that is not free. */
  predicate Enabled(sys: System, s: State, t: nat)
    requires Runnable(sys) && Shaped(sys, s)
  {
    && Unfinished(sys, s, t)
    && var i := Current(sys, s, t);
       i.Lock? ==> s.owner[i.m] == Free
  }

  /** Past the instruction at `pc`: the next one, or the first one of the next round. */
  function Advance(length: nat, th: Thread): Thread {
    if th.pc + 1 < length then th.(pc := th.pc + 1)
    else th.(pc := 0, round := th.round + 1)
  }

  function Next(sys: System, s: State, t: nat): State
    requires Runnable(sys) && Shaped(sys, s) && Enabled(sys, s, t)
  {
    var length, th := |sys.programs[t]|, s.threads[t];
    match Current(sys, s, t)
    case Lock(m) => s.(threads := s.threads[t := Advance(length, th)], owner := s.owner[m := HeldBy(t)])
    case Unlock(m) => s.(threads := s.threads[t := Advance(length, th)], owner := s.owner[m := Free])
    case Load(c) => s.(threads := s.threads[t := Advance(length, th.(reg := s.cells[c]))])
    case Store(c, amount) =>
      s.(threads := s.threads[t := Advance(length, th)], cells := s.cells[c := th.reg + amount])
  }

  function Step(sys: System): (State, nat) -> Option<State> {
    (s: State, t: nat) =>
      if Runnable(sys) && Shaped(sys, s) && Enabled(sys, s, t) then Some(Next(sys, s, t)) else None
  }

  // ----- what a program holds and adds, read off its text -----

  /** The mutexes held by a thread that has executed p[..pc]. */
  function Held(p: seq<Instr>, pc: nat): set<nat>
    requires pc <= |p|
  {
    if pc == 0 then {}
    else
      match p[pc-1]
      case Lock(m) => Held(p, pc-1) + {m}
      case Unlock(m) => Held(p, pc-1) - {m}
      case _ => Held(p, pc-1)
  }

  /** The total amount that p[..pc] adds to cell c. */
  function Added(p: seq<Instr>, pc: nat, c: nat): int
    requires pc <= |p|
  {
    if pc == 0 then 0
    else Added(p, pc-1, c) + if p[pc-1].Store? && p[pc-1].c == c then p[pc-1].amount else 0
  }

  /** One instruction of a program whose accesses to cell c are covered by mutex guard[c]. */
  ghost predicate GuardedAt(p: seq<Instr>, i: nat, guard: seq<nat>)
    requires i < |p|
  {
    match p[i]
    case Lock(m) => m !in Held(p, i)
    case Unlock(m) => m in Held(p, i)
    case Load(c) => c < |guard| && guard[c] in Held(p, i)
    case Store(c, _) => c < |guard| && guard[c] in Held(p, i) && 0 < i && p[i-1] == Load(c)
  }

  ghost predicate GuardedProgram(p: seq<Instr>, guard: seq<nat>) {
    && Held(p, |p|) == {}
    && forall i | 0 <= i < |p| :: GuardedAt(p, i, guard)
  }

  ghost predicate Guarded(sys: System, guard: seq<nat>) {
    && Runnable(sys)
    && |guard| == sys.size
    && forall t | 0 <= t < |sys.programs| :: GuardedProgram(sys.programs[t], guard)
  }

  /** Each mutex is taken while only mutexes of lower rank are held. */
  ghost predicate OrderedProgram(p: seq<Instr>, rank: seq<nat>) {
    forall i, h | 0 <= i < |p| && p[i].Lock? && h in Held(p, i) ::
      p[i].m < |rank| && h < |rank| && rank[h] < rank[p[i].m]
  }

  ghost predicate Ordered(sys: System, rank: seq<nat>) {
    && |rank| == sys.size
    && forall t | 0 <= t < |sys.programs| :: OrderedProgram(sys.programs[t], rank)
  }

  // ----- the invariant -----

  /** What the first n threads have added to cell c so far. */
  function Total(sys: System, threads: seq<Thread>, c: nat, n: nat): int
    requires n <= |threads| == |sys.programs|
    requires forall t | 0 <= t < n :: threads[t].pc <= |sys.programs[t]|
  {
    if n == 0 then 0 else Total(sys, threads, c, n-1) + Share(sys.programs[n-1], threads[n-1], c)
  }

  function Share(p: seq<Instr>, th: Thread, c: nat): int
    requires th.pc <= |p|
  {
    th.round * Added(p, |p|, c) + Added(p, th.pc, c)
  }

  ghost predicate ThreadInv(sys: System, s: State, t: nat)
    requires Shaped(sys, s) && Runnable(sys) && t < |s.threads|
  {
    && (s.threads[t].round == sys.rounds ==> s.threads[t].pc == 0)
    // a thread holds exactly the mutexes its program says it holds here
    && (forall m | 0 <= m < sys.size ::
          s.owner[m] == HeldBy(t) <==> m in Held(sys.programs[t], s.threads[t].pc))
    // between Load and Store nobody else has changed the cell
    && var i := Current(sys, s, t);
       i.Store? ==> s.threads[t].reg == s.cells[i.c]
  }

  ghost predicate Inv(sys: System, guard: seq<nat>, s: State) {
    && Guarded(sys, guard)
    && Shaped(sys, s)
    && (forall m | 0 <= m < sys.size :: s.owner[m].HeldBy? ==> s.owner[m].t < |s.threads|)
    && (forall t | 0 <= t < |s.threads| :: ThreadInv(sys, s, t))
    // no update is lost
    && forall c | 0 <= c < sys.size :: s.cells[c] == Total(sys, s.threads, c, |s.threads|)
  }

  lemma HeldAfter(p: seq<Instr>, th: Thread)
    requires th.pc < |p| && Held(p, |p|) == {}
    ensures Held(p, Advance(|p|, th).pc) ==
            match p[th.pc]
            case Lock(m) => Held(p, th.pc) + {m}
            case Unlock(m) => Held(p, th.pc) - {m}
            case _ => Held(p, th.pc)
  {
    assert th.pc + 1 == |p| ==> Held(p, th.pc + 1) == {};
  }

  lemma ShareAfter(p: seq<Instr>, th: Thread, c: nat)
    requires th.pc < |p|
    ensures Share(p, Advance(|p|, th), c) ==
            Share(p, th, c) + if p[th.pc].Store? && p[th.pc].c == c then p[th.pc].amount else 0
  {
    assert Added(p, th.pc + 1, c) ==
      Added(p, th.pc, c) + if p[th.pc].Store? && p[th.pc].c == c then p[th.pc].amount else 0;
    assert (th.round + 1) * Added(p, |p|, c) == th.round * Added(p, |p|, c) + Added(p, |p|, c);
  }

  /** Replacing one thread changes the total by the change of that thread's share. */
  lemma {:induction false} TotalAfter(sys: System, threads: seq<Thread>, t: nat, th: Thread, c: nat, n: nat)
    requires n <= |threads| == |sys.programs| && t < |threads|
    requires forall u | 0 <= u < |threads| :: threads[u].pc <= |sys.programs[u]|
    requires th.pc <= |sys.programs[t]|
    ensures Total(sys, threads[t := th], c, n) == Total(sys, threads, c, n) +
            if t < n then Share(sys.programs[t], th, c) - Share(sys.programs[t], threads[t], c) else 0
  {
    if n > 0 {
      TotalAfter(sys, threads, t, th, c, n-1);
    }
  }

  /** Two threads never stand before accesses to the same cell: the program has no data race. */
  lemma NoRace(sys: System, guard: seq<nat>, s: State, t: nat, u: nat)
    requires Inv(sys, guard, s) && t < |s.threads| && u < |s.threads|
    requires Accesses(sys, s, t).Some? && Accesses(sys, s, t) == Accesses(sys, s, u)
    ensures t == u
  {
    var c := Accesses(sys, s, t).value;
    assert GuardedAt(sys.programs[t], s.threads[t].pc, guard);
    assert GuardedAt(sys.programs[u], s.threads[u].pc, guard);
    assert InRange(sys.size, sys.programs[t][s.threads[t].pc]);
    assert ThreadInv(sys, s, t) && ThreadInv(sys, s, u);
    HeldInRange(sys, t, s.threads[t].pc);
    assert s.owner[guard[c]] == HeldBy(t) && s.owner[guard[c]] == HeldBy(u);
  }

  function Accesses(sys: System, s: State, t: nat): Option<nat>
    requires Shaped(sys, s) && t < |s.threads|
  {
    match Current(sys, s, t)
    case Load(c) => Some(c)
    case Store(c, _) => Some(c)
    case _ => None
  }

  lemma {:induction false} HeldInRange(sys: System, t: nat, pc: nat)
    requires Runnable(sys) && t < |sys.programs| && pc <= |sys.programs[t]|
    ensures forall m | m in Held(sys.programs[t], pc) :: m < sys.size
  {
    if pc > 0 {
      HeldInRange(sys, t, pc-1);
      assert InRange(sys.size, sys.programs[t][pc-1]);
    }
  }

  lemma InitInv(sys: System, guard: seq<nat>)
    requires Guarded(sys, guard)
    ensures Inv(sys, guard, Init(sys))
  {
    var s := Init(sys);
    forall t | 0 <= t < |s.threads| ensures ThreadInv(sys, s, t) {
      assert GuardedAt(sys.programs[t], 0, guard);
    }
    forall c | 0 <= c < sys.size ensures Total(sys, s.threads, c, |s.threads|) == 0 {
      InitTotal(sys, c, |s.threads|);
    }
  }

  lemma {:induction false} InitTotal(sys: System, c: nat, n: nat)
    requires Runnable(sys) && n <= |sys.programs|
    ensures Total(sys, Init(sys).threads, c, n) == 0
  {
    if n > 0 {
      InitTotal(sys, c, n-1);
    }
  }

  lemma NextThreadInv(sys: System, guard: seq<nat>, s: State, t: nat, u: nat)
    requires Inv(sys, guard, s) && Enabled(sys, s, t) && u < |s.threads|
    requires Shaped(sys, Next(sys, s, t))
    ensures ThreadInv(sys, Next(sys, s, t), u)
  {
    var s' := Next(sys, s, t);
    assert GuardedAt(sys.programs[t], s.threads[t].pc, guard);
    assert InRange(sys.size, sys.programs[t][s.threads[t].pc]);
    assert ThreadInv(sys, s, t) && ThreadInv(sys, s, u);
    HeldAfter(sys.programs[t], s.threads[t]);
    if u == t {
      assert GuardedAt(sys.programs[t], s'.threads[t].pc, guard);
    } else {
      var i := Current(sys, s, u);
      if i.Store? && s'.cells[i.c] != s.cells[i.c] {
        NoRace(sys, guard, s, t, u);
      }
    }
  }

  lemma NextTotal(sys: System, guard: seq<nat>, s: State, t: nat, c: nat)
    requires Inv(sys, guard, s) && Enabled(sys, s, t) && c < sys.size
    requires Shaped(sys, Next(sys, s, t))
    ensures Next(sys, s, t).cells[c] == Total(sys, Next(sys, s, t).threads, c, |s.threads|)
  {
    var s' := Next(sys, s, t);
    var p := sys.programs[t];
    assert ThreadInv(sys, s, t);
    ShareAfter(p, s.threads[t], c);
    TotalAfter(sys, s.threads, t, s'.threads[t], c, |s.threads|);
    assert Share(p, s'.threads[t], c) == Share(p, Advance(|p|, s.threads[t]), c);
  }

  lemma NextInv(sys: System, guard: seq<nat>, s: State, t: nat)
    requires Inv(sys, guard, s) && Enabled(sys, s, t)
    ensures Inv(sys, guard, Next(sys, s, t))
  {
    var s' := Next(sys, s, t);
    assert InRange(sys.size, sys.programs[t][s.threads[t].pc]);
    assert Shaped(sys, s');
    forall u | 0 <= u < |s'.threads| ensures ThreadInv(sys, s', u) {
      NextThreadInv(sys, guard, s, t, u);
    }
    forall c | 0 <= c < sys.size ensures s'.cells[c] == Total(sys, s'.threads, c, |s'.threads|) {
      NextTotal(sys, guard, s, t, c);
    }
  }

  lemma ReachableInv(sys: System, guard: seq<nat>, s: State)
    requires Guarded(sys, guard) && Reachable(Init(sys), Step(sys), s)
    ensures Inv(sys, guard, s)
  {
    InitInv(sys, guard);
    StepsKeepInv(sys, guard);
    Always(Init(sys), Step(sys), x => Inv(sys, guard, x), s);
  }

  lemma StepsKeepInv(sys: System, guard: seq<nat>)
    ensures Preserved(Step(sys), (x: State) => Inv(sys, guard, x))
  {
    forall s, t | Inv(sys, guard, s) && Step(sys)(s, t).Some? ensures Inv(sys, guard, Step(sys)(s, t).value) {
      NextInv(sys, guard, s, t);
    }
  }

  // ----- progress -----

  ghost predicate Waits(sys: System, s: State, t: nat)
    requires Runnable(sys) && Shaped(sys, s)
  {
    Unfinished(sys, s, t) && !Enabled(sys, s, t)
  }

  /** A thread that waits does so for a mutex which an unfinished thread holds. */
  lemma WaitsForHolder(sys: System, guard: seq<nat>, s: State, t: nat) returns (m: nat, u: nat)
    requires Inv(sys, guard, s) && Waits(sys, s, t)
    ensures Current(sys, s, t) == Lock(m) && m < sys.size
    ensures Unfinished(sys, s, u) && m in Held(sys.programs[u], s.threads[u].pc)
  {
    m := Current(sys, s, t).m;
    assert InRange(sys.size, sys.programs[t][s.threads[t].pc]);
    u := s.owner[m].t;
    assert ThreadInv(sys, s, u);
  }

  /** The lock that thread t wants next is above all the mutexes it holds. */
  ghost predicate Climbs(sys: System, rank: seq<nat>, s: State, t: nat)
    requires Runnable(sys) && Shaped(sys, s) && t < |s.threads|
  {
    var i := Current(sys, s, t);
    i.Lock? ==> forall h | h in Held(sys.programs[t], s.threads[t].pc) ::
      i.m < |rank| && h < |rank| && rank[h] < rank[i.m]
  }

  /**
   Following the chain from a waiting thread to the holder of its mutex climbs in rank, so
   it ends at a thread that can move, or at one that takes its locks out of order.
   */
  lemma {:induction false} SomeoneIsToBlame(
      sys: System, guard: seq<nat>, rank: seq<nat>, top: nat, s: State, t: nat) returns (u: nat)
    requires Inv(sys, guard, s) && |rank| == sys.size && Unfinished(sys, s, t)
    requires forall m | 0 <= m < sys.size :: rank[m] <= top
    ensures Unfinished(sys, s, u) && (Enabled(sys, s, u) || !Climbs(sys, rank, s, u))
    decreases var i := Current(sys, s, t); if i.Lock? && i.m < |rank| then top - rank[i.m] else top + 1
  {
    u := t;
    if !Enabled(sys, s, t) {
      var m, holder := WaitsForHolder(sys, guard, s, t);
      u := holder;
      if !Enabled(sys, s, holder) && Climbs(sys, rank, s, holder) {
        var m', _ := WaitsForHolder(sys, guard, s, holder);
        assert rank[m] < rank[m'];
        u := SomeoneIsToBlame(sys, guard, rank, top, s, holder);
      }
    }
  }

  function Top(rank: seq<nat>): (top: nat)
    ensures forall m | 0 <= m < |rank| :: rank[m] <= top
  {
    if rank == [] then 0
    else
      var rest := Top(rank[..|rank|-1]);
      if rank[|rank|-1] <= rest then rest else rank[|rank|-1]
  }

  ghost predicate DeadlockFree(sys: System) {
    forall s :: Reachable(Init(sys), Step(sys), s) && !Finished(sys, s) ==> !Stuck(Step(sys), s)
  }

  lemma OrderedIsDeadlockFree(sys: System, guard: seq<nat>, rank: seq<nat>)
    requires Guarded(sys, guard) && Ordered(sys, rank)
    ensures DeadlockFree(sys)
  {
    forall s | Reachable(Init(sys), Step(sys), s) && !Finished(sys, s) ensures !Stuck(Step(sys), s) {
      ReachableInv(sys, guard, s);
      var t :| 0 <= t < |s.threads| && s.threads[t].round != sys.rounds;
      var u := SomeoneIsToBlame(sys, guard, rank, Top(rank), s, t);
      assert Climbs(sys, rank, s, u);
      assert Step(sys)(s, u).Some?;
    }
  }

  // ----- termination -----

  /** Instructions that the first n threads still have to execute. */
  function Remaining(sys: System, threads: seq<Thread>, n: nat): int
    requires n <= |threads| == |sys.programs|
  {
    if n == 0 then 0
    else Remaining(sys, threads, n-1)
         + (sys.rounds - threads[n-1].round) * |sys.programs[n-1]| - threads[n-1].pc
  }

  lemma {:induction false} RemainingAfter(sys: System, s: State, t: nat, th: Thread, n: nat)
    requires Shaped(sys, s) && n <= |s.threads| && t < |s.threads|
    requires th == s.threads[t] || Unfinished(sys, s, t)
    requires th.round == Advance(|sys.programs[t]|, s.threads[t]).round
    requires th.pc == Advance(|sys.programs[t]|, s.threads[t]).pc
    ensures Remaining(sys, s.threads[t := th], n) == Remaining(sys, s.threads, n) - if t < n then 1 else 0
  {
    if n > 0 {
      RemainingAfter(sys, s, t, th, n-1);
      if n == t + 1 {
        var length, left := |sys.programs[t]|, sys.rounds - s.threads[t].round;
        assert (left - 1) * length == left * length - length;
      }
    }
  }

  lemma {:induction false} RemainingIsNat(sys: System, guard: seq<nat>, s: State, n: nat)
    requires Inv(sys, guard, s) && n <= |s.threads|
    ensures 0 <= Remaining(sys, s.threads, n)
  {
    if n > 0 {
      RemainingIsNat(sys, guard, s, n-1);
      assert ThreadInv(sys, s, n-1);
      var length, left := |sys.programs[n-1]|, sys.rounds - s.threads[n-1].round;
      if left > 0 {
        assert left * length == (left - 1) * length + length && 0 <= (left - 1) * length;
      }
    }
  }

  ghost function Measure(sys: System): State -> nat {
    (s: State) =>
      if Shaped(sys, s) && 0 <= Remaining(sys, s.threads, |s.threads|) then Remaining(sys, s.threads, |s.threads|) else 0
  }

  lemma NextRemaining(sys: System, guard: seq<nat>, s: State, t: nat)
    requires Inv(sys, guard, s) && Enabled(sys, s, t)
    ensures Measure(sys)(Next(sys, s, t)) == Measure(sys)(s) - 1
  {
    NextInv(sys, guard, s, t);
    var s' := Next(sys, s, t);
    assert s'.threads == s.threads[t := s'.threads[t]];
    RemainingAfter(sys, s, t, s'.threads[t], |s.threads|);
    RemainingIsNat(sys, guard, s, |s.threads|);
    RemainingIsNat(sys, guard, s', |s.threads|);
  }

  lemma StepsDescend(sys: System, guard: seq<nat>)
    ensures Descends(Step(sys), (x: State) => Inv(sys, guard, x), Measure(sys))
  {
    forall s, t | Inv(sys, guard, s) && Step(sys)(s, t).Some?
      ensures Measure(sys)(Step(sys)(s, t).value) < Measure(sys)(s)
    {
      NextRemaining(sys, guard, s, t);
    }
  }

  lemma {:induction false} InitRemaining(sys: System, length: nat, n: nat)
    requires n <= |sys.programs| && forall t | 0 <= t < |sys.programs| :: |sys.programs[t]| <= length
    ensures Remaining(sys, Init(sys).threads, n) <= n * length * sys.rounds
  {
    if n > 0 {
      InitRemaining(sys, length, n-1);
      OneMoreThread(n, length, sys.rounds, |sys.programs[n-1]|);
    }
  }

  lemma OneMoreThread(n: nat, length: nat, rounds: nat, own: nat)
    requires n > 0 && own <= length
    ensures (n - 1) * length * rounds + rounds * own <= n * length * rounds
  {
    MulMonotone(rounds, rounds, own, length);
    assert n * length == (n - 1) * length + length;
    assert n * length * rounds == (n - 1) * length * rounds + length * rounds;
  }

  /** No schedule is longer than one step for each instruction to be executed. */
  lemma GuardedRunsAreFinite(sys: System, guard: seq<nat>, length: nat, sched: seq<nat>)
    requires Guarded(sys, guard) && forall t | 0 <= t < |sys.programs| :: |sys.programs[t]| <= length
    ensures Exec(Init(sys), Step(sys), sched).Some? ==> |sched| <= |sys.programs| * length * sys.rounds
  {
    InitInv(sys, guard);
    StepsKeepInv(sys, guard);
    StepsDescend(sys, guard);
    RunsAreShort(Init(sys), Step(sys), x => Inv(sys, guard, x), Measure(sys), sched);
    InitMeasure(sys, length);
  }

  lemma InitMeasure(sys: System, length: nat)
    requires forall t | 0 <= t < |sys.programs| :: |sys.programs[t]| <= length
    ensures Measure(sys)(Init(sys)) <= |sys.programs| * length * sys.rounds
  {
    InitRemaining(sys, length, |sys.programs|);
    var product := |sys.programs| * length;
    assert 0 <= product * sys.rounds;
  }

  // ----- some run finishes -----

  /** Every thread but t stands at the start of a round. */
  predicate Alone(s: State, t: nat) {
    forall u | 0 <= u < |s.threads| && u != t :: s.threads[u].pc == 0
  }

  /** One thread at a time: a thread moves only while no other is in the middle of a round. */
  function SoloStep(sys: System): (State, nat) -> Option<State> {
    (s: State, t: nat) =>
      if Alone(s, t) && Runnable(sys) && Shaped(sys, s) && Enabled(sys, s, t) then Some(Next(sys, s, t)) else None
  }

  ghost predicate SoloInv(sys: System, guard: seq<nat>, s: State) {
    Inv(sys, guard, s) && exists t: nat :: Alone(s, t)
  }

  /** A thread that is alone finds its next mutex free. */
  lemma AloneIsEnabled(sys: System, guard: seq<nat>, s: State, t: nat)
    requires Inv(sys, guard, s) && Alone(s, t) && Unfinished(sys, s, t)
    ensures Enabled(sys, s, t)
  {
    assert ThreadInv(sys, s, t) && GuardedAt(sys.programs[t], s.threads[t].pc, guard);
    assert InRange(sys.size, sys.programs[t][s.threads[t].pc]);
    forall m, u: nat | 0 <= m < sys.size && u < |s.threads| && u != t ensures s.owner[m] != HeldBy(u) {
      assert ThreadInv(sys, s, u) && s.threads[u].pc == 0;
    }
  }

  lemma SoloMoves(sys: System, guard: seq<nat>, s: State) returns (w: nat)
    requires SoloInv(sys, guard, s) && !Finished(sys, s)
    ensures SoloStep(sys)(s, w).Some?
  {
    var u: nat :| u < |s.threads| && s.threads[u].round != sys.rounds;
    var t: nat :| Alone(s, t);
    w := if t < |s.threads| && s.threads[t].pc != 0 then t else u;
    assert ThreadInv(sys, s, w);
    AloneIsEnabled(sys, guard, s, w);
  }

  lemma SoloKept(sys: System, guard: seq<nat>)
    ensures Preserved(SoloStep(sys), (x: State) => SoloInv(sys, guard, x))
    ensures Descends(SoloStep(sys), (x: State) => SoloInv(sys, guard, x), Measure(sys))
  {
    forall s, t | SoloInv(sys, guard, s) && SoloStep(sys)(s, t).Some?
      ensures SoloInv(sys, guard, SoloStep(sys)(s, t).value)
      ensures Measure(sys)(SoloStep(sys)(s, t).value) < Measure(sys)(s)
    {
      NextInv(sys, guard, s, t);
      NextRemaining(sys, guard, s, t);
      assert Alone(Next(sys, s, t), t);
    }
  }

  /** Whatever the order of its locks, a guarded system finishes in some run. */
  lemma SomeRunFinishes(sys: System, guard: seq<nat>) returns (s: State)
    requires Guarded(sys, guard)
    ensures Reachable(Init(sys), Step(sys), s) && Finished(sys, s)
  {
    InitInv(sys, guard);
    assert Alone(Init(sys), 0);
    SoloKept(sys, guard);
    Initially(Init(sys), SoloStep(sys));
    var sched;
    s, sched := RunsOut(Init(sys), SoloStep(sys), x => SoloInv(sys, guard, x), Measure(sys), Init(sys));
    AlwaysAfter(Init(sys), SoloStep(sys), x => SoloInv(sys, guard, x), sched);
    Simulated(Init(sys), SoloStep(sys), Step(sys), sched);
    if !Finished(sys, s) {
      var w := SoloMoves(sys, guard, s);
    }
  }

  // ----- what a finished run leaves in the cells -----

  /** What one round of the first n programs adds to cell c. */
  function PerRound(programs: seq<seq<Instr>>, c: nat, n: nat): int
    requires n <= |programs|
  {
    if n == 0 then 0 else PerRound(programs, c, n-1) + Added(programs[n-1], |programs[n-1]|, c)
  }

  lemma {:induction false} FinishedTotal(sys: System, guard: seq<nat>, s: State, c: nat, n: nat)
    requires Inv(sys, guard, s) && Finished(sys, s) && n <= |s.threads|
    ensures Total(sys, s.threads, c, n) == sys.rounds * PerRound(sys.programs, c, n)
  {
    if n > 0 {
      FinishedTotal(sys, guard, s, c, n-1);
      assert ThreadInv(sys, s, n-1);
      var before, last := PerRound(sys.programs, c, n-1), Added(sys.programs[n-1], |sys.programs[n-1]|, c);
      assert sys.rounds * (before + last) == sys.rounds * before + sys.rounds * last;
    }
  }

  /** No update is lost in any schedule: a finished run leaves the exact sum in every cell. */
  lemma FinishedCells(sys: System, guard: seq<nat>, s: State, c: nat, perRound: int)
    requires Guarded(sys, guard) && Reachable(Init(sys), Step(sys), s)
    requires Finished(sys, s) && c < sys.size
    requires PerRound(sys.programs, c, |sys.programs|) == perRound
    ensures c < |s.cells| && s.cells[c] == sys.rounds * perRound
  {
    ReachableInv(sys, guard, s);
    FinishedTotal(sys, guard, s, c, |s.threads|);
  }

  // ----- the machine itself: one object updated in place, one instruction at a time -----

  class Machine {
    const sys: System
    var threads: seq<Thread>
    var owner: seq<Owner>
    var cells: seq<int>

    function Snapshot(): State
      reads this
    {
      State(threads, owner, cells)
    }

    constructor (sys: System)
      ensures this.sys == sys && Snapshot() == Init(sys)
    {
      this.sys := sys;
      threads := seq(|sys.programs|, _ => Thread(0, 0, 0));
      owner := seq(sys.size, _ => Free);
      cells := seq(sys.size, _ => 0);
    }

    /** Thread t executes its current instruction. */
    method Execute(t: nat)
      requires Runnable(sys) && Shaped(sys, Snapshot()) && Enabled(sys, Snapshot(), t)
      modifies this
      ensures Snapshot() == Next(sys, old(Snapshot()), t)
    {
      var th := threads[t];
      match sys.programs[t][th.pc] {
        case Lock(m) => owner := owner[m := HeldBy(t)];
        case Unlock(m) => owner := owner[m := Free];
        case Load(c) => th := th.(reg := cells[c]);
        case Store(c, amount) => cells := cells[c := th.reg + amount];
      }
      th := th.(pc := th.pc + 1);
      if th.pc == |sys.programs[t]| {
        th := th.(pc := 0, round := th.round + 1);
      }
      threads := threads[t := th];
    }

    /** Lets arbitrarily chosen threads move for as long as one can; this always ends. */
    method RunAll(ghost guard: seq<nat>)
      requires Guarded(sys, guard) && Snapshot() == Init(sys)
      modifies this
      ensures Reachable(Init(sys), Step(sys), Snapshot()) && Stuck(Step(sys), Snapshot())
    {
      Initially(Init(sys), Step(sys));
      InitInv(sys, guard);
      while exists t: nat :: 0 <= t < |threads| && Enabled(sys, Snapshot(), t)
        invariant Inv(sys, guard, Snapshot()) && Reachable(Init(sys), Step(sys), Snapshot())
        decreases Measure(sys)(Snapshot())
      {
        var t: nat :| 0 <= t < |threads| && Enabled(sys, Snapshot(), t);
        NextInv(sys, guard, Snapshot(), t);
        NextRemaining(sys, guard, Snapshot(), t);
        OneMore(Init(sys), Step(sys), Snapshot(), t);
        Execute(t);
      }
    }
  }
}
