/**
 The ring of mutexes of inf19-3.c: thread i adds 0.99, 1 and 1.01 to the cells left of,
 at and right of position i, taking the three mutexes in an order chosen by i % 3.
 Amounts are counted in hundredths.
 */
module MutexRing {
  import opened Runs
  import opened LockPrograms
  import opened Arithmetic

  const TO_LEFT := 99
  const TO_MIDDLE := 100
  const TO_RIGHT := 101

  function Left(n: nat, i: nat): (m: nat)
    requires i < n
    ensures m == if i == 0 then n - 1 else i - 1
  {
    DivUnique(i + n - 1, n, if i == 0 then 0 else 1, if i == 0 then n - 1 else i - 1);
    (i + n - 1) % n
  }

  function Right(n: nat, i: nat): (m: nat)
    requires i < n
    ensures m == if i == n - 1 then 0 else i + 1
  {
    DivUnique(i + 1, n, if i == n - 1 then 1 else 0, if i == n - 1 then 0 else i + 1);
    (i + 1) % n
  }

  function Add(c: nat, amount: int): seq<Instr> {
    [Load(c), Store(c, amount)]
  }

  /** Lock a and add, lock b and add, lock c and add, then unlock in the opposite order. */
  function Nested(a: nat, x: int, b: nat, y: int, c: nat, z: int): seq<Instr> {
    [Lock(a), Load(a), Store(a, x), Lock(b), Load(b), Store(b, y), Lock(c), Load(c), Store(c, z),
     Unlock(c), Unlock(b), Unlock(a)]
  }

  /** One iteration of thread i of n. */
  function Program(n: nat, i: nat): seq<Instr>
    requires i < n
  {
    var left, right := Left(n, i), Right(n, i);
    if n == 1 then
      [Lock(right)] + Add(right, TO_RIGHT) + Add(left, TO_LEFT) + Add(i, TO_MIDDLE) + [Unlock(right)]
    else if n == 2 then
      if i == 0 then
        [Lock(i)] + Add(i, TO_MIDDLE) + [Lock(left)] + Add(left, TO_LEFT) + Add(right, TO_RIGHT)
        + [Unlock(left), Unlock(i)]
      else
        [Lock(left)] + Add(i, TO_MIDDLE) + [Lock(i)] + Add(left, TO_LEFT) + Add(right, TO_RIGHT)
        + [Unlock(i), Unlock(left)]
    else if i % 3 == 2 then Nested(right, TO_RIGHT, i, TO_MIDDLE, left, TO_LEFT)
    else if i % 3 == 0 then Nested(i, TO_MIDDLE, left, TO_LEFT, right, TO_RIGHT)
    else Nested(left, TO_LEFT, right, TO_RIGHT, i, TO_MIDDLE)
  }

  function Ring(n: nat, rounds: nat): System {
    System(seq(n, i requires 0 <= i < n => Program(n, i)), rounds, n)
  }

  /** Mutex c covers cell c, except that mutex 0 covers both cells of a ring of two. */
  function Guard(n: nat): seq<nat> {
    seq(n, c requires 0 <= c < n => if n == 2 then 0 else c)
  }

  /**
   The order in which the mutexes are taken: those at positions divisible by three, then
   position 0 (which comes last of its kind because of the wrap-around), then positions
   2 mod 3, then the last position, then the other positions 1 mod 3.
   */
  function Rank(n: nat): seq<nat> {
    seq(n, i requires 0 <= i < n =>
      if n == 2 then i
      else if i == 0 then 1
      else if i % 3 == 0 then 0
      else if i % 3 == 2 then 2
      else if i == n - 1 then 3
      else 4)
  }

  ghost predicate WellFormed(p: seq<Instr>, guard: seq<nat>) {
    && 0 < |p|
    && (forall j | 0 <= j < |p| :: InRange(|guard|, p[j]))
    && GuardedProgram(p, guard)
  }

  function At(c: nat, amount: int, d: nat): int {
    if c == d then amount else 0
  }

  lemma NestedIsGuarded(a: nat, x: int, b: nat, y: int, c: nat, z: int, guard: seq<nat>)
    requires a != b && b != c && a != c && a < |guard| && b < |guard| && c < |guard|
    requires guard[a] == a && guard[b] == b && guard[c] == c
    ensures WellFormed(Nested(a, x, b, y, c, z), guard)
  {
    NestedHeld(a, x, b, y, c, z);
  }

  lemma NestedIsOrdered(a: nat, x: int, b: nat, y: int, c: nat, z: int, rank: seq<nat>)
    requires a < |rank| && b < |rank| && c < |rank| && rank[a] < rank[b] < rank[c]
    ensures OrderedProgram(Nested(a, x, b, y, c, z), rank)
  {
    NestedHeld(a, x, b, y, c, z);
  }

  lemma NestedHeld(a: nat, x: int, b: nat, y: int, c: nat, z: int)
    requires a != b && b != c && a != c
    ensures var p := Nested(a, x, b, y, c, z);
      && Held(p, 0) == {} && Held(p, 1) == {a} && Held(p, 2) == {a} && Held(p, 3) == {a}
      && Held(p, 4) == {a, b} && Held(p, 5) == {a, b} && Held(p, 6) == {a, b}
      && Held(p, 7) == {a, b, c} && Held(p, 8) == {a, b, c} && Held(p, 9) == {a, b, c}
      && Held(p, 10) == {a, b} && Held(p, 11) == {a} && Held(p, 12) == {}
  {
    var p := Nested(a, x, b, y, c, z);
    assert Held(p, 1) == {a};
    assert Held(p, 2) == {a};
    assert Held(p, 3) == {a};
    assert Held(p, 4) == {a, b};
    assert Held(p, 5) == {a, b};
    assert Held(p, 6) == {a, b};
    assert Held(p, 7) == {a, b, c};
    assert Held(p, 8) == {a, b, c};
    assert Held(p, 9) == {a, b, c};
    assert Held(p, 10) == {a, b};
    assert Held(p, 11) == {a};
  }

  lemma NestedAdds(a: nat, x: int, b: nat, y: int, c: nat, z: int, d: nat)
    ensures Added(Nested(a, x, b, y, c, z), 12, d) == At(a, x, d) + At(b, y, d) + At(c, z, d)
  {
    var p := Nested(a, x, b, y, c, z);
    assert Added(p, 1, d) == 0;
    assert Added(p, 2, d) == 0;
    assert Added(p, 3, d) == At(a, x, d);
    assert Added(p, 5, d) == At(a, x, d);
    assert Added(p, 6, d) == At(a, x, d) + At(b, y, d);
    assert Added(p, 8, d) == At(a, x, d) + At(b, y, d);
    assert Added(p, 9, d) == At(a, x, d) + At(b, y, d) + At(c, z, d);
    assert Added(p, 11, d) == Added(p, 9, d);
  }

  lemma SingleHeld()
    ensures var p := Program(1, 0);
      && |p| == 8 && Held(p, 0) == {} && Held(p, 8) == {}
      && (forall pc | 1 <= pc <= 7 :: Held(p, pc) == {0})
  {
    var p := Program(1, 0);
    assert p == [Lock(0), Load(0), Store(0, TO_RIGHT), Load(0), Store(0, TO_LEFT), Load(0), Store(0, TO_MIDDLE), Unlock(0)];
    assert Held(p, 1) == {0};
    assert Held(p, 3) == {0};
    assert Held(p, 5) == {0};
    assert Held(p, 7) == {0};
  }

  lemma PairHeld(i: nat)
    requires i < 2
    ensures var p := Program(2, i);
      && p == [Lock(0), Load(i), Store(i, TO_MIDDLE), Lock(1), Load(1-i), Store(1-i, TO_LEFT),
               Load(1-i), Store(1-i, TO_RIGHT), Unlock(1), Unlock(0)]
      && Held(p, 0) == {} && Held(p, 10) == {}
      && (forall pc | 1 <= pc <= 9 :: Held(p, pc) == if 4 <= pc <= 8 then {0, 1} else {0})
  {
    var p := Program(2, i);
    assert p == [Lock(0), Load(i), Store(i, TO_MIDDLE), Lock(1), Load(1-i), Store(1-i, TO_LEFT),
                 Load(1-i), Store(1-i, TO_RIGHT), Unlock(1), Unlock(0)];
    assert Held(p, 1) == {0};
    assert Held(p, 3) == {0};
    assert Held(p, 4) == {0, 1};
    assert Held(p, 6) == {0, 1};
    assert Held(p, 8) == {0, 1};
    assert Held(p, 9) == {0};
  }

  lemma SingleIsGuarded()
    ensures WellFormed(Program(1, 0), Guard(1))
  {
    SingleHeld();
    var p := Program(1, 0);
    assert p == [Lock(0), Load(0), Store(0, TO_RIGHT), Load(0), Store(0, TO_LEFT), Load(0), Store(0, TO_MIDDLE), Unlock(0)];
    assert Guard(1)[0] == 0;
    forall j | 0 <= j < 8 ensures GuardedAt(p, j, Guard(1)) {
      assert 1 <= j <= 7 ==> Held(p, j) == {0};
    }
  }

  lemma PairIsGuarded(i: nat)
    requires i < 2
    ensures WellFormed(Program(2, i), Guard(2))
  {
    PairHeld(i);
    var p := Program(2, i);
    assert Guard(2)[i] == 0 && Guard(2)[1-i] == 0;
    forall j | 0 <= j < 10 ensures GuardedAt(p, j, Guard(2)) {
      assert 1 <= j <= 9 ==> 0 in Held(p, j);
    }
  }

  lemma ProgramIsGuarded(n: nat, i: nat)
    requires i < n
    ensures WellFormed(Program(n, i), Guard(n))
  {
    if n == 1 {
      SingleIsGuarded();
    } else if n == 2 {
      PairIsGuarded(i);
    } else {
      var left, right := Left(n, i), Right(n, i);
      if i % 3 == 2 {
        NestedIsGuarded(right, TO_RIGHT, i, TO_MIDDLE, left, TO_LEFT, Guard(n));
      } else if i % 3 == 0 {
        NestedIsGuarded(i, TO_MIDDLE, left, TO_LEFT, right, TO_RIGHT, Guard(n));
      } else {
        NestedIsGuarded(left, TO_LEFT, right, TO_RIGHT, i, TO_MIDDLE, Guard(n));
      }
    }
  }

  /** For every size, one mutex covers all accesses to each cell. */
  lemma RingIsGuarded(n: nat, rounds: nat)
    ensures Guarded(Ring(n, rounds), Guard(n))
  {
    forall i | 0 <= i < n ensures WellFormed(Program(n, i), Guard(n)) {
      ProgramIsGuarded(n, i);
    }
  }

  /** In the order of its locks, the three mutexes of a thread climb in rank. */
  lemma RanksClimb(n: nat, i: nat)
    requires 3 <= n && i < n && n % 3 != 1
    ensures i % 3 == 2 ==> Rank(n)[Right(n, i)] < Rank(n)[i] < Rank(n)[Left(n, i)]
    ensures i % 3 == 0 ==> Rank(n)[i] < Rank(n)[Left(n, i)] < Rank(n)[Right(n, i)]
    ensures i % 3 == 1 ==> Rank(n)[Left(n, i)] < Rank(n)[Right(n, i)] < Rank(n)[i]
  {
    var left, right := Left(n, i), Right(n, i);
    assert right % 3 == if i == n - 1 then 0 else if i % 3 == 2 then 0 else i % 3 + 1;
    assert left % 3 == if i == 0 then (if n % 3 == 0 then 2 else 1) else if i % 3 == 0 then 2 else i % 3 - 1;
  }

  lemma ProgramIsOrdered(n: nat, i: nat)
    requires i < n && (n == 1 || n % 3 != 1)
    ensures OrderedProgram(Program(n, i), Rank(n))
  {
    if n == 1 {
      SingleHeld();
    } else if n == 2 {
      PairIsOrdered(i);
    } else {
      RanksClimb(n, i);
      var left, right := Left(n, i), Right(n, i);
      if i % 3 == 2 {
        NestedIsOrdered(right, TO_RIGHT, i, TO_MIDDLE, left, TO_LEFT, Rank(n));
      } else if i % 3 == 0 {
        NestedIsOrdered(i, TO_MIDDLE, left, TO_LEFT, right, TO_RIGHT, Rank(n));
      } else {
        NestedIsOrdered(left, TO_LEFT, right, TO_RIGHT, i, TO_MIDDLE, Rank(n));
      }
    }
  }

  lemma PairIsOrdered(i: nat)
    requires i < 2
    ensures OrderedProgram(Program(2, i), Rank(2))
  {
    PairHeld(i);
    assert Rank(2) == [0, 1];
  }

  lemma RingIsOrdered(n: nat, rounds: nat)
    requires n == 1 || n % 3 != 1
    ensures Ordered(Ring(n, rounds), Rank(n))
  {
    forall i | 0 <= i < n ensures OrderedProgram(Program(n, i), Rank(n)) {
      ProgramIsOrdered(n, i);
    }
  }

  lemma SingleAdds(c: nat)
    ensures Added(Program(1, 0), 8, c) == At(0, TO_RIGHT, c) + At(0, TO_LEFT, c) + At(0, TO_MIDDLE, c)
  {
    SingleHeld();
    var p := Program(1, 0);
    assert Added(p, 1, c) == 0;
    assert Added(p, 3, c) == At(0, TO_RIGHT, c);
    assert Added(p, 5, c) == At(0, TO_RIGHT, c) + At(0, TO_LEFT, c);
    assert Added(p, 7, c) == At(0, TO_RIGHT, c) + At(0, TO_LEFT, c) + At(0, TO_MIDDLE, c);
  }

  lemma PairAdds(i: nat, c: nat)
    requires i < 2
    ensures Added(Program(2, i), 10, c) == At(i, TO_MIDDLE, c) + At(1 - i, TO_LEFT, c) + At(1 - i, TO_RIGHT, c)
  {
    PairHeld(i);
    var p := Program(2, i);
    assert Added(p, 1, c) == 0;
    assert Added(p, 3, c) == At(i, TO_MIDDLE, c);
    assert Added(p, 4, c) == At(i, TO_MIDDLE, c);
    assert Added(p, 6, c) == At(i, TO_MIDDLE, c) + At(1 - i, TO_LEFT, c);
    assert Added(p, 8, c) == At(i, TO_MIDDLE, c) + At(1 - i, TO_LEFT, c) + At(1 - i, TO_RIGHT, c);
    assert Added(p, 9, c) == Added(p, 8, c);
  }

  /** In every size of ring, one iteration of thread i adds to its left, own and right cell. */
  lemma ProgramAdds(n: nat, i: nat, c: nat)
    requires i < n
    ensures Added(Program(n, i), |Program(n, i)|, c) ==
            (if c == Left(n, i) then 99 else 0) + (if c == i then 100 else 0) + if c == Right(n, i) then 101 else 0
  {
    var left, right := Left(n, i), Right(n, i);
    if n == 1 {
      SingleAdds(c);
    } else if n == 2 {
      PairAdds(i, c);
    } else if i % 3 == 2 {
      NestedAdds(right, TO_RIGHT, i, TO_MIDDLE, left, TO_LEFT, c);
    } else if i % 3 == 0 {
      NestedAdds(i, TO_MIDDLE, left, TO_LEFT, right, TO_RIGHT, c);
    } else {
      NestedAdds(left, TO_LEFT, right, TO_RIGHT, i, TO_MIDDLE, c);
    }
  }

  /** Seen from cell c: only its own thread and its two neighbours add to it. */
  lemma CellGets(n: nat, t: nat, c: nat)
    requires t < n && c < n
    ensures Added(Program(n, t), |Program(n, t)|, c) ==
            (if Right(n, c) == t then TO_LEFT else 0) + (if c == t then TO_MIDDLE else 0)
            + (if Left(n, c) == t then TO_RIGHT else 0)
  {
    ProgramAdds(n, t, c);
  }

  /** What one program adds to a cell that thread `own` calls its own and l and r a neighbour's. */
  function Gets(t: nat, l: nat, own: nat, r: nat): int {
    (if r == t then TO_LEFT else 0) + (if own == t then TO_MIDDLE else 0) + if l == t then TO_RIGHT else 0
  }

  lemma {:induction false} RingAdds(programs: seq<seq<Instr>>, c: nat, m: nat, l: nat, r: nat)
    requires m <= |programs|
    requires forall t | 0 <= t < |programs| :: Added(programs[t], |programs[t]|, c) == Gets(t, l, c, r)
    ensures PerRound(programs, c, m) ==
            (if r < m then TO_LEFT else 0) + (if c < m then TO_MIDDLE else 0) + if l < m then TO_RIGHT else 0
  {
    if m > 0 {
      RingAdds(programs, c, m-1, l, r);
    }
  }

  lemma RingTotal(n: nat, rounds: nat, c: nat)
    requires c < n
    ensures PerRound(Ring(n, rounds).programs, c, |Ring(n, rounds).programs|) == 300
  {
    var programs := Ring(n, rounds).programs;
    forall t | 0 <= t < n ensures Added(programs[t], |programs[t]|, c) == Gets(t, Left(n, c), c, Right(n, c)) {
      CellGets(n, t, c);
    }
    RingAdds(programs, c, n, Left(n, c), Right(n, c));
  }

  // ----- main results -----

  /** Whatever the schedule, a finished ring holds 3.00 times the iteration count in each cell. */
  lemma FinalValues(n: nat, rounds: nat, s: State, c: nat)
    requires Reachable(Init(Ring(n, rounds)), Step(Ring(n, rounds)), s)
    requires Finished(Ring(n, rounds), s) && c < n
    ensures c < |s.cells| && s.cells[c] == 300 * rounds
  {
    RingIsGuarded(n, rounds);
    RingTotal(n, rounds, c);
    FinishedCells(Ring(n, rounds), Guard(n), s, c, 300);
  }

  // ----- the sizes 1 mod 3 above 1: threads 0 and n-1 can block each other -----

  /** Threads u and v stand before their second and their third lock. */
  ghost predicate StandAt(sys: System, guard: seq<nat>, s: State, u: nat, v: nat) {
    && Inv(sys, guard, s) && u < |s.threads| && v < |s.threads|
    && s.threads[u].round < sys.rounds && s.threads[u].pc == 3
    && s.threads[v].round < sys.rounds && s.threads[v].pc == 6
  }

  /** Thread 0 holds mutex 0 and wants n-1; thread n-1 holds n-1 and wants 0. */
  ghost predicate Jammed(n: nat, rounds: nat, s: State) {
    n >= 4 && n % 3 == 1 && StandAt(Ring(n, rounds), Guard(n), s, 0, n-1)
  }

  lemma JamPrograms(n: nat)
    requires n >= 4 && n % 3 == 1
    ensures Program(n, 0) == Nested(0, TO_MIDDLE, n-1, TO_LEFT, 1, TO_RIGHT)
    ensures Program(n, n-1) == Nested(n-1, TO_MIDDLE, n-2, TO_LEFT, 0, TO_RIGHT)
    ensures Held(Program(n, 0), 3) == {0}
    ensures Held(Program(n, n-1), 6) == {n-1, n-2}
  {
    NestedHeld(0, TO_MIDDLE, n-1, TO_LEFT, 1, TO_RIGHT);
    NestedHeld(n-1, TO_MIDDLE, n-2, TO_LEFT, 0, TO_RIGHT);
  }

  lemma JamBlocks(n: nat, rounds: nat, s: State)
    requires Jammed(n, rounds, s)
    ensures !Enabled(Ring(n, rounds), s, 0) && !Enabled(Ring(n, rounds), s, n-1)
  {
    JamPrograms(n);
    assert ThreadInv(Ring(n, rounds), s, 0);
    assert ThreadInv(Ring(n, rounds), s, n-1);
    assert s.owner[0] == HeldBy(0) && s.owner[n-1] == HeldBy(n-1);
  }

  lemma JammedStep(n: nat, rounds: nat, s: State, t: nat)
    requires Jammed(n, rounds, s) && Step(Ring(n, rounds))(s, t).Some?
    ensures Jammed(n, rounds, Step(Ring(n, rounds))(s, t).value)
  {
    JamBlocks(n, rounds, s);
    StillStand(Ring(n, rounds), Guard(n), s, t, 0, n-1);
  }

  /** Two threads that cannot move stay where they are. */
  lemma StillStand(sys: System, guard: seq<nat>, s: State, t: nat, u: nat, v: nat)
    requires StandAt(sys, guard, s, u, v) && Step(sys)(s, t).Some?
    requires !Enabled(sys, s, u) && !Enabled(sys, s, v)
    ensures StandAt(sys, guard, Step(sys)(s, t).value, u, v)
  {
    OthersStay(sys, guard, s, t, u, v);
  }

  /** A step of another thread leaves two threads where they are. */
  lemma OthersStay(sys: System, guard: seq<nat>, s: State, t: nat, u: nat, v: nat)
    requires Inv(sys, guard, s) && Enabled(sys, s, t)
    requires u < |s.threads| && v < |s.threads| && t != u && t != v
    ensures Inv(sys, guard, Next(sys, s, t))
    ensures |Next(sys, s, t).threads| == |s.threads|
    ensures Next(sys, s, t).threads[u] == s.threads[u] && Next(sys, s, t).threads[v] == s.threads[v]
  {
    NextInv(sys, guard, s, t);
  }

  /** Once jammed, the two threads stay blocked whatever the others do. */
  lemma JammedForever(n: nat, rounds: nat, s: State, sched: seq<nat>)
    requires Jammed(n, rounds, s)
    ensures var r := Exec(s, Step(Ring(n, rounds)), sched);
      r.Some? ==> Jammed(n, rounds, r.value) && !Finished(Ring(n, rounds), r.value)
  {
    var sys := Ring(n, rounds);
    forall x, t | Jammed(n, rounds, x) && Step(sys)(x, t).Some? ensures Jammed(n, rounds, Step(sys)(x, t).value) {
      JammedStep(n, rounds, x, t);
    }
    AlwaysAfter(s, Step(sys), x => Jammed(n, rounds, x), sched);
  }

  /** Thread t, whose current instruction is known, takes one step. */
  lemma Go(sys: System, s: State, t: nat, i: Instr) returns (s': State)
    requires Runnable(sys) && Shaped(sys, s) && Unfinished(sys, s, t)
    requires Reachable(Init(sys), Step(sys), s)
    requires s.threads[t].pc + 1 < |sys.programs[t]| && sys.programs[t][s.threads[t].pc] == i
    requires !i.Unlock? && (i.Lock? ==> s.owner[i.m] == Free)
    ensures Reachable(Init(sys), Step(sys), s') && Shaped(sys, s')
    ensures s'.threads[t].pc == s.threads[t].pc + 1 && s'.threads[t].round == s.threads[t].round
    ensures forall u | 0 <= u < |s.threads| && u != t :: s'.threads[u] == s.threads[u]
    ensures s'.owner == if i.Lock? then s.owner[i.m := HeldBy(t)] else s.owner
  {
    s' := Next(sys, s, t);
    OneMore(Init(sys), Step(sys), s, t);
  }

  /** Thread 0 runs up to its second lock, then thread n-1 up to its third. */
  lemma CanJam(n: nat, rounds: nat) returns (s: State)
    requires n >= 4 && n % 3 == 1 && rounds > 0
    ensures Reachable(Init(Ring(n, rounds)), Step(Ring(n, rounds)), s)
    ensures Jammed(n, rounds, s)
  {
    var sys := Ring(n, rounds);
    RingIsGuarded(n, rounds);
    JamPrograms(n);
    s := BothTake(sys, 0, n-1, 0, TO_MIDDLE, n-1, TO_LEFT, 1, TO_RIGHT, n-1, TO_MIDDLE, n-2, TO_LEFT, 0, TO_RIGHT);
    ReachableInv(sys, Guard(n), s);
  }

  /** Thread t takes mutex m, which is free, and adds to its cell. */
  lemma Takes(sys: System, s: State, t: nat, m: nat, amount: int) returns (s': State)
    requires Runnable(sys) && Shaped(sys, s) && Unfinished(sys, s, t) && Reachable(Init(sys), Step(sys), s)
    requires s.threads[t].pc + 3 < |sys.programs[t]|
    requires sys.programs[t][s.threads[t].pc..s.threads[t].pc + 3] == [Lock(m), Load(m), Store(m, amount)]
    requires m < |s.owner| && s.owner[m] == Free
    ensures Reachable(Init(sys), Step(sys), s') && Shaped(sys, s')
    ensures s'.threads[t].pc == s.threads[t].pc + 3 && s'.threads[t].round == s.threads[t].round
    ensures forall u | 0 <= u < |s.threads| && u != t :: s'.threads[u] == s.threads[u]
    ensures s'.owner == s.owner[m := HeldBy(t)]
  {
    var three := sys.programs[t][s.threads[t].pc..s.threads[t].pc + 3];
    s' := Go(sys, s, t, three[0]);
    s' := Go(sys, s', t, three[1]);
    s' := Go(sys, s', t, three[2]);
  }

  /** The first two locks of a thread with three nested ones. */
  lemma NestedStarts(a: nat, x: int, b: nat, y: int, c: nat, z: int)
    ensures var p := Nested(a, x, b, y, c, z);
      && |p| == 12 && p[0..3] == [Lock(a), Load(a), Store(a, x)] && p[3..6] == [Lock(b), Load(b), Store(b, y)]
  {
  }

  lemma TakesFirst(sys: System, s: State, t: nat, a: nat, x: int, b: nat, y: int, c: nat, z: int) returns (s': State)
    requires Runnable(sys) && Shaped(sys, s) && Unfinished(sys, s, t) && Reachable(Init(sys), Step(sys), s)
    requires sys.programs[t] == Nested(a, x, b, y, c, z) && s.threads[t].pc == 0
    requires a < |s.owner| && s.owner[a] == Free
    ensures Reachable(Init(sys), Step(sys), s') && Shaped(sys, s')
    ensures s'.threads[t].pc == 3 && s'.threads[t].round == s.threads[t].round
    ensures forall u | 0 <= u < |s.threads| && u != t :: s'.threads[u] == s.threads[u]
    ensures s'.owner == s.owner[a := HeldBy(t)]
  {
    NestedStarts(a, x, b, y, c, z);
    s' := Takes(sys, s, t, a, x);
  }

  lemma TakesTwo(sys: System, s: State, t: nat, a: nat, x: int, b: nat, y: int, c: nat, z: int) returns (s': State)
    requires Runnable(sys) && Shaped(sys, s) && Unfinished(sys, s, t) && Reachable(Init(sys), Step(sys), s)
    requires sys.programs[t] == Nested(a, x, b, y, c, z) && s.threads[t].pc == 0
    requires a < |s.owner| && s.owner[a] == Free && b < |s.owner| && s.owner[b] == Free && a != b
    ensures Reachable(Init(sys), Step(sys), s') && Shaped(sys, s')
    ensures s'.threads[t].pc == 6 && s'.threads[t].round == s.threads[t].round
    ensures forall u | 0 <= u < |s.threads| && u != t :: s'.threads[u] == s.threads[u]
  {
    NestedStarts(a, x, b, y, c, z);
    s' := TakesFirst(sys, s, t, a, x, b, y, c, z);
    s' := Takes(sys, s', t, b, y);
  }

  /** Thread u takes its first mutex and then thread v its first two. */
  lemma BothTake(sys: System, u: nat, v: nat, a: nat, x: int, b: nat, y: int, c: nat, z: int,
      a': nat, x': int, b': nat, y': int, c': nat, z': int) returns (s: State)
    requires Runnable(sys) && sys.rounds > 0 && u < |sys.programs| && v < |sys.programs| && u != v
    requires a < sys.size && a' < sys.size && b' < sys.size && a != a' && a != b' && a' != b'
    requires sys.programs[u] == Nested(a, x, b, y, c, z) && sys.programs[v] == Nested(a', x', b', y', c', z')
    ensures Reachable(Init(sys), Step(sys), s) && Shaped(sys, s)
    ensures s.threads[u].round == 0 && s.threads[u].pc == 3 && s.threads[v].round == 0 && s.threads[v].pc == 6
  {
    Initially(Init(sys), Step(sys));
    s := TakesFirst(sys, Init(sys), u, a, x, b, y, c, z);
    s := TakesTwo(sys, s, v, a', x', b', y', c', z');
  }

  // ----- where else such a ring can stop -----

  /** The mutexes of thread i in the order in which it takes them. */
  function Locks(n: nat, i: nat): (nat, nat, nat)
    requires i < n
  {
    if i % 3 == 2 then (Right(n, i), i, Left(n, i))
    else if i % 3 == 0 then (i, Left(n, i), Right(n, i))
    else (Left(n, i), Right(n, i), i)
  }

  lemma ProgramHolds(n: nat, i: nat)
    requires n >= 3 && i < n
    ensures var (a, b, c), p := Locks(n, i), Program(n, i);
      && |p| == 12 && p[0] == Lock(a) && p[3] == Lock(b) && p[6] == Lock(c)
      && (forall pc | 0 <= pc < 12 && p[pc].Lock? :: pc == 0 || pc == 3 || pc == 6)
      && Held(p, 0) == {} && Held(p, 3) == {a} && Held(p, 6) == {a, b}
  {
    var left, right := Left(n, i), Right(n, i);
    if i % 3 == 2 {
      NestedHeld(right, TO_RIGHT, i, TO_MIDDLE, left, TO_LEFT);
    } else if i % 3 == 0 {
      NestedHeld(i, TO_MIDDLE, left, TO_LEFT, right, TO_RIGHT);
    } else {
      NestedHeld(left, TO_LEFT, right, TO_RIGHT, i, TO_MIDDLE);
    }
  }

  /** A ranking for n = 1 modulo 3: all locks climb but the last one of thread n-1. */
  function RankButOne(n: nat): seq<nat> {
    seq(n, i requires 0 <= i < n => if i == 0 then 0 else if i % 3 == 0 then 1 else if i % 3 == 2 then 2 else 3)
  }

  lemma LocksClimb(n: nat, i: nat)
    requires n >= 4 && n % 3 == 1 && i < n
    ensures var (a, b, c), rank := Locks(n, i), RankButOne(n);
      rank[a] < rank[b] && (i != n - 1 ==> rank[b] < rank[c])
  {
    assert Right(n, i) % 3 == if i == n - 1 then 0 else (i + 1) % 3;
    assert i != 0 ==> Left(n, i) % 3 == (i + 2) % 3;
  }

  /** Every thread takes a mutex at a position 1 modulo 3 last. */
  lemma TakenLast(n: nat, i: nat, m: nat)
    requires n >= 4 && n % 3 == 1 && i < n && m % 3 == 1
    ensures Locks(n, i).0 != m && Locks(n, i).1 != m
  {
    assert Right(n, i) % 3 == if i == n - 1 then 0 else (i + 1) % 3;
    assert i != 0 ==> Left(n, i) % 3 == (i + 2) % 3;
  }

  /** A thread that waits stands before one of its locks and holds those before it. */
  ghost predicate StandsAt(n: nat, rounds: nat, s: State, t: nat, wants: nat)
    requires t < n && |s.threads| == n
  {
    var (a, b, c), th := Locks(n, t), s.threads[t];
    && th.round < rounds
    && ((th.pc == 0 && wants == a) || (th.pc == 3 && wants == b) || (th.pc == 6 && wants == c))
  }

  lemma WaitsAtLock(n: nat, rounds: nat, s: State, t: nat) returns (wants: nat, u: nat)
    requires n >= 3 && Inv(Ring(n, rounds), Guard(n), s) && Waits(Ring(n, rounds), s, t)
    ensures t < n == |s.threads| && StandsAt(n, rounds, s, t, wants)
    ensures Unfinished(Ring(n, rounds), s, u) && wants in Held(Program(n, u), s.threads[u].pc)
  {
    wants, u := WaitsForHolder(Ring(n, rounds), Guard(n), s, t);
    ProgramHolds(n, t);
  }

  /** A waiting thread that holds a mutex has taken it first or second. */
  lemma HoldsWhileWaiting(n: nat, rounds: nat, s: State, u: nat, m: nat)
    requires n >= 3 && Inv(Ring(n, rounds), Guard(n), s) && Waits(Ring(n, rounds), s, u)
    requires m in Held(Program(n, u), s.threads[u].pc)
    ensures (m == Locks(n, u).0 && s.threads[u].pc >= 3) || (m == Locks(n, u).1 && s.threads[u].pc == 6)
    ensures s.threads[u].pc == 3 || s.threads[u].pc == 6
  {
    var wants, _ := WaitsAtLock(n, rounds, s, u);
    ProgramHolds(n, u);
  }

  /** Only one thread holds a mutex. */
  lemma HeldOnce(sys: System, guard: seq<nat>, s: State, u: nat, v: nat, m: nat)
    requires Inv(sys, guard, s) && u < |s.threads| && v < |s.threads| && m < sys.size
    requires m in Held(sys.programs[u], s.threads[u].pc) && m in Held(sys.programs[v], s.threads[v].pc)
    ensures u == v
  {
    assert ThreadInv(sys, s, u) && ThreadInv(sys, s, v);
  }

  /** Nothing moves although a thread has work left. */
  ghost predicate Stopped(n: nat, rounds: nat, s: State) {
    Inv(Ring(n, rounds), Guard(n), s) && Stuck(Step(Ring(n, rounds)), s) && !Finished(Ring(n, rounds), s)
  }

  lemma StoppedWaits(n: nat, rounds: nat, s: State, t: nat)
    requires Stopped(n, rounds, s) && Unfinished(Ring(n, rounds), s, t)
    ensures Waits(Ring(n, rounds), s, t)
  {
    assert Step(Ring(n, rounds))(s, t).None?;
  }

  /** When nothing moves, nobody waits for a mutex at a position 1 modulo 3: its holder would not wait. */
  lemma NotForLast(n: nat, rounds: nat, s: State, t: nat) returns (wants: nat, u: nat)
    requires n >= 4 && n % 3 == 1 && Stopped(n, rounds, s) && Unfinished(Ring(n, rounds), s, t)
    ensures t < n == |s.threads| && StandsAt(n, rounds, s, t, wants) && wants % 3 != 1
    ensures u < n && s.threads[u].round < rounds && wants in Held(Program(n, u), s.threads[u].pc)
    ensures (wants == Locks(n, u).0 && s.threads[u].pc >= 3) || (wants == Locks(n, u).1 && s.threads[u].pc == 6)
    ensures s.threads[u].pc == 3 || s.threads[u].pc == 6
  {
    StoppedWaits(n, rounds, s, t);
    wants, u := WaitsAtLock(n, rounds, s, t);
    StoppedWaits(n, rounds, s, u);
    HoldsWhileWaiting(n, rounds, s, u, wants);
    if wants % 3 == 1 {
      TakenLast(n, u, wants);
    }
  }

  /** Thread n-1 is the one that breaks the order: it waits for its third mutex. */
  lemma LastThreadWaits(n: nat, rounds: nat, s: State)
    requires n >= 4 && n % 3 == 1 && Stopped(n, rounds, s)
    ensures |s.threads| == n && s.threads[n-1].round < rounds && s.threads[n-1].pc == 6
  {
    var sys, rank := Ring(n, rounds), RankButOne(n);
    var t :| 0 <= t < |s.threads| && s.threads[t].round != rounds;
    var u := SomeoneIsToBlame(sys, Guard(n), rank, Top(rank), s, t);
    StoppedWaits(n, rounds, s, u);
    var wants, _ := WaitsAtLock(n, rounds, s, u);
    ProgramHolds(n, u);
    LocksClimb(n, u);
  }

  /** Only in a ring of four: thread 1 holds mutex 0 and wants 2; thread 3 holds 3 and 2 and wants 0. */
  ghost predicate JammedAcross(rounds: nat, s: State) {
    StandAt(Ring(4, rounds), Guard(4), s, 1, 3)
  }

  /** This jam can be reached too, and neither thread can leave it. */
  lemma CanJamAcross(rounds: nat) returns (s: State)
    requires rounds > 0
    ensures Reachable(Init(Ring(4, rounds)), Step(Ring(4, rounds)), s) && JammedAcross(rounds, s)
  {
    var sys := Ring(4, rounds);
    RingIsGuarded(4, rounds);
    AcrossPrograms();
    s := BothTake(sys, 1, 3, 0, TO_LEFT, 2, TO_RIGHT, 1, TO_MIDDLE, 3, TO_MIDDLE, 2, TO_LEFT, 0, TO_RIGHT);
    ReachableInv(sys, Guard(4), s);
  }

  lemma AcrossPrograms()
    ensures Program(4, 1) == Nested(0, TO_LEFT, 2, TO_RIGHT, 1, TO_MIDDLE)
    ensures Program(4, 3) == Nested(3, TO_MIDDLE, 2, TO_LEFT, 0, TO_RIGHT)
  {
  }

  lemma AcrossBlocks(rounds: nat, s: State)
    requires JammedAcross(rounds, s)
    ensures !Enabled(Ring(4, rounds), s, 1) && !Enabled(Ring(4, rounds), s, 3)
  {
    ProgramHolds(4, 1);
    ProgramHolds(4, 3);
    assert ThreadInv(Ring(4, rounds), s, 1);
    assert ThreadInv(Ring(4, rounds), s, 3);
    assert s.owner[0] == HeldBy(1) && s.owner[2] == HeldBy(3);
  }

  /** Every state in which the ring has stopped unfinished is one of these jams. */
  lemma StopsOnlyJammed(n: nat, rounds: nat, s: State)
    requires n >= 4 && n % 3 == 1
    requires Reachable(Init(Ring(n, rounds)), Step(Ring(n, rounds)), s)
    requires Stuck(Step(Ring(n, rounds)), s) && !Finished(Ring(n, rounds), s)
    ensures Jammed(n, rounds, s) || (n == 4 && JammedAcross(rounds, s))
  {
    RingIsGuarded(n, rounds);
    ReachableInv(Ring(n, rounds), Guard(n), s);
    LastThreadWaits(n, rounds, s);
    StoppedAroundZero(n, rounds, s);
  }

  /** Mutex 0, for which thread n-1 waits, is held by thread 0 or, in a ring of four, by thread 1. */
  lemma StoppedAroundZero(n: nat, rounds: nat, s: State)
    requires n >= 4 && n % 3 == 1 && Stopped(n, rounds, s)
    requires |s.threads| == n && s.threads[n-1].round < rounds && s.threads[n-1].pc == 6
    ensures (s.threads[0].round < rounds && s.threads[0].pc == 3)
         || (n == 4 && s.threads[1].round < rounds && s.threads[1].pc == 3)
  {
    var u := ZeroIsHeld(n, rounds, s);
    if u == 0 {
      FirstHoldsOne(n, rounds, s);
    } else {
      FourOnly(n, rounds, s);
    }
  }

  lemma LastLocks(n: nat)
    requires n >= 4 && n % 3 == 1
    ensures Locks(n, n-1) == (n-1, n-2, 0)
  {
  }

  lemma ZeroIsHeld(n: nat, rounds: nat, s: State) returns (u: nat)
    requires n >= 4 && n % 3 == 1 && Stopped(n, rounds, s)
    requires |s.threads| == n && s.threads[n-1].round < rounds && s.threads[n-1].pc == 6
    ensures u == 0 || u == 1
    ensures s.threads[u].round < rounds && (s.threads[u].pc == 3 || s.threads[u].pc == 6)
  {
    var zero, holder := NotForLast(n, rounds, s, n-1);
    LastLocks(n);
    HolderOfZero(n, holder);
    u := holder;
  }

  /** Thread 0 cannot have taken mutex n-1 too, which thread n-1 holds. */
  lemma FirstHoldsOne(n: nat, rounds: nat, s: State)
    requires n >= 4 && n % 3 == 1 && Stopped(n, rounds, s)
    requires |s.threads| == n && s.threads[n-1].pc == 6 && (s.threads[0].pc == 3 || s.threads[0].pc == 6)
    ensures s.threads[0].pc == 3
  {
    if s.threads[0].pc == 6 {
      ProgramHolds(n, 0);
      ProgramHolds(n, n-1);
      HeldOnce(Ring(n, rounds), Guard(n), s, 0, n-1, n-1);
    }
  }

  /** Only threads 0 and 1 take mutex 0 before their last. */
  lemma HolderOfZero(n: nat, u: nat)
    requires n >= 4 && n % 3 == 1 && u < n && (Locks(n, u).0 == 0 || Locks(n, u).1 == 0)
    ensures u == 0 || u == 1
  {
  }

  /** If thread 1 is the one in the way, it waits for mutex 2 ... */
  lemma OneWantsTwo(n: nat, rounds: nat, s: State) returns (w: nat)
    requires n >= 4 && n % 3 == 1 && Stopped(n, rounds, s) && Unfinished(Ring(n, rounds), s, 1)
    requires |s.threads| == n && (s.threads[1].pc == 3 || s.threads[1].pc == 6)
    ensures s.threads[1].pc == 3 && w < n && s.threads[w].round < rounds && w != 1
    ensures (Locks(n, w).0 == 2 && s.threads[w].pc >= 3) || (Locks(n, w).1 == 2 && s.threads[w].pc == 6)
  {
    FirstLocks(n);
    var two, holder := NotForLast(n, rounds, s, 1);
    w := holder;
  }

  lemma FirstLocks(n: nat)
    requires n >= 4 && n % 3 == 1
    ensures Locks(n, 1) == (0, 2, 1)
  {
  }

  /** ... which thread 3 holds, whose third mutex is 0 only for n = 4. */
  lemma FourOnly(n: nat, rounds: nat, s: State)
    requires n >= 4 && n % 3 == 1 && Stopped(n, rounds, s) && Unfinished(Ring(n, rounds), s, 1)
    requires |s.threads| == n && (s.threads[1].pc == 3 || s.threads[1].pc == 6)
    ensures n == 4 && s.threads[1].pc == 3 && s.threads[3].round < rounds && s.threads[3].pc == 6
  {
    var w := OneWantsTwo(n, rounds, s);
    SecondOnly(n, w);
    ThirdWanted(n, rounds, s, w);
    HolderOfTwo(n, w);
  }

  lemma ThirdWanted(n: nat, rounds: nat, s: State, w: nat)
    requires n >= 4 && n % 3 == 1 && Stopped(n, rounds, s) && Unfinished(Ring(n, rounds), s, w)
    requires |s.threads| == n && s.threads[w].pc == 6
    ensures Locks(n, w).2 % 3 != 1
  {
    var wants, _ := NotForLast(n, rounds, s, w);
  }

  lemma SecondOnly(n: nat, w: nat)
    requires n >= 4 && n % 3 == 1 && w < n
    ensures Locks(n, w).0 != 2
  {
  }

  lemma HolderOfTwo(n: nat, w: nat)
    requires n >= 4 && n % 3 == 1 && w < n && w != 1 && Locks(n, w).1 == 2 && Locks(n, w).2 % 3 != 1
    ensures n == 4 && w == 3
  {
  }

  /**
   The ring is free of deadlock exactly when there is nothing to do, there is one thread,
   or the number of threads is not 1 modulo 3.
   */
  lemma DeadlockFreeExactly(n: nat, rounds: nat)
    ensures DeadlockFree(Ring(n, rounds)) <==> rounds == 0 || n == 1 || n % 3 != 1
  {
    var sys := Ring(n, rounds);
    RingIsGuarded(n, rounds);
    if rounds == 0 {
      forall s | Reachable(Init(sys), Step(sys), s) ensures Finished(sys, s) {
        ReachableInv(sys, Guard(n), s);
      }
    } else if n == 1 || n % 3 != 1 {
      RingIsOrdered(n, rounds);
      OrderedIsDeadlockFree(sys, Guard(n), Rank(n));
    } else {
      var s := CanJam(n, rounds);
      StepsKeepInv(sys, Guard(n));
      StepsDescend(sys, Guard(n));
      var last, sched := RunsOut(Init(sys), Step(sys), x => Inv(sys, Guard(n), x), Measure(sys), s);
      JammedForever(n, rounds, s, sched);
    }
  }

  // ----- every run ends -----

  /** No schedule is longer than 12 instructions for each iteration of each thread. */
  lemma RunsAreFinite(n: nat, rounds: nat, sched: seq<nat>)
    ensures Exec(Init(Ring(n, rounds)), Step(Ring(n, rounds)), sched).Some? ==> |sched| <= n * 12 * rounds
  {
    RingIsGuarded(n, rounds);
    forall t | 0 <= t < n ensures |Program(n, t)| <= 12 {}
    GuardedRunsAreFinite(Ring(n, rounds), Guard(n), 12, sched);
  }

  /** For every size some schedule brings every thread to its end, also where others deadlock. */
  lemma CanFinish(n: nat, rounds: nat) returns (s: State)
    ensures Reachable(Init(Ring(n, rounds)), Step(Ring(n, rounds)), s)
    ensures |s.threads| == n && forall t | 0 <= t < n :: s.threads[t].round == rounds
  {
    RingIsGuarded(n, rounds);
    s := SomeRunFinishes(Ring(n, rounds), Guard(n));
    ReachableInv(Ring(n, rounds), Guard(n), s);
  }

  /**
   The whole program under an arbitrary schedule, which ends in the state `last`: `joined` tells
   whether every thread came to its end, which is certain for the sizes that cannot deadlock.
   */
  method Run(n: nat, rounds: nat) returns (joined: bool, buffer: seq<int>, ghost last: State)
    ensures Reachable(Init(Ring(n, rounds)), Step(Ring(n, rounds)), last) && Stuck(Step(Ring(n, rounds)), last)
    ensures |last.threads| == n && (joined <==> forall t | 0 <= t < n :: last.threads[t].round == rounds)
    ensures buffer == last.cells && |buffer| == n
    ensures rounds == 0 || n == 1 || n % 3 != 1 ==> joined
    ensures joined ==> forall c | 0 <= c < n :: buffer[c] == 300 * rounds
  {
    var machine := new Machine(Ring(n, rounds));
    RingIsGuarded(n, rounds);
    machine.RunAll(Guard(n));
    DeadlockFreeExactly(n, rounds);
    joined := forall t | 0 <= t < |machine.threads| :: machine.threads[t].round == rounds;
    buffer := machine.cells;
    last := machine.Snapshot();
    ReachableInv(Ring(n, rounds), Guard(n), last);
    if joined {
      forall c | 0 <= c < n ensures buffer[c] == 300 * rounds {
        FinalValues(n, rounds, last, c);
      }
    }
  }
}
