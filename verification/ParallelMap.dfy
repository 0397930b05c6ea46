/**
 pmap_process of inf20-1.c: `procs` worker processes apply a function to disjoint parts of
 an array in shared memory, and the parent waits for them on a semaphore.
 */
module ParallelMap {
  import opened Runs
  import opened Arithmetic

  /** The mapping of shared memory is filled with `zero`. */
  datatype Job<!T> = Job(input: seq<T>, func: T -> T, procs: nat, zero: T)

  datatype Parent =
    | Forking(next: nat)
    | Waiting(next: nat)   // sem_wait
    | Joining(next: nat)   // waitpid
    | Returned

  datatype Worker =
    | Unborn
    | Loop(j: nat)
    | Extra
    | Post                 // sem_post
    | Exiting
    | Gone

  /** `writes` counts the stores to each element. */
  datatype State<T> = State(parent: Parent, workers: seq<Worker>, sem: nat, buffer: seq<T>, writes: seq<nat>)

  datatype Move = ParentMoves | WorkerMoves(i: nat)

  function Init<T>(job: Job<T>): State<T> {
    var count := |job.input|;
    State(Forking(0), seq(job.procs, _ => Unborn), 0, seq(count, _ => job.zero), seq(count, _ => 0))
  }

  function Work<T>(job: Job<T>): nat {
    if job.procs == 0 then 0 else |job.input| / job.procs
  }

  function Remainder<T>(job: Job<T>): nat {
    if job.procs == 0 then 0 else |job.input| % job.procs
  }

  /** buffer[k] = func (in[k]) */
  function Store<T>(job: Job<T>, s: State<T>, k: nat): Option<State<T>> {
    if k < |job.input| && k < |s.buffer| && k < |s.writes|
    then Some(s.(buffer := s.buffer[k := job.func(job.input[k])], writes := s.writes[k := s.writes[k] + 1]))
    else None
  }

  function To<T>(s: State<T>, i: nat, w: Worker): State<T>
    requires i < |s.workers|
  {
    s.(workers := s.workers[i := w])
  }

  function WorkerStep<T>(job: Job<T>, s: State<T>, i: nat): Option<State<T>>
    requires i < |s.workers|
  {
    match s.workers[i]
    case Unborn => None
    case Loop(j) =>
      if j < Work(job) then Store(job, To(s, i, Loop(j + 1)), Times(i, Work(job)) + j)
      else Some(To(s, i, if i < Remainder(job) then Extra else Post))
    case Extra => Store(job, To(s, i, Post), Times(job.procs, Work(job)) + i)
    case Post => Some(To(s, i, Exiting).(sem := s.sem + 1))
    case Exiting => Some(To(s, i, Gone))
    case Gone => None
  }

  function ParentStep<T>(job: Job<T>, s: State<T>): Option<State<T>> {
    match s.parent
    case Forking(i) =>
      Some(if i < |s.workers| then To(s, i, Loop(0)).(parent := Forking(i + 1)) else s.(parent := Waiting(0)))
    case Waiting(i) =>
      if i >= |s.workers| then Some(s.(parent := Joining(0)))
      else if s.sem > 0 then Some(s.(sem := s.sem - 1, parent := Waiting(i + 1)))
      else None
    case Joining(i) =>
      if i >= |s.workers| then Some(s.(parent := Returned))
      else if s.workers[i].Gone? then Some(s.(parent := Joining(i + 1)))
      else None
    case Returned => None
  }

  function Next<T>(job: Job<T>, s: State<T>, m: Move): Option<State<T>> {
    match m
    case ParentMoves => ParentStep(job, s)
    case WorkerMoves(i) => if i < |s.workers| then WorkerStep(job, s, i) else None
  }

  function Step<T>(job: Job<T>): (State<T>, Move) -> Option<State<T>> {
    (s: State<T>, m: Move) => Next(job, s, m)
  }

  // ----- the partition of the elements -----

  predicate InBlock(work: nat, i: nat, k: nat) {
    Times(i, work) <= k < Times(i, work) + work
  }

  predicate Owns<T>(job: Job<T>, i: nat, k: nat) {
    InBlock(Work(job), i, k) || k == Times(job.procs, Work(job)) + i
  }

  lemma BlocksAreApart(work: nat, i: nat, i': nat)
    requires i < i'
    ensures Times(i, work) + work <= Times(i', work)
  {
    MulMonotone(i + 1, i', work, work);
  }

  lemma SizesAddUp<T>(job: Job<T>)
    requires job.procs > 0
    ensures Times(job.procs, Work(job)) + Remainder(job) == |job.input| && Remainder(job) < job.procs
  {
  }

  /** Every element belongs to exactly one worker ... */
  lemma OwnerIsUnique<T>(job: Job<T>, i: nat, i': nat, k: nat)
    requires i < job.procs && i' < job.procs && Owns(job, i, k) && Owns(job, i', k)
    ensures i == i'
  {
    BlocksAreApart(Work(job), i, job.procs);
    BlocksAreApart(Work(job), i', job.procs);
    if i < i' {
      BlocksAreApart(Work(job), i, i');
    } else if i' < i {
      BlocksAreApart(Work(job), i', i);
    }
  }

  lemma OwnerExists<T>(job: Job<T>, k: nat) returns (i: nat)
    requires job.procs > 0 && k < |job.input|
    ensures i < job.procs && Owns(job, i, k)
  {
    SizesAddUp(job);
    var work := Work(job);
    if k < Times(job.procs, work) {
      i := BlockOf(work, job.procs, k);
    } else {
      i := k - Times(job.procs, work);
    }
  }

  lemma {:induction false} BlockOf(work: nat, procs: nat, k: nat) returns (i: nat)
    requires k < Times(procs, work)
    ensures i < procs && InBlock(work, i, k)
  {
    if Times(procs - 1, work) <= k {
      i := procs - 1;
    } else {
      i := BlockOf(work, procs - 1, k);
    }
  }

  /** ... and a worker's elements are a block of count / procs of them and at most one more. */
  lemma Shares<T>(job: Job<T>, i: nat, k: nat)
    requires i < job.procs
    ensures var work, rest := |job.input| / job.procs, |job.input| % job.procs;
      (Owns(job, i, k) && k < |job.input|) <==>
      (i * work <= k < i * work + work || (i < rest && k == job.procs * work + i))
  {
    SizesAddUp(job);
    BlocksAreApart(Work(job), i, job.procs);
  }

  /** The elements of worker i. */
  function Share<T>(job: Job<T>, i: nat): set<nat> {
    set k: nat | k < |job.input| && Owns(job, i, k)
  }

  function Range(lo: nat, n: nat): (r: set<nat>)
    ensures forall k: nat :: k in r <==> lo <= k < lo + n
    ensures |r| == n
  {
    if n == 0 then {} else Range(lo, n-1) + {lo + n - 1}
  }

  /** Every worker has count / procs elements, the first count mod procs workers one more. */
  lemma ShareSize<T>(job: Job<T>, i: nat)
    requires i < job.procs
    ensures |Share(job, i)| == |job.input| / job.procs + if i < |job.input| % job.procs then 1 else 0
  {
    var work, extra := Work(job), Times(job.procs, Work(job)) + i;
    var block := Range(Times(i, work), work);
    BlocksAreApart(work, i, job.procs);
    forall k: nat ensures k in Share(job, i) <==> k in block || (i < Remainder(job) && k == extra) {
      Shares(job, i, k);
    }
    assert Share(job, i) == if i < Remainder(job) then block + {extra} else block;
  }

  // ----- the invariant -----

  /** Whether worker i, having come to w, has stored element k of its own. */
  predicate Stored<T>(job: Job<T>, i: nat, w: Worker, k: nat) {
    match w
    case Unborn => false
    case Loop(j) => Times(i, Work(job)) <= k < Times(i, Work(job)) + j
    case Extra => InBlock(Work(job), i, k)
    case _ => true
  }

  ghost predicate ElementInv<T>(job: Job<T>, s: State<T>, i: nat, k: nat)
    requires i < |s.workers| && k < |job.input| == |s.buffer| == |s.writes|
  {
    Owns(job, i, k) ==>
      if Stored(job, i, s.workers[i], k) then s.buffer[k] == job.func(job.input[k]) && s.writes[k] == 1
      else s.buffer[k] == job.zero && s.writes[k] == 0
  }

  ghost predicate BufferInv<T>(job: Job<T>, s: State<T>) {
    && |s.workers| == job.procs && |s.buffer| == |s.writes| == |job.input|
    && forall i, k | 0 <= i < job.procs && 0 <= k < |job.input| :: ElementInv(job, s, i, k)
  }

  predicate Posted(w: Worker) {
    w.Exiting? || w.Gone?
  }

  function CountPosted(ws: seq<Worker>, n: nat): (c: nat)
    requires n <= |ws|
    ensures c <= n
  {
    if n == 0 then 0 else CountPosted(ws, n-1) + if Posted(ws[n-1]) then 1 else 0
  }

  lemma {:induction false} CountAfter(ws: seq<Worker>, n: nat, i: nat, w: Worker)
    requires n <= |ws| && i < |ws|
    ensures CountPosted(ws[i := w], n) == CountPosted(ws, n)
         + if i >= n then 0 else (if Posted(w) then 1 else 0) - (if Posted(ws[i]) then 1 else 0)
  {
    if n > 0 {
      CountAfter(ws, n-1, i, w);
    }
  }

  lemma {:induction false} AllPosted(ws: seq<Worker>, n: nat, i: nat)
    requires i < n <= |ws| && CountPosted(ws, n) == n
    ensures Posted(ws[i])
  {
    if i < n - 1 {
      AllPosted(ws, n-1, i);
    }
  }

  lemma {:induction false} SomeUnposted(ws: seq<Worker>, n: nat) returns (i: nat)
    requires n <= |ws| && CountPosted(ws, n) < n
    ensures i < n && !Posted(ws[i])
  {
    if Posted(ws[n-1]) {
      i := SomeUnposted(ws, n-1);
    } else {
      i := n - 1;
    }
  }

  /** How often the parent has taken the semaphore. */
  function Waited<T>(s: State<T>): nat {
    match s.parent
    case Forking(_) => 0
    case Waiting(i) => i
    case _ => |s.workers|
  }

  ghost predicate SemaphoreInv<T>(job: Job<T>, s: State<T>) {
    && |s.workers| == job.procs
    && s.sem + Waited(s) == CountPosted(s.workers, |s.workers|)
    && (s.parent.Forking? ==> s.parent.next <= job.procs)
    && (s.parent.Waiting? ==> s.parent.next <= job.procs)
    && (s.parent.Joining? ==> s.parent.next <= job.procs)
    && (forall i | 0 <= i < job.procs ::
      s.workers[i].Unborn? <==> s.parent.Forking? && s.parent.next <= i)
    && (forall i | 0 <= i < job.procs ::
      match s.workers[i] case Loop(j) => j <= Work(job) case Extra => i < Remainder(job) case _ => true)
    && (s.parent.Joining? ==> forall i | 0 <= i < job.procs && i < s.parent.next :: s.workers[i].Gone?)
    && (s.parent.Returned? ==> forall i | 0 <= i < job.procs :: s.workers[i].Gone?)
  }

  ghost predicate Inv<T>(job: Job<T>, s: State<T>) {
    BufferInv(job, s) && SemaphoreInv(job, s)
  }

  lemma {:induction false} NonePosted(ws: seq<Worker>, n: nat)
    requires n <= |ws| && forall i | 0 <= i < n :: ws[i].Unborn?
    ensures CountPosted(ws, n) == 0
  {
    if n > 0 {
      NonePosted(ws, n-1);
    }
  }

  lemma InitInv<T>(job: Job<T>)
    ensures Inv(job, Init(job))
  {
    NonePosted(Init(job).workers, job.procs);
  }

  /** The stores of one worker do not touch the elements of another. */
  lemma StoreKeepsOthers<T>(job: Job<T>, s: State<T>, i: nat, w: Worker, o: nat, i': nat, k: nat)
    requires BufferInv(job, s) && i < job.procs && i' < job.procs && i != i' && k < |job.input|
    requires Owns(job, i, o) && Store(job, To(s, i, w), o).Some?
    ensures ElementInv(job, Store(job, To(s, i, w), o).value, i', k)
  {
    assert ElementInv(job, s, i', k);
    if Owns(job, i', k) && k == o {
      OwnerIsUnique(job, i, i', k);
    }
  }

  lemma WorkerKeepsOwn<T>(job: Job<T>, s: State<T>, i: nat, k: nat)
    requires Inv(job, s) && i < job.procs && k < |job.input| && WorkerStep(job, s, i).Some?
    ensures var s' := WorkerStep(job, s, i).value;
      |s'.workers| == job.procs && |s'.buffer| == |s'.writes| == |job.input| && ElementInv(job, s', i, k)
  {
    assert ElementInv(job, s, i, k);
    SizesAddUp(job);
    BlocksAreApart(Work(job), i, job.procs);
    Shares(job, i, k);
  }

  lemma WorkerKeepsOther<T>(job: Job<T>, s: State<T>, i: nat, i': nat, k: nat)
    requires Inv(job, s) && i < job.procs && i' < job.procs && i != i'
    requires k < |job.input| && WorkerStep(job, s, i).Some?
    ensures var s' := WorkerStep(job, s, i).value;
      |s'.workers| == job.procs && |s'.buffer| == |s'.writes| == |job.input| && ElementInv(job, s', i', k)
  {
    assert ElementInv(job, s, i', k);
    match s.workers[i] {
      case Loop(j) =>
        if j < Work(job) {
          StoreKeepsOthers(job, s, i, Loop(j + 1), Times(i, Work(job)) + j, i', k);
        }
      case Extra => StoreKeepsOthers(job, s, i, Post, Times(job.procs, Work(job)) + i, i', k);
      case _ =>
    }
  }

  /** A step of a worker changes that worker alone; the semaphore counts the workers that have posted. */
  lemma WorkerPosts<T>(job: Job<T>, s: State<T>, i: nat)
    requires i < |s.workers| && WorkerStep(job, s, i).Some?
    requires match s.workers[i] case Loop(j) => j <= Work(job) case Extra => i < Remainder(job) case _ => true
    ensures var s' := WorkerStep(job, s, i).value;
      && |s'.workers| == |s.workers| && s'.workers == s.workers[i := s'.workers[i]] && s'.parent == s.parent
      && !s'.workers[i].Unborn? && !s.workers[i].Unborn? && !s.workers[i].Gone?
      && s'.sem == s.sem + (if Posted(s'.workers[i]) then 1 else 0) - (if Posted(s.workers[i]) then 1 else 0)
      && match s'.workers[i] case Loop(j) => j <= Work(job) case Extra => i < Remainder(job) case _ => true
  {
  }

  lemma WorkerKeepsSemaphore<T>(job: Job<T>, s: State<T>, i: nat)
    requires SemaphoreInv(job, s) && i < |s.workers| && WorkerStep(job, s, i).Some?
    ensures SemaphoreInv(job, WorkerStep(job, s, i).value)
  {
    WorkerPosts(job, s, i);
    CountAfter(s.workers, |s.workers|, i, WorkerStep(job, s, i).value.workers[i]);
  }

  lemma WorkerKeepsInv<T>(job: Job<T>, s: State<T>, i: nat)
    requires Inv(job, s) && i < |s.workers| && WorkerStep(job, s, i).Some?
    ensures Inv(job, WorkerStep(job, s, i).value)
  {
    WorkerKeepsSemaphore(job, s, i);
    var s' := WorkerStep(job, s, i).value;
    forall i', k | 0 <= i' < job.procs && 0 <= k < |job.input| ensures ElementInv(job, s', i', k) {
      if i' == i {
        WorkerKeepsOwn(job, s, i, k);
      } else {
        WorkerKeepsOther(job, s, i, i', k);
      }
    }
  }

  lemma ParentKeepsInv<T>(job: Job<T>, s: State<T>)
    requires Inv(job, s) && ParentStep(job, s).Some?
    ensures Inv(job, ParentStep(job, s).value)
  {
    var s' := ParentStep(job, s).value;
    if s.parent.Forking? && s.parent.next < |s.workers| {
      CountAfter(s.workers, |s.workers|, s.parent.next, Loop(0));
    }
    forall i, k | 0 <= i < job.procs && 0 <= k < |job.input| ensures ElementInv(job, s', i, k) {
      assert ElementInv(job, s, i, k);
    }
  }

  lemma StepKeepsInv<T>(job: Job<T>, s: State<T>, m: Move)
    requires Inv(job, s) && Next(job, s, m).Some?
    ensures Inv(job, Next(job, s, m).value)
  {
    match m
    case ParentMoves => ParentKeepsInv(job, s);
    case WorkerMoves(i) => WorkerKeepsInv(job, s, i);
  }

  lemma ReachableInv<T(!new)>(job: Job<T>, s: State<T>)
    requires Reachable(Init(job), Step(job), s)
    ensures Inv(job, s)
  {
    InitInv(job);
    forall x: State<T>, m | Inv(job, x) && Step(job)(x, m).Some? ensures Inv(job, Step(job)(x, m).value) {
      StepKeepsInv(job, x, m);
    }
    Always(Init(job), Step(job), x => Inv(job, x), s);
  }

  // ----- main results -----

  ghost predicate IsMap<T>(job: Job<T>, out: seq<T>) {
    |out| == |job.input| && forall k | 0 <= k < |out| :: out[k] == job.func(job.input[k])
  }

  /** No element is stored twice in any run. */
  lemma StoredOnce<T(!new)>(job: Job<T>, s: State<T>, k: nat)
    requires job.procs > 0 && Reachable(Init(job), Step(job), s) && k < |job.input|
    ensures k < |s.writes| && s.writes[k] <= 1
  {
    ReachableInv(job, s);
    var i := OwnerExists(job, k);
    assert ElementInv(job, s, i, k);
  }

  lemma AfterWaiting<T>(job: Job<T>, s: State<T>)
    requires job.procs > 0 && Inv(job, s) && (s.parent.Joining? || s.parent.Returned?)
    ensures IsMap(job, s.buffer)
  {
    forall k | 0 <= k < |s.buffer| ensures s.buffer[k] == job.func(job.input[k]) {
      var i := OwnerExists(job, k);
      AllPosted(s.workers, |s.workers|, i);
      assert ElementInv(job, s, i, k);
    }
  }

  /** Once the parent has taken the semaphore procs times, the buffer is the map, in every interleaving. */
  lemma SemaphoreSuffices<T(!new)>(job: Job<T>, s: State<T>)
    requires job.procs > 0 && Reachable(Init(job), Step(job), s) && (s.parent.Joining? || s.parent.Returned?)
    ensures IsMap(job, s.buffer)
  {
    ReachableInv(job, s);
    AfterWaiting(job, s);
  }

  lemma Progress<T>(job: Job<T>, s: State<T>) returns (m: Move)
    requires Inv(job, s) && !s.parent.Returned?
    ensures Next(job, s, m).Some?
  {
    m := ParentMoves;
    if ParentStep(job, s).None? {
      var i := s.parent.next;
      if s.parent.Waiting? {
        i := SomeUnposted(s.workers, |s.workers|);
      } else {
        AllPosted(s.workers, |s.workers|, i);
      }
      WorkerCanMove(job, s, i);
      m := WorkerMoves(i);
    }
  }

  lemma WorkerCanMove<T>(job: Job<T>, s: State<T>, i: nat)
    requires Inv(job, s) && i < |s.workers| && !s.workers[i].Unborn? && !s.workers[i].Gone?
    ensures WorkerStep(job, s, i).Some?
  {
    SizesAddUp(job);
    BlocksAreApart(Work(job), i, job.procs);
  }

  // ----- every run ends -----

  function WorkerLeft(work: nat, w: Worker): nat {
    match w
    case Unborn => work + 5
    case Loop(j) => AtLeastZero(work - j) + 4
    case Extra => 3
    case Post => 2
    case Exiting => 1
    case Gone => 0
  }

  function WorkersLeft(work: nat, ws: seq<Worker>, n: nat): nat
    requires n <= |ws|
  {
    if n == 0 then 0 else WorkersLeft(work, ws, n-1) + WorkerLeft(work, ws[n-1])
  }

  lemma {:induction false} LeftAfter(work: nat, ws: seq<Worker>, n: nat, i: nat, w: Worker)
    requires n <= |ws| && i < |ws|
    ensures WorkersLeft(work, ws[i := w], n)
         == WorkersLeft(work, ws, n) + if i < n then WorkerLeft(work, w) - WorkerLeft(work, ws[i]) else 0
  {
    if n > 0 {
      LeftAfter(work, ws, n-1, i, w);
    }
  }

  function ParentLeft(n: nat, parent: Parent): nat {
    match parent
    case Forking(i) => AtLeastZero(n - i) + 2 * n + 3
    case Waiting(i) => AtLeastZero(n - i) + n + 2
    case Joining(i) => AtLeastZero(n - i) + 1
    case Returned => 0
  }

  function Measure<T>(job: Job<T>): State<T> -> nat {
    (s: State<T>) => ParentLeft(|s.workers|, s.parent) + WorkersLeft(Work(job), s.workers, |s.workers|)
  }

  /** A step of a worker changes that worker alone, and brings it nearer to its end. */
  lemma WorkerDescends<T>(job: Job<T>, s: State<T>, i: nat)
    requires i < |s.workers| && WorkerStep(job, s, i).Some?
    ensures var s' := WorkerStep(job, s, i).value;
      && |s'.workers| == |s.workers| && s'.workers == s.workers[i := s'.workers[i]] && s'.parent == s.parent
      && WorkerLeft(Work(job), s'.workers[i]) < WorkerLeft(Work(job), s.workers[i])
  {
  }

  lemma ParentDescends<T>(job: Job<T>, s: State<T>)
    requires Inv(job, s) && ParentStep(job, s).Some?
    ensures var s' := ParentStep(job, s).value;
      && |s'.workers| == |s.workers| && ParentLeft(|s.workers|, s'.parent) < ParentLeft(|s.workers|, s.parent)
      && WorkersLeft(Work(job), s'.workers, |s.workers|) <= WorkersLeft(Work(job), s.workers, |s.workers|)
  {
    if s.parent.Forking? && s.parent.next < |s.workers| {
      LeftAfter(Work(job), s.workers, |s.workers|, s.parent.next, Loop(0));
    }
  }

  lemma StepDescends<T>(job: Job<T>, s: State<T>, m: Move)
    requires Inv(job, s) && Next(job, s, m).Some?
    ensures Measure(job)(Next(job, s, m).value) < Measure(job)(s)
  {
    match m
    case ParentMoves => ParentDescends(job, s);
    case WorkerMoves(i) =>
      WorkerDescends(job, s, i);
      LeftAfter(Work(job), s.workers, |s.workers|, i, WorkerStep(job, s, i).value.workers[i]);
  }

  lemma {:induction false} InitLeft(work: nat, ws: seq<Worker>, n: nat)
    requires n <= |ws| && forall i | 0 <= i < n :: ws[i].Unborn?
    ensures WorkersLeft(work, ws, n) == Times(n, work) + 5 * n
  {
    if n > 0 {
      InitLeft(work, ws, n-1);
    }
  }

  /** Every run is finite; one that cannot be continued has returned the map with all processes gone. */
  lemma ReturnsMap<T(!new)>(job: Job<T>, sched: seq<Move>)
    requires job.procs > 0
    ensures var r := Exec(Init(job), Step(job), sched);
      r.Some? ==>
        && |sched| <= |job.input| + 8 * job.procs + 3
        && (Stuck(Step(job), r.value) ==>
          r.value.parent.Returned? && IsMap(job, r.value.buffer) && forall w | w in r.value.workers :: w.Gone?)
  {
    InitInv(job);
    forall x: State<T>, m | Inv(job, x) && Step(job)(x, m).Some?
      ensures Inv(job, Step(job)(x, m).value)
      ensures Measure(job)(Step(job)(x, m).value) < Measure(job)(x)
    {
      StepKeepsInv(job, x, m);
      StepDescends(job, x, m);
    }
    RunsAreShort(Init(job), Step(job), (x: State<T>) => Inv(job, x), Measure(job), sched);
    InitLeft(Work(job), Init(job).workers, job.procs);
    SizesAddUp(job);
    AlwaysAfter(Init(job), Step(job), (x: State<T>) => Inv(job, x), sched);
    var r := Exec(Init(job), Step(job), sched);
    if r.Some? {
      if r.value.parent.Returned? {
        AfterWaiting(job, r.value);
      } else {
        var m := Progress(job, r.value);
        assert Step(job)(r.value, m) == Next(job, r.value, m);
      }
    }
  }

  // ----- the processes, updating the shared mapping in place -----

  class Pool<T> {
    const job: Job<T>
    const buffer: array<T>
    var parent: Parent
    var workers: seq<Worker>
    var sem: nat
    ghost var writes: seq<nat>

    ghost function Snapshot(): State<T>
      reads this, buffer
    {
      State(parent, workers, sem, buffer[..], writes)
    }

    constructor (job: Job<T>)
      ensures this.job == job && Snapshot() == Init(job) && fresh(buffer)
    {
      this.job := job;
      var count := |job.input|;
      buffer := new T[count](_ => job.zero);
      parent, workers, sem, writes := Forking(0), seq(job.procs, _ => Unborn), 0, seq(count, _ => 0);
    }

    method Put(k: nat)
      requires Store(job, Snapshot(), k).Some?
      modifies buffer, this`writes
      ensures Some(Snapshot()) == Store(job, old(Snapshot()), k)
    {
      buffer[k] := job.func(job.input[k]);
      writes := writes[k := writes[k] + 1];
    }

    /** One step of the process forked for i. */
    method Compute(i: nat)
      requires i < |workers| && WorkerStep(job, Snapshot(), i).Some?
      modifies this, buffer
      ensures Some(Snapshot()) == WorkerStep(job, old(Snapshot()), i)
    {
      var work := Work(job);
      match workers[i] {
        case Loop(j) =>
          if j < work {
            workers := workers[i := Loop(j + 1)];
            Put(Times(i, work) + j);
          } else {
            workers := workers[i := if i < Remainder(job) then Extra else Post];
          }
        case Extra =>
          workers := workers[i := Post];
          Put(Times(job.procs, work) + i);
        case Post =>
          sem := sem + 1;
          workers := workers[i := Exiting];
        case Exiting => workers := workers[i := Gone];
      }
    }

    /** One step of the parent's three loops. */
    method Lead()
      requires ParentStep(job, Snapshot()).Some?
      modifies this
      ensures Some(Snapshot()) == ParentStep(job, old(Snapshot()))
    {
      match parent {
        case Forking(i) =>
          if i < |workers| {
            workers := workers[i := Loop(0)];
            parent := Forking(i + 1);
          } else {
            parent := Waiting(0);
          }
        case Waiting(i) =>
          if i < |workers| {
            sem := sem - 1;
            parent := Waiting(i + 1);
          } else {
            parent := Joining(0);
          }
        case Joining(i) => parent := if i < |workers| then Joining(i + 1) else Returned;
      }
    }

    predicate CanWork(i: nat)
      reads this
      requires i < |workers|
    {
      !workers[i].Unborn? && !workers[i].Gone?
    }

    predicate CanLead()
      reads this
    {
      match parent
      case Waiting(i) => i < |workers| ==> sem > 0
      case Joining(i) => i < |workers| ==> workers[i].Gone?
      case Returned => false
      case _ => true
    }

    /** All processes in any order, until the parent returns. */
    method RunAll()
      requires job.procs > 0 && Snapshot() == Init(job)
      modifies this, buffer
      ensures IsMap(job, buffer[..])
    {
      InitInv(job);
      while !parent.Returned?
        invariant Inv(job, Snapshot())
        decreases Measure(job)(Snapshot())
      {
        var i := Chosen();
        ghost var before := Snapshot();
        if i < |workers| {
          WorkerCanMove(job, before, i);
          StepKeepsInv(job, before, WorkerMoves(i));
          StepDescends(job, before, WorkerMoves(i));
          Compute(i);
        } else {
          StepKeepsInv(job, before, ParentMoves);
          StepDescends(job, before, ParentMoves);
          Lead();
        }
      }
      AfterWaiting(job, Snapshot());
    }

    /** Any process that can move; |workers| stands for the parent. */
    method Chosen() returns (i: nat)
      requires Inv(job, Snapshot()) && !parent.Returned?
      ensures if i < |workers| then CanWork(i) else CanLead()
    {
      i := *;
      if (if i < |workers| then CanWork(i) else CanLead()) {
        return;
      }
      ghost var some := Progress(job, Snapshot());
      assert if some.WorkerMoves? then some.i < |workers| && CanWork(some.i) else CanLead();
      i := 0;
      while i < |workers| && !CanWork(i)
        invariant i <= |workers|
        invariant forall j | 0 <= j < i :: !CanWork(j)
      {
        i := i + 1;
      }
    }
  }

  /** pmap_process */
  method PmapProcess<T>(func: T -> T, input: seq<T>, procs: nat, zero: T) returns (buffer: array<T>)
    requires procs > 0
    ensures fresh(buffer) && buffer.Length == |input|
    ensures forall k | 0 <= k < |input| :: buffer[k] == func(input[k])
  {
    var job := Job(input, func, procs, zero);
    var pool := new Pool(job);
    pool.RunAll();
    buffer := pool.buffer;
    assert IsMap(job, buffer[..]);
    assert forall k | 0 <= k < |input| :: buffer[..][k] == job.func(job.input[k]);
  }
}
