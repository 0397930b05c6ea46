/**
 The lock-free list of inf19-2.c: every thread pushes k nodes with a compare-and-swap
 loop on the shared head.  Allocation, reading the head, setting `next` and the weak
 compare-and-swap (which may fail although the head matches) are separate steps.
 */
module ListPush {
  import opened Runs

  datatype Link = Unset | Null | To(address: nat)

  /** Addresses are indices into the heap; address 0 is the node that main allocates. */
  datatype Node = Node(next: Link, number: nat)

  datatype Pc = Alloc | Read | SetNext | Swap

  /** `i` counts finished pushes; `item` and `next` are the locals of insert_nodes. */
  datatype Thread = Thread(i: nat, pc: Pc, item: nat, next: nat)

  /**
   The last three are history: `chain` is the sentinel and then the addresses whose swap
   succeeded, in order; `failures` and `spurious` count the swaps that failed because the
   head differed and for no reason.
   */
  datatype State = State(
    heap: seq<Node>, root: nat, threads: seq<Thread>,
    chain: seq<nat>, failures: nat, spurious: nat)

  /** Thread t moves; `weak` makes its compare-and-swap fail although the head matches. */
  datatype Move = Move(t: nat, weak: bool)

  /** The number I * K with which thread I starts, as a repeated addition. */
  function First(k: nat, t: nat): nat {
    if t == 0 then 0 else First(k, t-1) + k
  }

  lemma {:induction false} FirstIsProduct(k: nat, t: nat)
    ensures First(k, t) == t * k
  {
    if t > 0 {
      FirstIsProduct(k, t-1);
      assert t * k == (t-1) * k + k;
    }
  }

  function Init(n: nat): State {
    State([Node(Null, 0)], 0, seq(n, _ => Thread(0, Alloc, 0, 0)), [0], 0, 0)
  }

  predicate Possible(k: nat, s: State, m: Move) {
    && m.t < |s.threads|
    && var th := s.threads[m.t];
       && (th.pc == Alloc ==> th.i < k)
       && (th.pc == SetNext ==> th.item < |s.heap|)
       && (m.weak ==> th.pc == Swap && s.root == th.next)
  }

  function Next(k: nat, s: State, m: Move): State
    requires Possible(k, s, m)
  {
    var th := s.threads[m.t];
    match th.pc
    case Alloc =>
      s.(heap := s.heap + [Node(Unset, First(k, m.t) + th.i)],
         threads := s.threads[m.t := th.(item := |s.heap|, pc := Read)])
    case Read =>
      s.(threads := s.threads[m.t := th.(next := s.root, pc := SetNext)])
    case SetNext =>
      s.(heap := s.heap[th.item := s.heap[th.item].(next := To(th.next))],
         threads := s.threads[m.t := th.(pc := Swap)])
    case Swap =>
      if s.root == th.next && !m.weak then
        s.(root := th.item, chain := s.chain + [th.item],
           threads := s.threads[m.t := th.(i := th.i + 1, pc := Alloc)])
      else
        s.(failures := s.failures + if s.root == th.next then 0 else 1,
           spurious := s.spurious + if s.root == th.next then 1 else 0,
           threads := s.threads[m.t := th.(next := s.root, pc := Read)])
  }

  function Step(k: nat): (State, Move) -> Option<State> {
    (s: State, m: Move) => if Possible(k, s, m) then Some(Next(k, s, m)) else None
  }

  // ----- linked lists in the heap -----

  /** The nodes met from `start` by following `next`, ending in a node without successor. */
  ghost predicate IsList(heap: seq<Node>, start: nat, l: seq<nat>) {
    && 0 < |l| && l[0] == start
    && (forall j | 0 <= j < |l| :: l[j] < |heap|)
    && (forall j | 0 <= j < |l| - 1 :: heap[l[j]].next == To(l[j+1]))
    && heap[l[|l|-1]].next == Null
  }

  ghost predicate Distinct(l: seq<nat>) {
    forall a, b | 0 <= a < b < |l| :: l[a] != l[b]
  }

  /** A heap has at most one list from a given start. */
  lemma {:induction false} ListIsUnique(heap: seq<Node>, start: nat, l: seq<nat>, l': seq<nat>)
    requires IsList(heap, start, l) && IsList(heap, start, l')
    ensures l == l'
    decreases |l|
  {
    assert |l'| > 1 ==> heap[l'[0]].next == To(l'[1]);
    if |l| > 1 {
      assert heap[l[0]].next == To(l[1]);
      ListIsUnique(heap, l[1], l[1..], l'[1..]);
      assert l == [l[0]] + l[1..] && l' == [l'[0]] + l'[1..];
    }
  }

  function Reverse<T>(l: seq<T>): (r: seq<T>)
    ensures |r| == |l| && forall j | 0 <= j < |l| :: r[j] == l[|l|-1-j]
  {
    seq(|l|, j requires 0 <= j < |l| => l[|l|-1-j])
  }

  /** The list as the history tells it: the sentinel at the end, the latest push in front. */
  function History(s: State): seq<nat> {
    Reverse(s.chain)
  }

  // ----- the numbers of one thread among those pushed -----

  /** The numbers of the nodes after the sentinel. */
  function Numbers(heap: seq<Node>, chain: seq<nat>): (r: seq<nat>)
    requires 0 < |chain| && forall j | 0 <= j < |chain| :: chain[j] < |heap|
  {
    seq(|chain| - 1, j requires 0 <= j < |chain| - 1 => heap[chain[j+1]].number)
  }

  /** The members of l that lie in [lo, hi), in order. */
  function Within(l: seq<nat>, lo: nat, hi: nat): seq<nat> {
    if l == [] then []
    else Within(l[..|l|-1], lo, hi) + if lo <= l[|l|-1] < hi then [l[|l|-1]] else []
  }

  function Count(lo: nat, length: nat): seq<nat> {
    seq(length, j => lo + j)
  }

  // ----- the invariant -----

  ghost predicate ThreadInv(k: nat, s: State, t: nat)
    requires t < |s.threads|
  {
    var th := s.threads[t];
    && th.i <= k
    && (th.pc != Alloc ==>
          && th.i < k
          && 0 < th.item < |s.heap| && th.item !in s.chain
          && s.heap[th.item].number == First(k, t) + th.i)
    && (th.pc == SetNext || th.pc == Swap ==> th.next in s.chain)
    && (th.pc == Swap ==> s.heap[th.item].next == To(th.next))
  }

  /** A node that is not yet in the list belongs to one thread. */
  ghost predicate Private(s: State) {
    forall t, u | 0 <= t < u < |s.threads| && s.threads[t].pc != Alloc && s.threads[u].pc != Alloc ::
      s.threads[t].item != s.threads[u].item
  }

  ghost predicate Linked(s: State) {
    && 0 < |s.heap| && s.heap[0].next == Null
    && 0 < |s.chain| && s.chain[0] == 0 && s.root == s.chain[|s.chain|-1]
    && Distinct(s.chain)
    && (forall j | 0 <= j < |s.chain| :: s.chain[j] < |s.heap|)
    && forall j | 1 <= j < |s.chain| :: s.heap[s.chain[j]].next == To(s.chain[j-1])
  }

  /** Thread t has pushed its first i numbers, in order. */
  ghost predicate PushedBy(k: nat, numbers: seq<nat>, t: nat, i: nat) {
    Within(numbers, First(k, t), First(k, t) + k) == Count(First(k, t), i)
  }

  ghost predicate Complete(k: nat, numbers: seq<nat>, threads: seq<Thread>) {
    && (forall t | 0 <= t < |threads| :: PushedBy(k, numbers, t, threads[t].i))
    && forall j | 0 <= j < |numbers| :: numbers[j] < First(k, |threads|)
  }

  ghost predicate Inv(n: nat, k: nat, s: State) {
    && |s.threads| == n
    && Linked(s)
    && (forall t | 0 <= t < n :: ThreadInv(k, s, t))
    && Private(s)
    && Complete(k, Numbers(s.heap, s.chain), s.threads)
  }

  lemma {:induction false} FirstClimbs(k: nat, t: nat, u: nat)
    requires t < u
    ensures First(k, t) + k <= First(k, u)
  {
    if t + 1 < u {
      FirstClimbs(k, t, u-1);
    }
  }

  /** The numbers of different threads lie in disjoint bands. */
  lemma Bands(k: nat, t: nat, u: nat, i: nat)
    requires i < k
    ensures First(k, u) <= First(k, t) + i < First(k, u) + k <==> t == u
    ensures t < u ==> First(k, t) + i < First(k, u)
  {
    if t < u {
      FirstClimbs(k, t, u);
    } else if u < t {
      FirstClimbs(k, u, t);
    }
  }

  lemma InitInv(n: nat, k: nat)
    ensures Inv(n, k, Init(n))
  {
    var s := Init(n);
    forall t | 0 <= t < n
      ensures Within(Numbers(s.heap, s.chain), First(k, t), First(k, t) + k) == Count(First(k, t), 0)
    {
      assert Numbers(s.heap, s.chain) == [];
    }
  }

  /** The head, the links of pushed nodes and their numbers survive every step. */
  lemma NextLinked(n: nat, k: nat, s: State, m: Move)
    requires Inv(n, k, s) && Possible(k, s, m)
    ensures Linked(Next(k, s, m))
  {
    assert ThreadInv(k, s, m.t);
  }

  lemma NextThreadInv(n: nat, k: nat, s: State, m: Move, t: nat)
    requires Inv(n, k, s) && Possible(k, s, m) && t < n
    ensures ThreadInv(k, Next(k, s, m), t)
  {
    assert ThreadInv(k, s, m.t) && ThreadInv(k, s, t);
    var s' := Next(k, s, m);
    assert s.root in s.chain;
  }

  /** A successful swap appends the pushed number; no other step changes the pushed numbers. */
  lemma NextNumbers(n: nat, k: nat, s: State, m: Move)
    requires Inv(n, k, s) && Possible(k, s, m) && Linked(Next(k, s, m))
    ensures var s' := Next(k, s, m);
      Numbers(s'.heap, s'.chain) ==
      if |s'.chain| == |s.chain| then Numbers(s.heap, s.chain)
      else Numbers(s.heap, s.chain) + [First(k, m.t) + s.threads[m.t].i]
  {
    assert ThreadInv(k, s, m.t);
  }

  lemma WithinAppended(l: seq<nat>, x: nat, lo: nat, hi: nat)
    ensures Within(l + [x], lo, hi) == Within(l, lo, hi) + if lo <= x < hi then [x] else []
  {
    assert (l + [x])[..|l|] == l;
  }

  lemma CountGrows(lo: nat, i: nat)
    ensures Count(lo, i + 1) == Count(lo, i) + [lo + i]
  {
  }

  lemma PushedByAppended(k: nat, numbers: seq<nat>, t: nat, i: nat, u: nat, j: nat, numbers': seq<nat>)
    requires i < k && PushedBy(k, numbers, u, j) && (u == t ==> j == i)
    requires numbers' == numbers + [First(k, t) + i]
    ensures PushedBy(k, numbers', u, if u == t then i + 1 else j)
  {
    Bands(k, t, u, i);
    var lo := First(k, u);
    WithinAppended(numbers, First(k, t) + i, lo, lo + k);
    if u == t {
      CountGrows(lo, i);
    }
  }

  lemma CompleteSame(k: nat, numbers: seq<nat>, threads: seq<Thread>, t: nat, th: Thread)
    requires Complete(k, numbers, threads) && t < |threads| && th.i == threads[t].i
    ensures Complete(k, numbers, threads[t := th])
  {
  }

  lemma BelowTop(k: nat, numbers: seq<nat>, t: nat, n: nat, i: nat, numbers': seq<nat>)
    requires t < n && i < k && forall j | 0 <= j < |numbers| :: numbers[j] < First(k, n)
    requires numbers' == numbers + [First(k, t) + i]
    ensures forall j | 0 <= j < |numbers'| :: numbers'[j] < First(k, n)
  {
    Bands(k, t, n, i);
  }

  lemma CompleteAppended(
      k: nat, numbers: seq<nat>, threads: seq<Thread>, t: nat, th: Thread, numbers': seq<nat>, threads': seq<Thread>)
    requires Complete(k, numbers, threads) && t < |threads|
    requires threads[t].i < k && th.i == threads[t].i + 1
    requires numbers' == numbers + [First(k, t) + threads[t].i] && threads' == threads[t := th]
    ensures Complete(k, numbers', threads')
  {
    BelowTop(k, numbers, t, |threads|, threads[t].i, numbers');
    forall u | 0 <= u < |threads| ensures PushedBy(k, numbers', u, threads'[u].i) {
      PushedByAppended(k, numbers, t, threads[t].i, u, threads[u].i, numbers');
    }
  }

  lemma CompleteKept(k: nat, numbers: seq<nat>, numbers': seq<nat>, threads: seq<Thread>, t: nat, th: Thread)
    requires Complete(k, numbers, threads) && t < |threads|
    requires
      || (numbers' == numbers && th.i == threads[t].i)
      || (numbers' == numbers + [First(k, t) + threads[t].i] && threads[t].i < k && th.i == threads[t].i + 1)
    ensures Complete(k, numbers', threads[t := th])
  {
    if th.i == threads[t].i {
      CompleteSame(k, numbers, threads, t, th);
    } else {
      CompleteAppended(k, numbers, threads, t, th, numbers', threads[t := th]);
    }
  }

  /** Only the mover changes, and its pushes grow exactly with the chain. */
  lemma NextMover(k: nat, s: State, m: Move)
    requires Possible(k, s, m)
    ensures var s' := Next(k, s, m);
      && s'.threads == s.threads[m.t := s'.threads[m.t]]
      && s'.threads[m.t].i == s.threads[m.t].i + if |s'.chain| == |s.chain| then 0 else 1
  {
  }

  lemma NextComplete(k: nat, s: State, m: Move, numbers: seq<nat>, numbers': seq<nat>)
    requires Possible(k, s, m) && Complete(k, numbers, s.threads)
    requires |Next(k, s, m).chain| == |s.chain| || s.threads[m.t].i < k
    requires numbers' ==
      if |Next(k, s, m).chain| == |s.chain| then numbers else numbers + [First(k, m.t) + s.threads[m.t].i]
    ensures Complete(k, numbers', Next(k, s, m).threads)
  {
    NextMover(k, s, m);
    CompleteKept(k, numbers, numbers', s.threads, m.t, Next(k, s, m).threads[m.t]);
  }

  lemma NextPushed(n: nat, k: nat, s: State, m: Move)
    requires Inv(n, k, s) && Possible(k, s, m) && Linked(Next(k, s, m))
    ensures var s' := Next(k, s, m); Complete(k, Numbers(s'.heap, s'.chain), s'.threads)
  {
    assert ThreadInv(k, s, m.t);
    NextNumbers(n, k, s, m);
    NextComplete(k, s, m, Numbers(s.heap, s.chain), Numbers(Next(k, s, m).heap, Next(k, s, m).chain));
  }

  lemma NextPrivate(n: nat, k: nat, s: State, m: Move)
    requires Inv(n, k, s) && Possible(k, s, m)
    ensures Private(Next(k, s, m))
  {
    forall t | 0 <= t < n ensures s.threads[t].pc != Alloc ==> s.threads[t].item < |s.heap| {
      assert ThreadInv(k, s, t);
    }
  }

  lemma NextInv(n: nat, k: nat, s: State, m: Move)
    requires Inv(n, k, s) && Possible(k, s, m)
    ensures Inv(n, k, Next(k, s, m))
  {
    NextLinked(n, k, s, m);
    NextPushed(n, k, s, m);
    NextPrivate(n, k, s, m);
    forall t | 0 <= t < n ensures ThreadInv(k, Next(k, s, m), t) {
      NextThreadInv(n, k, s, m, t);
    }
  }

  lemma ReachableInv(n: nat, k: nat, s: State)
    requires Reachable(Init(n), Step(k), s)
    ensures Inv(n, k, s)
  {
    InitInv(n, k);
    forall x, m | Inv(n, k, x) && Step(k)(x, m).Some? ensures Inv(n, k, Step(k)(x, m).value) {
      NextInv(n, k, x, m);
    }
    Always(Init(n), Step(k), x => Inv(n, k, x), s);
  }

  // ----- the list at every moment -----

  /** In every reachable state the head starts an acyclic list of exactly the pushed nodes. */
  lemma ListIntact(n: nat, k: nat, s: State)
    requires Reachable(Init(n), Step(k), s)
    ensures IsList(s.heap, s.root, History(s)) && Distinct(History(s))
  {
    ReachableInv(n, k, s);
    var l := History(s);
    forall j | 0 <= j < |l| - 1 ensures s.heap[l[j]].next == To(l[j+1]) {
      assert s.heap[s.chain[|l|-1-j]].next == To(s.chain[|l|-2-j]);
    }
  }

  /** The step of a thread is a push exactly when its compare-and-swap succeeds. */
  predicate Succeeds(s: State, m: Move)
    requires m.t < |s.threads|
  {
    s.threads[m.t].pc == Swap && s.threads[m.t].next == s.root && !m.weak
  }

  /**
   Seen through the links in the heap, every step either leaves the list as it is or puts
   the mover's node in front of it, and it never changes a number that is in the list.
   */
  lemma PushIsAtomic(n: nat, k: nat, s: State, m: Move, l: seq<nat>, l': seq<nat>)
    requires Reachable(Init(n), Step(k), s) && Possible(k, s, m)
    requires IsList(s.heap, s.root, l)
    requires IsList(Next(k, s, m).heap, Next(k, s, m).root, l')
    ensures l' == if Succeeds(s, m) then [s.threads[m.t].item] + l else l
    ensures forall a | a in l :: Next(k, s, m).heap[a].number == s.heap[a].number
    ensures Succeeds(s, m) ==> s.heap[s.threads[m.t].item].number == First(k, m.t) + s.threads[m.t].i
  {
    var s' := Next(k, s, m);
    OneMore(Init(n), Step(k), s, m);
    ListIntact(n, k, s);
    ListIntact(n, k, s');
    ListIsUnique(s.heap, s.root, l, History(s));
    ListIsUnique(s'.heap, s'.root, l', History(s'));
    ReachableInv(n, k, s);
    assert ThreadInv(k, s, m.t);
    HistoryGrows(k, s, m);
    forall a | a in l ensures s'.heap[a].number == s.heap[a].number {
      NumberStays(k, s, m, a);
    }
  }

  lemma HistoryGrows(k: nat, s: State, m: Move)
    requires Possible(k, s, m)
    ensures History(Next(k, s, m)) == if Succeeds(s, m) then [s.threads[m.t].item] + History(s) else History(s)
  {
  }

  lemma NumberStays(k: nat, s: State, m: Move, a: nat)
    requires Possible(k, s, m) && a < |s.heap|
    ensures a < |Next(k, s, m).heap| && Next(k, s, m).heap[a].number == s.heap[a].number
  {
    var th := s.threads[m.t];
    if th.pc == SetNext {
      var node := s.heap[th.item].(next := To(th.next));
      assert Next(k, s, m).heap == s.heap[th.item := node];
    }
  }

  /** No thread ever waits: one that still has nodes to push can always move. */
  lemma NeverBlocked(n: nat, k: nat, s: State, t: nat)
    requires Reachable(Init(n), Step(k), s) && t < n
    ensures t < |s.threads| && (s.threads[t].i < k ==> Possible(k, s, Move(t, false)))
  {
    ReachableInv(n, k, s);
    assert ThreadInv(k, s, t);
  }

  // ----- how often a swap can fail -----

  /** The threads whose copy of the head is out of date. */
  ghost function Stale(s: State): set<nat> {
    set t | 0 <= t < |s.threads| && s.threads[t].pc in {SetNext, Swap} && s.threads[t].next != s.root
  }

  ghost predicate FewFailures(n: nat, s: State) {
    && 0 < n == |s.threads|
    && 0 < |s.chain|
    && s.failures + |Stale(s)| <= (n - 1) * (|s.chain| - 1)
  }

  lemma {:induction false} AtMost(a: set<nat>, n: nat)
    requires forall x | x in a :: x < n
    ensures |a| <= n
  {
    if n > 0 {
      AtMost(a - {n-1}, n-1);
    } else {
      assert a == {};
    }
  }

  /** A success leaves at most n-1 copies of the head stale: not the mover's. */
  lemma StaleAfterSuccess(n: nat, k: nat, s: State, m: Move)
    requires n == |s.threads| && Possible(k, s, m) && Succeeds(s, m)
    ensures |Stale(Next(k, s, m))| <= n - 1
  {
    var stale := Stale(Next(k, s, m));
    assert m.t !in stale;
    AtMost(stale + {m.t}, n);
  }

  /** A failure uses up a stale copy, and no other step makes one. */
  lemma StaleAfterOther(k: nat, s: State, m: Move)
    requires Possible(k, s, m) && !Succeeds(s, m)
    ensures var s' := Next(k, s, m); s'.failures + |Stale(s')| <= s.failures + |Stale(s)|
  {
    var s' := Next(k, s, m);
    if s.threads[m.t].pc == Swap && s.threads[m.t].next != s.root {
      assert Stale(s') == Stale(s) - {m.t};
    } else {
      assert Stale(s') == Stale(s);
    }
  }

  lemma NextFewFailures(n: nat, k: nat, s: State, m: Move)
    requires FewFailures(n, s) && Possible(k, s, m)
    ensures FewFailures(n, Next(k, s, m))
  {
    if Succeeds(s, m) {
      StaleAfterSuccess(n, k, s, m);
      OneMoreTime(n - 1, |s.chain|);
    } else {
      StaleAfterOther(k, s, m);
    }
  }

  lemma OneMoreTime(a: nat, x: nat)
    ensures a * x == a * (x - 1) + a
  {
  }

  /** Each success makes at most n-1 copies of the head stale, and each of those fails once. */
  lemma FailuresAreBounded(n: nat, k: nat, s: State)
    requires 0 < n && Reachable(Init(n), Step(k), s)
    ensures 0 < |s.chain| && s.failures <= (n - 1) * (|s.chain| - 1)
  {
    forall x, m | FewFailures(n, x) && Step(k)(x, m).Some? ensures FewFailures(n, Step(k)(x, m).value) {
      NextFewFailures(n, k, x, m);
    }
    assert Stale(Init(n)) == {};
    Always(Init(n), Step(k), x => FewFailures(n, x), s);
  }

  // ----- how long a run can be -----

  function Sum(l: seq<nat>): nat {
    if l == [] then 0 else Sum(l[..|l|-1]) + l[|l|-1]
  }

  lemma {:induction false} SumAfter(l: seq<nat>, t: nat, x: nat)
    requires t < |l|
    ensures Sum(l[t := x]) == Sum(l) - l[t] + x
  {
    if t == |l| - 1 {
      assert l[t := x][..|l|-1] == l[..|l|-1];
    } else {
      assert l[t := x][..|l|-1] == l[..|l|-1][t := x];
      SumAfter(l[..|l|-1], t, x);
    }
  }

  lemma {:induction false} SumAtMost(l: seq<nat>, top: nat)
    requires forall j | 0 <= j < |l| :: l[j] <= top
    ensures Sum(l) <= |l| * top
  {
    if l != [] {
      SumAtMost(l[..|l|-1], top);
      assert |l| * top == (|l| - 1) * top + top;
    }
  }

  /** Steps of a thread that led to its present place, not counting failed attempts. */
  function Work(th: Thread): nat {
    4 * th.i + match th.pc case Alloc => 0 case Read => 1 case SetNext => 2 case Swap => 3
  }

  function Works(s: State): seq<nat> {
    seq(|s.threads|, t requires 0 <= t < |s.threads| => Work(s.threads[t]))
  }

  function Pushes(s: State): seq<nat> {
    seq(|s.threads|, t requires 0 <= t < |s.threads| => s.threads[t].i)
  }

  lemma NextWork(k: nat, s: State, m: Move)
    requires Possible(k, s, m)
    ensures var s' := Next(k, s, m);
      && Sum(Works(s')) + 3 * (s'.failures + s'.spurious) == Sum(Works(s)) + 3 * (s.failures + s.spurious) + 1
      && Sum(Pushes(s')) + |s.chain| == Sum(Pushes(s)) + |s'.chain|
  {
    var s' := Next(k, s, m);
    SumAfter(Works(s), m.t, Work(s'.threads[m.t]));
    assert Works(s') == Works(s)[m.t := Work(s'.threads[m.t])];
    SumAfter(Pushes(s), m.t, s'.threads[m.t].i);
    assert Pushes(s') == Pushes(s)[m.t := s'.threads[m.t].i];
  }

  lemma {:induction false} StepsCounted(n: nat, k: nat, sched: seq<Move>)
    ensures var r := Exec(Init(n), Step(k), sched);
      r.Some? ==>
        && |sched| == Sum(Works(r.value)) + 3 * (r.value.failures + r.value.spurious)
        && Sum(Pushes(r.value)) + 1 == |r.value.chain|
  {
    if sched == [] {
      InitSums(n);
      assert Works(Init(n)) == seq(n, _ => 0) == Pushes(Init(n));
    } else {
      StepsCounted(n, k, sched[..|sched|-1]);
      var before := Exec(Init(n), Step(k), sched[..|sched|-1]);
      if before.Some? && Possible(k, before.value, sched[|sched|-1]) {
        NextWork(k, before.value, sched[|sched|-1]);
      }
    }
  }

  lemma {:induction false} InitSums(n: nat)
    ensures Sum(seq(n, _ => 0)) == 0
  {
    if n > 0 {
      InitSums(n-1);
      assert seq(n, _ => 0)[..n-1] == seq(n-1, _ => 0);
    }
  }

  /** Only swaps that fail for no reason can prolong a run: without them it ends by itself. */
  lemma RunsAreFinite(n: nat, k: nat, sched: seq<Move>)
    requires 0 < n
    ensures var r := Exec(Init(n), Step(k), sched);
      r.Some? ==> |sched| <= 4 * (n * k) + 3 * ((n - 1) * (n * k)) + 3 * r.value.spurious
  {
    var r := Exec(Init(n), Step(k), sched);
    if r.Some? {
      var s := r.value;
      assert Reachable(Init(n), Step(k), s);
      StepsCounted(n, k, sched);
      FailuresAreBounded(n, k, s);
      ReachableInv(n, k, s);
      forall t | 0 <= t < n ensures Work(s.threads[t]) <= 4 * k && s.threads[t].i <= k {
        assert ThreadInv(k, s, t);
      }
      SumsAtMost(n, k, s);
      Scale(n - 1, |s.chain| - 1, n * k);
    }
  }

  lemma SumsAtMost(n: nat, k: nat, s: State)
    requires |s.threads| == n && forall t | 0 <= t < n :: Work(s.threads[t]) <= 4 * k && s.threads[t].i <= k
    ensures Sum(Works(s)) <= 4 * (n * k)
    ensures Sum(Pushes(s)) <= n * k
  {
    SumAtMost(Works(s), 4 * k);
    SumAtMost(Pushes(s), k);
    Fourfold(n, k);
  }

  lemma Fourfold(n: nat, k: nat)
    ensures n * (4 * k) == 4 * (n * k)
  {
  }

  lemma Scale(a: nat, x: nat, y: nat)
    requires x <= y
    ensures a * x <= a * y
  {
  }

  // ----- what main prints after joining all threads -----

  lemma {:induction false} CountInWithin(l: seq<nat>, lo: nat, hi: nat, v: nat)
    requires lo <= v < hi
    ensures multiset(Within(l, lo, hi))[v] == multiset(l)[v]
  {
    if l != [] {
      CountInWithin(l[..|l|-1], lo, hi, v);
      assert l == l[..|l|-1] + [l[|l|-1]];
    }
  }

  lemma {:induction false} CountOnce(lo: nat, length: nat, v: nat)
    ensures multiset(Count(lo, length))[v] == if lo <= v < lo + length then 1 else 0
  {
    if length > 0 {
      CountOnce(lo, length-1, v);
      assert Count(lo, length) == Count(lo, length-1) + [lo + length - 1];
    }
  }

  lemma {:induction false} FindBand(k: nat, n: nat, v: nat) returns (t: nat)
    requires v < First(k, n)
    ensures t < n && First(k, t) <= v < First(k, t) + k
  {
    if First(k, n-1) <= v {
      t := n-1;
    } else {
      t := FindBand(k, n-1, v);
    }
  }

  lemma {:induction false} ReverseKeeps(l: seq<nat>)
    ensures multiset(Reverse(l)) == multiset(l)
  {
    if l != [] {
      ReverseKeeps(l[..|l|-1]);
      assert Reverse(l) == [l[|l|-1]] + Reverse(l[..|l|-1]);
      assert l == l[..|l|-1] + [l[|l|-1]];
    }
  }

  lemma NumberOccursOnce(n: nat, k: nat, numbers: seq<nat>, threads: seq<Thread>, v: nat)
    requires Complete(k, numbers, threads) && |threads| == n
    requires forall t | 0 <= t < n :: threads[t].i == k
    ensures multiset(numbers)[v] == if v < First(k, n) then 1 else 0
  {
    if v < First(k, n) {
      var t := FindBand(k, n, v);
      assert PushedBy(k, numbers, t, threads[t].i);
      CountInWithin(numbers, First(k, t), First(k, t) + k, v);
      CountOnce(First(k, t), k, v);
    } else {
      assert v !in numbers;
    }
  }

  /** When every thread has pushed k numbers, each of the n * k numbers occurs once. */
  lemma CompleteIsPermutation(n: nat, k: nat, numbers: seq<nat>, threads: seq<Thread>)
    requires Complete(k, numbers, threads) && |threads| == n
    requires forall t | 0 <= t < n :: threads[t].i == k
    ensures multiset(numbers) == multiset(Count(0, n * k))
  {
    FirstIsProduct(k, n);
    forall v: nat ensures multiset(numbers)[v] == multiset(Count(0, n * k))[v] {
      CountOnce(0, n * k, v);
      NumberOccursOnce(n, k, numbers, threads, v);
    }
  }

  /** The members of a band climb wherever they stand in the whole sequence. */
  lemma {:induction false} BandClimbs(l: seq<nat>, lo: nat, hi: nat, length: nat, a: nat, b: nat)
    requires Within(l, lo, hi) == Count(lo, length)
    requires a < b < |l| && lo <= l[a] < hi && lo <= l[b] < hi
    ensures l[a] < l[b]
  {
    var init, last := l[..|l|-1], l[|l|-1];
    if lo <= last < hi {
      assert Within(l, lo, hi)[..length-1] == Within(init, lo, hi);
      assert Count(lo, length)[..length-1] == Count(lo, length-1);
      assert last == Count(lo, length)[length-1];
      if b < |l| - 1 {
        BandClimbs(init, lo, hi, length-1, a, b);
      } else {
        MemberOfBand(init, lo, hi, a);
        assert init[a] in Count(lo, length-1);
      }
    } else {
      BandClimbs(init, lo, hi, length, a, b);
    }
  }

  lemma {:induction false} MemberOfBand(l: seq<nat>, lo: nat, hi: nat, a: nat)
    requires a < |l| && lo <= l[a] < hi
    ensures l[a] in Within(l, lo, hi)
  {
    if a < |l| - 1 {
      MemberOfBand(l[..|l|-1], lo, hi, a);
    }
  }

  /** The numbers met on the way from the head, in that order. */
  function ListNumbers(heap: seq<Node>, l: seq<nat>): seq<nat>
    requires 0 < |l| && forall j | 0 <= j < |l| :: l[j] < |heap|
  {
    seq(|l| - 1, j requires 0 <= j < |l| - 1 => heap[l[j]].number)
  }

  lemma ListNumbersAre(n: nat, k: nat, s: State, l: seq<nat>)
    requires Reachable(Init(n), Step(k), s) && IsList(s.heap, s.root, l)
    ensures Inv(n, k, s) && ListNumbers(s.heap, l) == Reverse(Numbers(s.heap, s.chain))
  {
    ReachableInv(n, k, s);
    ListIntact(n, k, s);
    ListIsUnique(s.heap, s.root, l, History(s));
  }

  /** After all threads are done, the list holds each of the numbers 0 .. n*k-1 once. */
  lemma JoinedList(n: nat, k: nat, s: State, l: seq<nat>)
    requires Reachable(Init(n), Step(k), s) && IsList(s.heap, s.root, l)
    requires forall t | 0 <= t < |s.threads| :: s.threads[t].i == k
    ensures multiset(ListNumbers(s.heap, l)) == multiset(Count(0, n * k))
  {
    ListNumbersAre(n, k, s, l);
    ReverseKeeps(Numbers(s.heap, s.chain));
    CompleteIsPermutation(n, k, Numbers(s.heap, s.chain), s.threads);
  }

  /** At every moment the numbers of thread t stand in the list in strictly decreasing order. */
  lemma LatestFirst(n: nat, k: nat, s: State, l: seq<nat>, t: nat, a: nat, b: nat)
    requires Reachable(Init(n), Step(k), s) && IsList(s.heap, s.root, l)
    requires t < n && a < b < |l| - 1
    requires First(k, t) <= s.heap[l[a]].number < First(k, t) + k
    requires First(k, t) <= s.heap[l[b]].number < First(k, t) + k
    ensures s.heap[l[a]].number > s.heap[l[b]].number
  {
    ListNumbersAre(n, k, s, l);
    var numbers := Numbers(s.heap, s.chain);
    assert PushedBy(k, numbers, t, s.threads[t].i);
    ReverseDescends(k, numbers, t, s.threads[t].i, ListNumbers(s.heap, l), a, b);
  }

  lemma ReverseDescends(k: nat, numbers: seq<nat>, t: nat, i: nat, r: seq<nat>, a: nat, b: nat)
    requires PushedBy(k, numbers, t, i) && r == Reverse(numbers) && a < b < |r|
    requires First(k, t) <= r[a] < First(k, t) + k && First(k, t) <= r[b] < First(k, t) + k
    ensures r[a] > r[b]
  {
    BandClimbs(numbers, First(k, t), First(k, t) + k, i, |numbers|-1-b, |numbers|-1-a);
  }
}
