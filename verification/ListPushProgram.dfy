/**
 The list program of inf19-2.c as one object that its threads update in place, with the
 traversal and the clearing that main does after joining them.
 */
module ListPushProgram {
  import opened Runs
  import opened ListPush

  /** A size_t stored into an int and printed with %d: the low 32 bits, signed. */
  function AsInt(v: nat): int {
    var low := v % 0x1_0000_0000;
    if low < 0x8000_0000 then low else low - 0x1_0000_0000
  }

  /** It is an int, and differs from the number by a multiple of 2^32. */
  lemma AsIntIs(v: nat) returns (k: nat)
    ensures -0x8000_0000 <= AsInt(v) <= 0x7FFF_FFFF && v == AsInt(v) + k * 0x1_0000_0000
    ensures v <= 0x7FFF_FFFF ==> AsInt(v) == v
  {
    k := (v - AsInt(v)) / 0x1_0000_0000;
  }

  /** The length of a run without swaps that fail for no reason. */
  ghost function LongestRun(n: nat, k: nat): int {
    4 * (n * k) + 3 * ((n - 1) * (n * k))
  }

  lemma Extends(n: nat, k: nat, sched: seq<Move>, s: State, m: Move)
    requires 0 < n && Exec(Init(n), Step(k), sched) == Some(s) && Possible(k, s, m)
    ensures Exec(Init(n), Step(k), sched + [m]) == Some(Next(k, s, m))
    ensures |sched| + 1 <= LongestRun(n, k) + 3 * Next(k, s, m).spurious
  {
    assert (sched + [m])[..|sched|] == sched;
    RunsAreFinite(n, k, sched + [m]);
  }

  lemma CanMove(n: nat, k: nat, s: State, m: Move)
    requires Inv(n, k, s) && m.t < |s.threads| && s.threads[m.t].i < k
    requires m.weak ==> s.threads[m.t].pc == Swap && s.root == s.threads[m.t].next
    ensures Possible(k, s, m)
  {
    assert ThreadInv(k, s, m.t);
  }

  class Pushers {
    const k: nat
    var heap: seq<Node>
    var root: nat
    var threads: seq<Thread>
    ghost var chain: seq<nat>
    ghost var failures: nat
    ghost var spurious: nat

    ghost function Snapshot(): State
      reads this
    {
      State(heap, root, threads, chain, failures, spurious)
    }

    constructor (n: nat, k: nat)
      ensures this.k == k && Snapshot() == Init(n)
    {
      this.k := k;
      heap, root := [Node(Null, 0)], 0;
      threads := seq(n, _ => Thread(0, Alloc, 0, 0));
      chain, failures, spurious := [0], 0, 0;
    }

    /** One step of insert_nodes in thread t. */
    method Act(t: nat, weak: bool)
      requires Possible(k, Snapshot(), Move(t, weak))
      modifies this
      ensures Snapshot() == Next(k, old(Snapshot()), Move(t, weak))
    {
      var th := threads[t];
      match th.pc {
        case Alloc =>
          FirstIsProduct(k, t);
          th := th.(item := |heap|, pc := Read);
          heap := heap + [Node(Unset, t * k + th.i)];
        case Read =>
          th := th.(next := root, pc := SetNext);
        case SetNext =>
          heap := heap[th.item := heap[th.item].(next := To(th.next))];
          th := th.(pc := Swap);
        case Swap =>
          if root == th.next && !weak {
            root := th.item;
            chain := chain + [th.item];
            th := th.(i := th.i + 1, pc := Alloc);
          } else {
            if root == th.next {
              spurious := spurious + 1;
            } else {
              failures := failures + 1;
            }
            th := th.(next := root, pc := Read);
          }
      }
      threads := threads[t := th];
    }

    /** Arbitrary threads move until all have pushed k nodes; at most `budget` swaps fail for no reason. */
    method RunAll(n: nat, budget: nat)
      requires Snapshot() == Init(n)
      modifies this
      ensures Reachable(Init(n), Step(k), Snapshot())
      ensures |threads| == n && forall t | 0 <= t < n :: threads[t].i == k
    {
      ghost var sched: seq<Move> := [];
      var left := budget;
      InitInv(n, k);
      ghost var bound := LongestRun(n, k) + 3 * budget;
      while exists t: nat :: t < |threads| && threads[t].i < k
        invariant Exec(Init(n), Step(k), sched) == Some(Snapshot())
        invariant Inv(n, k, Snapshot()) && spurious + left == budget
        decreases bound - |sched|
      {
        var t: nat :| t < |threads| && threads[t].i < k;
        var weak := *;
        weak := weak && threads[t].pc == Swap && threads[t].next == root && left > 0;
        ghost var before, sched' := Snapshot(), sched + [Move(t, weak)];
        CanMove(n, k, before, Move(t, weak));
        Extends(n, k, sched, before, Move(t, weak));
        NextInv(n, k, before, Move(t, weak));
        Act(t, weak);
        left := left - if weak then 1 else 0;
        sched := sched';
      }
      assert Reachable(Init(n), Step(k), Snapshot());
      forall t | 0 <= t < n ensures threads[t].i == k {
        assert ThreadInv(k, Snapshot(), t);
      }
    }
  }

  /** The final loop of main: print the value of every node that has a successor. */
  method Traverse(heap: seq<Node>, root: nat, ghost l: seq<nat>) returns (printed: seq<int>)
    requires IsList(heap, root, l)
    ensures |printed| == |l| - 1
    ensures forall j | 0 <= j < |printed| :: printed[j] == AsInt(heap[l[j]].number)
  {
    printed := [];
    var start := root;
    while heap[start].next.To?
      invariant |printed| < |l| && start == l[|printed|]
      invariant forall j | 0 <= j < |printed| :: printed[j] == AsInt(heap[l[j]].number)
      invariant heap[start].next == if |printed| < |l| - 1 then To(l[|printed|+1]) else Null
      decreases |l| - |printed|
    {
      printed := printed + [AsInt(heap[start].number)];
      start := heap[start].next.address;
    }
  }

  ghost function Elements(l: seq<nat>): set<nat> {
    set a | a in l
  }

  /**
   clear_list: free every node that has a successor, last one first.  Only nodes that are
   still allocated are read or freed; the sentinel, which has no successor, is never freed.
   */
  method ClearList(heap: seq<Node>, head: nat, live: set<nat>, ghost l: seq<nat>) returns (live': set<nat>)
    requires IsList(heap, head, l) && Distinct(l) && forall a | a in l :: a in live
    ensures live' == live - Elements(l[..|l|-1])
    decreases |l|
  {
    live' := live;
    assert head in live;
    assert |l| > 1 ==> heap[l[0]].next == To(l[1]);
    if heap[head].next.To? {
      live' := ClearList(heap, heap[head].next.address, live, l[1..]);
      assert head !in l[1..][..|l|-2];
      assert head in live';
      live' := live' - {head};
      assert l[..|l|-1] == [head] + l[1..][..|l|-2];
    }
  }

  // ----- every allocated node ends up in the list -----

  function Allocs(s: State): seq<nat> {
    seq(|s.threads|, t requires 0 <= t < |s.threads| =>
      s.threads[t].i + if s.threads[t].pc == Alloc then 0 else 1)
  }

  lemma NextAllocs(k: nat, s: State, m: Move)
    requires Possible(k, s, m) && |s.heap| == Sum(Allocs(s)) + 1
    ensures |Next(k, s, m).heap| == Sum(Allocs(Next(k, s, m))) + 1
  {
    var s' := Next(k, s, m);
    SumAfter(Allocs(s), m.t, Allocs(s')[m.t]);
    assert Allocs(s') == Allocs(s)[m.t := Allocs(s')[m.t]];
  }

  lemma {:induction false} AllocsCounted(n: nat, k: nat, sched: seq<Move>)
    ensures var r := Exec(Init(n), Step(k), sched); r.Some? ==> |r.value.heap| == Sum(Allocs(r.value)) + 1
  {
    if sched == [] {
      InitSums(n);
      assert Allocs(Init(n)) == seq(n, _ => 0);
    } else {
      AllocsCounted(n, k, sched[..|sched|-1]);
      var before, m := Exec(Init(n), Step(k), sched[..|sched|-1]), sched[|sched|-1];
      if before.Some? && Possible(k, before.value, m) {
        NextAllocs(k, before.value, m);
      }
    }
  }

  lemma DistinctCovers(l: seq<nat>, a: nat)
    requires Distinct(l) && forall j | 0 <= j < |l| :: l[j] < |l|
    requires a < |l|
    ensures a in l
  {
    DistinctCounts(l);
    if a !in l {
      AtMost(Elements(l) + {a}, |l|);
    }
  }

  lemma {:induction false} DistinctCounts(l: seq<nat>)
    requires Distinct(l)
    ensures |Elements(l)| == |l|
  {
    if l != [] {
      var init, last := l[..|l|-1], l[|l|-1];
      DistinctCounts(init);
      assert last !in init;
      assert Elements(l) == Elements(init) + {last};
    }
  }

  /** Once all threads are done there are as many nodes as pushes, and the sentinel. */
  lemma NodesCounted(n: nat, k: nat, s: State)
    requires Reachable(Init(n), Step(k), s)
    requires forall t | 0 <= t < |s.threads| :: s.threads[t].i == k
    ensures Linked(s) && |s.heap| == |s.chain|
  {
    var sched :| Exec(Init(n), Step(k), sched) == Some(s);
    ReachableInv(n, k, s);
    StepsCounted(n, k, sched);
    AllocsCounted(n, k, sched);
    forall t | 0 <= t < n ensures s.threads[t].pc == Alloc {
      assert ThreadInv(k, s, t);
    }
    assert Allocs(s) == Pushes(s);
  }

  /** Once all threads are done, no node is allocated outside the list. */
  lemma AllNodesListed(n: nat, k: nat, s: State, a: nat)
    requires Reachable(Init(n), Step(k), s) && a < |s.heap|
    requires forall t | 0 <= t < |s.threads| :: s.threads[t].i == k
    ensures a in History(s)
  {
    NodesCounted(n, k, s);
    DistinctCovers(s.chain, a);
    var j :| 0 <= j < |s.chain| && s.chain[j] == a;
    assert History(s)[|s.chain|-1-j] == a;
  }

  function Addresses(heap: seq<Node>): (r: set<nat>)
    ensures forall a: nat :: a in r <==> a < |heap|
  {
    if heap == [] then {} else Addresses(heap[..|heap|-1]) + {|heap|-1}
  }

  /** The numbers of one thread, which lie in [First(k, t), First(k, t) + k), stand in decreasing order. */
  ghost predicate LatestOfThreadFirst(n: nat, k: nat, numbers: seq<int>) {
    forall t: nat, a, b | t < n && 0 <= a < b < |numbers| ::
      First(k, t) <= numbers[a] < First(k, t) + k && First(k, t) <= numbers[b] < First(k, t) + k
      ==> numbers[a] > numbers[b]
  }

  lemma ListedLatestFirst(n: nat, k: nat, s: State, l: seq<nat>)
    requires Reachable(Init(n), Step(k), s) && IsList(s.heap, s.root, l)
    ensures LatestOfThreadFirst(n, k, ListNumbers(s.heap, l))
  {
    var numbers := ListNumbers(s.heap, l);
    forall t: nat, a, b | t < n && 0 <= a < b < |numbers|
      && First(k, t) <= numbers[a] < First(k, t) + k && First(k, t) <= numbers[b] < First(k, t) + k
      ensures numbers[a] > numbers[b]
    {
      LatestFirst(n, k, s, l, t, a, b);
    }
  }

  /**
   The whole program.  It prints every number once (as an int), latest of a thread first,
   and frees every node it allocated except the sentinel.
   */
  method RunProgram(n: nat, k: nat, budget: nat) returns (printed: seq<int>, leaked: set<nat>, ghost numbers: seq<nat>)
    ensures multiset(numbers) == multiset(Count(0, n * k))
    ensures |printed| == |numbers| && forall j | 0 <= j < |printed| :: printed[j] == AsInt(numbers[j])
    ensures LatestOfThreadFirst(n, k, numbers)
    ensures n * k <= 0x8000_0000 ==> printed == numbers
    ensures leaked == {0}
  {
    var pushers := new Pushers(n, k);
    pushers.RunAll(n, budget);
    ghost var s := pushers.Snapshot();
    ghost var l := History(s);
    Joined(n, k, s);
    printed := Traverse(pushers.heap, pushers.root, l);
    numbers := ListNumbers(pushers.heap, l);
    ListedLatestFirst(n, k, s, l);
    leaked := ClearList(pushers.heap, pushers.root, Addresses(pushers.heap), l);
    OnlySentinelLeft(l, Addresses(pushers.heap), leaked);
    if n * k <= 0x8000_0000 {
      PrintsExactly(n * k, numbers, printed);
    }
  }

  lemma Joined(n: nat, k: nat, s: State)
    requires Reachable(Init(n), Step(k), s)
    requires forall t | 0 <= t < |s.threads| :: s.threads[t].i == k
    ensures var l := History(s);
      && IsList(s.heap, s.root, l) && Distinct(l) && l[|l|-1] == 0 && 0 < |s.heap|
      && multiset(ListNumbers(s.heap, l)) == multiset(Count(0, n * k))
      && forall a | a in Addresses(s.heap) :: a in l
  {
    var l := History(s);
    ListIntact(n, k, s);
    NodesCounted(n, k, s);
    assert l[|l|-1] == s.chain[0];
    JoinedList(n, k, s, l);
    forall a: nat | a < |s.heap| ensures a in l {
      AllNodesListed(n, k, s, a);
    }
  }

  lemma PrintsExactly(bound: nat, numbers: seq<nat>, printed: seq<int>)
    requires multiset(numbers) == multiset(Count(0, bound)) && bound <= 0x8000_0000
    requires |printed| == |numbers| && forall j | 0 <= j < |printed| :: printed[j] == AsInt(numbers[j])
    ensures printed == numbers
  {
    forall j | 0 <= j < |numbers| ensures printed[j] == numbers[j] {
      assert numbers[j] in multiset(numbers);
      assert numbers[j] in Count(0, bound);
    }
  }

  lemma OnlySentinelLeft(l: seq<nat>, live: set<nat>, left: set<nat>)
    requires 0 < |l| && Distinct(l) && l[|l|-1] == 0 && forall a | a in live :: a in l
    requires 0 in live && left == live - Elements(l[..|l|-1])
    ensures left == {0}
  {
    assert l == l[..|l|-1] + [0];
  }
}
