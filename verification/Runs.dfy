/**
 Runs of a step system.  A step is named by a label (which thread moves, which
 outcome an instruction has); `step` returns None when that step is not possible.
 */
module Runs {

  datatype Option<+T> = None | Some(value: T)

  /** The state after the steps of `sched`, or None when one of them is not possible. */
  function Exec<S, L>(init: S, step: (S, L) -> Option<S>, sched: seq<L>): Option<S> {
    if sched == [] then Some(init)
    else
      match Exec(init, step, sched[..|sched|-1])
      case None => None
      case Some(s) => step(s, sched[|sched|-1])
  }

  ghost predicate Reachable<S, L(!new)>(init: S, step: (S, L) -> Option<S>, s: S) {
    exists sched :: Exec(init, step, sched) == Some(s)
  }

  ghost predicate Preserved<S(!new), L(!new)>(step: (S, L) -> Option<S>, inv: S -> bool) {
    forall s, l :: inv(s) && step(s, l).Some? ==> inv(step(s, l).value)
  }

  /** A property of the first state that every step keeps holds in every reachable state. */
  lemma {:induction false} AlwaysAfter<S(!new), L(!new)>(
      init: S, step: (S, L) -> Option<S>, inv: S -> bool, sched: seq<L>)
    requires inv(init) && Preserved(step, inv)
    ensures Exec(init, step, sched).Some? ==> inv(Exec(init, step, sched).value)
  {
    if sched != [] {
      AlwaysAfter(init, step, inv, sched[..|sched|-1]);
    }
  }

  lemma Always<S(!new), L(!new)>(init: S, step: (S, L) -> Option<S>, inv: S -> bool, s: S)
    requires inv(init) && Preserved(step, inv) && Reachable(init, step, s)
    ensures inv(s)
  {
    var sched :| Exec(init, step, sched) == Some(s);
    AlwaysAfter(init, step, inv, sched);
  }

  lemma Initially<S, L(!new)>(init: S, step: (S, L) -> Option<S>)
    ensures Reachable(init, step, init)
  {
    var none: seq<L> := [];
    assert Exec(init, step, none) == Some(init);
  }

  lemma OneMore<S(!new), L(!new)>(init: S, step: (S, L) -> Option<S>, s: S, l: L)
    requires Reachable(init, step, s) && step(s, l).Some?
    ensures Reachable(init, step, step(s, l).value)
  {
    var sched :| Exec(init, step, sched) == Some(s);
    assert (sched + [l])[..|sched + [l]|-1] == sched;
    assert Exec(init, step, sched + [l]) == step(s, l);
  }

  /** A run of a system is a run of every system that has all its steps. */
  lemma {:induction false} Simulated<S(!new), L(!new)>(
      init: S, less: (S, L) -> Option<S>, more: (S, L) -> Option<S>, sched: seq<L>)
    requires forall s, l | less(s, l).Some? :: more(s, l) == less(s, l)
    requires Exec(init, less, sched).Some?
    ensures Exec(init, more, sched) == Exec(init, less, sched)
    ensures Reachable(init, more, Exec(init, less, sched).value)
  {
    if sched != [] {
      Simulated(init, less, more, sched[..|sched|-1]);
    }
    assert Exec(init, more, sched) == Exec(init, less, sched);
  }

  /** A run from a reachable state ends in a reachable state. */
  lemma {:induction false} Chained<S(!new), L(!new)>(init: S, step: (S, L) -> Option<S>, s: S, sched: seq<L>)
    requires Reachable(init, step, s) && Exec(s, step, sched).Some?
    ensures Reachable(init, step, Exec(s, step, sched).value)
  {
    if sched != [] {
      Chained(init, step, s, sched[..|sched|-1]);
      OneMore(init, step, Exec(s, step, sched[..|sched|-1]).value, sched[|sched|-1]);
    }
  }

  ghost predicate Stuck<S, L(!new)>(step: (S, L) -> Option<S>, s: S) {
    forall l :: step(s, l).None?
  }

  ghost predicate Descends<S(!new), L(!new)>(step: (S, L) -> Option<S>, inv: S -> bool, measure: S -> nat) {
    forall s, l :: inv(s) && step(s, l).Some? ==> measure(step(s, l).value) < measure(s)
  }

  /** When every step lowers a measure, no run is longer than the first state's measure. */
  lemma {:induction false} RunsAreShort<S(!new), L(!new)>(
      init: S, step: (S, L) -> Option<S>, inv: S -> bool, measure: S -> nat, sched: seq<L>)
    requires inv(init) && Preserved(step, inv) && Descends(step, inv, measure)
    ensures Exec(init, step, sched).Some? ==> |sched| + measure(Exec(init, step, sched).value) <= measure(init)
  {
    if sched != [] {
      AlwaysAfter(init, step, inv, sched[..|sched|-1]);
      RunsAreShort(init, step, inv, measure, sched[..|sched|-1]);
    }
  }

  /** ... and from every reachable state the system runs on into a state without steps. */
  lemma {:induction false} RunsOut<S(!new), L(!new)>(
      init: S, step: (S, L) -> Option<S>, inv: S -> bool, measure: S -> nat, s: S) returns (last: S, sched: seq<L>)
    requires inv(s) && Preserved(step, inv) && Descends(step, inv, measure)
    requires Reachable(init, step, s)
    ensures Exec(s, step, sched) == Some(last)
    ensures Reachable(init, step, last) && Stuck(step, last)
    decreases measure(s)
  {
    last, sched := s, [];
    if l :| step(s, l).Some? {
      OneMore(init, step, s, l);
      var rest;
      last, rest := RunsOut(init, step, inv, measure, step(s, l).value);
      Prepended(s, step, l, rest);
      sched := [l] + rest;
    }
  }

  lemma {:induction false} Prepended<S(!new), L(!new)>(s: S, step: (S, L) -> Option<S>, l: L, rest: seq<L>)
    requires step(s, l).Some?
    ensures Exec(s, step, [l] + rest) == Exec(step(s, l).value, step, rest)
  {
    var all := [l] + rest;
    if rest == [] {
      assert all[..|all|-1] == [];
    } else {
      Prepended(s, step, l, rest[..|rest|-1]);
      assert all[..|all|-1] == [l] + rest[..|rest|-1];
    }
  }
}
