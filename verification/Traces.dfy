/** Runs of a system: what holds at first and is kept by every step holds throughout. */
module Traces {

  /** One step of a run, from one state to the next under its label. */
  ghost predicate Taken<S(!new), L(!new)>(ss: seq<S>, ls: seq<L>, step: (S, S, L) -> bool, i: nat) {
    i < |ls| && i + 1 < |ss| && step(ss[i], ss[i + 1], ls[i])
  }

  ghost predicate Run<S(!new), L(!new)>(ss: seq<S>, ls: seq<L>, step: (S, S, L) -> bool) {
    |ss| == |ls| + 1 && forall i: nat :: i < |ls| ==> Taken(ss, ls, step, i)
  }

  /** The first `n` steps also meet a condition. */
  ghost predicate Until<S(!new), L(!new)>(ss: seq<S>, ls: seq<L>, also: (S, S, L) -> bool, n: nat) {
    forall i: nat :: i < n ==> Taken(ss, ls, also, i)
  }

  lemma {:induction false} Keeps<S(!new), L(!new)>(ss: seq<S>, ls: seq<L>, step: (S, S, L) -> bool,
      also: (S, S, L) -> bool, keeps: S -> bool, n: nat)
    requires Run(ss, ls, step) && n <= |ls| && Until(ss, ls, also, n) && keeps(ss[0])
    requires forall s, s', l :: keeps(s) && step(s, s', l) && also(s, s', l) ==> keeps(s')
    ensures keeps(ss[n])
  {
    if n > 0 {
      Keeps(ss, ls, step, also, keeps, n - 1);
      assert Taken(ss, ls, step, n - 1) && Taken(ss, ls, also, n - 1);
    }
  }

  /** The same without a condition. */
  lemma Always<S(!new), L(!new)>(ss: seq<S>, ls: seq<L>, step: (S, S, L) -> bool, keeps: S -> bool, n: nat)
    requires Run(ss, ls, step) && n <= |ls| && keeps(ss[0])
    requires forall s, s', l :: keeps(s) && step(s, s', l) ==> keeps(s')
    ensures keeps(ss[n])
  {
    Keeps(ss, ls, step, step, keeps, n);
  }

  /** The same if all labels are of one kind. */
  lemma {:induction false} KeepsOn<S(!new), L(!new)>(ss: seq<S>, ls: seq<L>, step: (S, S, L) -> bool, kind: L -> bool,
      keeps: S -> bool, n: nat)
    requires Run(ss, ls, step) && n <= |ls| && (forall l :: l in ls ==> kind(l)) && keeps(ss[0])
    requires forall s, s', l :: keeps(s) && step(s, s', l) && kind(l) ==> keeps(s')
    ensures keeps(ss[n])
  {
    if n > 0 {
      KeepsOn(ss, ls, step, kind, keeps, n - 1);
      assert Taken(ss, ls, step, n - 1);
      assert ls[n - 1] in ls;
    }
  }

  /** A run is a run from any of its states on. */
  lemma From<S(!new), L(!new)>(ss: seq<S>, ls: seq<L>, step: (S, S, L) -> bool, n: nat)
    requires Run(ss, ls, step) && n <= |ls|
    ensures Run(ss[n..], ls[n..], step)
  {
    forall i: nat | i < |ls| - n
      ensures Taken(ss[n..], ls[n..], step, i)
    {
      assert Taken(ss, ls, step, n + i);
    }
  }

  /** A run can be continued by one from where it ends. */
  lemma Continued<S(!new), L(!new)>(ss: seq<S>, ls: seq<L>, ss': seq<S>, ls': seq<L>, step: (S, S, L) -> bool)
    requires Run(ss, ls, step) && Run(ss', ls', step) && ss[|ls|] == ss'[0]
    ensures Run(ss + ss'[1..], ls + ls', step)
    ensures (ss + ss'[1..])[0] == ss[0] && (ss + ss'[1..])[|ls + ls'|] == ss'[|ls'|]
  {
    forall i: nat | i < |ls + ls'|
      ensures Taken(ss + ss'[1..], ls + ls', step, i)
    {
      if i < |ls| {
        assert Taken(ss, ls, step, i);
      } else {
        assert Taken(ss', ls', step, i - |ls|);
      }
    }
  }

  /** Or by one step. */
  lemma Extended<S(!new), L(!new)>(ss: seq<S>, ls: seq<L>, s: S, l: L, step: (S, S, L) -> bool)
    requires Run(ss, ls, step) && step(ss[|ls|], s, l)
    ensures Run(ss + [s], ls + [l], step) && (ss + [s])[0] == ss[0] && (ss + [s])[|ls + [l]|] == s
  {
    forall i: nat | i < |ls + [l]|
      ensures Taken(ss + [s], ls + [l], step, i)
    {
      assert i < |ls| ==> Taken(ss, ls, step, i);
    }
  }

  lemma StepOf<S(!new), L(!new)>(ss: seq<S>, ls: seq<L>, step: (S, S, L) -> bool, i: nat)
    requires Run(ss, ls, step) && i < |ls|
    ensures step(ss[i], ss[i + 1], ls[i])
  {
    assert Taken(ss, ls, step, i);
  }

  ghost predicate Leads<S(!new), L(!new)>(ss: seq<S>, ls: seq<L>, step: (S, S, L) -> bool, from: S, to: S) {
    Run(ss, ls, step) && ss[0] == from && ss[|ls|] == to
  }

  /** Some run leads there. */
  ghost predicate Reachable<S(!new), L(!new)>(step: (S, S, L) -> bool, from: S, to: S) {
    exists ss, ls :: Leads(ss, ls, step, from, to)
  }

  lemma ReachableSelf<S(!new), L(!new)>(step: (S, S, L) -> bool, s: S)
    ensures Reachable(step, s, s)
  {
    assert Leads([s], [], step, s, s);
  }

  lemma ReachableNext<S(!new), L(!new)>(step: (S, S, L) -> bool, from: S, s: S, s': S, l: L)
    requires Reachable(step, from, s) && step(s, s', l)
    ensures Reachable(step, from, s')
  {
    var ss, ls :| Leads(ss, ls, step, from, s);
    Extended(ss, ls, s', l, step);
    assert Leads(ss + [s'], ls + [l], step, from, s');
  }
}
