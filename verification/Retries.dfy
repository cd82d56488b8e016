/** How often a woken reader can find the device empty again. */
module Retries {
  import opened Base
  import opened Machine
  import opened Locking

  /** The step is a woken reader's test under the lock that finds no data. */
  predicate IsRetry(s: State, x: Step) {
    match s.Pc(x.t)
    case Reader(RTest(_, again)) => again && !HasData(s.sh) && Next(s, x).Some?
    case _ => false
  }

  /** The step assigns 0 to `write_pos`: the end of a drain or of a full reset. */
  predicate ZeroesW(s: State, x: Step) {
    match s.Pc(x.t)
    case Reader(RResetW(_)) => Next(s, x).Some?
    case Writer(WResetW(_)) => Next(s, x).Some?
    case _ => false
  }

  /** The step loads `write_pos` for a test without the lock. */
  predicate LoadsW(s: State, x: Step) {
    x.c.LoadW? && Next(s, x).Some?
  }

  function RetriesOf(size: nat, steps: seq<Step>, t: Tid): nat {
    if steps == [] then 0
    else
      var pre, x := steps[..|steps| - 1], steps[|steps| - 1];
      match Exec(size, pre)
      case None => 0
      case Some(s) => RetriesOf(size, pre, t) + if x.t == t && IsRetry(s, x) then 1 else 0
  }

  function ZeroesByOthers(size: nat, steps: seq<Step>, t: Tid): nat {
    if steps == [] then 0
    else
      var pre, x := steps[..|steps| - 1], steps[|steps| - 1];
      match Exec(size, pre)
      case None => 0
      case Some(s) => ZeroesByOthers(size, pre, t) + if x.t != t && ZeroesW(s, x) then 1 else 0
  }

  /** How many such assignments others had made when `t` last loaded `write_pos` without the lock. */
  function ZeroesAtLoad(size: nat, steps: seq<Step>, t: Tid): nat {
    if steps == [] then 0
    else
      var pre, x := steps[..|steps| - 1], steps[|steps| - 1];
      match Exec(size, pre)
      case None => 0
      case Some(s) =>
        if x.t == t && LoadsW(s, x) then ZeroesByOthers(size, pre, t) else ZeroesAtLoad(size, pre, t)
  }

  /** The counts go up by one exactly at a retry, and at an assignment by somebody else. */
  lemma {:induction false} CountsGrow(size: nat, steps: seq<Step>, x: Step, t: Tid)
    requires Exec(size, steps + [x]).Some? && Exec(size, steps).Some?
    ensures var s, all := Exec(size, steps).value, steps + [x];
            && (RetriesOf(size, all, t) > RetriesOf(size, steps, t) <==> x.t == t && IsRetry(s, x))
            && RetriesOf(size, all, t) <= RetriesOf(size, steps, t) + 1
            && (ZeroesByOthers(size, all, t) > ZeroesByOthers(size, steps, t) <==> x.t != t && ZeroesW(s, x))
            && ZeroesByOthers(size, all, t) <= ZeroesByOthers(size, steps, t) + 1
            && RetriesOf(size, [], t) == ZeroesByOthers(size, [], t) == 0
  {
    assert (steps + [x])[..|steps|] == steps;
  }

  /** The thread acts, or may come to act, on a positive `write_pos` that it has loaded. */
  predicate HoldsEvidence(pc: Pc) {
    match pc
    case Reader(RCond(_, _, _, w, r)) => w.Some? && w.value > 0
    case Reader(RRelock(_)) => true
    case Reader(RTest(_, again)) => again
    case _ => false
  }

  ghost predicate Counted(size: nat, steps: seq<Step>, t: Tid)
    requires Exec(size, steps).Some?
  {
    var s := Exec(size, steps).value;
    && ZeroesAtLoad(size, steps, t) <= ZeroesByOthers(size, steps, t)
    && RetriesOf(size, steps, t) <= ZeroesByOthers(size, steps, t)
    && (HoldsEvidence(s.Pc(t)) ==>
          && RetriesOf(size, steps, t) <= ZeroesAtLoad(size, steps, t)
          && (s.sh.w > 0 || ZeroesAtLoad(size, steps, t) < ZeroesByOthers(size, steps, t)))
  }

  /** Only an assignment of 0 makes `write_pos` 0, and it is made by the owner of the mutex. */
  lemma {:induction false} WStaysPositive(s: State, x: Step)
    requires Inv(s) && Next(s, x).Some? && s.sh.w > 0
    ensures Next(s, x).value.sh.w > 0 || ZeroesW(s, x)
  {
    assert Local(s.sh, s.Pc(x.t)) && (Inside(s.Pc(x.t)) <==> s.sh.owner == Some(x.t));
  }

  /** Evidence is gained by a load, kept by the tests that follow, and spent by the test under the lock. */
  lemma {:induction false} EvidenceStep(s: State, x: Step)
    requires Next(s, x).Some? && HoldsEvidence(Next(s, x).value.Pc(x.t))
    ensures !IsRetry(s, x) && !ZeroesW(s, x)
    ensures if LoadsW(s, x) then s.sh.w > 0 else HoldsEvidence(s.Pc(x.t))
    ensures Next(s, x).value.sh.w == s.sh.w
  {
  }

  /** The owner of the mutex that tests finds the positions at rest. */
  lemma {:induction false} RetryMeansZero(s: State, x: Step)
    requires Inv(s) && IsRetry(s, x)
    ensures HoldsEvidence(s.Pc(x.t)) && s.sh.w == 0
  {
    assert Local(s.sh, s.Pc(x.t));
  }

  lemma {:induction false} CountedAlways(size: nat, steps: seq<Step>, t: Tid)
    requires size > 0 && Exec(size, steps).Some?
    ensures Counted(size, steps, t)
  {
    if steps != [] {
      var pre, x := steps[..|steps| - 1], steps[|steps| - 1];
      CountedAlways(size, pre, t);
      InvAlways(size, pre);
      var s := Exec(size, pre).value;
      if s.sh.w > 0 {
        WStaysPositive(s, x);
      }
      if x.t == t {
        if IsRetry(s, x) {
          RetryMeansZero(s, x);
        }
        if HoldsEvidence(Next(s, x).value.Pc(t)) {
          EvidenceStep(s, x);
        }
      }
    }
  }

  /** Each retry has a cause: since the reader loaded `write_pos`, somebody else has set it to 0. */
  lemma {:induction false} RetryHasCause(size: nat, steps: seq<Step>, x: Step)
    requires size > 0 && Exec(size, steps).Some? && IsRetry(Exec(size, steps).value, x)
    ensures ZeroesAtLoad(size, steps, x.t) < ZeroesByOthers(size, steps, x.t)
  {
    CountedAlways(size, steps, x.t);
    InvAlways(size, steps);
    RetryMeansZero(Exec(size, steps).value, x);
  }

  /** Over any run, a thread's retries never exceed the drains and full resets of the others. */
  lemma {:induction false} RetriesBounded(size: nat, steps: seq<Step>, t: Tid)
    requires size > 0 && Exec(size, steps).Some?
    ensures RetriesOf(size, steps, t) <= ZeroesByOthers(size, steps, t)
  {
    CountedAlways(size, steps, t);
  }
}
