/** Accepted bytes can be lost, exhibited by a concrete run for every size of the buffer. */
module LostBytes {
  import opened Base
  import opened Machine
  import opened Refinement
  import opened LostWakeup

  /** Thread 0 fills the buffer, and is about to count in one more byte after resetting it. */
  lemma {:induction false} SecondWriteRun(size: nat) returns (steps: seq<Step>, s: State)
    requires size > 0
    ensures Exec(size, steps) == Some(s)
    ensures s.sh.owner == Some(0) && s.Pc(0) == Writer(WAdvance([9], true, 1))
  {
    steps, s := FillRun(size);
    steps, s := OverwriteRun(size, steps, s);
    assert [9][..1] == [9];
    steps, s := Take(size, steps, s, 0, Go, s.sh.(buf := Splice(s.sh.buf, 0, [9])), Writer(WAdvance([9], true, 1)));
  }

  /** A write that has reset a full buffer loses bytes when it takes effect. */
  lemma {:induction false} AdvanceLoses(size: nat, steps: seq<Step>, t: Tid, d: seq<byte>, n: nat)
    requires size > 0 && Exec(size, steps).Some?
    requires var s := Exec(size, steps).value; s.sh.owner == Some(t) && s.Pc(t) == Writer(WAdvance(d, true, n))
    ensures Exec(size, steps + [Step(t, Go)]).Some?
    ensures Loses(size, steps + [Step(t, Go)])
  {
    var all := steps + [Step(t, Go)];
    assert all[..|all| - 1] == steps;
    ResetsCounted(size, steps);
    assert ResetOpen(Exec(size, steps).value) && !ResetOpen(Exec(size, all).value);
    LosesExactly(size, all);
  }

  /** So accepted bytes can be lost, whatever the size of the buffer. */
  lemma {:induction false} BytesCanBeLost(size: nat)
    requires size > 0
    ensures exists steps: seq<Step> :: Exec(size, steps).Some? && Loses(size, steps)
  {
    var steps, s := SecondWriteRun(size);
    AdvanceLoses(size, steps, 0, [9], 1);
  }
}
