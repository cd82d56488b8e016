/** The one wake-up that can be lost, exhibited by a concrete run. */
module LostWakeup {
  import opened Base
  import opened Machine
  import opened Locking
  import opened Wakeups

  /** The poller's POLLOUT has come true, and no wake-up of it is under way. */
  ghost predicate LostSpaceWakeup(s: State, t: Tid) {
    && s.sh.owner.None? && PollerAsleep(s, t) && s.Pc(t).ppc.q.wantOut && HasSpace(s.sh)
    && !exists u: Tid :: WakesPollers(s.Pc(u))
  }

  /** The fault exit of a write that has reset a full buffer loses the wake-up of every poller that
      waits for space then, unless somebody else is just about to wake. */
  lemma {:induction false} FaultAfterResetLoses(s: State, x: Step, t: Tid)
    requires Inv(s) && Next(s, x).Some? && s.Pc(x.t) == Writer(WUnlockFault(true))
    requires PollerAsleep(s, t) && s.Pc(t).ppc.q.wantOut
    ensures LostSpaceWakeup(Next(s, x).value, t) <==> !exists u: Tid :: WakesPollers(s.Pc(u))
  {
    var s' := Next(s, x).value;
    assert Local(s.sh, s.Pc(x.t));
    assert forall u: Tid :: WakesPollers(s'.Pc(u)) <==> WakesPollers(s.Pc(u));
    if u: Tid :| WakesPollers(s.Pc(u)) {
      assert WakesPollers(s'.Pc(u));
    }
  }

  /** One more step of a run, with the state it leads to. */
  lemma {:induction false} Take(size: nat, steps: seq<Step>, s: State, t: Tid, c: Choice, sh: Shared, pc: Pc)
    returns (more: seq<Step>, s': State)
    requires Exec(size, steps) == Some(s) && ThreadStep(s.sh, t, s.Pc(t), c) == Some((sh, pc))
    ensures Exec(size, more) == Some(s') && s'.sh == sh && s'.Pc(t) == pc
    ensures forall u: Tid :: u != t ==> s'.Pc(u) == s.Pc(u)
  {
    more := steps + [Step(t, c)];
    assert more[..|more| - 1] == steps;
    s' := State(sh, s.pcs[t := pc]);
  }

  /** A write is called and takes the mutex. */
  lemma {:induction false} EnterWrite(size: nat, steps: seq<Step>, s: State, t: Tid, d: seq<byte>)
    returns (more: seq<Step>, s': State)
    requires Exec(size, steps) == Some(s) && s.Pc(t).Out? && s.sh.owner.None?
    ensures Exec(size, more) == Some(s') && s'.sh == s.sh.(owner := Some(t)) && s'.Pc(t) == Writer(WTest(d))
    ensures forall u: Tid :: u != t ==> s'.Pc(u) == s.Pc(u)
  {
    more, s' := Take(size, steps, s, t, StartWrite(d), s.sh, Writer(WLock(d)));
    more, s' := Take(size, more, s', t, Go, s.sh.(owner := Some(t)), Writer(WTest(d)));
  }

  /** What thread 0 writes first: as many bytes as the buffer holds. */
  function Sevens(size: nat): (d: seq<byte>)
    ensures |d| == size
  {
    seq(size, _ => 7)
  }

  /** The device as initialised, and filled by thread 0. */
  function Fresh(size: nat): Shared {
    Shared(size, 0, 0, seq(size, _ => 0), None, {}, {}, {}, {})
  }

  function Full(size: nat): Shared {
    Shared(size, 0, size, Sevens(size), None, {}, {}, {}, {})
  }

  /** Thread 1 is registered on both queues. */
  function Watched(size: nat): Shared {
    Full(size).(pollR := {1}, pollW := {1})
  }

  /** Thread 0 holds the mutex and has reset the positions. */
  function Emptied(size: nat): Shared {
    Watched(size).(w := 0, owner := Some(0))
  }

  lemma {:induction false} FreshRun(size: nat) returns (steps: seq<Step>, s: State)
    ensures Exec(size, steps) == Some(s) && s.sh == Fresh(size) && forall u: Tid :: s.Pc(u) == Out(Nothing)
  {
    steps, s := [], Init(size);
  }

  /** The end of that write. */
  lemma {:induction false} LeaveWrite(size: nat, steps: seq<Step>, s: State) returns (more: seq<Step>, s': State)
    requires Exec(size, steps) == Some(s) && s.Pc(0) == Writer(WAdvance(Sevens(size), false, size))
    requires s.sh == Fresh(size).(owner := Some(0), buf := Sevens(size))
    ensures Exec(size, more) == Some(s') && s'.sh == Full(size) && s'.Pc(0) == Out(Wrote(size))
    ensures forall u: Tid :: u != 0 ==> s'.Pc(u) == s.Pc(u)
  {
    more, s' := Take(size, steps, s, 0, Go, s.sh.(w := size), Writer(WUnlock(size)));
    more, s' := Take(size, more, s', 0, Go, Full(size), Writer(WWake(size)));
    assert Full(size).triggered + Full(size).pollR == {};
    more, s' := Take(size, more, s', 0, Go, Full(size), Out(Wrote(size)));
  }

  /** Thread 0 fills the buffer. */
  lemma {:induction false} FillRun(size: nat) returns (steps: seq<Step>, s: State)
    requires size > 0
    ensures Exec(size, steps) == Some(s) && s.sh == Full(size) && s.Pc(0) == Out(Wrote(size))
    ensures forall u: Tid :: u != 0 ==> s.Pc(u) == Out(Nothing)
  {
    var d := Sevens(size);
    var held := Fresh(size).(owner := Some(0));
    steps, s := FreshRun(size);
    steps, s := EnterWrite(size, steps, s, 0, d);
    steps, s := Take(size, steps, s, 0, Go, held, Writer(WLoad(d, false)));
    steps, s := Take(size, steps, s, 0, Go, held, Writer(WCopy(d, false, size)));
    assert Splice(held.buf, 0, d) == d && d[..size] == d;
    steps, s := Take(size, steps, s, 0, Go, held.(buf := d), Writer(WAdvance(d, false, size)));
    steps, s := LeaveWrite(size, steps, s);
  }

  /** A poll for POLLOUT registers on both queues of the full device and takes the mutex. */
  lemma {:induction false} EnterPoll(size: nat, steps: seq<Step>, s: State, q: PollArgs)
    returns (more: seq<Step>, s': State)
    requires Exec(size, steps) == Some(s) && s.Pc(1).Out? && s.sh == Full(size) && q == PollArgs(false, true)
    ensures Exec(size, more) == Some(s')
    ensures s'.sh == Watched(size).(owner := Some(1)) && s'.Pc(1) == Poller(PTestIn(q))
    ensures forall u: Tid :: u != 1 ==> s'.Pc(u) == s.Pc(u)
  {
    assert {} + {1} == {1};
    more, s' := Take(size, steps, s, 1, StartPoll(false, true), s.sh, Poller(PRegisterR(q)));
    more, s' := Take(size, more, s', 1, Go, Full(size).(pollR := {1}), Poller(PRegisterW(q)));
    more, s' := Take(size, more, s', 1, Go, Watched(size), Poller(PLock(q)));
    more, s' := Take(size, more, s', 1, Go, Watched(size).(owner := Some(1)), Poller(PTestIn(q)));
  }

  /** That poll sees data but no space, and falls asleep. */
  lemma {:induction false} LeavePoll(size: nat, steps: seq<Step>, s: State, q: PollArgs)
    returns (more: seq<Step>, s': State)
    requires size > 0 && Exec(size, steps) == Some(s) && q == PollArgs(false, true)
    requires s.sh == Watched(size).(owner := Some(1)) && s.Pc(1) == Poller(PTestIn(q))
    ensures Exec(size, more) == Some(s') && s'.sh == Watched(size) && s'.Pc(1) == Poller(PAsleep(q))
    ensures forall u: Tid :: u != 1 ==> s'.Pc(u) == s.Pc(u)
  {
    more, s' := Take(size, steps, s, 1, Go, s.sh, Poller(PTestOut(q, true)));
    more, s' := Take(size, more, s', 1, Go, s.sh, Poller(PUnlock(q, true, false)));
    more, s' := Take(size, more, s', 1, Go, Watched(size), Poller(PDecide(q, true, false)));
    more, s' := Take(size, more, s', 1, Go, Watched(size), Poller(PAsleep(q)));
  }

  /** Then thread 1 polls for POLLOUT and falls asleep. */
  lemma {:induction false} PollRun(size: nat) returns (steps: seq<Step>, s: State)
    requires size > 0
    ensures Exec(size, steps) == Some(s)
    ensures s.sh == Watched(size) && s.Pc(0).Out? && s.Pc(1) == Poller(PAsleep(PollArgs(false, true)))
    ensures forall u: Tid :: u > 1 ==> s.Pc(u) == Out(Nothing)
  {
    var q := PollArgs(false, true);
    steps, s := FillRun(size);
    steps, s := EnterPoll(size, steps, s, q);
    steps, s := LeavePoll(size, steps, s, q);
  }

  /** Thread 0 writes one byte to a full device, and has reset the positions. */
  lemma {:induction false} OverwriteRun(size: nat, steps: seq<Step>, s: State) returns (more: seq<Step>, s': State)
    requires size > 0 && Exec(size, steps) == Some(s) && s.Pc(0).Out? && s.sh.owner.None?
    requires s.sh.size == s.sh.w == size && s.sh.r == 0
    ensures Exec(size, more) == Some(s') && s'.sh == s.sh.(w := 0, owner := Some(0))
    ensures s'.Pc(0) == Writer(WCopy([9], true, 1))
    ensures forall u: Tid :: u != 0 ==> s'.Pc(u) == s.Pc(u)
  {
    var held := s.sh.(owner := Some(0));
    more, s' := EnterWrite(size, steps, s, 0, [9]);
    more, s' := Take(size, more, s', 0, Go, held, Writer(WResetR([9])));
    more, s' := Take(size, more, s', 0, Go, held, Writer(WResetW([9])));
    more, s' := Take(size, more, s', 0, Go, held.(w := 0), Writer(WLoad([9], true)));
    more, s' := Take(size, more, s', 0, Go, held.(w := 0), Writer(WCopy([9], true, 1)));
  }

  /** Then thread 0 writes again, resets the buffer and faults. */
  lemma {:induction false} FaultRun(size: nat) returns (steps: seq<Step>, s: State)
    requires size > 0
    ensures Exec(size, steps) == Some(s)
    ensures s.sh == Emptied(size).(buf := Splice(Sevens(size), 0, [0]))
    ensures s.Pc(0) == Writer(WUnlockFault(true)) && s.Pc(1) == Poller(PAsleep(PollArgs(false, true)))
    ensures forall u: Tid :: u > 1 ==> s.Pc(u) == Out(Nothing)
  {
    var torn := Emptied(size).(buf := Splice(Sevens(size), 0, [0]));
    steps, s := PollRun(size);
    steps, s := OverwriteRun(size, steps, s);
    steps, s := Take(size, steps, s, 0, Fault([0]), torn, Writer(WUnlockFault(true)));
  }

  /** So the exception is real, whatever the size of the buffer: the poller sleeps on although there is
      space and nobody will wake it. */
  lemma {:induction false} SpaceWakeupCanBeLost(size: nat)
    requires size > 0
    ensures exists steps: seq<Step> :: Exec(size, steps).Some? && LostSpaceWakeup(Exec(size, steps).value, 1)
  {
    var steps, s := FaultRun(size);
    InvAlways(size, steps);
    FaultAfterResetLoses(s, Step(0, Go), 1);
    var all := steps + [Step(0, Go)];
    assert all[..|all| - 1] == steps;
    assert LostSpaceWakeup(Exec(size, all).value, 1);
  }
}
