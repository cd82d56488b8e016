/** A device that stands still has only legitimate waiters. */
module Progress {
  import opened Base
  import opened Machine
  import opened Locking
  import opened Wakeups

  /** Choices that need neither a signal, a timeout, a fault nor a new call. */
  predicate Internal(c: Choice) {
    c.Go? || c.LoadW? || c.LoadR?
  }

  ghost predicate Stuck(s: State) {
    forall t: Tid, c: Choice :: Internal(c) ==> Next(s, Step(t, c)).None?
  }

  lemma {:induction false} OwnerCanStep(sh: Shared, t: Tid, pc: Pc)
    requires Good(sh, t, pc) && Inside(pc)
    ensures ThreadStep(sh, t, pc, Go).Some?
  {
  }

  /** With the mutex free, only sleepers cannot step. */
  lemma {:induction false} OthersCanStep(sh: Shared, t: Tid, pc: Pc)
    requires Good(sh, t, pc) && sh.owner.None? && !pc.Out?
    requires !(pc.Reader? && pc.rpc.RAsleep? && t in sh.sleepers)
    requires !(pc.Poller? && pc.ppc.PAsleep? && t !in sh.triggered)
    ensures exists c: Choice :: Internal(c) && ThreadStep(sh, t, pc, c).Some?
  {
    assert Internal(Go) && Internal(LoadW) && Internal(LoadR);
    if pc.Reader? && pc.rpc.RCond? && pc.rpc.w.None? {
      assert ThreadStep(sh, t, pc, LoadW).Some?;
    } else if pc.Reader? && pc.rpc.RCond? && pc.rpc.r.None? {
      assert ThreadStep(sh, t, pc, LoadR).Some?;
    } else {
      assert ThreadStep(sh, t, pc, Go).Some?;
    }
  }

  lemma {:induction false} NotStuck(s: State, t: Tid, c: Choice)
    requires Internal(c) && ThreadStep(s.sh, t, s.Pc(t), c).Some?
    ensures !Stuck(s)
  {
    assert Next(s, Step(t, c)).Some?;
  }

  lemma {:induction false} StuckMeansFree(s: State)
    requires Inv(s) && Stuck(s)
    ensures s.sh.owner.None?
  {
    if s.sh.owner.Some? {
      var o := s.sh.owner.value;
      assert Inside(s.Pc(o)) && Local(s.sh, s.Pc(o));
      OwnerCanStep(s.sh, o, s.Pc(o));
      NotStuck(s, o, Go);
    }
  }

  lemma {:induction false} StuckMeansAsleep(s: State, t: Tid)
    requires Inv(s) && Stuck(s) && s.sh.owner.None? && !s.Pc(t).Out?
    ensures SoundAsleep(s, t) || PollerAsleep(s, t)
  {
    if !SoundAsleep(s, t) && !PollerAsleep(s, t) {
      assert Local(s.sh, s.Pc(t)) && (Inside(s.Pc(t)) <==> s.sh.owner == Some(t));
      OthersCanStep(s.sh, t, s.Pc(t));
      var c :| Internal(c) && ThreadStep(s.sh, t, s.Pc(t), c).Some?;
      NotStuck(s, t, c);
    }
  }

  lemma {:induction false} StuckMeansNobodyWakes(s: State)
    requires Inv(s) && Stuck(s)
    ensures !exists u: Tid :: WakesPollers(s.Pc(u))
  {
    StuckMeansFree(s);
    if u: Tid :| WakesPollers(s.Pc(u)) {
      StuckMeansAsleep(s, u);
    }
  }

  /** When no unfinished call can step on its own, the mutex is free, every unfinished call is a
      sleeping reader or poller, the buffer is empty if one is a reader, and a poller's event is
      absent (for POLLOUT: absent, or announced to nobody by a faulting write). */
  lemma {:induction false} StuckMeansWaiting(size: nat, steps: seq<Step>, t: Tid)
    requires size > 0 && Exec(size, steps).Some? && Stuck(Exec(size, steps).value)
    requires !Exec(size, steps).value.Pc(t).Out?
    ensures var s := Exec(size, steps).value;
            && s.sh.owner.None?
            && (SoundAsleep(s, t) || PollerAsleep(s, t))
            && (SoundAsleep(s, t) ==> s.sh.r == 0 == s.sh.w)
            && (PollerAsleep(s, t) && s.Pc(t).ppc.q.wantIn ==> s.sh.r == 0 == s.sh.w)
            && (PollerAsleep(s, t) && s.Pc(t).ppc.q.wantOut ==> !HasSpace(s.sh) || Unannounced(size, steps))
  {
    var s := Exec(size, steps).value;
    InvAlways(size, steps);
    StuckMeansFree(s);
    StuckMeansAsleep(s, t);
    StuckMeansNobodyWakes(s);
    assert forall u: Tid :: WakesReaders(s.Pc(u)) ==> WakesPollers(s.Pc(u));
    if SoundAsleep(s, t) && HasData(s.sh) {
      NoLostReaderWakeup(size, steps, t);
    }
    if PollerAsleep(s, t) {
      NoLostPollWakeup(size, steps, t);
    }
  }
}
