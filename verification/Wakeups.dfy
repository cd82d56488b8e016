/** No wake-up is lost, although conditions are tested without the lock and has_data is briefly
    true in the middle of a reset. */
module Wakeups {
  import opened Base
  import opened Machine
  import opened Locking

  // ---------- what a waiter may be waiting for ----------

  /** The thread has counted bytes in and will wake read_queue before it returns. */
  predicate WillWakeReaders(pc: Pc) {
    pc.Writer? && (pc.wpc.WUnlock? || pc.wpc.WWake?)
  }

  /** The thread has made space, or is about to, and will wake a queue pollers sit on, or leave
      through the fault exit of a write that reset a full buffer. */
  predicate WillOfferSpace(pc: Pc) {
    match pc
    case Reader(RUnlock(_)) => true
    case Reader(RWake(_)) => true
    case Writer(WLoad(_, reset)) => reset
    case Writer(WCopy(_, reset, _)) => reset
    case Writer(WAdvance(_, reset, _)) => reset
    case Writer(WUnlockFault(reset)) => reset
    case Writer(WUnlock(_)) => true
    case Writer(WWake(_)) => true
    case _ => false
  }

  ghost predicate DataWakePending(s: State) {
    exists u: Tid :: WillWakeReaders(s.Pc(u))
  }

  ghost predicate SpaceWakePending(s: State) {
    exists u: Tid :: WillOfferSpace(s.Pc(u))
  }

  /** Between the two assignments of a reset `w > r` holds although nothing is left to read. */
  predicate MidReset(pc: Pc) {
    (pc.Reader? && pc.rpc.RResetW?) || (pc.Writer? && pc.wpc.WResetW?)
  }

  predicate Drained(s: State) {
    !HasData(s.sh) || (s.sh.owner.Some? && MidReset(s.Pc(s.sh.owner.value)))
  }

  /** The loads a queued reader has made so far cannot hide data that is there now. */
  predicate SeesData(sh: Shared, pc: Pc) {
    match pc
    case Reader(RCond(_, true, false, w, r)) => (w.Some? ==> w.value == sh.w) && (r.Some? ==> r.value <= sh.r)
    case Reader(RAsleep(_)) => false
    case _ => true
  }

  /** The poller stands behind a test of has_data that failed. */
  predicate MissedData(pc: Pc) {
    match pc
    case Poller(PTestOut(q, readable)) => q.wantIn && !readable
    case Poller(PUnlock(q, readable, _)) => q.wantIn && !readable
    case Poller(PDecide(q, readable, _)) => q.wantIn && !readable
    case Poller(PAsleep(q)) => q.wantIn
    case _ => false
  }

  /** The poller stands behind a test of has_space that failed. */
  predicate MissedSpace(pc: Pc) {
    match pc
    case Poller(PUnlock(q, _, writable)) => q.wantOut && !writable
    case Poller(PDecide(q, _, writable)) => q.wantOut && !writable
    case Poller(PAsleep(q)) => q.wantOut
    case _ => false
  }

  /** The wait queues hold exactly the pollers that have registered, until their call returns, and only readers
      in the wait. */
  predicate Registered(sh: Shared, t: Tid, pc: Pc) {
    && (t in sh.pollR <==> pc.Poller? && !pc.ppc.PRegisterR?)
    && (t in sh.pollW <==> pc.Poller? && !pc.ppc.PRegisterR? && !pc.ppc.PRegisterW?)
    && (t in sh.triggered ==> t in sh.pollR)
    && (t in sh.sleepers ==> pc.Reader? && (pc.rpc.RPrepare? || pc.rpc.RAsleep? || (pc.rpc.RCond? && pc.rpc.queued)))
  }

  // ---------- the invariant ----------

  /** `unannounced`: since the last wake-up of either queue, a write has reset a full buffer and then
      left through its fault exit. */
  predicate StillUnannounced(s: State, x: Step, unannounced: bool) {
    match s.Pc(x.t)
    case Writer(WUnlockFault(reset)) => unannounced || reset
    case Writer(WWake(_)) => false
    case Reader(RWake(_)) => false
    case _ => unannounced
  }

  function Unannounced(size: nat, steps: seq<Step>): bool {
    if steps == [] then false
    else
      var pre := steps[..|steps| - 1];
      match Exec(size, pre)
      case None => false
      case Some(s) => StillUnannounced(s, steps[|steps| - 1], Unannounced(size, pre))
  }

  ghost predicate WaitersServed(s: State, unannounced: bool) {
    && (forall t: Tid :: Registered(s.sh, t, s.Pc(t)))
    && (forall t: Tid :: t in s.sh.sleepers ==> SeesData(s.sh, s.Pc(t)) || DataWakePending(s) || Drained(s))
    && (forall t: Tid :: t !in s.sh.triggered && MissedData(s.Pc(t)) ==> DataWakePending(s) || Drained(s))
    && (forall t: Tid :: t !in s.sh.triggered && MissedSpace(s.Pc(t)) ==>
          !HasSpace(s.sh) || SpaceWakePending(s) || unannounced)
  }

  // ---------- one step of one thread ----------

  /** What the owner of the mutex can do to the positions, as far as waiters for data care. */
  lemma {:induction false} DataSteps(sh: Shared, t: Tid, pc: Pc, c: Choice)
    requires Good(sh, t, pc) && ThreadStep(sh, t, pc, c).Some? && Inside(pc)
    ensures var p := ThreadStep(sh, t, pc, c).value;
            || WillWakeReaders(p.1)
            || !HasData(p.0) || MidReset(p.1)
            || (HasData(sh) && !MidReset(pc) && p.0.w == sh.w && p.0.r >= sh.r)
  {
  }

  /** Space appears only under threads that will offer it. */
  lemma {:induction false} SpaceSteps(sh: Shared, t: Tid, pc: Pc, c: Choice)
    requires Good(sh, t, pc) && ThreadStep(sh, t, pc, c).Some?
    ensures var p := ThreadStep(sh, t, pc, c).value;
            HasSpace(p.0) ==> HasSpace(sh) || WillOfferSpace(p.1)
  {
  }

  predicate WakesReaders(pc: Pc) {
    pc.Writer? && pc.wpc.WWake?
  }

  predicate WakesPollers(pc: Pc) {
    WakesReaders(pc) || (pc.Reader? && pc.rpc.RWake?)
  }

  /** A step that wakes takes every sleeper off read_queue and triggers every registered poller. */
  lemma {:induction false} WakeStep(sh: Shared, t: Tid, pc: Pc, c: Choice)
    requires ThreadStep(sh, t, pc, c).Some?
    ensures var sh' := ThreadStep(sh, t, pc, c).value.0;
            && (WakesReaders(pc) ==> sh'.sleepers == {} && sh'.triggered >= sh.pollR)
            && (WakesPollers(pc) && !WakesReaders(pc) ==> sh'.triggered >= sh.pollW)
            && (!WakesPollers(pc) ==> sh'.sleepers <= sh.sleepers + {t} && sh.triggered <= sh'.triggered + {t})
  {
  }

  lemma {:induction false} DataWakeKept(s: State, x: Step)
    requires Next(s, x).Some? && DataWakePending(s) && !WakesReaders(s.Pc(x.t))
    ensures DataWakePending(Next(s, x).value)
  {
    var u: Tid :| WillWakeReaders(s.Pc(u));
    assert WillWakeReaders(Next(s, x).value.Pc(u));
  }

  lemma {:induction false} SpaceWakeKept(s: State, x: Step, unannounced: bool)
    requires Next(s, x).Some? && SpaceWakePending(s) && !WakesPollers(s.Pc(x.t))
    ensures SpaceWakePending(Next(s, x).value) || StillUnannounced(s, x, unannounced)
  {
    var u: Tid :| WillOfferSpace(s.Pc(u));
    assert WillOfferSpace(Next(s, x).value.Pc(u)) || StillUnannounced(s, x, unannounced);
  }

  /** An empty device stays empty until somebody owes the readers a wake-up. */
  lemma {:induction false} DrainedKept(s: State, x: Step)
    requires Inv(s) && Next(s, x).Some? && Drained(s)
    ensures Drained(Next(s, x).value) || DataWakePending(Next(s, x).value)
  {
    var pc, s' := s.Pc(x.t), Next(s, x).value;
    assert Inside(pc) <==> s.sh.owner == Some(x.t);
    ThreadStepGood(s.sh, x.t, pc, x.c);
    if Inside(pc) {
      DataSteps(s.sh, x.t, pc, x.c);
      assert s'.Pc(x.t) == ThreadStep(s.sh, x.t, pc, x.c).value.1;
    }
  }

  lemma {:induction false} DataOrWakeKept(s: State, x: Step)
    requires Inv(s) && Next(s, x).Some? && !WakesReaders(s.Pc(x.t))
    requires DataWakePending(s) || Drained(s)
    ensures var s' := Next(s, x).value; DataWakePending(s') || Drained(s')
  {
    if DataWakePending(s) {
      DataWakeKept(s, x);
    } else {
      DrainedKept(s, x);
    }
  }

  lemma {:induction false} SpaceOrWakeKept(s: State, x: Step, unannounced: bool)
    requires Inv(s) && Next(s, x).Some? && !WakesPollers(s.Pc(x.t))
    requires !HasSpace(s.sh) || SpaceWakePending(s) || unannounced
    ensures var s' := Next(s, x).value;
            !HasSpace(s'.sh) || SpaceWakePending(s') || StillUnannounced(s, x, unannounced)
  {
    var pc, s' := s.Pc(x.t), Next(s, x).value;
    assert Inside(pc) <==> s.sh.owner == Some(x.t);
    if SpaceWakePending(s) {
      SpaceWakeKept(s, x, unannounced);
    } else if !HasSpace(s.sh) {
      SpaceSteps(s.sh, x.t, pc, x.c);
      assert s'.Pc(x.t) == ThreadStep(s.sh, x.t, pc, x.c).value.1;
    }
  }

  /** The loads of a queued reader stay truthful while others move. */
  lemma {:induction false} SeesDataKept(s: State, x: Step, u: Tid)
    requires Inv(s) && Next(s, x).Some? && u != x.t && SeesData(s.sh, s.Pc(u)) && !Drained(s)
    ensures var s' := Next(s, x).value;
            SeesData(s'.sh, s.Pc(u)) || DataWakePending(s') || Drained(s')
  {
    var pc, s' := s.Pc(x.t), Next(s, x).value;
    assert Inside(pc) <==> s.sh.owner == Some(x.t);
    ThreadStepGood(s.sh, x.t, pc, x.c);
    if Inside(pc) {
      DataSteps(s.sh, x.t, pc, x.c);
      assert s'.Pc(x.t) == ThreadStep(s.sh, x.t, pc, x.c).value.1;
    }
  }

  /** A queued reader's own loads are truthful, and with both made it goes to sleep only if the
      device is drained. */
  lemma {:induction false} OwnLoads(sh: Shared, t: Tid, pc: Pc, c: Choice)
    requires ThreadStep(sh, t, pc, c).Some? && HasData(sh) && SeesData(sh, pc)
    ensures var p := ThreadStep(sh, t, pc, c).value;
            t in p.0.sleepers && !Inside(pc) ==> SeesData(p.0, p.1)
  {
  }

  lemma {:induction false} SleepersServed(s: State, x: Step, unannounced: bool, u: Tid)
    requires Inv(s) && WaitersServed(s, unannounced) && Next(s, x).Some?
    requires u in Next(s, x).value.sh.sleepers
    ensures var s' := Next(s, x).value;
            SeesData(s'.sh, s'.Pc(u)) || DataWakePending(s') || Drained(s')
  {
    var pc, s' := s.Pc(x.t), Next(s, x).value;
    WakeStep(s.sh, x.t, pc, x.c);
    assert Inside(pc) <==> s.sh.owner == Some(x.t);
    if DataWakePending(s) || Drained(s) {
      DataOrWakeKept(s, x);
    } else if u != x.t {
      SeesDataKept(s, x, u);
    } else {
      OwnLoads(s.sh, u, pc, x.c);
    }
  }

  lemma {:induction false} RegisteredOwn(sh: Shared, t: Tid, pc: Pc, c: Choice)
    requires ThreadStep(sh, t, pc, c).Some? && Registered(sh, t, pc)
    ensures var p := ThreadStep(sh, t, pc, c).value; Registered(p.0, t, p.1)
  {
  }

  /** Nobody puts another thread on a wait queue. */
  lemma {:induction false} RegisteredOther(sh: Shared, t: Tid, pc: Pc, c: Choice, u: Tid, other: Pc)
    requires ThreadStep(sh, t, pc, c).Some? && u != t && Registered(sh, u, other)
    ensures Registered(ThreadStep(sh, t, pc, c).value.0, u, other)
  {
  }

  lemma {:induction false} RegisteredKept(s: State, x: Step, u: Tid)
    requires Next(s, x).Some? && Registered(s.sh, u, s.Pc(u))
    ensures Registered(Next(s, x).value.sh, u, Next(s, x).value.Pc(u))
  {
    if x.t == u {
      RegisteredOwn(s.sh, u, s.Pc(u), x.c);
    } else {
      RegisteredOther(s.sh, x.t, s.Pc(x.t), x.c, u, s.Pc(u));
    }
  }

  /** A poller misses an event only where the event is not there. */
  lemma {:induction false} OwnTests(sh: Shared, t: Tid, pc: Pc, c: Choice)
    requires ThreadStep(sh, t, pc, c).Some?
    ensures var p := ThreadStep(sh, t, pc, c).value;
            && (MissedData(p.1) ==> MissedData(pc) || (!HasData(sh) && p.0 == sh))
            && (MissedSpace(p.1) ==> MissedSpace(pc) || (!HasSpace(sh) && p.0 == sh))
            && (MissedData(p.1) || MissedSpace(p.1) ==>
                  !WakesPollers(pc) && (t in sh.triggered <==> t in p.0.triggered))
  {
  }

  lemma {:induction false} PollersServed(s: State, x: Step, unannounced: bool, u: Tid)
    requires Inv(s) && WaitersServed(s, unannounced) && Next(s, x).Some?
    requires u !in Next(s, x).value.sh.triggered
    ensures var s' := Next(s, x).value;
            && (MissedData(s'.Pc(u)) ==> DataWakePending(s') || Drained(s'))
            && (MissedSpace(s'.Pc(u)) ==>
                  !HasSpace(s'.sh) || SpaceWakePending(s') || StillUnannounced(s, x, unannounced))
  {
    var pc, s' := s.Pc(x.t), Next(s, x).value;
    WakeStep(s.sh, x.t, pc, x.c);
    OwnTests(s.sh, x.t, pc, x.c);
    assert Registered(s.sh, u, s.Pc(u));
    if !WakesReaders(pc) && (DataWakePending(s) || Drained(s)) {
      DataOrWakeKept(s, x);
    }
    if !WakesPollers(pc) && (!HasSpace(s.sh) || SpaceWakePending(s) || unannounced) {
      SpaceOrWakeKept(s, x, unannounced);
    }
  }

  lemma {:induction false} ServedStep(s: State, x: Step, unannounced: bool)
    requires Inv(s) && WaitersServed(s, unannounced) && Next(s, x).Some?
    ensures WaitersServed(Next(s, x).value, StillUnannounced(s, x, unannounced))
  {
    var s' := Next(s, x).value;
    forall u: Tid
      ensures Registered(s'.sh, u, s'.Pc(u))
      ensures u in s'.sh.sleepers ==> SeesData(s'.sh, s'.Pc(u)) || DataWakePending(s') || Drained(s')
      ensures u !in s'.sh.triggered && MissedData(s'.Pc(u)) ==> DataWakePending(s') || Drained(s')
      ensures u !in s'.sh.triggered && MissedSpace(s'.Pc(u)) ==>
                !HasSpace(s'.sh) || SpaceWakePending(s') || StillUnannounced(s, x, unannounced)
    {
      RegisteredKept(s, x, u);
      if u in s'.sh.sleepers {
        SleepersServed(s, x, unannounced, u);
      }
      if u !in s'.sh.triggered {
        PollersServed(s, x, unannounced, u);
      }
    }
  }

  lemma {:induction false} ServedAlways(size: nat, steps: seq<Step>)
    requires size > 0 && Exec(size, steps).Some?
    ensures WaitersServed(Exec(size, steps).value, Unannounced(size, steps))
  {
    if steps != [] {
      var pre, x := steps[..|steps| - 1], steps[|steps| - 1];
      ServedAlways(size, pre);
      InvAlways(size, pre);
      ServedStep(Exec(size, pre).value, x, Unannounced(size, pre));
    }
  }

  /** Who is on a wait queue is waiting: after any run, the queues hold exactly the registered pollers, and only
      readers in the wait. */
  lemma {:induction false} QueuesHoldWaiters(size: nat, steps: seq<Step>, t: Tid)
    requires size > 0 && Exec(size, steps).Some?
    ensures Registered(Exec(size, steps).value.sh, t, Exec(size, steps).value.Pc(t))
  {
    ServedAlways(size, steps);
  }

  /** A writer has woken read_queue since reader `t` last put itself there. */
  function WokenSince(size: nat, steps: seq<Step>, t: Tid): bool {
    if steps == [] then false
    else
      var pre, x := steps[..|steps| - 1], steps[|steps| - 1];
      match Exec(size, pre)
      case None => false
      case Some(s) =>
        if x.t == t && s.Pc(t).Reader? && s.Pc(t).rpc.RPrepare? then false
        else WakesReaders(s.Pc(x.t)) || WokenSince(size, pre, t)
  }

  /** The reader has enqueued itself and goes on waiting. */
  predicate Enqueued(pc: Pc) {
    pc.Reader? && (pc.rpc.RAsleep? || (pc.rpc.RCond? && pc.rpc.queued && !pc.rpc.signalled))
  }

  lemma {:induction false} SleepStep(s: State, x: Step, t: Tid)
    requires Next(s, x).Some? && Enqueued(Next(s, x).value.Pc(t))
    ensures if x.t == t && s.Pc(t).Reader? && s.Pc(t).rpc.RPrepare? then t in Next(s, x).value.sh.sleepers
            else
              && Enqueued(s.Pc(t))
              && (t in Next(s, x).value.sh.sleepers <==> t in s.sh.sleepers && !WakesReaders(s.Pc(x.t)))
  {
  }

  /** A reader sleeps soundly until a writer wakes it. */
  lemma {:induction false} SleepsUntilWoken(size: nat, steps: seq<Step>, t: Tid)
    requires size > 0 && Exec(size, steps).Some? && Enqueued(Exec(size, steps).value.Pc(t))
    ensures t in Exec(size, steps).value.sh.sleepers <==> !WokenSince(size, steps, t)
  {
    if steps != [] {
      var pre, x := steps[..|steps| - 1], steps[|steps| - 1];
      SleepStep(Exec(size, pre).value, x, t);
      if Enqueued(Exec(size, pre).value.Pc(t)) {
        SleepsUntilWoken(size, pre, t);
      }
    }
  }

  // ---------- no lost wake-up ----------

  /** The reader sleeps on read_queue and nobody has woken it. */
  predicate SoundAsleep(s: State, t: Tid) {
    s.Pc(t).Reader? && s.Pc(t).rpc.RAsleep? && t in s.sh.sleepers
  }

  /** The poller sleeps and neither of its two queues has been woken. */
  predicate PollerAsleep(s: State, t: Tid) {
    s.Pc(t).Poller? && s.Pc(t).ppc.PAsleep? && t !in s.sh.triggered
  }

  /** With the mutex free, a wake-up that is owed is about to happen. */
  lemma {:induction false} PendingMeansWaking(s: State)
    requires Inv(s) && s.sh.owner.None?
    ensures DataWakePending(s) ==> exists u: Tid :: WakesReaders(s.Pc(u))
    ensures SpaceWakePending(s) ==> exists u: Tid :: WakesPollers(s.Pc(u))
  {
    forall u: Tid
      ensures WillWakeReaders(s.Pc(u)) ==> WakesReaders(s.Pc(u))
      ensures WillOfferSpace(s.Pc(u)) ==> WakesPollers(s.Pc(u))
    {
      assert Inside(s.Pc(u)) <==> s.sh.owner == Some(u);
    }
  }

  /** Whenever the mutex is free, data is there and a reader sleeps unwoken, some writer stands
      between its unlock and its wake-up. */
  lemma {:induction false} NoLostReaderWakeup(size: nat, steps: seq<Step>, t: Tid)
    requires size > 0 && Exec(size, steps).Some?
    requires var s := Exec(size, steps).value; s.sh.owner.None? && HasData(s.sh) && SoundAsleep(s, t)
    ensures exists u: Tid :: WakesReaders(Exec(size, steps).value.Pc(u))
  {
    var s := Exec(size, steps).value;
    ServedAlways(size, steps);
    InvAlways(size, steps);
    assert DataWakePending(s);
    PendingMeansWaking(s);
  }

  /** The same for pollers: for POLLIN without exception, for POLLOUT unless a write has reset a full
      buffer and faulted since the last wake-up. */
  lemma {:induction false} NoLostPollWakeup(size: nat, steps: seq<Step>, t: Tid)
    requires size > 0 && Exec(size, steps).Some?
    requires var s := Exec(size, steps).value; s.sh.owner.None? && PollerAsleep(s, t)
    ensures var s := Exec(size, steps).value;
            && (s.Pc(t).ppc.q.wantIn && HasData(s.sh) ==> exists u: Tid :: WakesReaders(s.Pc(u)))
            && (s.Pc(t).ppc.q.wantOut && HasSpace(s.sh) ==>
                  Unannounced(size, steps) || exists u: Tid :: WakesPollers(s.Pc(u)))
  {
    var s := Exec(size, steps).value;
    ServedAlways(size, steps);
    InvAlways(size, steps);
    PendingMeansWaking(s);
  }

  /** A fault exit leaves space, and the space stays until somebody owes a wake-up. */
  lemma {:induction false} UnannouncedSpace(size: nat, steps: seq<Step>)
    requires size > 0 && Exec(size, steps).Some? && Unannounced(size, steps)
    ensures HasSpace(Exec(size, steps).value.sh) || SpaceWakePending(Exec(size, steps).value)
  {
    var pre, x := steps[..|steps| - 1], steps[|steps| - 1];
    var s := Exec(size, pre).value;
    InvAlways(size, pre);
    assert Local(s.sh, s.Pc(x.t)) && (Inside(s.Pc(x.t)) <==> s.sh.owner == Some(x.t));
    if Unannounced(size, pre) {
      UnannouncedSpace(size, pre);
      SpaceKept(s, x);
    }
  }

  lemma {:induction false} SpaceKept(s: State, x: Step)
    requires Inv(s) && Next(s, x).Some? && (HasSpace(s.sh) || SpaceWakePending(s))
    requires StillUnannounced(s, x, true)
    ensures HasSpace(Next(s, x).value.sh) || SpaceWakePending(Next(s, x).value)
  {
    var pc, s' := s.Pc(x.t), Next(s, x).value;
    assert Local(s.sh, pc) && (Inside(pc) <==> s.sh.owner == Some(x.t));
    assert s'.Pc(x.t) == ThreadStep(s.sh, x.t, pc, x.c).value.1;
    if u: Tid :| WillOfferSpace(s.Pc(u)) {
      assert WillOfferSpace(s'.Pc(u)) || HasSpace(s'.sh);
    }
  }

  /** The exception is exact: with the mutex free and nobody about to wake, a poller sleeping for
      POLLOUT has been overlooked if and only if a write has reset a full buffer and faulted since the
      last wake-up. */
  lemma {:induction false} LostSpaceExactly(size: nat, steps: seq<Step>, t: Tid)
    requires size > 0 && Exec(size, steps).Some?
    requires var s := Exec(size, steps).value;
             && s.sh.owner.None? && PollerAsleep(s, t) && s.Pc(t).ppc.q.wantOut
             && !exists u: Tid :: WakesPollers(s.Pc(u))
    ensures HasSpace(Exec(size, steps).value.sh) <==> Unannounced(size, steps)
  {
    var s := Exec(size, steps).value;
    NoLostPollWakeup(size, steps, t);
    InvAlways(size, steps);
    PendingMeansWaking(s);
    if Unannounced(size, steps) {
      UnannouncedSpace(size, steps);
    }
  }
}
