/** A call that finds what it needs is served: left to run by itself, it returns, and with the right answer. */
module Service {
  import opened Base
  import opened Machine
  import opened Locking
  import opened Progress

  // ---------- the answer a call is heading for ----------

  /** The oldest `len` bytes in the device, or as many as there are. */
  function OldestBytes(sh: Shared, len: nat): Result
    requires sh.r <= sh.w <= |sh.buf|
  {
    Bytes(sh.buf[sh.r..sh.r + Min(len, sh.w - sh.r)])
  }

  /** As much of `d` as there is room for, once a full buffer has been reset. */
  function WhatFits(sh: Shared, d: seq<byte>): Result
    requires sh.w <= sh.size
  {
    Wrote(Min(|d|, if HasSpace(sh) then sh.size - sh.w else sh.size))
  }

  /** What the device would answer to a read that starts now; None when it has to wait. */
  function ReadAnswer(sh: Shared, a: ReadArgs): Option<Result>
    requires sh.r <= sh.w <= |sh.buf|
  {
    if HasData(sh) then Some(OldestBytes(sh, a.len))
    else if a.nonblock then Some(WouldBlock)
    else None
  }

  /** To a poll; None when nothing it asks for is ready. */
  function PollAnswer(q: PollArgs, readable: bool, writable: bool): Option<Result> {
    if (q.wantIn && readable) || (q.wantOut && writable) then
      Some(Ready(q.wantIn && readable, q.wantOut && writable))
    else None
  }

  function ReadPromise(sh: Shared, t: Tid, pc: ReadPc): Option<Result>
    requires Sized(sh) && ReadLocal(sh, pc)
  {
    match pc
    case RLock(a) => if Quiet(sh) then ReadAnswer(sh, a) else None
    case RNonblock(a) => ReadAnswer(sh, a)
    case RUnlockAgain => Some(WouldBlock)
    case RTest(a, _) => ReadAnswer(sh, a)
    case RCond(a, _, _, w, r) =>
      if Quiet(sh) && HasData(sh) && (w.Some? ==> w.value == sh.w) && (r.Some? ==> r.value == sh.r)
      then ReadAnswer(sh, a) else None
    case RPrepare(a) => if Quiet(sh) && HasData(sh) then ReadAnswer(sh, a) else None
    case RAsleep(a) => if Quiet(sh) && HasData(sh) && t !in sh.sleepers then ReadAnswer(sh, a) else None
    case RRelock(a) => if Quiet(sh) && HasData(sh) then ReadAnswer(sh, a) else None
    case RLoad(a) => ReadAnswer(sh, a)
    case RCopy(a, n) => ReadAnswer(sh, a)
    case RUnlockFault => Some(BadAddress)
    case RAdvance(_, data) => Some(Bytes(data))
    case RTestEmpty(data) => Some(Bytes(data))
    case RResetR(data) => Some(Bytes(data))
    case RResetW(data) => Some(Bytes(data))
    case RUnlock(data) => Some(Bytes(data))
    case RWake(data) => Some(Bytes(data))
    case RUnlockWait(_) => None
  }

  function WritePromise(sh: Shared, pc: WritePc): Option<Result>
    requires Sized(sh) && WriteLocal(sh, pc)
  {
    match pc
    case WLock(d) => if Quiet(sh) then Some(WhatFits(sh, d)) else None
    case WTest(d) => Some(WhatFits(sh, d))
    case WResetR(d) => Some(WhatFits(sh, d))
    case WResetW(d) => Some(WhatFits(sh, d))
    case WLoad(d, _) => Some(WhatFits(sh, d))
    case WCopy(d, _, _) => Some(WhatFits(sh, d))
    case WUnlockFault(_) => Some(BadAddress)
    case WAdvance(d, _, _) => Some(WhatFits(sh, d))
    case WUnlock(n) => Some(Wrote(n))
    case WWake(n) => Some(Wrote(n))
  }

  function PollPromise(sh: Shared, t: Tid, pc: PollPc): Option<Result> {
    match pc
    case PUnlock(q, readable, writable) => PollAnswer(q, readable, writable)
    case PDecide(q, readable, writable) => PollAnswer(q, readable, writable)
    case PAsleep(q) => if t in sh.triggered then PollAnswer(q, HasData(sh), HasSpace(sh)) else None
    case _ => PollAnswer(pc.q, HasData(sh), HasSpace(sh))
  }

  /** What the call returns if nothing but its own steps happens; None when that is not settled. */
  function Promise(sh: Shared, t: Tid, pc: Pc): Option<Result>
    requires Sized(sh) && Local(sh, pc)
  {
    match pc
    case Out(res) => Some(res)
    case Reader(rpc) => ReadPromise(sh, t, rpc)
    case Writer(wpc) => WritePromise(sh, wpc)
    case Poller(ppc) => PollPromise(sh, t, ppc)
  }

  /** A bound on the steps a call with a promise still has to make. */
  function Rank(pc: Pc): nat {
    match pc
    case Out(_) => 0
    case Reader(rpc) =>
      (match rpc
       case RLock(_) => 14
       case RNonblock(_) => 13
       case RUnlockAgain => 1
       case RTest(_, _) => 12
       case RUnlockWait(_) => 19
       case RCond(_, _, _, w, r) => 14 + (if w.None? then 1 else 0) + (if r.None? then 1 else 0)
       case RPrepare(_) => 17
       case RAsleep(_) => 18
       case RRelock(_) => 13
       case RLoad(_) => 11
       case RCopy(_, _) => 10
       case RUnlockFault => 1
       case RAdvance(_, _) => 9
       case RTestEmpty(_) => 8
       case RResetR(_) => 7
       case RResetW(_) => 6
       case RUnlock(_) => 5
       case RWake(_) => 4)
    case Writer(wpc) =>
      (match wpc
       case WLock(_) => 9
       case WTest(_) => 8
       case WResetR(_) => 7
       case WResetW(_) => 6
       case WLoad(_, _) => 5
       case WCopy(_, _, _) => 4
       case WUnlockFault(_) => 1
       case WAdvance(_, _, _) => 3
       case WUnlock(_) => 2
       case WWake(_) => 1)
    case Poller(ppc) =>
      (match ppc
       case PRegisterR(_) => 8
       case PRegisterW(_) => 7
       case PLock(_) => 5
       case PTestIn(_) => 4
       case PTestOut(_, _) => 3
       case PUnlock(_, _, _) => 2
       case PDecide(_, _, _) => 1
       case PAsleep(_) => 6)
  }

  // ---------- one step ----------

  /** Nobody else is inside a critical section. */
  predicate Alone(sh: Shared, t: Tid) {
    sh.owner.None? || sh.owner == Some(t)
  }

  /** The step keeps the promise and comes nearer to its fulfilment. */
  predicate Nearer(sh: Shared, t: Tid, pc: Pc, c: Choice)
    requires Good(sh, t, pc) && ThreadStep(sh, t, pc, c).Some?
  {
    var p := ThreadStep(sh, t, pc, c).value;
    && Good(p.0, t, p.1) && Alone(p.0, t)
    && Promise(p.0, t, p.1) == Promise(sh, t, pc)
    && Rank(p.1) < Rank(pc)
  }

  lemma {:induction false} ReadGoNearer(sh: Shared, t: Tid, pc: ReadPc)
    requires Good(sh, t, Reader(pc)) && ReadGo(sh, pc).Some? && Alone(sh, t) && Inside(Reader(pc))
    requires Promise(sh, t, Reader(pc)).Some?
    ensures Nearer(sh, t, Reader(pc), Go)
  {
    ReadGoGood(sh, t, pc);
  }

  lemma {:induction false} ReadNearer(sh: Shared, t: Tid, pc: ReadPc, c: Choice)
    requires Good(sh, t, Reader(pc)) && ReadStep(sh, t, pc, c).Some? && Alone(sh, t) && Internal(c)
    requires Promise(sh, t, Reader(pc)).Some?
    ensures Nearer(sh, t, Reader(pc), c)
  {
    ReadStepGood(sh, t, pc, c);
    if Inside(Reader(pc)) && !pc.RCopy? {
      ReadGoNearer(sh, t, pc);
    }
  }

  lemma {:induction false} WriteNearer(sh: Shared, t: Tid, pc: WritePc, c: Choice)
    requires Good(sh, t, Writer(pc)) && WriteStep(sh, t, pc, c).Some? && Alone(sh, t) && Internal(c)
    requires Promise(sh, t, Writer(pc)).Some?
    ensures Nearer(sh, t, Writer(pc), c)
  {
    WriteStepGood(sh, t, pc, c);
  }

  lemma {:induction false} PollNearer(sh: Shared, t: Tid, pc: PollPc, c: Choice)
    requires Good(sh, t, Poller(pc)) && PollStep(sh, t, pc, c).Some? && Alone(sh, t) && Internal(c)
    requires Promise(sh, t, Poller(pc)).Some?
    ensures Nearer(sh, t, Poller(pc), c)
  {
    PollStepGood(sh, t, pc, c);
  }

  lemma {:induction false} StepNearer(sh: Shared, t: Tid, pc: Pc, c: Choice)
    requires Good(sh, t, pc) && ThreadStep(sh, t, pc, c).Some? && Alone(sh, t) && Internal(c)
    requires Promise(sh, t, pc).Some?
    ensures Nearer(sh, t, pc, c)
  {
    match pc
    case Out(_) =>
    case Reader(rpc) => ReadNearer(sh, t, rpc, c);
    case Writer(wpc) => WriteNearer(sh, t, wpc, c);
    case Poller(ppc) => PollNearer(sh, t, ppc, c);
  }

  lemma {:induction false} CanStep(sh: Shared, t: Tid, pc: Pc) returns (c: Choice)
    requires Good(sh, t, pc) && Alone(sh, t) && Promise(sh, t, pc).Some? && !pc.Out?
    ensures Internal(c) && ThreadStep(sh, t, pc, c).Some?
  {
    if Inside(pc) {
      OwnerCanStep(sh, t, pc);
      c := Go;
    } else {
      OthersCanStep(sh, t, pc);
      c :| Internal(c) && ThreadStep(sh, t, pc, c).Some?;
    }
  }

  // ---------- a run of one thread ----------

  /** The steps in which `t` alone makes the choices `cs`. */
  function StepsOf(t: Tid, cs: seq<Choice>): seq<Step> {
    seq(|cs|, i requires 0 <= i < |cs| => Step(t, cs[i]))
  }

  ghost predicate AllInternal(cs: seq<Choice>) {
    forall i :: 0 <= i < |cs| ==> Internal(cs[i])
  }

  /** What has been promised to `t` after `steps` still is after `more` of its own, and they were not too many. */
  ghost predicate OnTheWay(size: nat, t: Tid, res: Result, rank: nat, steps: seq<Step>)
    requires size > 0
  {
    && Exec(size, steps).Some?
    && var s := Exec(size, steps).value;
    && Good(s.sh, t, s.Pc(t)) && Alone(s.sh, t)
    && Promise(s.sh, t, s.Pc(t)) == Some(res)
    && Rank(s.Pc(t)) <= rank
  }

  lemma {:induction false} OneMore(size: nat, t: Tid, res: Result, rank: nat, steps: seq<Step>, c: Choice)
    requires size > 0 && OnTheWay(size, t, res, rank, steps) && Internal(c)
    requires Exec(size, steps + [Step(t, c)]).Some?
    ensures rank > 0 && OnTheWay(size, t, res, rank - 1, steps + [Step(t, c)])
  {
    var s := Exec(size, steps).value;
    assert (steps + [Step(t, c)])[..|steps|] == steps;
    StepNearer(s.sh, t, s.Pc(t), c);
  }

  lemma {:induction false} StepsOfSnoc(steps: seq<Step>, t: Tid, cs: seq<Choice>, c: Choice)
    ensures steps + StepsOf(t, cs + [c]) == steps + StepsOf(t, cs) + [Step(t, c)]
  {
    assert StepsOf(t, cs + [c]) == StepsOf(t, cs) + [Step(t, c)];
  }

  lemma {:induction false} LastOf(size: nat, steps: seq<Step>, t: Tid, cs: seq<Choice>)
    requires cs != [] && Exec(size, steps + StepsOf(t, cs)).Some?
    ensures steps + StepsOf(t, cs) == steps + StepsOf(t, cs[..|cs| - 1]) + [Step(t, cs[|cs| - 1])]
    ensures Exec(size, steps + StepsOf(t, cs[..|cs| - 1])).Some?
  {
    var most, c := cs[..|cs| - 1], cs[|cs| - 1];
    assert cs == most + [c];
    StepsOfSnoc(steps, t, most, c);
    var pre := steps + StepsOf(t, most);
    assert (pre + [Step(t, c)])[..|pre|] == pre;
  }

  lemma {:induction false} StillOnTheWay(size: nat, t: Tid, res: Result, rank: nat, steps: seq<Step>, cs: seq<Choice>)
    requires size > 0 && OnTheWay(size, t, res, rank, steps) && AllInternal(cs)
    requires Exec(size, steps + StepsOf(t, cs)).Some?
    ensures |cs| <= rank && OnTheWay(size, t, res, rank - |cs|, steps + StepsOf(t, cs))
    decreases |cs|
  {
    if cs == [] {
      assert steps + StepsOf(t, cs) == steps;
    } else {
      var most, c := cs[..|cs| - 1], cs[|cs| - 1];
      LastOf(size, steps, t, cs);
      StillOnTheWay(size, t, res, rank, steps, most);
      OneMore(size, t, res, rank - |most|, steps + StepsOf(t, most), c);
    }
  }

  lemma {:induction false} Arrives(size: nat, t: Tid, res: Result, rank: nat, steps: seq<Step>, cs: seq<Choice>)
    returns (all: seq<Choice>)
    requires size > 0 && OnTheWay(size, t, res, rank, steps + StepsOf(t, cs)) && AllInternal(cs)
    ensures AllInternal(all) && Exec(size, steps + StepsOf(t, all)).Some?
    ensures Exec(size, steps + StepsOf(t, all)).value.Pc(t) == Out(res)
    decreases rank
  {
    var pre := steps + StepsOf(t, cs);
    var s := Exec(size, pre).value;
    if s.Pc(t).Out? {
      all := cs;
    } else {
      var c := CanStep(s.sh, t, s.Pc(t));
      assert (pre + [Step(t, c)])[..|pre|] == pre;
      OneMore(size, t, res, rank, pre, c);
      StepsOfSnoc(steps, t, cs, c);
      all := Arrives(size, t, res, rank - 1, steps, cs + [c]);
    }
  }

  /** Running by itself, without signal, fault or time-out, `t` makes at most `rank` steps; while it has not
      returned it can make one; when it returns, then with `res`; and so it can return. */
  ghost predicate IsServed(size: nat, steps: seq<Step>, t: Tid, res: Result, rank: nat) {
    && (forall cs: seq<Choice> :: AllInternal(cs) && Exec(size, steps + StepsOf(t, cs)).Some? ==>
          && |cs| <= rank
          && var s := Exec(size, steps + StepsOf(t, cs)).value;
             s.Pc(t) == Out(res) || exists c: Choice :: Internal(c) && Next(s, Step(t, c)).Some?)
    && (exists cs: seq<Choice> :: AllInternal(cs) && Exec(size, steps + StepsOf(t, cs)).Some?
                                  && Exec(size, steps + StepsOf(t, cs)).value.Pc(t) == Out(res))
  }

  lemma {:induction false} PromiseIsKept(size: nat, t: Tid, res: Result, rank: nat, steps: seq<Step>)
    requires size > 0 && OnTheWay(size, t, res, rank, steps)
    ensures IsServed(size, steps, t, res, rank)
  {
    forall cs: seq<Choice> | AllInternal(cs) && Exec(size, steps + StepsOf(t, cs)).Some?
      ensures |cs| <= rank
      ensures var s := Exec(size, steps + StepsOf(t, cs)).value;
              s.Pc(t) == Out(res) || exists c: Choice :: Internal(c) && Next(s, Step(t, c)).Some?
    {
      StillOnTheWay(size, t, res, rank, steps, cs);
      var s := Exec(size, steps + StepsOf(t, cs)).value;
      if !s.Pc(t).Out? {
        var c := CanStep(s.sh, t, s.Pc(t));
        assert Next(s, Step(t, c)).Some?;
      }
    }
    assert steps + StepsOf(t, []) == steps;
    var all := Arrives(size, t, res, rank, steps, []);
  }

  lemma {:induction false} SetOut(size: nat, steps: seq<Step>, t: Tid)
    requires size > 0 && Exec(size, steps).Some? && Exec(size, steps).value.sh.owner.None?
    ensures var s := Exec(size, steps).value;
            && Good(s.sh, t, s.Pc(t)) && Quiet(s.sh)
            && forall res :: Promise(s.sh, t, s.Pc(t)) == Some(res) ==>
                               OnTheWay(size, t, res, Rank(s.Pc(t)), steps)
  {
    InvAlways(size, steps);
    var s := Exec(size, steps).value;
    assert Local(s.sh, s.Pc(t)) && (Inside(s.Pc(t)) <==> s.sh.owner == Some(t));
  }

  /** The reader is about to take the mutex, or in the wait with nothing loaded and not soundly asleep. */
  predicate CanBeServed(sh: Shared, t: Tid, pc: ReadPc) {
    || pc.RLock? || pc.RRelock? || pc.RPrepare?
    || (pc.RCond? && pc.w.None? && pc.r.None?)
    || (pc.RAsleep? && t !in sh.sleepers)
  }

  /** In every reachable state with the mutex free and data there, a read that starts, has been woken, or is about
      to look, returns the oldest bytes, as many as it asked for or there are. */
  lemma {:induction false} ReaderIsServed(size: nat, steps: seq<Step>, t: Tid, pc: ReadPc)
    requires size > 0 && Exec(size, steps).Some?
    requires var s := Exec(size, steps).value;
             s.sh.owner.None? && HasData(s.sh) && s.Pc(t) == Reader(pc) && CanBeServed(s.sh, t, pc)
    ensures var sh := Exec(size, steps).value.sh;
            sh.r <= sh.w <= |sh.buf| && IsServed(size, steps, t, OldestBytes(sh, pc.a.len), Rank(Reader(pc)))
  {
    SetOut(size, steps, t);
    var sh := Exec(size, steps).value.sh;
    assert Promise(sh, t, Reader(pc)) == Some(OldestBytes(sh, pc.a.len));
    PromiseIsKept(size, t, OldestBytes(sh, pc.a.len), Rank(Reader(pc)), steps);
  }

  lemma {:induction false} SignalStep(sh: Shared, t: Tid, pc: ReadPc)
    requires Good(sh, t, Reader(pc)) && Quiet(sh) && HasData(sh) && sh.owner.None?
    requires pc.RAsleep? || pc.RPrepare?
    ensures ReadStep(sh, t, pc, Signal).Some?
    ensures var p := ReadStep(sh, t, pc, Signal).value;
            && Good(p.0, t, p.1) && Alone(p.0, t) && Rank(p.1) <= 17
            && Promise(p.0, t, p.1) == Some(OldestBytes(sh, pc.a.len))
  {
  }

  /** A signal does not keep it from that: a read that is in the wait looks once more before it gives up. */
  lemma {:induction false} SignalledReaderIsServed(size: nat, steps: seq<Step>, t: Tid, pc: ReadPc)
    requires size > 0 && Exec(size, steps).Some?
    requires var s := Exec(size, steps).value;
             s.sh.owner.None? && HasData(s.sh) && s.Pc(t) == Reader(pc) && (pc.RAsleep? || pc.RPrepare?)
    ensures var sh := Exec(size, steps).value.sh;
            && sh.r <= sh.w <= |sh.buf|
            && IsServed(size, steps + [Step(t, Signal)], t, OldestBytes(sh, pc.a.len), 17)
  {
    var all := steps + [Step(t, Signal)];
    assert all[..|steps|] == steps;
    SetOut(size, steps, t);
    var s := Exec(size, steps).value;
    SignalStep(s.sh, t, pc);
    PromiseIsKept(size, t, OldestBytes(s.sh, pc.a.len), 17, all);
  }

  /** With no data there, a non-blocking read returns -EAGAIN. */
  lemma {:induction false} NonblockingReaderIsTold(size: nat, steps: seq<Step>, t: Tid, len: nat)
    requires size > 0 && Exec(size, steps).Some?
    requires var s := Exec(size, steps).value;
             s.sh.owner.None? && !HasData(s.sh) && s.Pc(t) == Reader(RLock(ReadArgs(len, true)))
    ensures IsServed(size, steps, t, WouldBlock, Rank(Reader(RLock(ReadArgs(len, true)))))
  {
    SetOut(size, steps, t);
    PromiseIsKept(size, t, WouldBlock, Rank(Reader(RLock(ReadArgs(len, true)))), steps);
  }

  /** A write returns how much of its data there is room for, once a full buffer has been reset. */
  lemma {:induction false} WriterIsServed(size: nat, steps: seq<Step>, t: Tid, d: seq<byte>)
    requires size > 0 && Exec(size, steps).Some?
    requires Exec(size, steps).value.sh.owner.None? && Exec(size, steps).value.Pc(t) == Writer(WLock(d))
    ensures var sh := Exec(size, steps).value.sh;
            && sh.w <= sh.size == size
            && IsServed(size, steps, t, WhatFits(sh, d), Rank(Writer(WLock(d))))
  {
    SetOut(size, steps, t);
    SizeKept(size, steps);
    var sh := Exec(size, steps).value.sh;
    assert Promise(sh, t, Writer(WLock(d))) == Some(WhatFits(sh, d));
    PromiseIsKept(size, t, WhatFits(sh, d), Rank(Writer(WLock(d))), steps);
  }

  lemma {:induction false} SizeKept(size: nat, steps: seq<Step>)
    requires size > 0 && Exec(size, steps).Some?
    ensures Exec(size, steps).value.sh.size == size
  {
    if steps != [] {
      var pre, x := steps[..|steps| - 1], steps[|steps| - 1];
      SizeKept(size, pre);
      InvAlways(size, pre);
      var s := Exec(size, pre).value;
      assert Local(s.sh, s.Pc(x.t)) && (Inside(s.Pc(x.t)) <==> s.sh.owner == Some(x.t));
      ThreadStepGood(s.sh, x.t, s.Pc(x.t), x.c);
    }
  }

  /** The poll is about to register, or to look at the device again. */
  predicate CanLook(sh: Shared, t: Tid, pc: PollPc) {
    pc.PRegisterR? || pc.PRegisterW? || pc.PLock? || (pc.PAsleep? && t in sh.triggered)
  }

  /** A poll that can look while an event it asks for is there returns exactly the events asked for and there. */
  lemma {:induction false} PollerIsServed(size: nat, steps: seq<Step>, t: Tid, pc: PollPc)
    requires size > 0 && Exec(size, steps).Some?
    requires var s := Exec(size, steps).value;
             && s.sh.owner.None? && s.Pc(t) == Poller(pc) && CanLook(s.sh, t, pc)
             && ((pc.q.wantIn && HasData(s.sh)) || (pc.q.wantOut && HasSpace(s.sh)))
    ensures var sh := Exec(size, steps).value.sh;
            IsServed(size, steps, t, Ready(pc.q.wantIn && HasData(sh), pc.q.wantOut && HasSpace(sh)),
                     Rank(Poller(pc)))
  {
    SetOut(size, steps, t);
    var sh := Exec(size, steps).value.sh;
    PromiseIsKept(size, t, Ready(pc.q.wantIn && HasData(sh), pc.q.wantOut && HasSpace(sh)), Rank(Poller(pc)), steps);
  }

  // ---------- what the environment can do to a call ----------

  /** The program points at which a signal ends the call. */
  predicate EndsOnSignal(sh: Shared, t: Tid, pc: Pc) {
    match pc
    case Reader(RLock(_)) => true
    case Reader(RRelock(_)) => true
    case Writer(WLock(_)) => true
    case Poller(PAsleep(_)) => true
    case _ => false
  }

  /** A signal ends a call that waits for the mutex interruptibly, and a poll that sleeps, on the spot; time ends
      a poll that sleeps. */
  lemma {:induction false} SignalsAndTimersAreObeyed(size: nat, steps: seq<Step>, t: Tid)
    requires Exec(size, steps).Some?
    ensures var s := Exec(size, steps).value;
            EndsOnSignal(s.sh, t, s.Pc(t)) ==>
              && Next(s, Step(t, Signal)).Some?
              && Next(s, Step(t, Signal)).value.Pc(t) == Out(RestartSys)
    ensures var s := Exec(size, steps).value;
            s.Pc(t).Poller? && s.Pc(t).ppc.PAsleep? ==>
              && Next(s, Step(t, Expire)).Some?
              && Next(s, Step(t, Expire)).value.Pc(t) == Out(Nothing)
  {
  }

  /** A signalled read in the wait gives up when it finds no data. */
  lemma {:induction false} SignalledReaderGivesUp(size: nat, steps: seq<Step>, t: Tid, a: ReadArgs, w: nat, r: nat)
    requires Exec(size, steps).Some? && w <= r
    requires Exec(size, steps).value.Pc(t) == Reader(RCond(a, true, true, Some(w), Some(r)))
    ensures var next := Next(Exec(size, steps).value, Step(t, Go));
            next.Some? && next.value.Pc(t) == Out(RestartSys)
  {
  }

  /** How many bytes the thread is about to copy. */
  function AboutToCopy(pc: Pc): nat {
    match pc
    case Reader(RCopy(_, n)) => n
    case Writer(WCopy(_, _, n)) => n
    case _ => 0
  }

  /** Any copy of at least one byte can fault; the call then returns -EFAULT, and the fault has touched nothing
      but, for a write, the bytes that were to be written. */
  lemma {:induction false} FaultIsReported(size: nat, steps: seq<Step>, t: Tid, junk: seq<byte>)
    requires size > 0 && Exec(size, steps).Some?
    requires var n := AboutToCopy(Exec(size, steps).value.Pc(t)); 0 < n == |junk|
    ensures var s, next := Exec(size, steps).value, Next(Exec(size, steps).value, Step(t, Fault(junk)));
            && next.Some?
            && next.value.sh == s.sh.(buf := next.value.sh.buf)
            && (s.Pc(t).Reader? ==> next.value.sh.buf == s.sh.buf)
            && forall k :: 0 <= k < |s.sh.buf| && !(s.sh.w <= k < s.sh.w + |junk|) ==>
                             next.value.sh.buf[k] == s.sh.buf[k]
    ensures IsServed(size, steps + [Step(t, Fault(junk))], t, BadAddress, 1)
  {
    InvAlways(size, steps);
    var s, all := Exec(size, steps).value, steps + [Step(t, Fault(junk))];
    assert Local(s.sh, s.Pc(t)) && (Inside(s.Pc(t)) <==> s.sh.owner == Some(t));
    assert all[..|steps|] == steps;
    FaultStep(s.sh, t, s.Pc(t), junk);
    PromiseIsKept(size, t, BadAddress, 1, all);
  }

  lemma {:induction false} FaultStep(sh: Shared, t: Tid, pc: Pc, junk: seq<byte>)
    requires Good(sh, t, pc) && 0 < AboutToCopy(pc) == |junk|
    ensures ThreadStep(sh, t, pc, Fault(junk)).Some?
    ensures var p := ThreadStep(sh, t, pc, Fault(junk)).value;
            && Good(p.0, t, p.1) && Alone(p.0, t) && Rank(p.1) == 1
            && Promise(p.0, t, p.1) == Some(BadAddress)
            && p.0 == sh.(buf := p.0.buf) && |p.0.buf| == |sh.buf|
            && (pc.Reader? ==> p.0.buf == sh.buf)
            && forall k :: 0 <= k < |sh.buf| && !(sh.w <= k < sh.w + |junk|) ==> p.0.buf[k] == sh.buf[k]
  {
  }
}
