/** The FIFO device as the kernel runs it: any number of threads inside dev_read, dev_write and
    poll(2), interleaved one statement at a time.  A step is one lock operation, one wait-queue
    operation, one load of an unlocked condition, one copy or one assignment to a device field.
    With `nonblock` never set and no pollers this is the blocking driver; with both it is the
    poll driver. */
module Machine {
  import opened Base
  import AtomicQueue

  /** What a system call returns. */
  datatype Result =
    | RestartSys                                  // -ERESTARTSYS: a signal ended the call
    | WouldBlock                                  // -EAGAIN
    | BadAddress                                  // -EFAULT
    | Bytes(data: seq<byte>)                      // read
    | Wrote(n: nat)                               // write
    | Ready(readable: bool, writable: bool)       // poll
    | Nothing                                     // poll timed out; also the state before any call

  datatype ReadArgs = ReadArgs(len: nat, nonblock: bool)
  datatype PollArgs = PollArgs(wantIn: bool, wantOut: bool)

  /** Where a thread stands inside dev_read.  `RCond` is one evaluation of has_data by
      wait_event_interruptible: the two fields are loaded one at a time, in either order. */
  datatype ReadPc =
    | RLock(a: ReadArgs)
    | RNonblock(a: ReadArgs)
    | RUnlockAgain
    | RTest(a: ReadArgs, again: bool)
    | RUnlockWait(a: ReadArgs)
    | RCond(a: ReadArgs, queued: bool, signalled: bool, w: Option<nat>, r: Option<nat>)
    | RPrepare(a: ReadArgs)
    | RAsleep(a: ReadArgs)
    | RRelock(a: ReadArgs)
    | RLoad(a: ReadArgs)
    | RCopy(a: ReadArgs, n: nat)
    | RUnlockFault
    | RAdvance(a: ReadArgs, data: seq<byte>)
    | RTestEmpty(data: seq<byte>)
    | RResetR(data: seq<byte>)
    | RResetW(data: seq<byte>)
    | RUnlock(data: seq<byte>)
    | RWake(data: seq<byte>)

  /** Where a thread stands inside dev_write; `reset` says that this call found the buffer full. */
  datatype WritePc =
    | WLock(d: seq<byte>)
    | WTest(d: seq<byte>)
    | WResetR(d: seq<byte>)
    | WResetW(d: seq<byte>)
    | WLoad(d: seq<byte>, reset: bool)
    | WCopy(d: seq<byte>, reset: bool, n: nat)
    | WUnlockFault(reset: bool)
    | WAdvance(d: seq<byte>, reset: bool, n: nat)
    | WUnlock(n: nat)
    | WWake(n: nat)

  /** Where a thread stands inside poll(2): two registrations, dev_poll's critical section, the
      decision on the returned mask, and sleep. */
  datatype PollPc =
    | PRegisterR(q: PollArgs)
    | PRegisterW(q: PollArgs)
    | PLock(q: PollArgs)
    | PTestIn(q: PollArgs)
    | PTestOut(q: PollArgs, readable: bool)
    | PUnlock(q: PollArgs, readable: bool, writable: bool)
    | PDecide(q: PollArgs, readable: bool, writable: bool)
    | PAsleep(q: PollArgs)

  datatype Pc = Out(res: Result) | Reader(rpc: ReadPc) | Writer(wpc: WritePc) | Poller(ppc: PollPc)

  /** The device and its wait queues.  `sleepers` holds the readers enqueued on read_queue and
      not yet woken; `pollR` and `pollW` the pollers registered on the two queues; `triggered` the
      pollers woken since they last looked. */
  datatype Shared = Shared(
    size: nat, r: nat, w: nat, buf: seq<byte>, owner: Option<Tid>,
    sleepers: set<Tid>, pollR: set<Tid>, pollW: set<Tid>, triggered: set<Tid>)

  datatype State = State(sh: Shared, pcs: map<Tid, Pc>) {
    function Pc(t: Tid): Pc {
      if t in pcs then pcs[t] else Out(Nothing)
    }
  }

  /** What the scheduler, the environment or the user decides at a step. */
  datatype Choice =
    | Go
    | LoadW
    | LoadR
    | Signal
    | Expire
    | Fault(junk: seq<byte>)
    | StartRead(len: nat, nonblock: bool)
    | StartWrite(data: seq<byte>)
    | StartPoll(wantIn: bool, wantOut: bool)

  datatype Step = Step(t: Tid, c: Choice)

  predicate HasData(sh: Shared) {
    sh.w > sh.r
  }

  predicate HasSpace(sh: Shared) {
    sh.w < sh.size
  }

  /** wake_up_interruptible(&read_queue) */
  function WakeReaders(sh: Shared): Shared {
    sh.(sleepers := {}, triggered := sh.triggered + sh.pollR)
  }

  /** wake_up_interruptible(&write_queue): only pollers ever wait there. */
  function WakeWriters(sh: Shared): Shared {
    sh.(triggered := sh.triggered + sh.pollW)
  }

  /** poll_freewait */
  function Deregister(sh: Shared, t: Tid): Shared {
    sh.(pollR := sh.pollR - {t}, pollW := sh.pollW - {t}, triggered := sh.triggered - {t})
  }

  function ReadStep(sh: Shared, t: Tid, pc: ReadPc, c: Choice): Option<(Shared, Pc)> {
    match pc
    case RLock(a) =>
      if c.Signal? then Some((sh, Out(RestartSys)))
      else if c.Go? && sh.owner.None? then Some((sh.(owner := Some(t)), Reader(RNonblock(a))))
      else None
    case RCond(a, queued, signalled, w, r) =>
      if c.LoadW? && w.None? then Some((sh, Reader(RCond(a, queued, signalled, Some(sh.w), r))))
      else if c.LoadR? && r.None? then Some((sh, Reader(RCond(a, queued, signalled, w, Some(sh.r)))))
      else if c.Go? && w.Some? && r.Some? then
        if w.value > r.value then Some((sh.(sleepers := sh.sleepers - {t}), Reader(RRelock(a))))
        else if !queued then Some((sh, Reader(RPrepare(a))))
        else if signalled then Some((sh.(sleepers := sh.sleepers - {t}), Out(RestartSys)))
        else Some((sh, Reader(RAsleep(a))))
      else None
    case RPrepare(a) =>
      if c.Signal? then Some((sh.(sleepers := sh.sleepers - {t}), Reader(RCond(a, true, true, None, None))))
      else if c.Go? then Some((sh.(sleepers := sh.sleepers + {t}), Reader(RCond(a, true, false, None, None))))
      else None
    case RAsleep(a) =>
      if c.Signal? || (c.Go? && t !in sh.sleepers) then Some((sh, Reader(RPrepare(a)))) else None
    case RRelock(a) =>
      if c.Signal? then Some((sh, Out(RestartSys)))
      else if c.Go? && sh.owner.None? then Some((sh.(owner := Some(t)), Reader(RTest(a, true))))
      else None
    case RCopy(a, n) =>
      if c.Fault? && n > 0 then Some((sh, Reader(RUnlockFault)))
      else if c.Go? && sh.r + n <= |sh.buf| then Some((sh, Reader(RAdvance(a, sh.buf[sh.r..sh.r + n]))))
      else None
    case _ => if c.Go? then ReadGo(sh, pc) else None
  }

  /** The statements of dev_read that leave nothing to choose. */
  function ReadGo(sh: Shared, pc: ReadPc): Option<(Shared, Pc)> {
    match pc
    case RNonblock(a) =>
      Some((sh, Reader(if a.nonblock && !HasData(sh) then RUnlockAgain else RTest(a, false))))
    case RUnlockAgain => Some((sh.(owner := None), Out(WouldBlock)))
    case RTest(a, _) => Some((sh, Reader(if HasData(sh) then RLoad(a) else RUnlockWait(a))))
    case RUnlockWait(a) => Some((sh.(owner := None), Reader(RCond(a, false, false, None, None))))
    case RLoad(a) =>
      var n := SizeSub(sh.w, sh.r);
      if n < 0 then None else Some((sh, Reader(RCopy(a, Min(n, a.len)))))
    case RUnlockFault => Some((sh.(owner := None), Out(BadAddress)))
    case RAdvance(_, data) => Some((sh.(r := sh.r + |data|), Reader(RTestEmpty(data))))
    case RTestEmpty(data) => Some((sh, Reader(if sh.r >= sh.w then RResetR(data) else RUnlock(data))))
    case RResetR(data) => Some((sh.(r := 0), Reader(RResetW(data))))
    case RResetW(data) => Some((sh.(w := 0), Reader(RUnlock(data))))
    case RUnlock(data) => Some((sh.(owner := None), Reader(RWake(data))))
    case RWake(data) => Some((WakeWriters(sh), Out(Bytes(data))))
    case _ => None
  }

  function WriteStep(sh: Shared, t: Tid, pc: WritePc, c: Choice): Option<(Shared, Pc)> {
    match pc
    case WLock(d) =>
      if c.Signal? then Some((sh, Out(RestartSys)))
      else if c.Go? && sh.owner.None? then Some((sh.(owner := Some(t)), Writer(WTest(d))))
      else None
    case WCopy(d, reset, n) =>
      if n > |d| || sh.w + n > |sh.buf| then None
      else if c.Fault? && n > 0 && |c.junk| == n then
        Some((sh.(buf := Splice(sh.buf, sh.w, c.junk)), Writer(WUnlockFault(reset))))
      else if c.Go? then Some((sh.(buf := Splice(sh.buf, sh.w, d[..n])), Writer(WAdvance(d, reset, n))))
      else None
    case _ => if c.Go? then WriteGo(sh, pc) else None
  }

  /** The statements of dev_write that leave nothing to choose. */
  function WriteGo(sh: Shared, pc: WritePc): Option<(Shared, Pc)> {
    match pc
    case WTest(d) => Some((sh, Writer(if HasSpace(sh) then WLoad(d, false) else WResetR(d))))
    case WResetR(d) => Some((sh.(r := 0), Writer(WResetW(d))))
    case WResetW(d) => Some((sh.(w := 0), Writer(WLoad(d, true))))
    case WLoad(d, reset) =>
      var n := SizeSub(sh.size, sh.w);
      if n < 0 then None else Some((sh, Writer(WCopy(d, reset, Min(n, |d|)))))
    case WUnlockFault(_) => Some((sh.(owner := None), Out(BadAddress)))
    case WAdvance(_, _, n) => Some((sh.(w := sh.w + n), Writer(WUnlock(n))))
    case WUnlock(n) => Some((sh.(owner := None), Writer(WWake(n))))
    case WWake(n) => Some((WakeReaders(sh), Out(Wrote(n))))
    case _ => None
  }

  function PollStep(sh: Shared, t: Tid, pc: PollPc, c: Choice): Option<(Shared, Pc)> {
    match pc
    case PRegisterR(q) => if c.Go? then Some((sh.(pollR := sh.pollR + {t}), Poller(PRegisterW(q)))) else None
    case PRegisterW(q) => if c.Go? then Some((sh.(pollW := sh.pollW + {t}), Poller(PLock(q)))) else None
    case PLock(q) =>
      if c.Go? && sh.owner.None? then Some((sh.(owner := Some(t)), Poller(PTestIn(q)))) else None
    case PTestIn(q) => if c.Go? then Some((sh, Poller(PTestOut(q, HasData(sh))))) else None
    case PTestOut(q, readable) => if c.Go? then Some((sh, Poller(PUnlock(q, readable, HasSpace(sh))))) else None
    case PUnlock(q, readable, writable) =>
      if c.Go? then Some((sh.(owner := None), Poller(PDecide(q, readable, writable)))) else None
    case PDecide(q, readable, writable) =>
      if (q.wantIn && readable) || (q.wantOut && writable) then
        if c.Go? then Some((Deregister(sh, t), Out(Ready(q.wantIn && readable, q.wantOut && writable)))) else None
      else if c.Go? then Some((sh, Poller(PAsleep(q))))
      else if c.Signal? then Some((Deregister(sh, t), Out(RestartSys)))
      else if c.Expire? then Some((Deregister(sh, t), Out(Nothing)))
      else None
    case PAsleep(q) =>
      if c.Go? && t in sh.triggered then Some((sh.(triggered := sh.triggered - {t}), Poller(PLock(q))))
      else if c.Signal? then Some((Deregister(sh, t), Out(RestartSys)))
      else if c.Expire? then Some((Deregister(sh, t), Out(Nothing)))
      else None
  }

  function StartCall(c: Choice): Option<Pc> {
    match c
    case StartRead(len, nonblock) => Some(Reader(RLock(ReadArgs(len, nonblock))))
    case StartWrite(data) => Some(Writer(WLock(data)))
    case StartPoll(wantIn, wantOut) => Some(Poller(PRegisterR(PollArgs(wantIn, wantOut))))
    case _ => None
  }

  function ThreadStep(sh: Shared, t: Tid, pc: Pc, c: Choice): Option<(Shared, Pc)> {
    match pc
    case Out(_) =>
      (match StartCall(c)
       case None => None
       case Some(pc') => Some((sh, pc')))
    case Reader(rpc) => ReadStep(sh, t, rpc, c)
    case Writer(wpc) => WriteStep(sh, t, wpc, c)
    case Poller(ppc) => PollStep(sh, t, ppc, c)
  }

  /** The state after thread `x.t` takes the step `x.c`, or None when it cannot. */
  function Next(s: State, x: Step): Option<State> {
    match ThreadStep(s.sh, x.t, s.Pc(x.t), x.c)
    case None => None
    case Some(p) => Some(State(p.0, s.pcs[x.t := p.1]))
  }

  /** The freshly initialised device: a zeroed buffer, both positions 0, nobody inside. */
  function Init(size: nat): State {
    State(Shared(size, 0, 0, seq(size, _ => 0), None, {}, {}, {}, {}), map[])
  }

  /** The state after a run of `steps`, or None when some step could not be taken. */
  function Exec(size: nat, steps: seq<Step>): Option<State> {
    if steps == [] then Some(Init(size))
    else
      match Exec(size, steps[..|steps| - 1])
      case None => None
      case Some(s) => Next(s, steps[|steps| - 1])
  }

  /** The atomic operation, if any, that takes effect at this step. */
  function Emit(sh: Shared, t: Tid, pc: Pc, c: Choice): Option<AtomicQueue.Op> {
    match pc
    case Reader(RNonblock(a)) =>
      if c.Go? && a.nonblock && !HasData(sh) then Some(AtomicQueue.Again(t)) else None
    case Reader(RCopy(a, n)) => if c.Fault? && n > 0 then Some(AtomicQueue.ReadFault(t, a.len)) else None
    case Reader(RAdvance(a, data)) => if c.Go? then Some(AtomicQueue.Read(t, a.len, data)) else None
    case Writer(WCopy(d, _, n)) => if c.Fault? && n > 0 then Some(AtomicQueue.WriteFault(t, d)) else None
    case Writer(WAdvance(d, _, n)) => if c.Go? then Some(AtomicQueue.Write(t, d, n)) else None
    case Poller(PTestOut(_, readable)) =>
      if c.Go? then Some(AtomicQueue.Poll(t, readable, HasSpace(sh))) else None
    case _ => None
  }

  function EmitSeq(s: State, x: Step): seq<AtomicQueue.Op> {
    match Emit(s.sh, x.t, s.Pc(x.t), x.c)
    case None => []
    case Some(op) => [op]
  }

  /** The atomic operations of a run, in the order in which they take effect. */
  function Ops(size: nat, steps: seq<Step>): seq<AtomicQueue.Op> {
    if steps == [] then []
    else
      var pre := steps[..|steps| - 1];
      match Exec(size, pre)
      case None => []
      case Some(s) => Ops(size, pre) + EmitSeq(s, steps[|steps| - 1])
  }
}
