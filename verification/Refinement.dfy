/** Every run of the many-thread machine is a run of the atomic bounded queue. */
module Refinement {
  import opened Base
  import opened Machine
  import opened Locking
  import opened Reports
  import Q = AtomicQueue

  /** The device holds exactly the queue: the last `w` accepted bytes are in the buffer, and those
      from `r` on are pending. */
  predicate Match(sh: Shared, q: Q.Queue)
    requires Sized(sh) && q.Valid()
  {
    && q.size == sh.size
    && sh.r <= sh.w == q.fill <= |q.accepted|
    && sh.w <= sh.size
    && |q.accepted| - |q.fate| == sh.w - sh.r
    && sh.buf[..sh.w] == q.accepted[|q.accepted| - sh.w..]
  }

  /** The device as seen by a thread inside its critical section.  A read that has taken effect has
      already emptied the queue while the positions still wait to be reset; a write that found the
      buffer full has reset the positions while the queue is still full. */
  predicate MatchAt(sh: Shared, pc: Pc, q: Q.Queue)
    requires Sized(sh) && q.Valid()
  {
    match pc
    case Reader(RTestEmpty(_)) => if sh.r < sh.w then Match(sh, q) else q.size == sh.size && q.fill == 0
    case Reader(RResetR(_)) => q.size == sh.size && q.fill == 0
    case Reader(RResetW(_)) => q.size == sh.size && q.fill == 0
    case Writer(WResetW(_)) => q.size == sh.size && q.Full()
    case Writer(WLoad(_, true)) => q.size == sh.size && q.Full()
    case Writer(WCopy(_, true, _)) => q.size == sh.size && q.Full()
    case Writer(WAdvance(_, true, _)) => q.size == sh.size && q.Full()
    case _ => Match(sh, q)
  }

  /** The abstraction relation between a machine state and a queue. */
  ghost predicate Abstracts(s: State, q: Q.Queue) {
    && q.Valid() && Sized(s.sh)
    && match s.sh.owner
       case None => Match(s.sh, q)
       case Some(t) => MatchAt(s.sh, s.Pc(t), q)
  }

  /** The queue after a step that may emit an operation. */
  function After(q: Q.Queue, e: Option<Q.Op>): (q': Q.Queue)
    requires q.Valid() && (e.Some? ==> Q.Allowed(q, e.value))
    ensures q'.Valid()
  {
    if e.Some? then Q.Apply(q, e.value) else q
  }

  /** The conclusion of the step lemmas: what the step emits is allowed, happens inside the critical
      section, and leads to the queue that the thread's new position stands for. */
  predicate Simulated(sh: Shared, t: Tid, pc: Pc, c: Choice, q: Q.Queue)
    requires Sized(sh) && q.Valid()
  {
    var e := Emit(sh, t, pc, c);
    var p := ThreadStep(sh, t, pc, c);
    && p.Some?
    && (e.Some? ==> Q.Allowed(q, e.value) && Inside(pc) && Inside(p.value.1))
    && Sized(p.value.0)
    && (Inside(p.value.1) ==> MatchAt(p.value.0, p.value.1, After(q, e)))
    && (Inside(pc) && !Inside(p.value.1) ==> Match(p.value.0, After(q, e)))
  }

  predicate Prepared(sh: Shared, t: Tid, pc: Pc, q: Q.Queue) {
    && Good(sh, t, pc) && q.Valid()
    && (Inside(pc) ==> MatchAt(sh, pc, q))
    && (sh.owner.None? ==> Match(sh, q))
  }

  /** What is pending lies between the positions. */
  lemma {:induction false} PendingInBuffer(sh: Shared, q: Q.Queue)
    requires Sized(sh) && q.Valid() && Match(sh, q)
    ensures q.Pending() == sh.buf[sh.r..sh.w]
  {
    var last := q.accepted[|q.accepted| - sh.w..];
    assert q.Pending() == last[sh.r..];
    assert sh.buf[sh.r..sh.w] == sh.buf[..sh.w][sh.r..];
  }

  /** Bytes stored behind `w` and then counted in are bytes accepted. */
  lemma {:induction false} AppendMatches(sh: Shared, q: Q.Queue, bytes: seq<byte>)
    requires Sized(sh) && q.Valid() && Match(sh, q) && sh.w + |bytes| <= sh.size
    requires sh.buf[sh.w..sh.w + |bytes|] == bytes
    requires q.fill > 0 || bytes == [] || |q.fate| == |q.accepted|
    ensures var q' := q.(accepted := q.accepted + bytes, fill := q.fill + |bytes|);
            q'.Valid() && Match(sh.(w := sh.w + |bytes|), q')
  {
    LastBytes(q.accepted, sh.w, bytes);
    PrefixThenSlice(sh.buf, sh.w, |bytes|);
  }

  lemma {:induction false} PrefixThenSlice(s: seq<byte>, a: nat, n: nat)
    requires a + n <= |s|
    ensures s[..a + n] == s[..a] + s[a..a + n]
  {
  }

  lemma {:induction false} LastBytes(s: seq<byte>, n: nat, bytes: seq<byte>)
    requires n <= |s|
    ensures var all := s + bytes; all[|all| - (n + |bytes|)..] == s[|s| - n..] + bytes
  {
  }

  lemma {:induction false} PrefixOfSlice(s: seq<byte>, a: nat, b: nat, n: nat)
    requires a + n <= b <= |s|
    ensures s[a..b][..n] == s[a..a + n]
  {
  }

  /** A read that advances `r` hands out the oldest pending bytes. */
  lemma {:induction false} ReadTakesEffect(sh: Shared, t: Tid, a: ReadArgs, data: seq<byte>, q: Q.Queue)
    requires Prepared(sh, t, Reader(RAdvance(a, data)), q)
    ensures Simulated(sh, t, Reader(RAdvance(a, data)), Go, q)
  {
    PendingInBuffer(sh, q);
    PrefixOfSlice(sh.buf, sh.r, sh.w, |data|);
    assert Q.Allowed(q, Q.Read(t, a.len, data));
  }

  /** A write that advances `w` has its bytes accepted, after a flush if it found the queue full. */
  lemma {:induction false} WriteTakesEffect(sh: Shared, t: Tid, d: seq<byte>, reset: bool, n: nat, q: Q.Queue)
    requires Prepared(sh, t, Writer(WAdvance(d, reset, n)), q)
    ensures Simulated(sh, t, Writer(WAdvance(d, reset, n)), Go, q)
  {
    AppendMatches(sh, q.Flush(), d[..n]);
  }

  lemma {:induction false} MatchKept(sh: Shared, sh': Shared, pc: Pc, q: Q.Queue)
    requires Sized(sh) && q.Valid() && SameData(sh, sh')
    ensures Match(sh', q) == Match(sh, q) && MatchAt(sh', pc, q) == MatchAt(sh, pc, q)
  {
  }

  /** The first statement of a critical section. */
  predicate Entry(pc: Pc) {
    || (pc.Reader? && (pc.rpc.RNonblock? || pc.rpc.RTest?))
    || (pc.Writer? && pc.wpc.WTest?)
    || (pc.Poller? && pc.ppc.PTestIn?)
  }

  /** Outside the critical sections nothing takes effect, and they are entered at their beginning. */
  lemma {:induction false} OutsideStep(sh: Shared, t: Tid, pc: Pc, c: Choice)
    requires ThreadStep(sh, t, pc, c).Some? && !Inside(pc)
    ensures Emit(sh, t, pc, c).None?
    ensures var p := ThreadStep(sh, t, pc, c).value;
            && SameData(sh, p.0)
            && (Inside(p.1) ==> sh.owner.None? && Entry(p.1))
  {
  }

  lemma {:induction false} OutsideSimulated(sh: Shared, t: Tid, pc: Pc, c: Choice, q: Q.Queue)
    requires Prepared(sh, t, pc, q) && ThreadStep(sh, t, pc, c).Some? && !Inside(pc)
    ensures Simulated(sh, t, pc, c, q)
  {
    var p := ThreadStep(sh, t, pc, c).value;
    OutsideStep(sh, t, pc, c);
    MatchKept(sh, p.0, p.1, q);
  }

  lemma {:induction false} ReadGoSimulated(sh: Shared, t: Tid, pc: ReadPc, q: Q.Queue)
    requires Prepared(sh, t, Reader(pc), q) && ReadGo(sh, pc).Some? && Inside(Reader(pc)) && !pc.RAdvance?
    ensures Simulated(sh, t, Reader(pc), Go, q)
  {
  }

  lemma {:induction false} ReadCopySimulated(sh: Shared, t: Tid, pc: ReadPc, c: Choice, q: Q.Queue)
    requires Prepared(sh, t, Reader(pc), q) && ReadStep(sh, t, pc, c).Some? && pc.RCopy?
    ensures Simulated(sh, t, Reader(pc), c, q)
  {
  }

  lemma {:induction false} ReadStepSimulated(sh: Shared, t: Tid, pc: ReadPc, c: Choice, q: Q.Queue)
    requires Prepared(sh, t, Reader(pc), q) && ReadStep(sh, t, pc, c).Some? && Inside(Reader(pc))
    ensures Simulated(sh, t, Reader(pc), c, q)
  {
    if pc.RCopy? {
      ReadCopySimulated(sh, t, pc, c, q);
    } else if pc.RAdvance? {
      ReadTakesEffect(sh, t, pc.a, pc.data, q);
    } else {
      ReadGoSimulated(sh, t, pc, q);
    }
  }

  lemma {:induction false} WriteGoSimulated(sh: Shared, t: Tid, pc: WritePc, q: Q.Queue)
    requires Prepared(sh, t, Writer(pc), q) && WriteGo(sh, pc).Some? && Inside(Writer(pc)) && !pc.WAdvance?
    ensures Simulated(sh, t, Writer(pc), Go, q)
  {
  }

  lemma {:induction false} WriteCopySimulated(sh: Shared, t: Tid, pc: WritePc, c: Choice, q: Q.Queue)
    requires Prepared(sh, t, Writer(pc), q) && WriteStep(sh, t, pc, c).Some? && pc.WCopy?
    ensures Simulated(sh, t, Writer(pc), c, q)
  {
  }

  lemma {:induction false} WriteStepSimulated(sh: Shared, t: Tid, pc: WritePc, c: Choice, q: Q.Queue)
    requires Prepared(sh, t, Writer(pc), q) && WriteStep(sh, t, pc, c).Some? && Inside(Writer(pc))
    ensures Simulated(sh, t, Writer(pc), c, q)
  {
    if pc.WCopy? {
      WriteCopySimulated(sh, t, pc, c, q);
    } else if pc.WAdvance? {
      WriteTakesEffect(sh, t, pc.d, pc.reset, pc.n, q);
    } else {
      WriteGoSimulated(sh, t, pc, q);
    }
  }

  lemma {:induction false} PollStepSimulated(sh: Shared, t: Tid, pc: PollPc, c: Choice, q: Q.Queue)
    requires Prepared(sh, t, Poller(pc), q) && PollStep(sh, t, pc, c).Some? && Inside(Poller(pc))
    ensures Simulated(sh, t, Poller(pc), c, q)
  {
  }

  lemma {:induction false} ThreadStepSimulated(sh: Shared, t: Tid, pc: Pc, c: Choice, q: Q.Queue)
    requires Prepared(sh, t, pc, q) && ThreadStep(sh, t, pc, c).Some?
    ensures Simulated(sh, t, pc, c, q)
  {
    if !Inside(pc) {
      OutsideSimulated(sh, t, pc, c, q);
    } else {
      match pc
      case Reader(rpc) => ReadStepSimulated(sh, t, rpc, c, q);
      case Writer(wpc) => WriteStepSimulated(sh, t, wpc, c, q);
      case Poller(ppc) => PollStepSimulated(sh, t, ppc, c, q);
    }
  }

  lemma {:induction false} StepSimulated(s: State, x: Step, q: Q.Queue)
    requires Inv(s) && Abstracts(s, q) && Next(s, x).Some?
    ensures var e := Emit(s.sh, x.t, s.Pc(x.t), x.c);
            && (e.Some? ==> Q.Allowed(q, e.value))
            && Abstracts(Next(s, x).value, After(q, e))
  {
    var pc, s' := s.Pc(x.t), Next(s, x).value;
    assert Inside(pc) <==> s.sh.owner == Some(x.t);
    ThreadStepGood(s.sh, x.t, pc, x.c);
    ThreadStepSimulated(s.sh, x.t, pc, x.c, q);
    if !Inside(pc) {
      MatchKept(s.sh, s'.sh, if s.sh.owner.Some? then s.Pc(s.sh.owner.value) else pc, q);
    }
  }

  /** Every run of the machine, signals and copy faults included, is a run of the atomic queue: the
      operations it emits are legal one after another, and the device always stands for the queue
      they lead to. */
  lemma {:induction false} RunsRefine(size: nat, steps: seq<Step>)
    requires size > 0 && Exec(size, steps).Some?
    ensures Q.Run(size, Ops(size, steps)).Some?
    ensures Abstracts(Exec(size, steps).value, Q.Run(size, Ops(size, steps)).value)
  {
    if steps != [] {
      var pre, x := steps[..|steps| - 1], steps[|steps| - 1];
      RunsRefine(size, pre);
      InvAlways(size, pre);
      var s := Exec(size, pre).value;
      var q := Q.Run(size, Ops(size, pre)).value;
      StepSimulated(s, x, q);
      var e := Emit(s.sh, x.t, s.Pc(x.t), x.c);
      if e.Some? {
        Q.RunSnoc(size, Ops(size, pre), e.value);
      } else {
        assert Ops(size, pre) + [] == Ops(size, pre);
      }
    }
  }

  // ---------- what the refinement means for the device ----------

  /** The device holds what is pending: up to `write_pos` the buffer is the last bytes that writers got
      accepted, and between the positions lie the oldest not yet delivered or dropped. */
  predicate HoldsPending(sh: Shared, q: Q.Queue, taken: seq<byte>, handedOut: nat)
    requires q.Valid()
  {
    && sh.r <= sh.w <= |taken| && sh.w <= |sh.buf|
    && sh.buf[..sh.w] == taken[|taken| - sh.w..]
    && sh.buf[sh.r..sh.w] == q.Pending()
    && |taken| == handedOut + Q.Drops(q.fate, |q.fate|) + (sh.w - sh.r)
  }

  lemma {:induction false} MatchMeans(sh: Shared, q: Q.Queue, handedOut: nat)
    requires Sized(sh) && q.Valid() && Match(sh, q)
    requires |q.accepted| == handedOut + Q.Drops(q.fate, |q.fate|) + |q.Pending()|
    ensures HoldsPending(sh, q, q.accepted, handedOut)
  {
    PendingInBuffer(sh, q);
  }

  /** In every lock-free state of every run the device holds what is pending, and accepted =
      delivered + dropped + (write_pos - read_pos). */
  lemma {:induction false} DeviceHoldsPending(size: nat, steps: seq<Step>)
    requires size > 0 && Exec(size, steps).Some? && Exec(size, steps).value.sh.owner.None?
    ensures var ops := Ops(size, steps);
            && Q.Run(size, ops).Some?
            && HoldsPending(Exec(size, steps).value.sh, Q.Run(size, ops).value,
                            Q.TakenIn(ops), |Q.HandedOut(ops, None)|)
  {
    var ops := Ops(size, steps);
    RunsRefine(size, steps);
    Q.ExactlyOnceInOrder(size, ops, None);
    Q.Conservation(size, ops);
    MatchMeans(Exec(size, steps).value.sh, Q.Run(size, ops).value, |Q.HandedOut(ops, None)|);
  }

  /** Every thread's reads have returned, counting the one that is just about to, exactly the accepted bytes
      settled as delivered to it, once each and in order; and what is accepted is what the writes took. */
  lemma {:induction false} DeliveredExactlyOnce(size: nat, steps: seq<Step>, t: Tid)
    requires size > 0 && Exec(size, steps).Some?
    ensures Q.Run(size, Ops(size, steps)).Some?
    ensures Returned(size, steps, t) + InFlight(Exec(size, steps).value.Pc(t)) ==
            Q.GotBy(Q.Run(size, Ops(size, steps)).value, Some(t))
    ensures Q.TakenIn(Ops(size, steps)) == Q.Run(size, Ops(size, steps)).value.accepted
  {
    RunsRefine(size, steps);
    Q.ExactlyOnceInOrder(size, Ops(size, steps), Some(t));
    HandedOutIsReturned(size, steps, t);
  }

  // ---------- full resets, counted in the code ----------

  /** The step assigns 0 to `write_pos` because a write has found the buffer full. */
  predicate ResetsFull(s: State, x: Step) {
    s.Pc(x.t).Writer? && s.Pc(x.t).wpc.WResetW? && Next(s, x).Some?
  }

  function ResetSteps(size: nat, steps: seq<Step>): nat {
    if steps == [] then 0
    else
      var pre, x := steps[..|steps| - 1], steps[|steps| - 1];
      match Exec(size, pre)
      case None => 0
      case Some(s) => ResetSteps(size, pre) + if ResetsFull(s, x) then 1 else 0
  }

  /** A write stands between its reset and its effect. */
  predicate PastReset(pc: Pc) {
    match pc
    case Writer(WLoad(_, reset)) => reset
    case Writer(WCopy(_, reset, _)) => reset
    case Writer(WAdvance(_, reset, _)) => reset
    case _ => false
  }

  predicate ResetOpen(s: State) {
    s.sh.owner.Some? && PastReset(s.Pc(s.sh.owner.value))
  }

  function One(b: bool): nat {
    if b then 1 else 0
  }

  /** The step of one thread, seen from the queue: a reset takes effect with the write that made it. */
  predicate ResetSeen(sh: Shared, t: Tid, pc: Pc, c: Choice, q: Q.Queue)
    requires ThreadStep(sh, t, pc, c).Some?
  {
    var e, pc' := Emit(sh, t, pc, c), ThreadStep(sh, t, pc, c).value.1;
    One(pc.Writer? && pc.wpc.WResetW?) + One(PastReset(pc)) ==
    One(e.Some? && Q.Resets(q, e.value)) + One(PastReset(pc'))
  }

  lemma {:induction false} WriteResetSeen(sh: Shared, t: Tid, pc: WritePc, c: Choice, q: Q.Queue)
    requires Prepared(sh, t, Writer(pc), q) && WriteStep(sh, t, pc, c).Some?
    ensures ResetSeen(sh, t, Writer(pc), c, q)
  {
  }

  /** Nobody but a write resets a full queue. */
  lemma {:induction false} OtherResetSeen(sh: Shared, t: Tid, pc: Pc, c: Choice, q: Q.Queue)
    requires ThreadStep(sh, t, pc, c).Some? && !pc.Writer?
    ensures ResetSeen(sh, t, pc, c, q)
  {
    var e, pc' := Emit(sh, t, pc, c), ThreadStep(sh, t, pc, c).value.1;
    assert !pc'.Writer? || pc'.wpc.WLock?;
    assert e.Some? ==> !e.value.Write? && !e.value.WriteFault?;
  }

  /** Only the owner of the mutex, or who has just got it or let it go, can have a reset open. */
  lemma {:induction false} ResetOpenAt(s: State, x: Step)
    requires Inv(s) && Next(s, x).Some?
    ensures var s' := Next(s, x).value;
            if Inside(s.Pc(x.t)) then
              ResetOpen(s) == PastReset(s.Pc(x.t)) && ResetOpen(s') == PastReset(s'.Pc(x.t))
            else
              !PastReset(s.Pc(x.t)) && ResetOpen(s') == (ResetOpen(s) || PastReset(s'.Pc(x.t)))
  {
    var s' := Next(s, x).value;
    InvStep(s, x);
    assert Inside(s.Pc(x.t)) <==> s.sh.owner == Some(x.t);
    assert Inside(s'.Pc(x.t)) <==> s'.sh.owner == Some(x.t);
  }

  lemma {:induction false} ResetStep(s: State, x: Step, q: Q.Queue)
    requires Inv(s) && Abstracts(s, q) && Next(s, x).Some?
    ensures var e := Emit(s.sh, x.t, s.Pc(x.t), x.c);
            One(ResetsFull(s, x)) + One(ResetOpen(s)) ==
            One(e.Some? && Q.Resets(q, e.value)) + One(ResetOpen(Next(s, x).value))
  {
    var pc := s.Pc(x.t);
    ResetOpenAt(s, x);
    assert Inside(pc) <==> s.sh.owner == Some(x.t);
    if pc.Writer? {
      WriteResetSeen(s.sh, x.t, pc.wpc, x.c, q);
    } else {
      OtherResetSeen(s.sh, x.t, pc, x.c, q);
    }
  }

  lemma {:induction false} FullResetsMore(size: nat, ops: seq<Q.Op>, op: Q.Op)
    requires Q.Run(size, ops).Some?
    ensures Q.FullResets(size, ops + [op]) == Q.FullResets(size, ops) + One(Q.Resets(Q.Run(size, ops).value, op))
  {
    assert (ops + [op])[..|ops|] == ops;
  }

  /** The full resets of the queue are the resets made by the code, but for one that is still under way. */
  lemma {:induction false} ResetsCounted(size: nat, steps: seq<Step>)
    requires size > 0 && Exec(size, steps).Some?
    ensures Q.FullResets(size, Ops(size, steps)) + One(ResetOpen(Exec(size, steps).value)) == ResetSteps(size, steps)
  {
    if steps != [] {
      var pre, x := steps[..|steps| - 1], steps[|steps| - 1];
      var s := Exec(size, pre).value;
      ResetsCounted(size, pre);
      RunsRefine(size, pre);
      InvAlways(size, pre);
      ResetStep(s, x, Q.Run(size, Ops(size, pre)).value);
      var e := Emit(s.sh, x.t, s.Pc(x.t), x.c);
      if e.Some? {
        FullResetsMore(size, Ops(size, pre), e.value);
      } else {
        assert Ops(size, pre) + [] == Ops(size, pre);
      }
    }
  }

  /** With `resets` full resets: each was paid for by `size` accepted bytes of its own, and dropped at least
      one byte and at most `size`; and the device is a lossless FIFO exactly without any. */
  predicate LossesAccounted(q: Q.Queue, resets: int, taken: seq<byte>, out: seq<byte>)
    requires q.Valid()
  {
    && 0 <= resets * q.size <= |taken|
    && resets <= Q.Drops(q.fate, |q.fate|) <= resets * q.size
    && (resets == 0 <==> out + q.Pending() == taken)
  }

  /** The account for a queue whose bookkeeping is in order. */
  lemma {:induction false} LossesMean(q: Q.Queue, resets: nat)
    requires q.Valid() && Q.LossBounded(q, resets)
    ensures LossesAccounted(q, resets, q.accepted, Q.GotBy(q, None))
  {
    Q.LossExact(q, resets);
  }

  /** So it is for every run of the queue. */
  lemma {:induction false} QueueLosses(size: nat, ops: seq<Q.Op>)
    requires Q.Run(size, ops).Some?
    ensures LossesAccounted(Q.Run(size, ops).value, Q.FullResets(size, ops), Q.TakenIn(ops), Q.HandedOut(ops, None))
  {
    Q.ExactlyOnceInOrder(size, ops, None);
    Q.LossBound(size, ops);
    LossesMean(Q.Run(size, ops).value, Q.FullResets(size, ops));
  }

  /** The full resets that have taken effect, counted where the code makes them. */
  function ResetsDone(size: nat, steps: seq<Step>): int
    requires Exec(size, steps).Some?
  {
    ResetSteps(size, steps) - One(ResetOpen(Exec(size, steps).value))
  }

  /** In every run, losses come only from full resets, and every full reset loses something. */
  lemma {:induction false} LossesBounded(size: nat, steps: seq<Step>)
    requires size > 0 && Exec(size, steps).Some?
    ensures Q.Run(size, Ops(size, steps)).Some?
    ensures var ops := Ops(size, steps);
            LossesAccounted(Q.Run(size, ops).value, ResetsDone(size, steps), Q.TakenIn(ops), Q.HandedOut(ops, None))
  {
    RunsRefine(size, steps);
    ResetsCounted(size, steps);
    assert ResetsDone(size, steps) == Q.FullResets(size, Ops(size, steps));
    QueueLosses(size, Ops(size, steps));
  }

  /** What writers had accepted is not all delivered or pending. */
  ghost predicate Loses(size: nat, steps: seq<Step>) {
    var ops := Ops(size, steps);
    && Q.Run(size, ops).Some?
    && Q.HandedOut(ops, None) + Q.Run(size, ops).value.Pending() != Q.TakenIn(ops)
  }

  /** A run of the driver loses bytes if and only if some write has reset a full buffer, and has then gone
      on to its effect. */
  lemma {:induction false} LosesExactly(size: nat, steps: seq<Step>)
    requires size > 0 && Exec(size, steps).Some?
    ensures Loses(size, steps) <==> ResetsDone(size, steps) > 0
  {
    LossesBounded(size, steps);
    ResetsCounted(size, steps);
  }

  // ---------- readiness ----------

  /** POLLIN is honest over every run: once dev_poll has seen data, and until an operation takes the last
      byte or meets a full buffer and brings nothing, no read is told -EAGAIN and a read of positive
      length that does not fault returns at least one byte. */
  lemma {:induction false} PollInIsHonest(
    size: nat, steps: seq<Step>, pre: seq<Q.Op>, t: Tid, writable: bool, mid: seq<Q.Op>, op: Q.Op)
    requires size > 0 && Exec(size, steps).Some?
    requires Ops(size, steps) == pre + [Q.Poll(t, true, writable)] + mid + [op]
    requires Q.Undisturbed(size, pre + [Q.Poll(t, true, writable)], mid)
    ensures !op.Again?
    ensures op.Read? && op.len > 0 ==> |op.out| >= 1
  {
    RunsRefine(size, steps);
    Q.PollInIsHonest(size, pre, t, writable, mid, op);
  }

  lemma {:induction false} SplitAround<T>(s: seq<T>, at: nat, more: seq<T>, last: T)
    requires at < |s|
    ensures s[..at + 1] == s[..at] + [s[at]]
    ensures s + more + [last] == s[..at] + [s[at]] + (s[at + 1..] + more) + [last]
  {
  }

  /** The answer at `at` saw data; and if nobody has disturbed the queue since, a read `op` behind `more` is
      not told -EAGAIN, and brings at least one byte if it asks for any and does not fault. */
  predicate HonestSince(size: nat, ops: seq<Q.Op>, at: nat, more: seq<Q.Op>, op: Q.Op) {
    && at < |ops| && ops[at].Poll? && ops[at].readable
    && (Q.Undisturbed(size, ops[..at + 1], ops[at + 1..] + more) ==>
          !op.Again? && (op.Read? && op.len > 0 ==> |op.out| >= 1))
  }

  lemma {:induction false} HonestFrom(size: nat, ops: seq<Q.Op>, at: nat, more: seq<Q.Op>, op: Q.Op)
    requires at < |ops| && ops[at].Poll? && ops[at].readable
    requires Q.Run(size, ops + more + [op]).Some?
    ensures HonestSince(size, ops, at, more, op)
  {
    if Q.Undisturbed(size, ops[..at + 1], ops[at + 1..] + more) {
      SplitAround(ops, at, more, op);
      Q.PollInIsHonest(size, ops[..at], ops[at].t, ops[at].writable, ops[at + 1..] + more, op);
    }
  }

  /** So is the POLLIN that poll(2) returns: it stands for an answer of dev_poll in this call, and is honest
      from that answer on about any read that takes effect `later`. */
  lemma {:induction false} ReportedPollInIsHonest(
    size: nat, steps: seq<Step>, t: Tid, writable: bool, later: seq<Step>, more: seq<Q.Op>, op: Q.Op)
    requires size > 0 && Exec(size, steps).Some? && Exec(size, steps).value.Pc(t) == Out(Ready(true, writable))
    requires Exec(size, later).Some? && Ops(size, later) == Ops(size, steps) + more + [op]
    ensures PolledAt(size, steps, t).Some?
    ensures HonestSince(size, Ops(size, steps), PolledAt(size, steps, t).value, more, op)
  {
    PollReportsLastAnswer(size, steps, t);
    RunsRefine(size, later);
    HonestFrom(size, Ops(size, steps), PolledAt(size, steps, t).value, more, op);
  }
}
