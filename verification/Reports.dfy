/** What system calls have reported to their callers, over a whole run, is what the atomic queue answered. */
module Reports {
  import opened Base
  import opened Machine
  import Q = AtomicQueue
  import Outcomes

  // ---------- what the reads of a thread have returned ----------

  /** The bytes a read hands to its caller by going from `pc` to `pc'`. */
  function Handed(pc: Pc, pc': Pc): seq<byte> {
    if !pc.Out? && pc'.Out? && pc'.res.Bytes? then pc'.res.data else []
  }

  function HandedAt(s: State, x: Step, t: Tid): seq<byte> {
    if x.t == t && Next(s, x).Some? then Handed(s.Pc(t), Next(s, x).value.Pc(t)) else []
  }

  /** All bytes that reads of thread `t` have returned, in the order of their returns. */
  function Returned(size: nat, steps: seq<Step>, t: Tid): seq<byte> {
    if steps == [] then []
    else
      var pre, x := steps[..|steps| - 1], steps[|steps| - 1];
      match Exec(size, pre)
      case None => []
      case Some(s) =>
        Returned(size, pre, t) + HandedAt(s, x, t)
  }

  /** What a read that has taken effect is about to return. */
  function InFlight(pc: Pc): seq<byte> {
    match pc
    case Reader(RTestEmpty(data)) => data
    case Reader(RResetR(data)) => data
    case Reader(RResetW(data)) => data
    case Reader(RUnlock(data)) => data
    case Reader(RWake(data)) => data
    case _ => []
  }

  /** What an operation hands to `t`. */
  function Given(e: Option<Q.Op>, t: Tid): seq<byte> {
    if e.Some? then Q.OutPart(e.value, Some(t)) else []
  }

  /** A step moves bytes from the queue to the call, or from the call to its caller. */
  lemma {:induction false} FlightStep(sh: Shared, t: Tid, pc: Pc, c: Choice)
    requires ThreadStep(sh, t, pc, c).Some?
    ensures var pc' := ThreadStep(sh, t, pc, c).value.1;
            InFlight(pc) + Given(Emit(sh, t, pc, c), t) == Handed(pc, pc') + InFlight(pc')
  {
  }

  /** Nobody is given bytes by another thread's step. */
  lemma {:induction false} NothingForOthers(sh: Shared, t: Tid, pc: Pc, c: Choice, u: Tid)
    requires u != t
    ensures Given(Emit(sh, t, pc, c), u) == []
  {
  }

  lemma {:induction false} FlightOf(s: State, x: Step, t: Tid)
    requires Next(s, x).Some?
    ensures InFlight(s.Pc(t)) + Given(Emit(s.sh, x.t, s.Pc(x.t), x.c), t) ==
            HandedAt(s, x, t) + InFlight(Next(s, x).value.Pc(t))
  {
    if x.t == t {
      FlightStep(s.sh, t, s.Pc(t), x.c);
    } else {
      NothingForOthers(s.sh, x.t, s.Pc(x.t), x.c, t);
    }
  }

  lemma {:induction false} HandedOutMore(ops: seq<Q.Op>, e: Option<Q.Op>, t: Tid)
    ensures Q.HandedOut(ops + if e.Some? then [e.value] else [], Some(t)) ==
            Q.HandedOut(ops, Some(t)) + Given(e, t)
  {
    if e.Some? {
      assert (ops + [e.value])[..|ops|] == ops;
    } else {
      assert ops + [] == ops;
    }
  }

  lemma {:induction false} Regroup(a: seq<byte>, b: seq<byte>, c: seq<byte>, d: seq<byte>, e: seq<byte>)
    requires b + c == d + e
    ensures a + b + c == a + d + e
  {
    assert a + b + c == a + (b + c);
    assert a + d + e == a + (d + e);
  }

  /** What the queue has handed to a thread is what its reads have returned, and then what one of them is
      about to return. */
  lemma {:induction false} HandedOutIsReturned(size: nat, steps: seq<Step>, t: Tid)
    requires Exec(size, steps).Some?
    ensures Q.HandedOut(Ops(size, steps), Some(t)) ==
            Returned(size, steps, t) + InFlight(Exec(size, steps).value.Pc(t))
  {
    if steps != [] {
      var pre, x := steps[..|steps| - 1], steps[|steps| - 1];
      var s := Exec(size, pre).value;
      var e := Emit(s.sh, x.t, s.Pc(x.t), x.c);
      HandedOutIsReturned(size, pre, t);
      HandedOutMore(Ops(size, pre), e, t);
      FlightOf(s, x, t);
      Regroup(Returned(size, pre, t), InFlight(s.Pc(t)), Given(e, t),
              HandedAt(s, x, t), InFlight(Next(s, x).value.Pc(t)));
    }
  }

  // ---------- what the writes of a thread have reported as taken ----------

  /** What the writes of thread `t` among `ops` took, in order. */
  function TakenBy(ops: seq<Q.Op>, t: Tid): seq<byte> {
    if ops == [] then []
    else TakenBy(ops[..|ops| - 1], t) + TakenFrom(Some(ops[|ops| - 1]), t)
  }

  function TakenFrom(e: Option<Q.Op>, t: Tid): seq<byte> {
    if e.Some? && e.value.t == t then Q.InPart(e.value) else []
  }

  /** The first `n` bytes that the caller has asked to write. */
  function FirstOf(call: Option<Choice>, n: nat): seq<byte> {
    if call.Some? && call.value.StartWrite? && n <= |call.value.data| then call.value.data[..n] else []
  }

  /** What a write that has taken effect is about to report. */
  function Unreported(pc: Pc, call: Option<Choice>): seq<byte> {
    match pc
    case Writer(WUnlock(n)) => FirstOf(call, n)
    case Writer(WWake(n)) => FirstOf(call, n)
    case _ => []
  }

  /** The bytes a write reports as taken by going from `pc` to `pc'`. */
  function ReportedBy(pc: Pc, pc': Pc, call: Option<Choice>): seq<byte> {
    if !pc.Out? && pc'.Out? && pc'.res.Wrote? then FirstOf(call, pc'.res.n) else []
  }

  function ReportedAt(s: State, x: Step, t: Tid, call: Option<Choice>): seq<byte> {
    if x.t == t && Next(s, x).Some? then ReportedBy(s.Pc(t), Next(s, x).value.Pc(t), call) else []
  }

  /** All bytes that writes of thread `t` have reported as taken, call after call. */
  function Reported(size: nat, steps: seq<Step>, t: Tid): seq<byte> {
    if steps == [] then []
    else
      var pre, x := steps[..|steps| - 1], steps[|steps| - 1];
      match Exec(size, pre)
      case None => []
      case Some(s) => Reported(size, pre, t) + ReportedAt(s, x, t, Outcomes.LastCall(pre, t))
  }

  /** The step moves bytes from the call to the queue, or tells the caller so. */
  predicate TakenSeen(sh: Shared, t: Tid, pc: Pc, c: Choice, call: Option<Choice>)
    requires ThreadStep(sh, t, pc, c).Some?
  {
    var pc' := ThreadStep(sh, t, pc, c).value.1;
    var call' := if StartCall(c).Some? then Some(c) else call;
    Unreported(pc, call) + TakenFrom(Emit(sh, t, pc, c), t) == ReportedBy(pc, pc', call) + Unreported(pc', call')
  }

  lemma {:induction false} WriteTakenSeen(sh: Shared, t: Tid, pc: WritePc, c: Choice, call: Option<Choice>)
    requires WriteStep(sh, t, pc, c).Some?
    requires Outcomes.CallOf(Writer(pc)).Some? ==> call == Outcomes.CallOf(Writer(pc))
    ensures TakenSeen(sh, t, Writer(pc), c, call)
  {
  }

  /** Only writes take bytes, and only they say so. */
  lemma {:induction false} OtherTakenSeen(sh: Shared, t: Tid, pc: Pc, c: Choice, call: Option<Choice>)
    requires ThreadStep(sh, t, pc, c).Some? && !pc.Writer?
    ensures TakenSeen(sh, t, pc, c, call)
  {
    var e, pc' := Emit(sh, t, pc, c), ThreadStep(sh, t, pc, c).value.1;
    assert e.Some? ==> !e.value.Write?;
    assert pc'.Writer? ==> pc'.wpc.WLock?;
    assert pc'.Out? ==> !pc'.res.Wrote?;
  }

  lemma {:induction false} NothingFromOthers(sh: Shared, t: Tid, pc: Pc, c: Choice, u: Tid)
    requires u != t
    ensures TakenFrom(Emit(sh, t, pc, c), u) == []
  {
  }

  lemma {:induction false} TakenMore(ops: seq<Q.Op>, e: Option<Q.Op>, t: Tid)
    ensures TakenBy(ops + if e.Some? then [e.value] else [], t) == TakenBy(ops, t) + TakenFrom(e, t)
  {
    if e.Some? {
      assert (ops + [e.value])[..|ops|] == ops;
    } else {
      assert ops + [] == ops;
    }
  }

  lemma {:induction false} TakenOf(s: State, x: Step, t: Tid, call: Option<Choice>)
    requires Next(s, x).Some? && (Outcomes.CallOf(s.Pc(t)).Some? ==> call == Outcomes.CallOf(s.Pc(t)))
    ensures var call' := if x.t == t && StartCall(x.c).Some? then Some(x.c) else call;
            Unreported(s.Pc(t), call) + TakenFrom(Emit(s.sh, x.t, s.Pc(x.t), x.c), t) ==
            ReportedAt(s, x, t, call) + Unreported(Next(s, x).value.Pc(t), call')
  {
    if x.t == t {
      if s.Pc(t).Writer? {
        WriteTakenSeen(s.sh, t, s.Pc(t).wpc, x.c, call);
      } else {
        OtherTakenSeen(s.sh, t, s.Pc(t), x.c, call);
      }
    } else {
      NothingFromOthers(s.sh, x.t, s.Pc(x.t), x.c, t);
    }
  }

  /** What the queue has accepted from a thread is what its writes have reported as taken, each the beginning
      of its caller's data, and then what one of them is about to report. */
  lemma {:induction false} TakenIsReported(size: nat, steps: seq<Step>, t: Tid)
    requires size > 0 && Exec(size, steps).Some?
    ensures TakenBy(Ops(size, steps), t) ==
            Reported(size, steps, t) + Unreported(Exec(size, steps).value.Pc(t), Outcomes.LastCall(steps, t))
  {
    if steps != [] {
      var pre, x := steps[..|steps| - 1], steps[|steps| - 1];
      var s, call := Exec(size, pre).value, Outcomes.LastCall(pre, t);
      var e := Emit(s.sh, x.t, s.Pc(x.t), x.c);
      TakenIsReported(size, pre, t);
      TakenMore(Ops(size, pre), e, t);
      Outcomes.OneEffectPerCall(size, pre, t);
      TakenOf(s, x, t, call);
      Regroup(Reported(size, pre, t), Unreported(s.Pc(t), call), TakenFrom(e, t),
              ReportedAt(s, x, t, call), Unreported(Next(s, x).value.Pc(t), Outcomes.LastCall(steps, t)));
    }
  }

  /** Both streams grow exactly by what a call reports as it returns: a read its bytes, a write as many bytes of
      its caller's data as it says it took. */
  lemma {:induction false} StreamsGrow(size: nat, steps: seq<Step>, x: Step)
    requires size > 0 && Exec(size, steps).Some? && Next(Exec(size, steps).value, x).Some?
    requires !Exec(size, steps).value.Pc(x.t).Out?
    ensures Returned(size, [], x.t) == Reported(size, [], x.t) == []
    ensures var t, all, call := x.t, steps + [x], Outcomes.LastCall(steps, x.t);
            match Next(Exec(size, steps).value, x).value.Pc(t)
            case Out(Bytes(data)) =>
              && Returned(size, all, t) == Returned(size, steps, t) + data
              && Reported(size, all, t) == Reported(size, steps, t)
            case Out(Wrote(n)) =>
              && call.Some? && call.value.StartWrite? && n <= |call.value.data|
              && Reported(size, all, t) == Reported(size, steps, t) + call.value.data[..n]
              && Returned(size, all, t) == Returned(size, steps, t)
            case _ =>
              && Returned(size, all, t) == Returned(size, steps, t)
              && Reported(size, all, t) == Reported(size, steps, t)
  {
    var all := steps + [x];
    assert all[..|all| - 1] == steps;
    Outcomes.OneEffectPerCall(size, all, x.t);
  }

  // ---------- what poll(2) reports ----------

  /** Where in `Ops` the last answer stands that dev_poll has given to the call thread `t` is in. */
  function PolledAt(size: nat, steps: seq<Step>, t: Tid): Option<nat> {
    if steps == [] then None
    else
      var pre, x := steps[..|steps| - 1], steps[|steps| - 1];
      match Exec(size, pre)
      case None => None
      case Some(s) =>
        var e := Emit(s.sh, x.t, s.Pc(x.t), x.c);
        if x.t != t then PolledAt(size, pre, t)
        else if StartCall(x.c).Some? then None
        else if e.Some? && e.value.Poll? then Some(|Ops(size, pre)|)
        else PolledAt(size, pre, t)
  }

  /** At `at` in `ops` stands an answer of dev_poll to thread `t`. */
  predicate Answered(ops: seq<Q.Op>, at: Option<nat>, t: Tid) {
    at.Some? && at.value < |ops| && ops[at.value].Poll? && ops[at.value].t == t
  }

  /** The last answer has a bit that the caller asked for. */
  predicate Wanted(call: Choice, op: Q.Op)
    requires call.StartPoll? && op.Poll?
  {
    (call.wantIn && op.readable) || (call.wantOut && op.writable)
  }

  /** The result of poll(2), given the last answer dev_poll gave it: that answer, as far as the caller asked
      for it, if and only if it has a wanted bit; otherwise a time-out or a signal has ended the call. */
  predicate PollResult(res: Result, call: Choice, op: Q.Op)
    requires call.StartPoll? && op.Poll?
  {
    if Wanted(call, op) then res == Ready(call.wantIn && op.readable, call.wantOut && op.writable)
    else res.Nothing? || res.RestartSys?
  }

  /** Where a thread stands agrees with the call it is in; and a poller with the answer dev_poll has last
      given it. */
  predicate PollAccounted(t: Tid, pc: Pc, call: Option<Choice>, ops: seq<Q.Op>, at: Option<nat>) {
    match pc
    case Poller(ppc) =>
      && call == Some(StartPoll(ppc.q.wantIn, ppc.q.wantOut))
      && (ppc.PUnlock? || ppc.PDecide? ==>
            Answered(ops, at, t) && ops[at.value] == Q.Poll(t, ppc.readable, ppc.writable))
      && (ppc.PAsleep? ==> Answered(ops, at, t) && !Wanted(call.value, ops[at.value]))
    case Out(res) =>
      if call.Some? && call.value.StartPoll? then
        Answered(ops, at, t) && PollResult(res, call.value, ops[at.value])
      else !res.Ready?
    case _ => call.Some? && !call.value.StartPoll?
  }

  /** The operations of others change nothing about that. */
  lemma {:induction false} PollAccountKept(
    t: Tid, pc: Pc, call: Option<Choice>, ops: seq<Q.Op>, more: seq<Q.Op>, at: Option<nat>)
    requires PollAccounted(t, pc, call, ops, at)
    ensures PollAccounted(t, pc, call, ops + more, at)
  {
  }

  /** A step of the poller itself. */
  lemma {:induction false} PollStepAccounted(
    sh: Shared, t: Tid, pc: PollPc, c: Choice, call: Option<Choice>, ops: seq<Q.Op>, at: Option<nat>)
    requires PollStep(sh, t, pc, c).Some? && PollAccounted(t, Poller(pc), call, ops, at)
    ensures var e, pc' := Emit(sh, t, Poller(pc), c), PollStep(sh, t, pc, c).value.1;
            if e.Some? then e.value.Poll? && PollAccounted(t, pc', call, ops + [e.value], Some(|ops|))
            else PollAccounted(t, pc', call, ops, at)
  {
  }

  /** A step of a thread that is not in poll(2) does not bring it into the middle of it. */
  lemma {:induction false} OtherStepAccounted(
    sh: Shared, t: Tid, pc: Pc, c: Choice, call: Option<Choice>, ops: seq<Q.Op>, at: Option<nat>)
    requires ThreadStep(sh, t, pc, c).Some? && !pc.Poller?
    requires !pc.Out? ==> call.Some? && !call.value.StartPoll?
    ensures pc.Out? <==> StartCall(c).Some?
    ensures Emit(sh, t, pc, c).Some? ==> !Emit(sh, t, pc, c).value.Poll?
    ensures var pc' := ThreadStep(sh, t, pc, c).value.1;
            PollAccounted(t, pc', if pc.Out? then Some(c) else call, ops, at)
  {
  }

  /** What poll(2) reports is what dev_poll last found, under the mutex, for this very call; and it reports
      nothing only if that had no wanted bit. */
  lemma {:induction false} PollReportsLastAnswer(size: nat, steps: seq<Step>, t: Tid)
    requires Exec(size, steps).Some?
    ensures PollAccounted(t, Exec(size, steps).value.Pc(t), Outcomes.LastCall(steps, t), Ops(size, steps),
                          PolledAt(size, steps, t))
  {
    if steps != [] {
      var pre, x := steps[..|steps| - 1], steps[|steps| - 1];
      var s := Exec(size, pre).value;
      var ops, at, call := Ops(size, pre), PolledAt(size, pre, t), Outcomes.LastCall(pre, t);
      PollReportsLastAnswer(size, pre, t);
      if x.t != t {
        PollAccountKept(t, s.Pc(t), call, ops, EmitSeq(s, x), at);
      } else if s.Pc(t).Poller? {
        PollStepAccounted(s.sh, t, s.Pc(t).ppc, x.c, call, ops, at);
      } else {
        OtherStepAccounted(s.sh, t, s.Pc(t), x.c, call, Ops(size, steps), PolledAt(size, steps, t));
      }
    }
  }
}
