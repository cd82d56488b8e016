/** What a call returns is what its one atomic operation answered, and that operation takes effect
    inside the call's own critical section. */
module Outcomes {
  import opened Base
  import opened Machine
  import opened Locking
  import Q = AtomicQueue

  /** What a read or write returns when `op` is its effect. */
  function ResultOf(op: Q.Op): Result {
    match op
    case Read(_, _, out) => Bytes(out)
    case ReadFault(_, _) => BadAddress
    case Again(_) => WouldBlock
    case Write(_, _, n) => Wrote(n)
    case WriteFault(_, _) => BadAddress
    case Poll(_, readable, writable) => Ready(readable, writable)
  }

  /** `op` is an operation that the call started by `c` may have asked for. */
  predicate Serves(t: Tid, c: Choice, op: Q.Op) {
    && op.t == t
    && match op
       case Read(_, len, _) => c.StartRead? && c.len == len
       case ReadFault(_, len) => c.StartRead? && c.len == len
       case Again(_) => c.StartRead? && c.nonblock
       case Write(_, data, n) => c == StartWrite(data) && n <= |data|
       case WriteFault(_, data) => c == StartWrite(data)
       case Poll(_, _, _) => false
  }

  /** The call whose arguments `pc` still carries. */
  function CallOf(pc: Pc): Option<Choice> {
    match pc
    case Reader(rpc) =>
      if rpc.RUnlockAgain? || rpc.RUnlockFault? || rpc.RTestEmpty? || rpc.RResetR? || rpc.RResetW? ||
         rpc.RUnlock? || rpc.RWake?
      then None else Some(StartRead(rpc.a.len, rpc.a.nonblock))
    case Writer(wpc) =>
      if wpc.WUnlockFault? || wpc.WUnlock? || wpc.WWake? then None else Some(StartWrite(wpc.d))
    case _ => None
  }

  /** The result that is already decided at `pc`, if any. */
  function Decided(pc: Pc): Option<Result> {
    match pc
    case Reader(RUnlockAgain) => Some(WouldBlock)
    case Reader(RUnlockFault) => Some(BadAddress)
    case Reader(RTestEmpty(data)) => Some(Bytes(data))
    case Reader(RResetR(data)) => Some(Bytes(data))
    case Reader(RResetW(data)) => Some(Bytes(data))
    case Reader(RUnlock(data)) => Some(Bytes(data))
    case Reader(RWake(data)) => Some(Bytes(data))
    case Writer(WUnlockFault(_)) => Some(BadAddress)
    case Writer(WUnlock(n)) => Some(Wrote(n))
    case Writer(WWake(n)) => Some(Wrote(n))
    case Out(res) => if res.Bytes? || res.Wrote? || res.WouldBlock? || res.BadAddress? then Some(res) else None
    case _ => None
  }

  /** The last call thread `t` made. */
  function LastCall(steps: seq<Step>, t: Tid): Option<Choice> {
    if steps == [] then None
    else
      var x := steps[|steps| - 1];
      if x.t == t && StartCall(x.c).Some? then Some(x.c) else LastCall(steps[..|steps| - 1], t)
  }

  /** The reads and writes that took effect on behalf of thread `t` since its last call began. */
  function Effects(size: nat, steps: seq<Step>, t: Tid): seq<Q.Op> {
    if steps == [] then []
    else
      var pre, x := steps[..|steps| - 1], steps[|steps| - 1];
      match Exec(size, pre)
      case None => []
      case Some(s) =>
        if x.t != t then Effects(size, pre, t)
        else if StartCall(x.c).Some? then []
        else
          var e := Emit(s.sh, t, s.Pc(t), x.c);
          Effects(size, pre, t) + if e.Some? && !e.value.Poll? then [e.value] else []
  }

  /** Where the thread stands agrees with what has taken effect for its call. */
  predicate Accounted(t: Tid, pc: Pc, call: Option<Choice>, effects: seq<Q.Op>) {
    && (CallOf(pc).Some? ==> call == CallOf(pc))
    && (pc.Writer? && pc.wpc.WAdvance? ==> pc.wpc.n <= |pc.wpc.d|)
    && match Decided(pc)
       case None => effects == []
       case Some(res) =>
         |effects| == 1 && ResultOf(effects[0]) == res && call.Some? && Serves(t, call.value, effects[0])
  }

  /** The step from `pc` keeps the account. */
  predicate KeepsAccount(sh: Shared, t: Tid, pc: Pc, c: Choice, call: Option<Choice>, effects: seq<Q.Op>)
    requires ThreadStep(sh, t, pc, c).Some?
  {
    var pc' := ThreadStep(sh, t, pc, c).value.1;
    var e := Emit(sh, t, pc, c);
    if StartCall(c).Some? then Accounted(t, pc', Some(c), [])
    else Accounted(t, pc', call, effects + if e.Some? && !e.value.Poll? then [e.value] else [])
  }

  lemma {:induction false} ReadGoAccounted(sh: Shared, t: Tid, pc: ReadPc, call: Option<Choice>, effects: seq<Q.Op>)
    requires ReadGo(sh, pc).Some? && Accounted(t, Reader(pc), call, effects)
    requires !pc.RNonblock? && !pc.RAdvance?
    ensures KeepsAccount(sh, t, Reader(pc), Go, call, effects)
  {
  }

  /** The statements at which a read may take effect. */
  lemma {:induction false} ReadEffectAccounted(sh: Shared, t: Tid, pc: ReadPc, call: Option<Choice>, effects: seq<Q.Op>)
    requires ReadGo(sh, pc).Some? && Accounted(t, Reader(pc), call, effects)
    requires pc.RNonblock? || pc.RAdvance?
    ensures KeepsAccount(sh, t, Reader(pc), Go, call, effects)
  {
  }

  lemma {:induction false} ReadAccounted(
    sh: Shared, t: Tid, pc: ReadPc, c: Choice, call: Option<Choice>, effects: seq<Q.Op>)
    requires ReadStep(sh, t, pc, c).Some? && Accounted(t, Reader(pc), call, effects)
    ensures KeepsAccount(sh, t, Reader(pc), c, call, effects)
  {
    if pc.RNonblock? || pc.RAdvance? {
      ReadEffectAccounted(sh, t, pc, call, effects);
    } else if ReadGo(sh, pc).Some? {
      ReadGoAccounted(sh, t, pc, call, effects);
    }
  }

  lemma {:induction false} WriteAccounted(
    sh: Shared, t: Tid, pc: WritePc, c: Choice, call: Option<Choice>, effects: seq<Q.Op>)
    requires WriteStep(sh, t, pc, c).Some? && Accounted(t, Writer(pc), call, effects)
    ensures KeepsAccount(sh, t, Writer(pc), c, call, effects)
  {
  }

  lemma {:induction false} AccountedStep(
    sh: Shared, t: Tid, pc: Pc, c: Choice, call: Option<Choice>, effects: seq<Q.Op>)
    requires ThreadStep(sh, t, pc, c).Some? && Accounted(t, pc, call, effects)
    ensures KeepsAccount(sh, t, pc, c, call, effects)
  {
    match pc
    case Reader(rpc) => ReadAccounted(sh, t, rpc, c, call, effects);
    case Writer(wpc) => WriteAccounted(sh, t, wpc, c, call, effects);
    case _ =>
  }

  /** Exactly once: a read or write that has returned bytes, a count, -EAGAIN or -EFAULT has had
      exactly one atomic operation, made for its own arguments and with that very answer; a call ended
      by a signal, or not yet decided, has had none. */
  lemma {:induction false} OneEffectPerCall(size: nat, steps: seq<Step>, t: Tid)
    requires size > 0 && Exec(size, steps).Some?
    ensures Accounted(t, Exec(size, steps).value.Pc(t), LastCall(steps, t), Effects(size, steps, t))
  {
    if steps != [] {
      var pre, x := steps[..|steps| - 1], steps[|steps| - 1];
      OneEffectPerCall(size, pre, t);
      var s := Exec(size, pre).value;
      if x.t == t {
        AccountedStep(s.sh, t, s.Pc(t), x.c, LastCall(pre, t), Effects(size, pre, t));
      }
    }
  }

  /** And that operation takes effect while the call holds the mutex. */
  lemma {:induction false} EffectsUnderTheLock(size: nat, steps: seq<Step>, x: Step)
    requires size > 0 && Exec(size, steps).Some? && Next(Exec(size, steps).value, x).Some?
    requires EmitSeq(Exec(size, steps).value, x) != []
    ensures Exec(size, steps).value.sh.owner == Some(x.t)
    ensures Next(Exec(size, steps).value, x).value.sh.owner == Some(x.t)
  {
    var s := Exec(size, steps).value;
    InvAlways(size, steps);
    assert Inside(s.Pc(x.t)) <==> s.sh.owner == Some(x.t);
  }
}
