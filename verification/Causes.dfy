/** A call fails only for a cause: -ERESTARTSYS needs a signal, -EFAULT a fault, a time-out an expired
    timer, each of them during that very call. */
module Causes {
  import opened Base
  import opened Machine
  import opened Outcomes

  /** What thread `t` has been dealt since its last call began. */
  function Since(steps: seq<Step>, t: Tid): seq<Choice> {
    if steps == [] then []
    else
      var pre, x := steps[..|steps| - 1], steps[|steps| - 1];
      if x.t != t then Since(pre, t)
      else if StartCall(x.c).Some? then []
      else Since(pre, t) + [x.c]
  }

  predicate Signalled(since: seq<Choice>) {
    exists i :: 0 <= i < |since| && since[i].Signal?
  }

  predicate Expired(since: seq<Choice>) {
    exists i :: 0 <= i < |since| && since[i].Expire?
  }

  predicate Faulted(since: seq<Choice>) {
    exists i :: 0 <= i < |since| && since[i].Fault?
  }

  /** What a thread has been dealt and the result it has got, or is about to get, agree. */
  predicate Caused(pc: Pc, call: Option<Choice>, since: seq<Choice>) {
    && (call.None? ==> pc == Out(Nothing))
    && (pc == Out(RestartSys) ==> Signalled(since))
    && (pc.Reader? && pc.rpc.RCond? && pc.rpc.signalled ==> Signalled(since))
    && (Faulted(since) <==> pc == Reader(RUnlockFault) || pc == Writer(WUnlockFault(true)) ||
                            pc == Writer(WUnlockFault(false)) || pc == Out(BadAddress))
    && (Expired(since) <==> call.Some? && pc == Out(Nothing))
  }

  lemma {:induction false} SinceMore(since: seq<Choice>, c: Choice)
    ensures Signalled(since + [c]) <==> Signalled(since) || c.Signal?
    ensures Expired(since + [c]) <==> Expired(since) || c.Expire?
    ensures Faulted(since + [c]) <==> Faulted(since) || c.Fault?
  {
    var more := since + [c];
    assert more[|since|] == c;
    assert forall i :: 0 <= i < |since| ==> more[i] == since[i];
  }

  /** A step inside a call keeps the agreement. */
  predicate KeepsCause(sh: Shared, t: Tid, pc: Pc, c: Choice, call: Option<Choice>, since: seq<Choice>)
    requires ThreadStep(sh, t, pc, c).Some?
  {
    Caused(ThreadStep(sh, t, pc, c).value.1, call, since + [c])
  }

  lemma {:induction false} ReadGoCaused(sh: Shared, t: Tid, pc: ReadPc, call: Option<Choice>, since: seq<Choice>)
    requires ReadGo(sh, pc).Some? && Caused(Reader(pc), call, since)
    ensures KeepsCause(sh, t, Reader(pc), Go, call, since)
  {
    SinceMore(since, Go);
  }

  lemma {:induction false} ReadCaused(
    sh: Shared, t: Tid, pc: ReadPc, c: Choice, call: Option<Choice>, since: seq<Choice>)
    requires ReadStep(sh, t, pc, c).Some? && Caused(Reader(pc), call, since)
    ensures KeepsCause(sh, t, Reader(pc), c, call, since)
  {
    if ReadGo(sh, pc).Some? {
      ReadGoCaused(sh, t, pc, call, since);
    } else {
      SinceMore(since, c);
    }
  }

  lemma {:induction false} WriteCaused(
    sh: Shared, t: Tid, pc: WritePc, c: Choice, call: Option<Choice>, since: seq<Choice>)
    requires WriteStep(sh, t, pc, c).Some? && Caused(Writer(pc), call, since)
    ensures KeepsCause(sh, t, Writer(pc), c, call, since)
  {
    SinceMore(since, c);
  }

  lemma {:induction false} PollCaused(
    sh: Shared, t: Tid, pc: PollPc, c: Choice, call: Option<Choice>, since: seq<Choice>)
    requires PollStep(sh, t, pc, c).Some? && Caused(Poller(pc), call, since)
    ensures KeepsCause(sh, t, Poller(pc), c, call, since)
  {
    SinceMore(since, c);
  }

  lemma {:induction false} CausedAlways(size: nat, steps: seq<Step>, t: Tid)
    requires Exec(size, steps).Some?
    ensures Caused(Exec(size, steps).value.Pc(t), LastCall(steps, t), Since(steps, t))
  {
    if steps != [] {
      var pre, x := steps[..|steps| - 1], steps[|steps| - 1];
      var s := Exec(size, pre).value;
      CausedAlways(size, pre, t);
      if x.t == t {
        match s.Pc(t)
        case Out(_) =>
        case Reader(rpc) => ReadCaused(s.sh, t, rpc, x.c, LastCall(pre, t), Since(pre, t));
        case Writer(wpc) => WriteCaused(s.sh, t, wpc, x.c, LastCall(pre, t), Since(pre, t));
        case Poller(ppc) => PollCaused(s.sh, t, ppc, x.c, LastCall(pre, t), Since(pre, t));
      }
    }
  }

  /** No call fails without a cause: one that has returned was signalled if it answers -ERESTARTSYS, met a fault
      if and only if it answers -EFAULT, and ran out of time if and only if it answers nothing. */
  lemma {:induction false} FailuresHaveCauses(size: nat, steps: seq<Step>, t: Tid)
    requires Exec(size, steps).Some? && Exec(size, steps).value.Pc(t).Out? && LastCall(steps, t).Some?
    ensures var res, since := Exec(size, steps).value.Pc(t).res, Since(steps, t);
            && (res.RestartSys? ==> Signalled(since))
            && (res.BadAddress? <==> Faulted(since))
            && (res.Nothing? <==> Expired(since))
  {
    CausedAlways(size, steps, t);
  }
}
