/** Lock discipline and the shape of the device at every program point, for every run. */
module Locking {
  import opened Base
  import opened Machine

  /** The program points between taking the mutex and releasing it. */
  predicate Inside(pc: Pc) {
    match pc
    case Out(_) => false
    case Reader(RLock(_)) => false
    case Reader(RCond(_, _, _, _, _)) => false
    case Reader(RPrepare(_)) => false
    case Reader(RAsleep(_)) => false
    case Reader(RRelock(_)) => false
    case Reader(RWake(_)) => false
    case Reader(_) => true
    case Writer(WLock(_)) => false
    case Writer(WWake(_)) => false
    case Writer(_) => true
    case Poller(PTestIn(_)) => true
    case Poller(PTestOut(_, _)) => true
    case Poller(PUnlock(_, _, _)) => true
    case Poller(_) => false
  }

  predicate Sized(sh: Shared) {
    0 < sh.size == |sh.buf|
  }

  /** The positions as every critical section finds and leaves them. */
  predicate Quiet(sh: Shared) {
    sh.r < sh.w <= sh.size || sh.r == 0 == sh.w
  }

  predicate ReadLocal(sh: Shared, pc: ReadPc)
    requires Sized(sh)
  {
    match pc
    case RNonblock(_) => Quiet(sh)
    case RUnlockAgain => Quiet(sh)
    case RTest(a, again) => Quiet(sh) && (a.nonblock ==> !again && HasData(sh))
    case RUnlockWait(a) => Quiet(sh) && !a.nonblock
    case RCond(a, _, _, _, _) => !a.nonblock
    case RPrepare(a) => !a.nonblock
    case RAsleep(a) => !a.nonblock
    case RRelock(a) => !a.nonblock
    case RLoad(_) => Quiet(sh) && HasData(sh)
    case RCopy(a, n) => Quiet(sh) && HasData(sh) && n == Min(sh.w - sh.r, a.len)
    case RUnlockFault => Quiet(sh)
    case RAdvance(a, data) =>
      && Quiet(sh) && HasData(sh)
      && |data| == Min(sh.w - sh.r, a.len)
      && data == sh.buf[sh.r..sh.r + |data|]
    case RTestEmpty(_) => sh.r <= sh.w <= sh.size && 0 < sh.w
    case RResetR(_) => sh.r == sh.w && 0 < sh.w <= sh.size
    case RResetW(_) => sh.r == 0 && 0 < sh.w <= sh.size
    case RUnlock(_) => Quiet(sh)
    case _ => true
  }

  predicate WriteLocal(sh: Shared, pc: WritePc)
    requires Sized(sh)
  {
    match pc
    case WTest(_) => Quiet(sh)
    case WResetR(_) => Quiet(sh) && sh.w == sh.size
    case WResetW(_) => sh.r == 0 && sh.w == sh.size
    case WLoad(_, reset) => Quiet(sh) && HasSpace(sh) && (reset ==> sh.w == 0)
    case WCopy(d, reset, n) =>
      Quiet(sh) && HasSpace(sh) && (reset ==> sh.w == 0) && n == Min(sh.size - sh.w, |d|)
    case WUnlockFault(reset) => Quiet(sh) && HasSpace(sh) && (reset ==> sh.w == 0)
    case WAdvance(d, reset, n) =>
      && Quiet(sh) && HasSpace(sh) && (reset ==> sh.w == 0)
      && n == Min(sh.size - sh.w, |d|)
      && sh.buf[sh.w..sh.w + n] == d[..n]
    case WUnlock(_) => Quiet(sh)
    case _ => true
  }

  predicate PollLocal(sh: Shared, pc: PollPc)
    requires Sized(sh)
  {
    match pc
    case PTestIn(_) => Quiet(sh)
    case PTestOut(_, readable) => Quiet(sh) && readable == HasData(sh)
    case PUnlock(_, readable, writable) => Quiet(sh) && readable == HasData(sh) && writable == HasSpace(sh)
    case PDecide(_, readable, writable) => readable || writable
    case _ => true
  }

  /** What a thread standing at `pc` may rely on. */
  predicate Local(sh: Shared, pc: Pc)
    requires Sized(sh)
  {
    match pc
    case Out(_) => true
    case Reader(rpc) => ReadLocal(sh, rpc)
    case Writer(wpc) => WriteLocal(sh, wpc)
    case Poller(ppc) => PollLocal(sh, ppc)
  }

  /** One thread's view of a good state: it owns the mutex exactly when it is inside. */
  predicate Good(sh: Shared, t: Tid, pc: Pc) {
    && Sized(sh)
    && (Inside(pc) <==> sh.owner == Some(t))
    && (sh.owner.None? ==> Quiet(sh))
    && Local(sh, pc)
  }

  ghost predicate Inv(s: State) {
    && Sized(s.sh)
    && (s.sh.owner.None? ==> Quiet(s.sh))
    && (forall t: Tid :: Inside(s.Pc(t)) <==> s.sh.owner == Some(t))
    && (forall t: Tid :: Local(s.sh, s.Pc(t)))
  }

  predicate SameData(sh: Shared, sh': Shared) {
    sh'.size == sh.size && sh'.r == sh.r && sh'.w == sh.w && sh'.buf == sh.buf
  }

  /** What one step of `t` guarantees: its own view stays good, only the owner of the mutex
      touches the positions and the buffer, and the mutex changes hands only through `t`. */
  predicate Guarantee(sh: Shared, t: Tid, pc: Pc, sh': Shared, pc': Pc) {
    && Good(sh', t, pc')
    && sh'.size == sh.size
    && (!Inside(pc) ==> SameData(sh, sh'))
    && (sh'.owner == sh.owner || (Inside(pc) && sh'.owner.None?) || (sh.owner.None? && sh'.owner == Some(t)))
  }

  lemma {:induction false} ReadGoGood(sh: Shared, t: Tid, pc: ReadPc)
    requires Good(sh, t, Reader(pc)) && ReadGo(sh, pc).Some?
    ensures var p := ReadGo(sh, pc).value; Guarantee(sh, t, Reader(pc), p.0, p.1)
  {
  }

  lemma {:induction false} ReadStepGood(sh: Shared, t: Tid, pc: ReadPc, c: Choice)
    requires Good(sh, t, Reader(pc)) && ReadStep(sh, t, pc, c).Some?
    ensures var p := ReadStep(sh, t, pc, c).value; Guarantee(sh, t, Reader(pc), p.0, p.1)
  {
    if ReadGo(sh, pc).Some? {
      ReadGoGood(sh, t, pc);
    }
  }

  lemma {:induction false} WriteStepGood(sh: Shared, t: Tid, pc: WritePc, c: Choice)
    requires Good(sh, t, Writer(pc)) && WriteStep(sh, t, pc, c).Some?
    ensures var p := WriteStep(sh, t, pc, c).value; Guarantee(sh, t, Writer(pc), p.0, p.1)
  {
  }

  lemma {:induction false} PollStepGood(sh: Shared, t: Tid, pc: PollPc, c: Choice)
    requires Good(sh, t, Poller(pc)) && PollStep(sh, t, pc, c).Some?
    ensures var p := PollStep(sh, t, pc, c).value; Guarantee(sh, t, Poller(pc), p.0, p.1)
  {
  }

  lemma {:induction false} ThreadStepGood(sh: Shared, t: Tid, pc: Pc, c: Choice)
    requires Good(sh, t, pc) && ThreadStep(sh, t, pc, c).Some?
    ensures var p := ThreadStep(sh, t, pc, c).value; Guarantee(sh, t, pc, p.0, p.1)
  {
    match pc
    case Out(_) =>
    case Reader(rpc) => ReadStepGood(sh, t, rpc, c);
    case Writer(wpc) => WriteStepGood(sh, t, wpc, c);
    case Poller(ppc) => PollStepGood(sh, t, ppc, c);
  }

  /** What another thread relies on survives a step of somebody else. */
  lemma {:induction false} Unaffected(sh: Shared, sh': Shared, pc: Pc)
    requires Sized(sh) && Local(sh, pc) && sh'.size == sh.size && |sh'.buf| == |sh.buf|
    requires Inside(pc) ==> SameData(sh, sh')
    ensures Local(sh', pc)
  {
  }

  lemma {:induction false} InvStep(s: State, x: Step)
    requires Inv(s) && Next(s, x).Some?
    ensures Inv(Next(s, x).value)
  {
    var s' := Next(s, x).value;
    ThreadStepGood(s.sh, x.t, s.Pc(x.t), x.c);
    forall u: Tid
      ensures Inside(s'.Pc(u)) <==> s'.sh.owner == Some(u)
      ensures Local(s'.sh, s'.Pc(u))
    {
      if u != x.t {
        assert s'.Pc(u) == s.Pc(u);
        assert Inside(s.Pc(u)) <==> s.sh.owner == Some(u);
        assert Inside(s.Pc(x.t)) <==> s.sh.owner == Some(x.t);
        Unaffected(s.sh, s'.sh, s.Pc(u));
      }
    }
  }

  /** The invariant holds after every run of any number of threads. */
  lemma {:induction false} InvAlways(size: nat, steps: seq<Step>)
    requires size > 0 && Exec(size, steps).Some?
    ensures Inv(Exec(size, steps).value)
  {
    if steps != [] {
      var pre := steps[..|steps| - 1];
      InvAlways(size, pre);
      InvStep(Exec(size, pre).value, steps[|steps| - 1]);
    }
  }

  /** The program points of the wait for data, from the unlock before it to the lock after it. */
  predicate Waiting(pc: Pc) {
    pc.Reader? && (pc.rpc.RUnlockWait? || pc.rpc.RCond? || pc.rpc.RPrepare? || pc.rpc.RAsleep? || pc.rpc.RRelock?)
  }

  /** At most one thread is inside a critical section and the recorded owner is that thread; no call
      that has returned, with whatever result, and no sleeper holds the mutex; a non-blocking reader
      never comes near the wait queue. */
  lemma {:induction false} LockDiscipline(size: nat, steps: seq<Step>, t: Tid, u: Tid)
    requires size > 0 && Exec(size, steps).Some?
    ensures var s := Exec(size, steps).value;
            && (Inside(s.Pc(t)) <==> s.sh.owner == Some(t))
            && (Inside(s.Pc(t)) && Inside(s.Pc(u)) ==> t == u)
            && (s.Pc(t).Out? ==> s.sh.owner != Some(t))
            && (s.Pc(t).Reader? && s.Pc(t).rpc.RAsleep? ==> s.sh.owner != Some(t))
            && (s.Pc(t).Poller? && s.Pc(t).ppc.PAsleep? ==> s.sh.owner != Some(t))
            && (Waiting(s.Pc(t)) ==> !s.Pc(t).rpc.a.nonblock)
  {
    InvAlways(size, steps);
    var s := Exec(size, steps).value;
    assert Local(s.sh, s.Pc(t));
    assert forall v: Tid :: Inside(s.Pc(v)) <==> s.sh.owner == Some(v);
  }

  /** No difference of positions wraps, and no copy reaches past the buffer or the caller's data. */
  predicate InBounds(sh: Shared, pc: Pc) {
    match pc
    case Reader(RLoad(_)) => sh.r < sh.w
    case Reader(RCopy(a, n)) => n <= a.len && sh.r + n <= sh.w <= |sh.buf|
    case Writer(WLoad(_, _)) => sh.w < sh.size
    case Writer(WCopy(d, _, n)) => n <= |d| && sh.w + n <= |sh.buf|
    case _ => true
  }

  lemma {:induction false} CopiesInBounds(size: nat, steps: seq<Step>, t: Tid)
    requires size > 0 && Exec(size, steps).Some?
    ensures InBounds(Exec(size, steps).value.sh, Exec(size, steps).value.Pc(t))
  {
    InvAlways(size, steps);
    assert Local(Exec(size, steps).value.sh, Exec(size, steps).value.Pc(t));
  }

  /** Whenever the mutex is free the positions are at rest, so that the device is readable or writable
      (or both), and dev_poll never returns an empty mask. */
  lemma {:induction false} PollMaskNotEmpty(size: nat, steps: seq<Step>, t: Tid)
    requires size > 0 && Exec(size, steps).Some?
    ensures var s := Exec(size, steps).value;
            && (s.sh.owner.None? ==> Quiet(s.sh) && (HasData(s.sh) || HasSpace(s.sh)))
            && (s.Pc(t).Poller? && s.Pc(t).ppc.PDecide? ==> s.Pc(t).ppc.readable || s.Pc(t).ppc.writable)
  {
    InvAlways(size, steps);
    assert Local(Exec(size, steps).value.sh, Exec(size, steps).value.Pc(t));
  }
}
