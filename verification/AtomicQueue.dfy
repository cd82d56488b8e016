/** The user-level meaning of the FIFO device: a bounded queue whose operations are atomic.
    `accepted` is every byte ever taken from a writer, in order; `fate` says what became of the
    first |fate| of them; the rest are still pending.  `fill` counts the bytes accepted since the
    queue was last empty, so the queue is full when `fill` reaches `size`, however much of
    that has been read already. */
module AtomicQueue {
  import opened Base

  datatype Fate = Delivered(reader: Tid) | Dropped

  function Repeat(f: Fate, n: nat): (r: seq<Fate>)
    ensures |r| == n && forall i :: 0 <= i < n ==> r[i] == f
  {
    seq(n, _ => f)
  }

  datatype Queue = Queue(size: nat, accepted: seq<byte>, fate: seq<Fate>, fill: nat) {
    predicate Valid() {
      && 0 < size
      && |fate| <= |accepted|
      && |accepted| - |fate| <= fill <= size
      && (fill == 0 <==> |fate| == |accepted|)
    }

    function Pending(): seq<byte>
      requires |fate| <= |accepted|
    {
      accepted[|fate|..]
    }

    predicate Readable() {
      |fate| < |accepted|
    }

    predicate Full() {
      fill == size
    }

    /** What a write does before anything else: a full queue loses all it holds. */
    function Flush(): (q: Queue)
      requires Valid()
      ensures q.Valid() && !q.Full()
    {
      if Full() then Queue(size, accepted, fate + Repeat(Dropped, |accepted| - |fate|), 0) else this
    }
  }

  function Empty(size: nat): Queue {
    Queue(size, [], [], 0)
  }

  /** One atomic operation together with the outcome its caller saw. */
  datatype Op =
    | Read(t: Tid, len: nat, out: seq<byte>)
    | ReadFault(t: Tid, len: nat)
    | Again(t: Tid)
    | Write(t: Tid, data: seq<byte>, n: nat)
    | WriteFault(t: Tid, data: seq<byte>)
    | Poll(t: Tid, readable: bool, writable: bool)

  /** The outcomes the queue allows. */
  predicate Allowed(q: Queue, op: Op)
    requires q.Valid()
  {
    match op
    case Read(_, len, out) => q.Readable() && out == q.Pending()[..Min(len, |q.Pending()|)]
    case ReadFault(_, len) => q.Readable() && len > 0
    case Again(_) => !q.Readable()
    case Write(_, data, n) => n == Min(|data|, q.size - q.Flush().fill)
    case WriteFault(_, data) => data != []
    case Poll(_, readable, writable) => readable == q.Readable() && writable == !q.Full()
  }

  /** Two operations with the same caller and the same arguments. */
  predicate SameRequest(a: Op, b: Op) {
    && a.t == b.t
    && match a
       case Read(_, len, _) => ((b.Read? || b.ReadFault?) && b.len == len) || b.Again?
       case ReadFault(_, len) => ((b.Read? || b.ReadFault?) && b.len == len) || b.Again?
       case Again(_) => b.Read? || b.ReadFault? || b.Again?
       case Write(_, data, _) => (b.Write? || b.WriteFault?) && b.data == data
       case WriteFault(_, data) => (b.Write? || b.WriteFault?) && b.data == data
       case Poll(_, _, _) => b.Poll?
  }

  /** The queue leaves nothing open: the answer to a request is determined, but for the faults of the copy; and a
      copy can only fault where it would move at least one byte. */
  lemma {:induction false} AnswersAreDetermined(q: Queue, a: Op, b: Op)
    requires q.Valid() && Allowed(q, a) && Allowed(q, b) && SameRequest(a, b)
    ensures a == b || a.ReadFault? || a.WriteFault? || b.ReadFault? || b.WriteFault?
    ensures a.ReadFault? ==> !b.Again? && (b.Read? ==> b.out != [])
    ensures a.WriteFault? && b.Write? ==> b.n > 0
  {
  }

  function Apply(q: Queue, op: Op): (q': Queue)
    requires q.Valid() && Allowed(q, op)
    ensures q'.Valid() && q'.size == q.size
  {
    match op
    case Read(t, _, out) =>
      q.(fate := q.fate + Repeat(Delivered(t), |out|), fill := if |out| == |q.Pending()| then 0 else q.fill)
    case Write(_, data, n) =>
      var f := q.Flush();
      f.(accepted := f.accepted + data[..n], fill := f.fill + n)
    case WriteFault(_, _) => q.Flush()
    case _ => q
  }

  /** The state after a list of operations, if each of them is allowed where it occurs. */
  function Run(size: nat, ops: seq<Op>): (r: Option<Queue>)
    ensures r.Some? ==> r.value.Valid() && r.value.size == size
  {
    if size == 0 then None
    else if ops == [] then Some(Empty(size))
    else
      match Run(size, ops[..|ops| - 1])
      case None => None
      case Some(q) => if Allowed(q, ops[|ops| - 1]) then Some(Apply(q, ops[|ops| - 1])) else None
  }

  lemma {:induction false} RunSnoc(size: nat, ops: seq<Op>, op: Op)
    ensures Run(size, ops + [op]) ==
            if Run(size, ops).Some? && Allowed(Run(size, ops).value, op)
            then Some(Apply(Run(size, ops).value, op)) else None
  {
    assert (ops + [op])[..|ops + [op]| - 1] == ops;
  }

  // ---------- exactly-once, ordered delivery ----------

  /** `None` stands for "any reader". */
  predicate Concerns(who: Option<Tid>, f: Fate) {
    f.Delivered? && (who.None? || who.value == f.reader)
  }

  /** The first `k` accepted bytes that were delivered to `who`, in the order of acceptance. */
  function Got(accepted: seq<byte>, fate: seq<Fate>, k: nat, who: Option<Tid>): seq<byte>
    requires k <= |fate| <= |accepted|
  {
    if k == 0 then []
    else Got(accepted, fate, k - 1, who) + if Concerns(who, fate[k - 1]) then [accepted[k - 1]] else []
  }

  /** The accepted bytes whose fate is delivery to `who`, in the order of acceptance. */
  function GotBy(q: Queue, who: Option<Tid>): seq<byte>
    requires q.Valid()
  {
    Got(q.accepted, q.fate, |q.fate|, who)
  }

  /** What `op` hands to `who`. */
  function OutPart(op: Op, who: Option<Tid>): seq<byte> {
    if op.Read? && Concerns(who, Delivered(op.t)) then op.out else []
  }

  /** What `op` reports as taken from its writer. */
  function InPart(op: Op): seq<byte> {
    if op.Write? && op.n <= |op.data| then op.data[..op.n] else []
  }

  /** What the reads in `ops` handed out, in order. */
  function HandedOut(ops: seq<Op>, who: Option<Tid>): seq<byte> {
    if ops == [] then [] else HandedOut(ops[..|ops| - 1], who) + OutPart(ops[|ops| - 1], who)
  }

  /** What the writes in `ops` reported as taken, in order. */
  function TakenIn(ops: seq<Op>): seq<byte> {
    if ops == [] then [] else TakenIn(ops[..|ops| - 1]) + InPart(ops[|ops| - 1])
  }

  /** How many of the first `k` bytes were dropped. */
  function Drops(fate: seq<Fate>, k: nat): nat
    requires k <= |fate|
  {
    if k == 0 then 0 else Drops(fate, k - 1) + if fate[k - 1].Dropped? then 1 else 0
  }

  /** A write that finds the queue full empties it, whether or not its own copy then fails. */
  predicate Resets(q: Queue, op: Op) {
    q.Full() && (op.Write? || op.WriteFault?)
  }

  /** How many operations found the queue full and emptied it. */
  function FullResets(size: nat, ops: seq<Op>): nat {
    if ops == [] then 0
    else
      var q := Run(size, ops[..|ops| - 1]);
      FullResets(size, ops[..|ops| - 1]) +
      if q.Some? && Resets(q.value, ops[|ops| - 1]) then 1 else 0
  }

  /** A stretch of bytes with one and the same fate. */
  lemma {:induction false} GotStretch(accepted: seq<byte>, fate: seq<Fate>, k: nat, n: nat, f: Fate, who: Option<Tid>)
    requires k + n <= |fate| <= |accepted|
    requires forall i :: k <= i < k + n ==> fate[i] == f
    ensures Got(accepted, fate, k + n, who) ==
            Got(accepted, fate, k, who) + if Concerns(who, f) then accepted[k..k + n] else []
    ensures Drops(fate, k + n) == Drops(fate, k) + if f.Dropped? then n else 0
  {
    if n > 0 {
      GotStretch(accepted, fate, k, n - 1, f, who);
      assert accepted[k..k + n] == accepted[k..k + n - 1] + [accepted[k + n - 1]];
    }
  }

  /** Later bytes and later fates change nothing about the first `k`. */
  lemma {:induction false} GotPrefix(q: Queue, q': Queue, k: nat, who: Option<Tid>)
    requires k <= |q.fate| <= |q.accepted| <= |q'.accepted| && |q.fate| <= |q'.fate| <= |q'.accepted|
    requires q.accepted <= q'.accepted && q.fate <= q'.fate
    ensures Got(q'.accepted, q'.fate, k, who) == Got(q.accepted, q.fate, k, who)
    ensures Drops(q'.fate, k) == Drops(q.fate, k)
  {
    if k > 0 {
      GotPrefix(q, q', k - 1, who);
    }
  }

  lemma {:induction false} GotLength(accepted: seq<byte>, fate: seq<Fate>, k: nat)
    requires k <= |fate| <= |accepted|
    ensures |Got(accepted, fate, k, None)| + Drops(fate, k) == k
    ensures Drops(fate, k) == 0 ==> Got(accepted, fate, k, None) == accepted[..k]
  {
    if k > 0 {
      GotLength(accepted, fate, k - 1);
    }
  }

  lemma {:induction false} GotExtended(q: Queue, q': Queue, f: Fate, n: nat, who: Option<Tid>)
    requires q.Valid() && q'.Valid() && q.accepted <= q'.accepted && q'.fate == q.fate + Repeat(f, n)
    ensures GotBy(q', who) ==
            GotBy(q, who) + if Concerns(who, f) then q'.accepted[|q.fate|..|q.fate| + n] else []
    ensures Drops(q'.fate, |q'.fate|) == Drops(q.fate, |q.fate|) + if f.Dropped? then n else 0
  {
    GotPrefix(q, q', |q.fate|, who);
    GotStretch(q'.accepted, q'.fate, |q.fate|, n, f, who);
  }

  /** The fate `op` settles, and for how many bytes. */
  function Settled(q: Queue, op: Op): (Fate, nat)
    requires q.Valid()
  {
    if op.Read? then (Delivered(op.t), |op.out|) else (Dropped, if Resets(q, op) then |q.Pending()| else 0)
  }

  /** One operation appends what it took to the accepted bytes, and settles the fate of the oldest
      pending ones. */
  lemma {:induction false} ApplyAppends(q: Queue, op: Op)
    requires q.Valid() && Allowed(q, op)
    ensures Apply(q, op).accepted == q.accepted + InPart(op)
    ensures Apply(q, op).fate == q.fate + Repeat(Settled(q, op).0, Settled(q, op).1)
    ensures op.Read? ==> q.accepted[|q.fate|..|q.fate| + |op.out|] == op.out
  {
  }

  /** What `op` hands out is what its reader gets; bytes are dropped exactly by a full reset, which
      drops all that is pending. */
  lemma {:induction false} GotStep(q: Queue, op: Op, who: Option<Tid>)
    requires q.Valid() && Allowed(q, op)
    ensures var q' := Apply(q, op);
            && GotBy(q', who) == GotBy(q, who) + OutPart(op, who)
            && Drops(q'.fate, |q'.fate|) == Drops(q.fate, |q.fate|) + if Resets(q, op) then |q.Pending()| else 0
  {
    ApplyAppends(q, op);
    GotExtended(q, Apply(q, op), Settled(q, op).0, Settled(q, op).1, who);
  }

  /** Each reader has been handed exactly the accepted bytes whose fate is delivery to it, once each
      and in the order they were accepted; the accepted bytes are exactly those the writes reported. */
  lemma {:induction false} ExactlyOnceInOrder(size: nat, ops: seq<Op>, who: Option<Tid>)
    requires Run(size, ops).Some?
    ensures var q := Run(size, ops).value;
            && HandedOut(ops, who) == GotBy(q, who)
            && TakenIn(ops) == q.accepted
  {
    if ops != [] {
      var pre := ops[..|ops| - 1];
      ExactlyOnceInOrder(size, pre, who);
      ApplyAppends(Run(size, pre).value, ops[|ops| - 1]);
      GotStep(Run(size, pre).value, ops[|ops| - 1], who);
    }
  }

  /** Every accepted byte is delivered, dropped or pending. */
  lemma {:induction false} Conservation(size: nat, ops: seq<Op>)
    requires Run(size, ops).Some?
    ensures var q := Run(size, ops).value;
            |q.accepted| == |HandedOut(ops, None)| + Drops(q.fate, |q.fate|) + |q.Pending()|
  {
    var q := Run(size, ops).value;
    ExactlyOnceInOrder(size, ops, None);
    GotLength(q.accepted, q.fate, |q.fate|);
  }

  /** The accounts after `k` full resets: each is paid for by `size` accepted bytes of its own, and
      bytes are dropped only by full resets, at least one and at most `size` by each. */
  predicate LossBounded(q: Queue, k: nat)
    requires q.Valid()
  {
    k * q.size + q.fill <= |q.accepted| && k <= Drops(q.fate, |q.fate|) <= k * q.size
  }

  lemma {:induction false} LossStep(q: Queue, k: nat, op: Op)
    requires q.Valid() && Allowed(q, op) && LossBounded(q, k)
    ensures LossBounded(Apply(q, op), if Resets(q, op) then k + 1 else k)
  {
    GotStep(q, op, None);
    assert (k + 1) * q.size == k * q.size + q.size;
  }

  lemma {:induction false} LossBound(size: nat, ops: seq<Op>)
    requires Run(size, ops).Some?
    ensures LossBounded(Run(size, ops).value, FullResets(size, ops))
  {
    if ops != [] {
      var pre := ops[..|ops| - 1];
      LossBound(size, pre);
      LossStep(Run(size, pre).value, FullResets(size, pre), ops[|ops| - 1]);
    }
  }

  /** Something is lost if and only if there has been a full reset. */
  lemma {:induction false} LossExact(q: Queue, k: nat)
    requires q.Valid() && LossBounded(q, k)
    ensures k == 0 <==> GotBy(q, None) + q.Pending() == q.accepted
  {
    GotLength(q.accepted, q.fate, |q.fate|);
    assert q.accepted == q.accepted[..|q.fate|] + q.Pending();
    if k > 0 {
      assert |GotBy(q, None) + q.Pending()| < |q.accepted|;
    }
  }

  /** A run is a lossless FIFO if and only if it has no full reset. */
  lemma {:induction false} LosslessExactly(size: nat, ops: seq<Op>)
    requires Run(size, ops).Some?
    ensures FullResets(size, ops) == 0 <==>
            HandedOut(ops, None) + Run(size, ops).value.Pending() == TakenIn(ops)
  {
    ExactlyOnceInOrder(size, ops, None);
    LossBound(size, ops);
    LossExact(Run(size, ops).value, FullResets(size, ops));
  }

  // ---------- readiness ----------

  /** The operations after which a readable queue may be found empty. */
  predicate Spoils(q: Queue, op: Op)
    requires q.Valid()
  {
    || (op.Read? && op.len >= |q.Pending()|)
    || (op.Write? && q.Full() && op.data == [])
    || (op.WriteFault? && q.Full())
  }

  /** A readable queue stays readable exactly under the operations that do not spoil it. */
  lemma {:induction false} ReadableUnlessSpoilt(q: Queue, op: Op)
    requires q.Valid() && Allowed(q, op) && q.Readable()
    ensures Apply(q, op).Readable() <==> !Spoils(q, op)
  {
  }

  /** Done one after another behind `pre`, none of the operations `mid` takes the last byte, or meets a
      full queue and brings nothing (a write that faults or has length 0). */
  predicate Undisturbed(size: nat, pre: seq<Op>, mid: seq<Op>) {
    mid == [] ||
    var most := mid[..|mid| - 1];
    && Undisturbed(size, pre, most)
    && Run(size, pre + most).Some?
    && !Spoils(Run(size, pre + most).value, mid[|mid| - 1])
  }

  /** A run's last operation, seen from the end of `mid`. */
  lemma {:induction false} RunLast(size: nat, pre: seq<Op>, mid: seq<Op>)
    requires mid != []
    ensures var q, op := Run(size, pre + mid[..|mid| - 1]), mid[|mid| - 1];
            Run(size, pre + mid) == if q.Some? && Allowed(q.value, op) then Some(Apply(q.value, op)) else None
  {
    assert pre + mid == pre + mid[..|mid| - 1] + [mid[|mid| - 1]];
    RunSnoc(size, pre + mid[..|mid| - 1], mid[|mid| - 1]);
  }

  lemma {:induction false} StaysReadable(size: nat, pre: seq<Op>, mid: seq<Op>)
    requires Run(size, pre).Some? && Run(size, pre).value.Readable()
    requires Run(size, pre + mid).Some? && Undisturbed(size, pre, mid)
    ensures Run(size, pre + mid).value.Readable()
  {
    if mid == [] {
      assert pre + mid == pre;
    } else {
      RunLast(size, pre, mid);
      StaysReadable(size, pre, mid[..|mid| - 1]);
      ReadableUnlessSpoilt(Run(size, pre + mid[..|mid| - 1]).value, mid[|mid| - 1]);
    }
  }

  ghost predicate ReadableThroughout(size: nat, pre: seq<Op>, mid: seq<Op>) {
    forall k :: 0 <= k <= |mid| ==> ReadableAfter(size, pre, mid, k)
  }

  predicate ReadableAfter(size: nat, pre: seq<Op>, mid: seq<Op>, k: nat)
    requires k <= |mid|
  {
    var q := Run(size, pre + mid[..k]);
    q.Some? && q.value.Readable()
  }

  lemma {:induction false} ThroughoutLast(size: nat, pre: seq<Op>, mid: seq<Op>)
    requires mid != []
    ensures ReadableThroughout(size, pre, mid) <==>
            ReadableThroughout(size, pre, mid[..|mid| - 1]) && ReadableAfter(size, pre, mid, |mid|)
  {
    var most := mid[..|mid| - 1];
    assert forall k :: 0 <= k <= |most| ==> most[..k] == mid[..k];
    assert forall k :: 0 <= k <= |most| ==> ReadableAfter(size, pre, most, k) == ReadableAfter(size, pre, mid, k);
  }

  lemma {:induction false} ThroughoutNone(size: nat, pre: seq<Op>)
    ensures ReadableThroughout(size, pre, []) <==> Run(size, pre).Some? && Run(size, pre).value.Readable()
  {
    assert pre + [][..0] == pre;
    assert ReadableAfter(size, pre, [], 0) <==> Run(size, pre).Some? && Run(size, pre).value.Readable();
  }

  /** The last operation leaves the queue readable if and only if it does not spoil it. */
  lemma {:induction false} LastSpoils(size: nat, pre: seq<Op>, mid: seq<Op>)
    requires mid != [] && Run(size, pre + mid).Some?
    requires Run(size, pre + mid[..|mid| - 1]).Some? ==> Run(size, pre + mid[..|mid| - 1]).value.Readable()
    ensures Run(size, pre + mid[..|mid| - 1]).Some?
    ensures ReadableAfter(size, pre, mid, |mid|) <==>
            !Spoils(Run(size, pre + mid[..|mid| - 1]).value, mid[|mid| - 1])
  {
    RunLast(size, pre, mid);
    assert mid[..|mid|] == mid;
    ReadableUnlessSpoilt(Run(size, pre + mid[..|mid| - 1]).value, mid[|mid| - 1]);
  }

  /** Undisturbed means that the queue is readable after every one of the operations. */
  lemma {:induction false} UndisturbedExactly(size: nat, pre: seq<Op>, mid: seq<Op>)
    requires Run(size, pre).Some? && Run(size, pre).value.Readable() && Run(size, pre + mid).Some?
    ensures Undisturbed(size, pre, mid) <==> ReadableThroughout(size, pre, mid)
  {
    if mid == [] {
      ThroughoutNone(size, pre);
    } else {
      var most := mid[..|mid| - 1];
      RunLast(size, pre, mid);
      UndisturbedExactly(size, pre, most);
      ThroughoutLast(size, pre, mid);
      if ReadableThroughout(size, pre, most) {
        StaysReadable(size, pre, most);
        LastSpoils(size, pre, mid);
      }
    }
  }

  lemma {:induction false} RunPrefix(size: nat, pre: seq<Op>, mid: seq<Op>)
    requires Run(size, pre + mid).Some?
    ensures Run(size, pre).Some?
    decreases |mid|
  {
    if mid == [] {
      assert pre + mid == pre;
    } else {
      RunLast(size, pre, mid);
      RunPrefix(size, pre, mid[..|mid| - 1]);
    }
  }

  /** POLLIN is honest: after a poll that saw data, and as long as nobody disturbs the queue, no read
      is told EAGAIN and a read of positive length brings at least one byte. */
  lemma {:induction false} PollInIsHonest(size: nat, pre: seq<Op>, t: Tid, writable: bool, mid: seq<Op>, op: Op)
    requires Run(size, pre + [Poll(t, true, writable)] + mid + [op]).Some?
    requires Undisturbed(size, pre + [Poll(t, true, writable)], mid)
    ensures !op.Again?
    ensures op.Read? && op.len > 0 ==> |op.out| >= 1
  {
    var seen := pre + [Poll(t, true, writable)];
    RunSnoc(size, seen + mid, op);
    RunPrefix(size, seen, mid);
    RunSnoc(size, pre, Poll(t, true, writable));
    StaysReadable(size, seen, mid);
  }
}
