/** The critical sections of the FIFO device as the code writes them: fields assigned in place,
    the buffer an array.  The mutex is held throughout, so nothing else moves.  Each method is
    proved to perform one operation of the atomic queue. */
module PollDevice {
  import opened Base
  import Q = AtomicQueue
  import Machine
  import Locking
  import Refinement
  import Outcomes

  /** The operation a read asks of `q`; None when it has to go and wait. */
  function ReadOp(q: Q.Queue, t: Tid, len: nat, nonblock: bool, copyFails: bool): (op: Option<Q.Op>)
    requires q.Valid()
    ensures op.Some? ==> Q.Allowed(q, op.value)
    ensures op.None? <==> !q.Readable() && !nonblock
    ensures op.Some? && op.value.ReadFault? <==> q.Readable() && copyFails && len > 0
  {
    if !q.Readable() then (if nonblock then Some(Q.Again(t)) else None)
    else if copyFails && len > 0 then Some(Q.ReadFault(t, len))
    else Some(Q.Read(t, len, q.Pending()[..Min(len, |q.Pending()|)]))
  }

  /** The operation a write asks of `q`. */
  function WriteOp(q: Q.Queue, t: Tid, data: seq<byte>, copyFails: bool): (op: Q.Op)
    requires q.Valid()
    ensures Q.Allowed(q, op)
    ensures op.WriteFault? <==> copyFails && data != []
    ensures op.WriteFault? || op.Write?
  {
    if copyFails && data != [] then Q.WriteFault(t, data)
    else Q.Write(t, data, Min(|data|, q.size - q.Flush().fill))
  }

  /** Bytes behind the write position are nobody's yet. */
  lemma {:induction false} JunkMatches(sh: Machine.Shared, q: Q.Queue, bytes: seq<byte>)
    requires Locking.Sized(sh) && q.Valid() && Refinement.Match(sh, q) && sh.w + |bytes| <= sh.size
    ensures Refinement.Match(sh.(buf := Splice(sh.buf, sh.w, bytes)), q)
  {
    assert Splice(sh.buf, sh.w, bytes)[..sh.w] == sh.buf[..sh.w];
  }

  /** Counted in, they are accepted. */
  lemma {:induction false} StoreMatches(sh: Machine.Shared, q: Q.Queue, bytes: seq<byte>)
    requires Locking.Sized(sh) && Locking.Quiet(sh) && q.Valid() && Refinement.Match(sh, q)
    requires sh.w + |bytes| <= sh.size
    ensures var q' := q.(accepted := q.accepted + bytes, fill := q.fill + |bytes|);
            && q'.Valid()
            && Refinement.Match(sh.(buf := Splice(sh.buf, sh.w, bytes), w := sh.w + |bytes|), q')
  {
    JunkMatches(sh, q, bytes);
    assert Splice(sh.buf, sh.w, bytes)[sh.w..sh.w + |bytes|] == bytes;
    Refinement.AppendMatches(sh.(buf := Splice(sh.buf, sh.w, bytes)), q, bytes);
  }

  class Device {
    const buffer: array<byte>
    var readPos: nat
    var writePos: nat
    ghost var queue: Q.Queue

    /** The device as the step machine sees it with the mutex free. */
    ghost function View(): Machine.Shared
      reads this, buffer
    {
      Machine.Shared(buffer.Length, readPos, writePos, buffer[..], None, {}, {}, {}, {})
    }

    ghost predicate Valid()
      reads this, buffer
    {
      && queue.Valid()
      && Locking.Sized(View())
      && Locking.Quiet(View())
      && Refinement.Match(View(), queue)
    }

    constructor (size: nat)
      requires size > 0
      ensures Valid() && fresh(buffer) && queue == Q.Empty(size)
    {
      buffer := new byte[size](_ => 0);
      readPos, writePos := 0, 0;
      queue := Q.Empty(size);
    }

    predicate HasData()
      reads this
    {
      writePos > readPos
    }

    predicate HasSpace()
      reads this
    {
      writePos < buffer.Length
    }

    /** What a read is told. */
    ghost function ReadAnswer(len: nat, nonblock: bool, copyFails: bool): Option<Machine.Result>
      requires Valid()
      reads this, buffer
    {
      if !HasData() then (if nonblock then Some(Machine.WouldBlock) else None)
      else if copyFails && len > 0 then Some(Machine.BadAddress)
      else Some(Machine.Bytes(buffer[readPos..readPos + Min(len, writePos - readPos)]))
    }

    /** That is what the atomic queue answers. */
    lemma {:induction false} ReadAnswerIsQueues(t: Tid, len: nat, nonblock: bool, copyFails: bool)
      requires Valid()
      ensures var op := ReadOp(queue, t, len, nonblock, copyFails);
              ReadAnswer(len, nonblock, copyFails) == if op.None? then None else Some(Outcomes.ResultOf(op.value))
    {
      Refinement.PendingInBuffer(View(), queue);
      if HasData() {
        Refinement.PrefixOfSlice(buffer[..], readPos, writePos, Min(len, writePos - readPos));
      }
    }

    /** How many bytes of `data` there is room for, once a full buffer has been reset. */
    ghost function Taken(data: seq<byte>): nat
      requires Valid()
      reads this, buffer
    {
      Min(|data|, if HasSpace() then buffer.Length - writePos else buffer.Length)
    }

    /** dev_read from the moment it holds the mutex; None means that it must wait. */
    method Read(t: Tid, len: nat, nonblock: bool, copyFails: bool) returns (res: Option<Machine.Result>)
      requires Valid()
      modifies this
      ensures Valid()
      ensures queue == Refinement.After(old(queue), ReadOp(old(queue), t, len, nonblock, copyFails))
      ensures var op := ReadOp(old(queue), t, len, nonblock, copyFails);
              res == if op.None? then None else Some(Outcomes.ResultOf(op.value))
      ensures res == old(ReadAnswer(len, nonblock, copyFails))
    {
      ghost var op := ReadOp(queue, t, len, nonblock, copyFails);
      ReadAnswerIsQueues(t, len, nonblock, copyFails);
      Refinement.PendingInBuffer(View(), queue);
      if nonblock && !HasData() {
        return Some(Machine.WouldBlock);
      }
      if !HasData() {
        return None;
      }
      var bytesToRead := writePos - readPos;
      if bytesToRead > len {
        bytesToRead := len;
      }
      if copyFails && bytesToRead > 0 {
        return Some(Machine.BadAddress);
      }
      var data := buffer[readPos..readPos + bytesToRead];
      assert data == queue.Pending()[..bytesToRead];
      readPos := readPos + bytesToRead;
      if readPos >= writePos {
        readPos := 0;
        writePos := 0;
      }
      queue := Q.Apply(queue, op.value);
      return Some(Machine.Bytes(data));
    }

    /** The first statements of dev_write: a full buffer loses all it holds. */
    method ResetIfFull()
      requires Valid()
      modifies this
      ensures Valid() && HasSpace() && queue == old(queue).Flush()
    {
      if !HasSpace() {
        readPos := 0;
        writePos := 0;
      }
      queue := queue.Flush();
    }

    /** copy_from_user to the write position, seen as one copy of `bytes`. */
    method CopyIn(bytes: seq<byte>)
      requires writePos + |bytes| <= buffer.Length
      modifies buffer
      ensures buffer[..] == Splice(old(buffer[..]), writePos, bytes)
    {
      forall i | 0 <= i < |bytes| {
        buffer[writePos + i] := bytes[i];
      }
    }

    /** A copy that fails: the bytes behind the write position are nobody's yet. */
    method CopyTorn(bytes: seq<byte>)
      requires Valid() && writePos + |bytes| <= buffer.Length
      modifies buffer
      ensures Valid() && queue == old(queue)
    {
      CopyIn(bytes);
      JunkMatches(old(View()), queue, bytes);
    }

    /** A copy that is then counted in. */
    method Append(bytes: seq<byte>)
      requires Valid() && writePos + |bytes| <= buffer.Length
      modifies this, buffer
      ensures Valid()
      ensures queue == old(queue).(accepted := old(queue).accepted + bytes, fill := old(queue).fill + |bytes|)
    {
      CopyIn(bytes);
      StoreMatches(old(View()), queue, bytes);
      writePos := writePos + |bytes|;
      queue := queue.(accepted := queue.accepted + bytes, fill := queue.fill + |bytes|);
    }

    /** dev_write from the moment it holds the mutex.  `junk` is what a failing copy leaves behind. */
    method Write(t: Tid, data: seq<byte>, copyFails: bool, junk: seq<byte>) returns (res: Machine.Result)
      requires Valid() && |junk| >= |data|
      modifies this, buffer
      ensures Valid()
      ensures queue == Q.Apply(old(queue), WriteOp(old(queue), t, data, copyFails))
      ensures res == Outcomes.ResultOf(WriteOp(old(queue), t, data, copyFails))
      ensures res == if copyFails && data != [] then Machine.BadAddress else Machine.Wrote(old(Taken(data)))
      ensures res.Wrote? ==> queue.accepted == old(queue.accepted) + data[..res.n]
      ensures res.BadAddress? ==> queue.accepted == old(queue.accepted)
    {
      ghost var op := WriteOp(queue, t, data, copyFails);
      ResetIfFull();
      var bytesToWrite := buffer.Length - writePos;
      if bytesToWrite > |data| {
        bytesToWrite := |data|;
      }
      if copyFails && bytesToWrite > 0 {
        CopyTorn(junk[..bytesToWrite]);
        return Machine.BadAddress;
      }
      Append(data[..bytesToWrite]);
      return Machine.Wrote(bytesToWrite);
    }

    /** dev_poll's critical section. */
    method Poll(t: Tid) returns (readable: bool, writable: bool)
      requires Valid()
      ensures Q.Allowed(queue, Q.Poll(t, readable, writable))
      ensures readable || writable
    {
      readable := HasData();
      writable := HasSpace();
    }
  }
}
