/** One message buffer per minor number: chunked reads at a file offset, writes that replace the message,
    and copies that may stop short. */
module MultiBuf {
  import opened Base

  const BUF_LEN: nat := 1024
  const DEV_MAX: nat := 16

  /** message[minor] and message_size[minor] */
  datatype Minor = Minor(text: seq<byte>, size: nat) {
    predicate Valid() {
      |text| == BUF_LEN && size <= BUF_LEN - 1
    }
  }

  /** An open file: the minor it was opened on, and a number of its own. */
  datatype File = File(minor: nat, id: nat)

  datatype Result = NoDevice | Count(n: nat)

  /** `missed` bytes at the end of the copy are not copied (copy_to_user, copy_from_user); `junk` is what a
      short copy from the user leaves in the rest of its destination. */
  datatype Op =
    | Read(f: File, len: nat, missed: nat)
    | Write(f: File, data: seq<byte>, missed: nat, junk: seq<byte>)

  /** What the caller gets: the result, and for a read the bytes. */
  datatype Answer = Answer(res: Result, out: seq<byte>)

  /** How many bytes a read of `len` from offset `off` copies when `missed` of them fail. */
  function Chunk(mn: Minor, off: nat, len: nat, missed: nat): (got: nat)
    ensures off <= mn.size ==> off + got <= mn.size
  {
    if off >= mn.size then 0
    else
      var n := if off + len > mn.size then mn.size - off else len;
      n - Min(missed, n)
  }

  /** How many bytes a write stores. */
  function Stored(data: seq<byte>, missed: nat): (got: nat)
    ensures got <= |data| && got <= BUF_LEN - 1
  {
    var n := Min(|data|, BUF_LEN - 1);
    n - Min(missed, n)
  }

  /** The minor after a write: the stored bytes, a terminating 0, junk up to where the copy would have ended,
      and the old bytes behind. */
  function Overwrite(mn: Minor, data: seq<byte>, missed: nat, junk: seq<byte>): (mn': Minor)
    requires mn.Valid() && |junk| >= |data|
    ensures mn'.Valid()
  {
    var n, got := Min(|data|, BUF_LEN - 1), Stored(data, missed);
    var copied := Splice(mn.text, 0, data[..got] + junk[got..n]);
    Minor(copied[got := 0], got)
  }

  // ---------- the whole driver ----------

  datatype Sys = Sys(minors: seq<Minor>, offs: map<File, nat>) {
    ghost predicate Valid() {
      |minors| == DEV_MAX && forall m :: 0 <= m < DEV_MAX ==> minors[m].Valid()
    }

    function Off(f: File): nat {
      if f in offs then offs[f] else 0
    }
  }

  /** A minor nobody has written to: a static array of zeroes. */
  const BLANK: Minor := Minor(seq(BUF_LEN, _ => 0), 0)

  /** The driver as it is loaded, before any file is open. */
  function Loaded(): (s: Sys)
    ensures s.Valid()
  {
    Sys(seq(DEV_MAX, _ => BLANK), map[])
  }

  predicate WellFormed(op: Op) {
    op.Write? ==> |op.junk| >= |op.data|
  }

  function Do(s: Sys, op: Op): (r: (Sys, Answer))
    requires s.Valid() && WellFormed(op)
    ensures r.0.Valid()
  {
    if op.f.minor >= DEV_MAX then (s, Answer(NoDevice, []))
    else
      var mn := s.minors[op.f.minor];
      match op
      case Read(f, len, missed) =>
        var got := Chunk(mn, s.Off(f), len, missed);
        var out := if got == 0 then [] else mn.text[s.Off(f)..s.Off(f) + got];
        (s.(offs := s.offs[f := s.Off(f) + got]), Answer(Count(got), out))
      case Write(f, data, missed, junk) =>
        (s.(minors := s.minors[f.minor := Overwrite(mn, data, missed, junk)]),
         Answer(Count(Stored(data, missed)), []))
  }

  ghost predicate AllWellFormed(ops: seq<Op>) {
    forall i :: 0 <= i < |ops| ==> WellFormed(ops[i])
  }

  /** The state after a trace, and the answers to its operations on minor `m` in order. */
  ghost function Run(s: Sys, ops: seq<Op>, m: nat): (r: (Sys, seq<Answer>))
    requires s.Valid() && AllWellFormed(ops)
    ensures r.0.Valid()
  {
    if ops == [] then (s, [])
    else
      var op := ops[|ops| - 1];
      var before := Run(s, ops[..|ops| - 1], m);
      var last := Do(before.0, op);
      (last.0, before.1 + if op.f.minor == m then [last.1] else [])
  }

  /** The operations of a trace that are on minor `m`. */
  function Only(ops: seq<Op>, m: nat): (r: seq<Op>)
    ensures forall i :: 0 <= i < |r| ==> r[i] in ops && r[i].f.minor == m
  {
    if ops == [] then []
    else Only(ops[..|ops| - 1], m) + if ops[|ops| - 1].f.minor == m then [ops[|ops| - 1]] else []
  }

  // ---------- isolation ----------

  /** Two states agree about minor `m` and the files open on it. */
  ghost predicate Agree(a: Sys, b: Sys, m: nat)
    requires a.Valid() && b.Valid()
  {
    (m < DEV_MAX ==> a.minors[m] == b.minors[m]) && forall f: File :: f.minor == m ==> a.Off(f) == b.Off(f)
  }

  lemma {:induction false} OwnStep(a: Sys, b: Sys, op: Op)
    requires a.Valid() && b.Valid() && WellFormed(op) && Agree(a, b, op.f.minor)
    ensures Agree(Do(a, op).0, Do(b, op).0, op.f.minor) && Do(a, op).1 == Do(b, op).1
  {
  }

  lemma {:induction false} ForeignStep(a: Sys, op: Op, m: nat)
    requires a.Valid() && WellFormed(op) && op.f.minor != m
    ensures Agree(Do(a, op).0, a, m)
  {
  }

  lemma {:induction false} RunSnoc(s: Sys, ops: seq<Op>, op: Op, m: nat)
    requires s.Valid() && AllWellFormed(ops) && WellFormed(op) && op.f.minor == m
    ensures AllWellFormed(ops + [op])
    ensures Run(s, ops + [op], m) ==
            (Do(Run(s, ops, m).0, op).0, Run(s, ops, m).1 + [Do(Run(s, ops, m).0, op).1])
  {
    assert (ops + [op])[..|ops + [op]| - 1] == ops;
  }

  lemma {:induction false} OnlyWellFormed(ops: seq<Op>, m: nat)
    requires AllWellFormed(ops)
    ensures AllWellFormed(Only(ops, m))
  {
  }

  /** Over any interleaved trace, each minor's answers, message and file offsets are those of its own
      operations run alone. */
  lemma {:induction false} MinorsAreIsolated(s: Sys, ops: seq<Op>, m: nat)
    requires s.Valid() && AllWellFormed(ops)
    ensures AllWellFormed(Only(ops, m))
    ensures Agree(Run(s, ops, m).0, Run(s, Only(ops, m), m).0, m)
    ensures Run(s, ops, m).1 == Run(s, Only(ops, m), m).1
  {
    OnlyWellFormed(ops, m);
    if ops != [] {
      var most, op := ops[..|ops| - 1], ops[|ops| - 1];
      MinorsAreIsolated(s, most, m);
      if op.f.minor == m {
        OwnStep(Run(s, most, m).0, Run(s, Only(most, m), m).0, op);
        RunSnoc(s, Only(most, m), op, m);
      } else {
        ForeignStep(Run(s, most, m).0, op, m);
        assert Only(ops, m) == Only(most, m);
      }
    }
  }

  /** A minor the driver does not have changes nothing and is told so. */
  lemma {:induction false} NoSuchMinor(s: Sys, op: Op)
    requires s.Valid() && WellFormed(op)
    ensures op.f.minor >= DEV_MAX <==> Do(s, op).1.res == NoDevice
    ensures op.f.minor >= DEV_MAX ==> Do(s, op).0 == s
  {
  }

  // ---------- reassembly of chunked reads ----------

  /** What the reads through file `f` in a trace have delivered, in order. */
  ghost function Delivered(s: Sys, ops: seq<Op>, f: File): seq<byte>
    requires s.Valid() && AllWellFormed(ops)
  {
    if ops == [] then []
    else
      var most, op := ops[..|ops| - 1], ops[|ops| - 1];
      Delivered(s, most, f) +
      if op.Read? && op.f == f then Do(Run(s, most, f.minor).0, op).1.out else []
  }

  ghost predicate NoWriteTo(ops: seq<Op>, m: nat) {
    forall i :: 0 <= i < |ops| ==> ops[i].Write? ==> ops[i].f.minor != m
  }

  /** One operation that does not write to `f`'s minor: the message stays, and what is delivered through `f`
      is the message's next bytes. */
  lemma {:induction false} ChunkStep(s: Sys, op: Op, f: File)
    requires s.Valid() && WellFormed(op) && f.minor < DEV_MAX && s.Off(f) <= s.minors[f.minor].size
    requires op.Write? ==> op.f.minor != f.minor
    ensures var s', mn := Do(s, op).0, s.minors[f.minor];
            && s'.minors[f.minor] == mn
            && s.Off(f) <= s'.Off(f) <= mn.size
            && mn.text[s.Off(f)..s'.Off(f)] == if op.Read? && op.f == f then Do(s, op).1.out else []
  {
  }

  lemma {:induction false} JoinPrefix(s: seq<byte>, a: nat, b: nat)
    requires a <= b <= |s|
    ensures s[..a] + s[a..b] == s[..b]
  {
  }

  /** A file read from offset 0 in chunks of any length, each of which may stop short, whatever else goes on
      except writes to its minor, delivers exactly the message up to the file offset. */
  lemma {:induction false} ChunksReassemble(s: Sys, ops: seq<Op>, f: File)
    requires s.Valid() && AllWellFormed(ops) && NoWriteTo(ops, f.minor) && f.minor < DEV_MAX && s.Off(f) == 0
    ensures var s' := Run(s, ops, f.minor).0;
            && s'.minors[f.minor] == s.minors[f.minor]
            && s'.Off(f) <= s.minors[f.minor].size <= BUF_LEN - 1
            && Delivered(s, ops, f) == s.minors[f.minor].text[..s'.Off(f)]
  {
    assert s.minors[f.minor].Valid();
    if ops != [] {
      var most, op := ops[..|ops| - 1], ops[|ops| - 1];
      ChunksReassemble(s, most, f);
      assert op.Write? ==> op.f.minor != f.minor;
      var s1 := Run(s, most, f.minor).0;
      ChunkStep(s1, op, f);
      JoinPrefix(s.minors[f.minor].text, s1.Off(f), Do(s1, op).0.Off(f));
    }
  }

  /** A fully copied read of positive length returns 0 exactly when the whole message has been delivered. */
  lemma {:induction false} EndOfMessage(s: Sys, ops: seq<Op>, f: File, len: nat)
    requires s.Valid() && AllWellFormed(ops) && NoWriteTo(ops, f.minor) && f.minor < DEV_MAX && s.Off(f) == 0
    requires len > 0
    ensures Do(Run(s, ops, f.minor).0, Read(f, len, 0)).1.res == Count(0) <==>
            Delivered(s, ops, f) == s.minors[f.minor].text[..s.minors[f.minor].size]
  {
    ChunksReassemble(s, ops, f);
  }

  /** What a read answers: as many bytes as were asked for or are left, less those the copy missed; and these
      are the message's, from the offset on.  Nothing changes but the file's offset. */
  lemma {:induction false} ReadAnswers(s: Sys, f: File, len: nat, missed: nat)
    requires s.Valid() && f.minor < DEV_MAX
    ensures var s', answer, mn, off := Do(s, Read(f, len, missed)).0, Do(s, Read(f, len, missed)).1,
                                       s.minors[f.minor], s.Off(f);
            var n := if off < mn.size then Min(len, mn.size - off) else 0;
            var got := if missed < n then n - missed else 0;
            && answer.res == Count(got)
            && answer.out == (if got > 0 then mn.text[off..off + got] else [])
            && s' == s.(offs := s.offs[f := off + got])
  {
  }

  /** What a write answers: as many bytes as there are or fit, less those the copy missed; and these become
      the message. */
  lemma {:induction false} WriteAnswers(s: Sys, f: File, data: seq<byte>, missed: nat, junk: seq<byte>)
    requires s.Valid() && |junk| >= |data| && f.minor < DEV_MAX
    ensures var s', answer := Do(s, Write(f, data, missed, junk)).0, Do(s, Write(f, data, missed, junk)).1;
            var n := if |data| < BUF_LEN then |data| else BUF_LEN - 1;
            var got := if missed < n then n - missed else 0;
            && answer == Answer(Count(got), [])
            && s' == s.(minors := s.minors[f.minor := s'.minors[f.minor]])
            && s'.minors[f.minor].size == got
            && s'.minors[f.minor].text[..got] == data[..got]
  {
    var mn := Overwrite(s.minors[f.minor], data, missed, junk);
    assert mn.text[..Stored(data, missed)] == data[..Stored(data, missed)];
  }

  /** The buffer behind the message: a terminating 0, then what the copy may have torn, then what was there. */
  lemma {:induction false} BehindTheMessage(mn: Minor, data: seq<byte>, missed: nat, junk: seq<byte>, k: nat)
    requires mn.Valid() && |junk| >= |data| && k < BUF_LEN
    ensures var mn', n := Overwrite(mn, data, missed, junk), Min(|data|, BUF_LEN - 1);
            && (k == mn'.size ==> mn'.text[k] == 0)
            && (mn'.size < k < n ==> mn'.text[k] == junk[k])
            && (k > mn'.size && k >= n ==> mn'.text[k] == mn.text[k])
  {
  }

  /** Round trip: a fully copied read at any offset and of any length, behind any write to the same minor,
      gives what the write was told it stored, from the offset on. */
  lemma {:induction false} WriteThenRead(
    s: Sys, w: File, data: seq<byte>, missed: nat, junk: seq<byte>, r: File, len: nat)
    requires s.Valid() && |junk| >= |data| && w.minor == r.minor < DEV_MAX
    ensures var s', told := Do(s, Write(w, data, missed, junk)).0, Do(s, Write(w, data, missed, junk)).1.res;
            && s'.Off(r) == s.Off(r)
            && told.Count? && told.n <= |data|
            && Do(s', Read(r, len, 0)).1.out ==
               if s.Off(r) < told.n then data[s.Off(r)..Min(s.Off(r) + len, told.n)] else []
  {
    WriteAnswers(s, w, data, missed, junk);
    var s', n := Do(s, Write(w, data, missed, junk)).0, Stored(data, missed);
    ReadAnswers(s', r, len, 0);
    if s.Off(r) < n {
      SliceOfPrefix(s'.minors[r.minor].text, data, n, s.Off(r), Min(s.Off(r) + len, n));
    }
  }

  lemma {:induction false} SliceOfPrefix(a: seq<byte>, b: seq<byte>, n: nat, from: nat, to: nat)
    requires from <= to <= n <= |a| && n <= |b| && a[..n] == b[..n]
    ensures a[from..to] == b[from..to]
  {
    assert a[from..to] == a[..n][from..to] && b[from..to] == b[..n][from..to];
  }

  // ---------- the driver's arrays ----------

  class Driver {
    const message: seq<array<byte>>
    const messageSize: array<nat>

    ghost predicate Valid()
      reads messageSize
    {
      && |message| == DEV_MAX == messageSize.Length
      && (forall m :: 0 <= m < DEV_MAX ==> message[m].Length == BUF_LEN && messageSize[m] <= BUF_LEN - 1)
      && (forall m, k :: 0 <= m < k < DEV_MAX ==> message[m] != message[k])
    }

    /** The static arrays, zeroed. */
    constructor ()
      ensures Valid() && fresh(messageSize) && forall m :: 0 <= m < DEV_MAX ==> fresh(message[m])
      ensures forall m :: 0 <= m < DEV_MAX ==> At(m) == Loaded().minors[m]
    {
      var texts: seq<array<byte>> := [];
      for i := 0 to DEV_MAX
        invariant |texts| == i
        invariant forall m :: 0 <= m < i ==> fresh(texts[m]) && texts[m][..] == BLANK.text
        invariant forall m, k :: 0 <= m < k < i ==> texts[m] != texts[k]
      {
        var text := new byte[BUF_LEN](_ => 0);
        assert text[..] == BLANK.text;
        texts := texts + [text];
      }
      message := texts;
      messageSize := new nat[DEV_MAX](_ => 0);
    }

    ghost function At(m: nat): (mn: Minor)
      requires m < DEV_MAX && Valid()
      reads messageSize, message
      ensures mn.Valid()
    {
      Minor(message[m][..], messageSize[m])
    }

    method Read(minor: nat, len: nat, offset: nat, missed: nat)
      returns (res: Result, newOffset: nat, out: seq<byte>)
      requires Valid()
      ensures minor >= DEV_MAX ==> res == NoDevice && newOffset == offset && out == []
      ensures minor < DEV_MAX ==>
                && var got := Chunk(At(minor), offset, len, missed);
                && res == Count(got) && newOffset == offset + got
                && (got > 0 ==> out == At(minor).text[offset..offset + got])
                && (got == 0 ==> out == [])
      ensures minor < DEV_MAX ==>
                var n := if offset < At(minor).size then Min(len, At(minor).size - offset) else 0;
                res == Count(if missed < n then n - missed else 0)
    {
      if minor >= DEV_MAX {
        return NoDevice, offset, [];
      }
      if offset >= messageSize[minor] {
        return Count(0), offset, [];
      }
      var n := len;
      if offset + n > messageSize[minor] {
        n := messageSize[minor] - offset;
      }
      var got := n - Min(missed, n);
      out := message[minor][offset..offset + got];
      return Count(got), offset + got, out;
    }

    method Write(minor: nat, data: seq<byte>, missed: nat, junk: seq<byte>) returns (res: Result)
      requires Valid() && |junk| >= |data|
      modifies message, messageSize
      ensures Valid()
      ensures minor >= DEV_MAX ==> res == NoDevice
      ensures minor < DEV_MAX ==>
                && res == Count(Stored(data, missed))
                && At(minor) == Overwrite(old(At(minor)), data, missed, junk)
      ensures minor < DEV_MAX ==>
                var n := Min(|data|, BUF_LEN - 1);
                var got := if missed < n then n - missed else 0;
                && res == Count(got) && At(minor).size == got && At(minor).text[..got] == data[..got]
      ensures forall m :: 0 <= m < DEV_MAX && m != minor ==> At(m) == old(At(m))
    {
      if minor >= DEV_MAX {
        return NoDevice;
      }
      var n := if |data| > BUF_LEN - 1 then BUF_LEN - 1 else |data|;
      var got := n - Min(missed, n);
      var buffer := message[minor];
      ghost var before := buffer[..];
      forall i | 0 <= i < n {
        buffer[i] := if i < got then data[i] else junk[i];
      }
      messageSize[minor] := got;
      buffer[got] := 0;
      assert buffer[..] == Splice(before, 0, data[..got] + junk[got..n])[got := 0];
      return Count(got);
    }
  }
}
