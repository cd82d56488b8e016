/** An in-range request is one contiguous copy; a failing one is exactly the copies before the first
    that would pass the end of the disk; and what was written is what is read back. */
module BlockCopies {
  import opened Base
  import opened BlockIo

  // ---------- lists of copies ----------

  lemma {:induction false} DoConcat(m: Mem, a: seq<Move>, b: seq<Move>, n: nat)
    requires n <= |a + b|
    ensures DoN(m, a + b, n) == if n <= |a| then DoN(m, a, n) else DoN(DoAll(m, a), b, n - |a|)
  {
    if n > 0 {
      DoConcat(m, a, b, n - 1);
    }
  }

  /** Requests done one after another are their copies done one after another. */
  lemma {:induction false} DoAllConcat(m: Mem, a: seq<Move>, b: seq<Move>)
    ensures DoAll(m, a + b) == DoAll(DoAll(m, a), b)
  {
    DoConcat(m, a, b, |a + b|);
  }

  // ---------- what is left alone ----------

  /** Disk byte `x` is touched by `mv`. */
  predicate OnDisk(mv: Move, x: nat) {
    mv.write && mv.pos <= x < mv.pos + mv.seg.len
  }

  /** Byte `k` of page `p` is touched by `mv`. */
  predicate OnPage(mv: Move, p: nat, k: nat) {
    !mv.write && mv.seg.page == p && mv.seg.off <= k < mv.seg.off + mv.seg.len
  }

  /** A byte outside every copy's destination keeps its value. */
  lemma {:induction false} DiskUntouched(m: Mem, mvs: seq<Move>, n: nat, x: nat)
    requires n <= |mvs| && x < |m.disk|
    requires forall i :: 0 <= i < n ==> !OnDisk(mvs[i], x)
    ensures SameShape(m, DoN(m, mvs, n)) && DoN(m, mvs, n).disk[x] == m.disk[x]
  {
    if n > 0 {
      DiskUntouched(m, mvs, n - 1, x);
      DoKeepsShape(DoN(m, mvs, n - 1), mvs[n - 1]);
      assert !OnDisk(mvs[n - 1], x);
    }
  }

  lemma {:induction false} PageUntouched(m: Mem, mvs: seq<Move>, n: nat, p: nat, k: nat)
    requires n <= |mvs| && p < |m.pages| && k < |m.pages[p]|
    requires forall i :: 0 <= i < n ==> !OnPage(mvs[i], p, k)
    ensures SameShape(m, DoN(m, mvs, n)) && DoN(m, mvs, n).pages[p][k] == m.pages[p][k]
  {
    if n > 0 {
      PageUntouched(m, mvs, n - 1, p, k);
      DoKeepsShape(DoN(m, mvs, n - 1), mvs[n - 1]);
      assert !OnPage(mvs[n - 1], p, k);
    }
  }

  // ---------- failure ----------

  /** `Before` stops exactly at the first copy that would pass the end of the disk, and stops nowhere
      if there is none. */
  lemma {:induction false} BeforeIsExact(mvs: seq<Move>)
    ensures |Before(mvs)| <= |mvs| && Before(mvs) == mvs[..|Before(mvs)|]
    ensures AllInRange(Before(mvs))
    ensures |Before(mvs)| < |mvs| ==> !InRange(mvs[|Before(mvs)|])
    ensures Before(mvs) == mvs <==> AllInRange(mvs)
  {
    if mvs != [] && InRange(mvs[0]) {
      BeforeIsExact(mvs[1..]);
      assert mvs[..|Before(mvs)|] == [mvs[0]] + mvs[1..][..|Before(mvs[1..])|];
      assert AllInRange(mvs) ==> AllInRange(mvs[1..]);
    }
  }

  lemma {:induction false} BeforeConcat(a: seq<Move>, b: seq<Move>)
    ensures Before(a + b) == if AllInRange(a) then a + Before(b) else Before(a)
  {
    if a == [] {
      assert a + b == b;
    } else if InRange(a[0]) {
      assert (a + b)[1..] == a[1..] + b;
      BeforeConcat(a[1..], b);
      BeforeIsExact(a[1..]);
      assert AllInRange(a) <==> AllInRange(a[1..]);
    } else {
      assert !AllInRange(a);
    }
  }

  /** Everything moves if and only if no copy passes the end; otherwise the verdict is that on the first
      that does, and nothing is overlooked unless an end wraps. */
  lemma {:induction false} VerdictIsExact(mvs: seq<Move>)
    ensures VerdictOn(mvs).Moved? <==> AllInRange(mvs)
    ensures !AllInRange(mvs) ==> |Before(mvs)| < |mvs| && VerdictOn(mvs) == PastEnd(mvs[|Before(mvs)|])
  {
    BeforeIsExact(mvs);
    if mvs != [] && InRange(mvs[0]) {
      VerdictIsExact(mvs[1..]);
      assert AllInRange(mvs) <==> AllInRange(mvs[1..]);
    }
  }

  lemma {:induction false} VerdictConcat(a: seq<Move>, b: seq<Move>)
    ensures VerdictOn(a + b) == if AllInRange(a) then VerdictOn(b) else VerdictOn(a)
  {
    if a == [] {
      assert a + b == b;
    } else {
      assert (a + b)[1..] == a[1..] + b;
      VerdictConcat(a[1..], b);
      assert InRange(a[0]) ==> (AllInRange(a) <==> AllInRange(a[1..]));
    }
  }

  // ---------- one contiguous copy ----------

  predicate SegsFit(m: Mem, segs: seq<Segment>) {
    forall i :: 0 <= i < |segs| ==> SegFits(m, segs[i])
  }

  /** The bytes of the first `n` segments, end to end. */
  function Gather(m: Mem, segs: seq<Segment>, n: nat): (b: seq<byte>)
    requires SegsFit(m, segs) && n <= |segs|
    ensures |b| == Total(segs, n)
  {
    if n == 0 then [] else Gather(m, segs, n - 1) + Bytes(m, segs[n - 1])
  }

  function GatherAll(m: Mem, segs: seq<Segment>): (b: seq<byte>)
    requires SegsFit(m, segs)
    ensures |b| == Length(segs)
  {
    Gather(m, segs, |segs|)
  }

  predicate Apart(a: Segment, b: Segment) {
    a.page != b.page || a.off + a.len <= b.off || b.off + b.len <= a.off
  }

  predicate AllApart(segs: seq<Segment>) {
    forall i, j :: 0 <= i < j < |segs| ==> Apart(segs[i], segs[j])
  }

  lemma {:induction false} TotalGrows(segs: seq<Segment>, i: nat, n: nat)
    requires i <= n <= |segs|
    ensures Total(segs, i) <= Total(segs, n)
  {
    if i < n {
      TotalGrows(segs, i, n - 1);
    }
  }

  lemma {:induction false} SpliceSplice(s: seq<byte>, at: nat, a: seq<byte>, b: seq<byte>)
    requires at + |a| + |b| <= |s|
    ensures Splice(Splice(s, at, a), at + |a|, b) == Splice(s, at, a + b)
  {
  }

  /** `m` with `bytes` on its disk from `start` on. */
  function Stored(m: Mem, start: nat, bytes: seq<byte>): Mem
    requires start + |bytes| <= |m.disk|
  {
    m.(disk := Splice(m.disk, start, bytes))
  }

  /** One more segment of a write that has got `done` bytes to the disk. */
  lemma {:induction false} WriteOneMore(m: Mem, start: nat, done: seq<byte>, seg: Segment)
    requires SegFits(m, seg) && start + |done| + seg.len <= |m.disk|
    ensures Do(Stored(m, start, done), Move(true, start + |done|, seg)) == Stored(m, start, done + Bytes(m, seg))
  {
    SpliceSplice(m.disk, start, done, Bytes(m, seg));
  }

  /** `now` is `m` after the first `n` segments of a write. */
  predicate WrittenSoFar(m: Mem, now: Mem, start: nat, segs: seq<Segment>, n: nat)
    requires SegsFit(m, segs) && n <= |segs|
  {
    start + Total(segs, n) <= |m.disk| && now == Stored(m, start, Gather(m, segs, n))
  }

  lemma {:induction false} WrittenOneMore(m: Mem, now: Mem, start: nat, segs: seq<Segment>, n: nat)
    requires SegsFit(m, segs) && 0 < n <= |segs| && start + Total(segs, n) <= |m.disk|
    requires WrittenSoFar(m, now, start, segs, n - 1)
    ensures WrittenSoFar(m, Do(now, Move(true, start + Total(segs, n - 1), segs[n - 1])), start, segs, n)
  {
    WriteOneMore(m, start, Gather(m, segs, n - 1), segs[n - 1]);
  }

  lemma {:induction false} WriteIsOneCopyN(m: Mem, start: nat, segs: seq<Segment>, n: nat)
    requires SegsFit(m, segs) && start + Length(segs) <= |m.disk| < TWO64 && n <= |segs|
    ensures WrittenSoFar(m, DoN(m, PlaceFrom(start, true, segs), n), start, segs, n)
  {
    TotalGrows(segs, n, |segs|);
    if n == 0 {
      assert Stored(m, start, []) == m;
    } else {
      WriteIsOneCopyN(m, start, segs, n - 1);
      WrittenOneMore(m, DoN(m, PlaceFrom(start, true, segs), n - 1), start, segs, n);
      DoNStep(m, start, true, segs, n);
    }
  }

  /** The last of `n` placed copies. */
  lemma {:induction false} DoNStep(m: Mem, start: nat, write: bool, segs: seq<Segment>, n: nat)
    requires 0 < n <= |segs| && start + Total(segs, n - 1) < TWO64
    ensures var mvs := PlaceFrom(start, write, segs);
            DoN(m, mvs, n) == Do(DoN(m, mvs, n - 1), Move(write, start + Total(segs, n - 1), segs[n - 1]))
  {
    assert PlaceFrom(start, write, segs)[n - 1] == MoveFrom(start, write, segs, n - 1);
  }

  /** An in-range write is one copy of the gathered bytes to its first sector, and moves nothing else. */
  lemma {:induction false} WriteIsOneCopy(m: Mem, sector: nat, segs: seq<Segment>)
    requires WholeSectors(segs) && SegsFit(m, segs) && sector * 512 + Length(segs) <= |m.disk| < TWO64
    ensures DoAll(m, Place(sector, true, segs)) == Stored(m, sector * 512, GatherAll(m, segs))
  {
    CursorIsExact(sector, true, segs);
    WriteIsOneCopyN(m, sector * 512, segs, |segs|);
  }

  /** A copy into one segment leaves the bytes of segments apart from it. */
  lemma {:induction false} BytesApart(m: Mem, mv: Move, seg: Segment)
    requires Fits(m, mv) && SegFits(m, seg) && !mv.write && Apart(seg, mv.seg)
    ensures SegFits(Do(m, mv), seg) && Bytes(Do(m, mv), seg) == Bytes(m, seg)
  {
  }

  lemma {:induction false} GatherSame(m: Mem, m': Mem, segs: seq<Segment>, n: nat)
    requires SegsFit(m, segs) && SegsFit(m', segs) && n <= |segs|
    requires forall i :: 0 <= i < n ==> Bytes(m', segs[i]) == Bytes(m, segs[i])
    ensures Gather(m', segs, n) == Gather(m, segs, n)
  {
    if n > 0 {
      GatherSame(m, m', segs, n - 1);
    }
  }

  lemma {:induction false} SegsStillFit(m: Mem, m': Mem, segs: seq<Segment>)
    requires SameShape(m, m') && SegsFit(m, segs)
    ensures SegsFit(m', segs)
  {
  }

  /** `m'` is `m` after the first `n` segments of a read. */
  predicate ReadSoFar(m: Mem, m': Mem, start: nat, segs: seq<Segment>, n: nat)
    requires n <= |segs| && start + Total(segs, n) <= |m.disk|
  {
    && SameShape(m, m')
    && m'.disk == m.disk
    && SegsFit(m', segs)
    && Gather(m', segs, n) == m.disk[start..start + Total(segs, n)]
  }

  lemma {:induction false} ReadIsOneCopyN(m: Mem, start: nat, segs: seq<Segment>, n: nat)
    requires SegsFit(m, segs) && AllApart(segs) && start + Length(segs) <= |m.disk| < TWO64 && n <= |segs|
    ensures start + Total(segs, n) <= |m.disk|
    ensures ReadSoFar(m, DoN(m, PlaceFrom(start, false, segs), n), start, segs, n)
  {
    TotalGrows(segs, n, |segs|);
    if n == 0 {
      assert DoN(m, PlaceFrom(start, false, segs), 0) == m;
    } else {
      ReadIsOneCopyN(m, start, segs, n - 1);
      ReadOneMore(m, DoN(m, PlaceFrom(start, false, segs), n - 1), start, segs, n);
      DoNStep(m, start, false, segs, n);
    }
  }

  /** One more segment of a read. */
  lemma {:induction false} ReadOneMore(m: Mem, mid: Mem, start: nat, segs: seq<Segment>, n: nat)
    requires AllApart(segs) && 0 < n <= |segs| && start + Total(segs, n) <= |m.disk|
    requires ReadSoFar(m, mid, start, segs, n - 1)
    ensures ReadSoFar(m, Do(mid, Move(false, start + Total(segs, n - 1), segs[n - 1])), start, segs, n)
  {
    var mv := Move(false, start + Total(segs, n - 1), segs[n - 1]);
    DoKeepsShape(mid, mv);
    SegsStillFit(mid, Do(mid, mv), segs);
    BytesRead(mid, mv);
    EarlierUnchanged(mid, mv, segs, n);
    GatherJoins(Do(mid, mv), m.disk, start, segs, n);
  }

  /** The segments read before are left alone by the next read. */
  lemma {:induction false} EarlierUnchanged(mid: Mem, mv: Move, segs: seq<Segment>, n: nat)
    requires AllApart(segs) && 0 < n <= |segs| && SegsFit(mid, segs) && SegsFit(Do(mid, mv), segs)
    requires Fits(mid, mv) && !mv.write && mv.seg == segs[n - 1]
    ensures Gather(Do(mid, mv), segs, n - 1) == Gather(mid, segs, n - 1)
  {
    forall i | 0 <= i < n - 1
      ensures Bytes(Do(mid, mv), segs[i]) == Bytes(mid, segs[i])
    {
      BytesApart(mid, mv, segs[i]);
    }
    GatherSame(mid, Do(mid, mv), segs, n - 1);
  }

  /** Segments that hold the disk's bytes up to the last, and the last the next ones, hold them all. */
  lemma {:induction false} GatherJoins(m: Mem, disk: seq<byte>, start: nat, segs: seq<Segment>, n: nat)
    requires SegsFit(m, segs) && 0 < n <= |segs| && start + Total(segs, n) <= |disk|
    requires Gather(m, segs, n - 1) == disk[start..start + Total(segs, n - 1)]
    requires Bytes(m, segs[n - 1]) == disk[start + Total(segs, n - 1)..start + Total(segs, n)]
    ensures Gather(m, segs, n) == disk[start..start + Total(segs, n)]
  {
    JoinSlices(disk, start, start + Total(segs, n - 1), start + Total(segs, n));
  }

  lemma {:induction false} JoinSlices(s: seq<byte>, a: nat, b: nat, c: nat)
    requires a <= b <= c <= |s|
    ensures s[a..b] + s[b..c] == s[a..c]
  {
  }

  lemma {:induction false} BytesRead(m: Mem, mv: Move)
    requires Fits(m, mv) && !mv.write
    ensures Do(m, mv).disk == m.disk && SegFits(Do(m, mv), mv.seg)
    ensures Bytes(Do(m, mv), mv.seg) == m.disk[mv.pos..mv.pos + mv.seg.len]
  {
  }

  /** An in-range read into disjoint segments is one copy: gathered, they hold the disk's bytes from the
      first sector on, and the disk is unchanged. */
  lemma {:induction false} ReadIsOneCopy(m: Mem, sector: nat, segs: seq<Segment>)
    requires WholeSectors(segs) && SegsFit(m, segs) && AllApart(segs)
    requires sector * 512 + Length(segs) <= |m.disk| < TWO64
    ensures var m' := DoAll(m, Place(sector, false, segs));
            && m'.disk == m.disk
            && SegsFit(m', segs)
            && GatherAll(m', segs) == m.disk[sector * 512..sector * 512 + Length(segs)]
  {
    CursorIsExact(sector, false, segs);
    ReadIsOneCopyN(m, sector * 512, segs, |segs|);
  }

  lemma {:induction false} SpliceBack(s: seq<byte>, at: nat, bytes: seq<byte>)
    requires at + |bytes| <= |s|
    ensures Splice(s, at, bytes)[at..at + |bytes|] == bytes
  {
  }
}
