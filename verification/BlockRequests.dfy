/** What the driver does for whole requests. */
module BlockRequests {
  import opened Base
  import opened BlockIo
  import opened BlockCopies

  /** A request is one list of bios; the driver serves it up to the first copy past the end. */
  function Effect(m: Mem, req: seq<Bio>): Mem {
    DoAll(m, Before(Plan(req)))
  }

  /** The request completes with BLK_STS_OK rather than BLK_STS_IOERR. */
  predicate Succeeds(req: seq<Bio>) {
    AllInRange(Plan(req))
  }

  // ---------- failure ----------

  /** The request fails if and only if some segment passes the end of the disk; then exactly the copies
      before the first such one are done. */
  lemma {:induction false} ExactFailure(m: Mem, req: seq<Bio>)
    ensures !Succeeds(req) <==> exists i :: 0 <= i < |Plan(req)| && !InRange(Plan(req)[i])
    ensures Succeeds(req) ==> Effect(m, req) == DoAll(m, Plan(req))
    ensures !Succeeds(req) ==>
              exists k :: 0 <= k < |Plan(req)| && !InRange(Plan(req)[k]) && AllInRange(Plan(req)[..k])
                          && Effect(m, req) == DoAll(m, Plan(req)[..k])
  {
    BeforeIsExact(Plan(req));
    if !Succeeds(req) {
      var k := |Before(Plan(req))|;
      assert !InRange(Plan(req)[k]) && Before(Plan(req)) == Plan(req)[..k];
    }
  }

  /** A disk byte that none of the copies before the first failure writes keeps its value. */
  lemma {:induction false} DiskElsewhere(m: Mem, req: seq<Bio>, x: nat)
    requires x < |m.disk|
    requires forall i :: 0 <= i < |Before(Plan(req))| ==> !OnDisk(Before(Plan(req))[i], x)
    ensures |Effect(m, req).disk| == |m.disk| && Effect(m, req).disk[x] == m.disk[x]
  {
    DiskUntouched(m, Before(Plan(req)), |Before(Plan(req))|, x);
  }

  /** So does a page byte that none of them reads into. */
  lemma {:induction false} PagesElsewhere(m: Mem, req: seq<Bio>, p: nat, k: nat)
    requires p < |m.pages| && k < |m.pages[p]|
    requires forall i :: 0 <= i < |Before(Plan(req))| ==> !OnPage(Before(Plan(req))[i], p, k)
    ensures SameShape(m, Effect(m, req)) && Effect(m, req).pages[p][k] == m.pages[p][k]
  {
    PageUntouched(m, Before(Plan(req)), |Before(Plan(req))|, p, k);
  }

  // ---------- merge and split ----------

  lemma {:induction false} PlanConcat(a: seq<Bio>, b: seq<Bio>)
    ensures Plan(a + b) == Plan(a) + Plan(b)
  {
    if a == [] {
      assert a + b == b;
    } else {
      assert (a + b)[1..] == a[1..] + b;
      PlanConcat(a[1..], b);
    }
  }

  lemma {:induction false} InRangeConcat(a: seq<Move>, b: seq<Move>)
    ensures AllInRange(a + b) <==> AllInRange(a) && AllInRange(b)
  {
    if AllInRange(a + b) {
      assert forall i :: 0 <= i < |a| ==> a[i] == (a + b)[i];
      assert forall i :: 0 <= i < |b| ==> b[i] == (a + b)[|a| + i];
    }
  }

  /** A merged request has the effect of its parts issued in order, up to the first that fails. */
  lemma {:induction false} MergedIsPartsInOrder(m: Mem, a: seq<Bio>, b: seq<Bio>)
    ensures Succeeds(a + b) <==> Succeeds(a) && Succeeds(b)
    ensures Effect(m, a + b) == if Succeeds(a) then Effect(Effect(m, a), b) else Effect(m, a)
  {
    PlanConcat(a, b);
    BeforeConcat(Plan(a), Plan(b));
    BeforeIsExact(Plan(a));
    DoAllConcat(m, Plan(a), Before(Plan(b)));
    InRangeConcat(Plan(a), Plan(b));
  }

  // ---------- a contiguous request is one copy ----------

  /** Where a request begins on the disk. */
  function Start(req: seq<Bio>): nat
    requires req != []
  {
    req[0].sector * 512
  }

  /** As long as the copies are in range, none of their positions wraps any more. */
  lemma {:induction false} InRangeSoFar(start: nat, write: bool, segs: seq<Segment>, n: nat)
    requires 0 < n <= |segs| && InRangeUpTo(PlaceFrom(start, write, segs), n)
    ensures Wrap(start) + Total(segs, n) <= CAPACITY
  {
    WrapTwice(start, Total(segs, n - 1));
    var last := PlaceFrom(start, write, segs)[n - 1];
    assert InRange(last);
    if n > 1 {
      InRangeSoFar(start, write, segs, n - 1);
    } else {
      assert Total(segs, 0) == 0;
    }
  }

  lemma {:induction false} PlacedAtInRange(start: nat, write: bool, segs: seq<Segment>, i: nat)
    requires i < |segs| && Wrap(start) + Length(segs) <= CAPACITY
    ensures InRange(MoveFrom(start, write, segs, i))
  {
    TotalGrows(segs, i + 1, |segs|);
    WrapTwice(start, Total(segs, i));
  }

  lemma {:induction false} PlacedInRange(start: nat, write: bool, segs: seq<Segment>)
    ensures AllInRange(PlaceFrom(start, write, segs)) <==> segs == [] || Wrap(start) + Length(segs) <= CAPACITY
  {
    var mvs := PlaceFrom(start, write, segs);
    if segs != [] && AllInRange(mvs) {
      InRangeSoFar(start, write, segs, |segs|);
    }
    if Wrap(start) + Length(segs) <= CAPACITY {
      forall i | 0 <= i < |mvs|
        ensures InRange(mvs[i])
      {
        PlacedAtInRange(start, write, segs, i);
      }
    }
  }

  /** A contiguous request succeeds if and only if it ends on the disk, however it is divided; where its first
      byte is past 2^64, what counts is where that wraps to. */
  lemma {:induction false} SucceedsIffItEndsOnDisk(req: seq<Bio>)
    requires Contiguous(req) && req != []
    ensures Succeeds(req) <==> AllSegs(req) == [] || Wrap(Start(req)) + Length(AllSegs(req)) <= CAPACITY
    ensures Start(req) < TWO64 ==>
              (Succeeds(req) <==> AllSegs(req) == [] || Start(req) + Length(AllSegs(req)) <= CAPACITY)
  {
    DivisionIntoBiosIrrelevant(req);
    PlacedInRange(Start(req), req[0].write, AllSegs(req));
  }

  lemma {:induction false} WholeLength(segs: seq<Segment>, n: nat)
    requires WholeSectors(segs) && n <= |segs|
    ensures Total(segs, n) % 512 == 0
  {
    if n > 0 {
      WholeLength(segs, n - 1);
      assert segs[n - 1].len % 512 == 0;
    }
  }

  /** In sectors: the disk has 32 * 1024, the capacity announced to the block layer. */
  lemma {:induction false} SucceedsIffWithinCapacity(req: seq<Bio>)
    requires Contiguous(req) && req != [] && Start(req) < TWO64
    ensures Succeeds(req) <==> AllSegs(req) == [] || req[0].sector + Length(AllSegs(req)) / 512 <= 32 * 1024
  {
    SucceedsIffItEndsOnDisk(req);
    AllWholeSectors(req);
    WholeLength(AllSegs(req), |AllSegs(req)|);
  }

  lemma {:induction false} ContiguousEffect(m: Mem, req: seq<Bio>)
    requires Contiguous(req) && req != [] && Succeeds(req)
    ensures Effect(m, req) == DoAll(m, PlaceFrom(Start(req), req[0].write, AllSegs(req)))
  {
    DivisionIntoBiosIrrelevant(req);
    BeforeIsExact(Plan(req));
  }

  /** Byte `k` of page `p` belongs to one of the segments. */
  predicate Covered(segs: seq<Segment>, p: nat, k: nat) {
    exists i :: 0 <= i < |segs| && segs[i].page == p && segs[i].off <= k < segs[i].off + segs[i].len
  }

  /** Outside the segments the pages are as they were. */
  ghost predicate PagesKept(m: Mem, m': Mem, segs: seq<Segment>) {
    && SameShape(m, m')
    && forall p, k :: 0 <= p < |m.pages| && 0 <= k < |m.pages[p]| && !Covered(segs, p, k) ==>
                        m'.pages[p][k] == m.pages[p][k]
  }

  /** Serving a contiguous request touches no page byte outside its segments. */
  lemma {:induction false} PagesKeptOutside(m: Mem, req: seq<Bio>)
    requires Contiguous(req) && req != [] && Succeeds(req)
    ensures PagesKept(m, Effect(m, req), AllSegs(req))
  {
    DivisionIntoBiosIrrelevant(req);
    BeforeIsExact(Plan(req));
    ShapeKept(m, Plan(req), |Plan(req)|);
    forall p, k | 0 <= p < |m.pages| && 0 <= k < |m.pages[p]| && !Covered(AllSegs(req), p, k)
      ensures Effect(m, req).pages[p][k] == m.pages[p][k]
    {
      PagesElsewhere(m, req, p, k);
    }
  }

  /** An in-range write, however divided into bios and segments, is one copy of its bytes to its first
      sector; an in-range read is one copy the other way, and leaves the rest of the pages alone. */
  lemma {:induction false} RequestIsOneCopy(m: Mem, req: seq<Bio>)
    requires Contiguous(req) && req != [] && Start(req) + Length(AllSegs(req)) <= CAPACITY == |m.disk|
    requires SegsFit(m, AllSegs(req)) && (req[0].write || AllApart(AllSegs(req)))
    ensures Succeeds(req)
    ensures req[0].write ==> Effect(m, req) == Stored(m, Start(req), GatherAll(m, AllSegs(req)))
    ensures !req[0].write ==> ReadSoFar(m, Effect(m, req), Start(req), AllSegs(req), |AllSegs(req)|)
    ensures !req[0].write ==> PagesKept(m, Effect(m, req), AllSegs(req))
  {
    SucceedsIffItEndsOnDisk(req);
    ContiguousEffect(m, req);
    if req[0].write {
      WriteIsOneCopyN(m, Start(req), AllSegs(req), |AllSegs(req)|);
    } else {
      ReadIsOneCopyN(m, Start(req), AllSegs(req), |AllSegs(req)|);
      PagesKeptOutside(m, req);
    }
  }

  /** The segments, end to end, hold `bytes`. */
  predicate Holds(m: Mem, segs: seq<Segment>, bytes: seq<byte>) {
    SegsFit(m, segs) && GatherAll(m, segs) == bytes
  }

  /** Bytes written by any request and read back from the same sectors by any other, each divided into bios
      and segments in its own way, come back exactly. */
  lemma {:induction false} RoundTrip(m: Mem, out: seq<Bio>, back: seq<Bio>)
    requires Contiguous(out) && Contiguous(back) && out != [] && back != []
    requires out[0].write && !back[0].write && out[0].sector == back[0].sector
    requires Length(AllSegs(out)) == Length(AllSegs(back))
    requires Start(out) + Length(AllSegs(out)) <= CAPACITY == |m.disk|
    requires SegsFit(m, AllSegs(out)) && SegsFit(m, AllSegs(back)) && AllApart(AllSegs(back))
    ensures Succeeds(out) && Succeeds(back)
    ensures Holds(Effect(Effect(m, out), back), AllSegs(back), GatherAll(m, AllSegs(out)))
  {
    RequestIsOneCopy(m, out);
    var m1 := Effect(m, out);
    RequestIsOneCopy(m1, back);
    SpliceBack(m.disk, Start(out), GatherAll(m, AllSegs(out)));
  }
}
