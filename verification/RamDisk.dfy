/** The driver's nested loops (request, bio, segment) over one byte array and the pages of memory. */
module RamDisk {
  import opened Base
  import opened BlockIo
  import opened BlockCopies
  import opened BlockRequests

  /** BLK_STS_OK or BLK_STS_IOERR; or the check has let a copy through that would leave the array. */
  datatype Status = Ok | IoError | Unchecked

  /** The first copy of a failing request that is not on the disk. */
  function FirstPastEnd(req: seq<Bio>): (mv: Move)
    requires !Succeeds(req)
    ensures mv in Plan(req) && !InRange(mv)
  {
    VerdictIsExact(Plan(req));
    BeforeIsExact(Plan(req));
    Plan(req)[|Before(Plan(req))|]
  }

  /** The pages are different arrays, none of them the disk. */
  predicate Separate(data: array<byte>, pages: seq<array<byte>>) {
    && data !in pages
    && forall p, q :: 0 <= p < q < |pages| ==> pages[p] != pages[q]
  }

  method Memcpy(dst: array<byte>, at: nat, bytes: seq<byte>)
    requires at + |bytes| <= dst.Length
    modifies dst
    ensures dst[..] == Splice(old(dst[..]), at, bytes)
  {
    forall i | 0 <= i < |bytes| {
      dst[at + i] := bytes[i];
    }
  }

  class Disk {
    const data: array<byte>

    ghost predicate Valid() {
      data.Length == CAPACITY
    }

    constructor ()
      ensures Valid() && fresh(data) && data[..] == seq(CAPACITY, _ => 0)
    {
      data := new byte[CAPACITY](_ => 0);
    }

    /** The disk and the pages as values. */
    ghost function View(pages: seq<array<byte>>): Mem
      reads data, pages
    {
      Mem(data[..], seq(|pages|, p requires 0 <= p < |pages| reads pages => pages[p][..]))
    }

    /** A write's memcpy. */
    method CopyToDisk(pages: seq<array<byte>>, mv: Move)
      requires Valid() && Separate(data, pages) && mv.write && Fits(View(pages), mv)
      modifies data
      ensures View(pages) == Do(old(View(pages)), mv)
    {
      ghost var m := View(pages);
      var page := pages[mv.seg.page];
      Memcpy(data, mv.pos, page[mv.seg.off..mv.seg.off + mv.seg.len]);
      assert forall p :: 0 <= p < |pages| ==> View(pages).pages[p] == m.pages[p];
    }

    /** A read's memcpy. */
    method CopyToPage(pages: seq<array<byte>>, mv: Move)
      requires Valid() && Separate(data, pages) && !mv.write && Fits(View(pages), mv)
      modifies pages
      ensures View(pages) == Do(old(View(pages)), mv)
    {
      ghost var m := View(pages);
      Memcpy(pages[mv.seg.page], mv.seg.off, data[mv.pos..mv.pos + mv.seg.len]);
      assert forall p :: 0 <= p < |pages| ==> View(pages).pages[p] == Do(m, mv).pages[p];
    }

    method Copy(pages: seq<array<byte>>, mv: Move)
      requires Valid() && Separate(data, pages) && Fits(View(pages), mv)
      modifies data, pages
      ensures View(pages) == Do(old(View(pages)), mv)
    {
      if mv.write {
        CopyToDisk(pages, mv);
      } else {
        CopyToPage(pages, mv);
      }
    }

    /** The loop body of a bio: the bounds check and the copy, at the offset as 64 bits give it.  A copy that
        would leave the array, because the sum in the check has wrapped, is the end of this model. */
    method TransferSegment(pages: seq<array<byte>>, sector: Sector, write: bool, seg: Segment)
      returns (verdict: Verdict)
      requires Valid() && Separate(data, pages) && SegFits(View(pages), seg)
      modifies data, pages
      ensures var mv := Move(write, Wrap(sector * 512), seg);
              && verdict == VerdictOn([mv])
              && View(pages) == if verdict.Moved? then Do(old(View(pages)), mv) else old(View(pages))
    {
      var offset := Wrap(sector * 512);
      ghost var mv := Move(write, offset, seg);
      PassedIsOnDisk(sector, write, seg);
      assert VerdictOn([mv]) == if InRange(mv) then Moved else PastEnd(mv);
      if Wrap(offset + seg.len) > CAPACITY {
        return Refused;
      }
      if offset + seg.len > data.Length {
        return Overlooked;
      }
      Copy(pages, Move(write, offset, seg));
      return Moved;
    }

    /** One round of the loop over a bio's segments; `next` is the cursor behind it. */
    method TransferNext(pages: seq<array<byte>>, bio: Bio, i: nat, sector: Sector, ghost m: Mem)
      returns (verdict: Verdict, next: Sector)
      requires Valid() && Separate(data, pages) && i < |bio.segs|
      requires SegsFit(m, bio.segs) && Reached(m, bio, i, sector, View(pages))
      modifies data, pages
      ensures verdict.Moved? ==> Reached(m, bio, i + 1, next, View(pages))
      ensures !verdict.Moved? ==> Stopped(m, bio, verdict, View(pages))
    {
      ghost var before := View(pages);
      next := sector;
      ReachedShape(m, bio, i, sector, View(pages));
      verdict := TransferSegment(pages, sector, bio.write, bio.segs[i]);
      if verdict.Moved? {
        ReachNext(m, bio, i, sector, before);
        next := Wrap(sector + bio.segs[i].len / 512);
      } else {
        StoppedAt(m, bio, i, sector, before);
      }
    }

    /** myramdisk_transfer_bio */
    method TransferBio(pages: seq<array<byte>>, bio: Bio) returns (verdict: Verdict)
      requires Valid() && Separate(data, pages) && SegsFit(View(pages), bio.segs)
      modifies data, pages
      ensures Stopped(old(View(pages)), bio, verdict, View(pages))
    {
      ghost var m := View(pages);
      var sector: Sector := bio.sector;
      ReachStart(m, bio);
      for i := 0 to |bio.segs|
        invariant Reached(m, bio, i, sector, View(pages))
      {
        verdict, sector := TransferNext(pages, bio, i, sector, m);
        if verdict != Moved {
          return;
        }
      }
      StoppedAt(m, bio, |bio.segs|, sector, View(pages));
      return Moved;
    }

    /** myramdisk_transfer_request */
    method TransferRequest(pages: seq<array<byte>>, req: seq<Bio>) returns (verdict: Verdict)
      requires Valid() && Separate(data, pages) && SegsFit(View(pages), AllSegs(req))
      modifies data, pages
      ensures verdict == VerdictOn(Plan(req))
      ensures View(pages) == Effect(old(View(pages)), req)
    {
      ghost var m := View(pages);
      var i := 0;
      assert req[..0] == [] && req[0..] == req;
      while i < |req|
        invariant 0 <= i <= |req|
        invariant Succeeds(req[..i])
        invariant View(pages) == Effect(m, req[..i])
        invariant SegsFit(View(pages), AllSegs(req[i..]))
      {
        ghost var mid := View(pages);
        FitNext(mid, req, i);
        verdict := TransferBio(pages, req[i]);
        assert req[..i + 1] == req[..i] + [req[i]] && req == req[..i] + [req[i]] + req[i + 1..];
        ServeBetween(m, req[..i], req[i], req[i + 1..]);
        if verdict != Moved {
          return;
        }
        FitRest(mid, req, i);
        i := i + 1;
      }
      assert req[..i] == req;
      VerdictIsExact(Plan(req));
      return Moved;
    }

    /** myramdisk_queue_rq: the status the request is ended with.  It is an error exactly when the first
        segment whose offset, as computed, does not leave it on the disk is one that the check refuses. */
    method QueueRq(pages: seq<array<byte>>, req: seq<Bio>) returns (status: Status)
      requires Valid() && Separate(data, pages) && SegsFit(View(pages), AllSegs(req))
      modifies data, pages
      ensures status.Ok? <==> forall i :: 0 <= i < |Plan(req)| ==> InRange(Plan(req)[i])
      ensures status.IoError? <==> !Succeeds(req) && !WrapsOntoDisk(FirstPastEnd(req))
      ensures status.Unchecked? <==> !Succeeds(req) && WrapsOntoDisk(FirstPastEnd(req))
      ensures View(pages) == Effect(old(View(pages)), req)
    {
      VerdictIsExact(Plan(req));
      var verdict := TransferRequest(pages, req);
      match verdict
      case Moved => status := Ok;
      case Refused => status := IoError;
      case Overlooked => status := Unchecked;
    }
  }

  lemma {:induction false} BeforeCount(mvs: seq<Move>, n: nat)
    requires n <= |mvs| && (n < |mvs| ==> !InRange(mvs[n]))
    requires InRangeUpTo(mvs, n)
    ensures Before(mvs) == mvs[..n]
  {
    if n > 0 {
      BeforeCount(mvs[1..], n - 1);
    }
  }

  lemma {:induction false} VerdictCount(mvs: seq<Move>, n: nat)
    requires n <= |mvs| && (n < |mvs| ==> !InRange(mvs[n]))
    requires InRangeUpTo(mvs, n)
    ensures VerdictOn(mvs) == if n < |mvs| then PastEnd(mvs[n]) else Moved
  {
    if n > 0 {
      VerdictCount(mvs[1..], n - 1);
    }
  }

  /** With the first `n` copies in range, and copy `n` past the end if there is one, `Before` is those. */
  lemma {:induction false} BeforeUpTo(m: Mem, mvs: seq<Move>, n: nat)
    requires n <= |mvs| && (n < |mvs| ==> !InRange(mvs[n]))
    requires InRangeUpTo(mvs, n)
    ensures DoAll(m, Before(mvs)) == DoN(m, mvs, n)
  {
    BeforeCount(mvs, n);
    assert mvs == mvs[..n] + mvs[n..];
    DoConcat(m, mvs[..n], mvs[n..], n);
  }

  /** The loop over a bio's segments stands before segment `i`: the cursor is right, nothing has passed
      the end, and the memory is `m` after the copies so far. */
  predicate Reached(m: Mem, bio: Bio, i: nat, sector: nat, now: Mem)
    requires i <= |bio.segs|
  {
    var mvs := Place(bio.sector, bio.write, bio.segs);
    sector == Wrap(Cursor(bio.sector, bio.segs, i)) && InRangeUpTo(mvs, i) && now == DoN(m, mvs, i)
  }

  /** The offset of the next segment is the one the wrapped cursor gives. */
  lemma {:induction false} ReachedOffset(m: Mem, bio: Bio, i: nat, sector: nat, now: Mem)
    requires i <= |bio.segs| && Reached(m, bio, i, sector, now)
    ensures i < |bio.segs| ==>
              Place(bio.sector, bio.write, bio.segs)[i] == Move(bio.write, Wrap(sector * 512), bio.segs[i])
  {
    WrapTimes(Cursor(bio.sector, bio.segs, i), 512);
  }

  lemma {:induction false} ReachStart(m: Mem, bio: Bio)
    ensures Reached(m, bio, 0, bio.sector, m)
  {
  }

  lemma {:induction false} ReachedShape(m: Mem, bio: Bio, i: nat, sector: nat, now: Mem)
    requires i <= |bio.segs| && Reached(m, bio, i, sector, now) && SegsFit(m, bio.segs)
    ensures SegsFit(now, bio.segs)
  {
    ShapeKept(m, Place(bio.sector, bio.write, bio.segs), i);
    SegsStillFit(m, now, bio.segs);
  }

  /** One more segment moved: the cursor is right again. */
  lemma {:induction false} ReachNext(m: Mem, bio: Bio, i: nat, sector: nat, now: Mem)
    requires i < |bio.segs| && Reached(m, bio, i, sector, now)
    requires InRange(Move(bio.write, Wrap(sector * 512), bio.segs[i]))
    ensures var now' := Do(now, Move(bio.write, Wrap(sector * 512), bio.segs[i]));
            Reached(m, bio, i + 1, Wrap(sector + bio.segs[i].len / 512), now')
  {
    ReachedOffset(m, bio, i, sector, now);
    OneMoreInRange(Place(bio.sector, bio.write, bio.segs), i);
    WrapTwice(Cursor(bio.sector, bio.segs, i), bio.segs[i].len / 512);
  }

  /** The bio has been left with `verdict` and the memory `now`. */
  predicate Stopped(m: Mem, bio: Bio, verdict: Verdict, now: Mem) {
    var mvs := Place(bio.sector, bio.write, bio.segs);
    verdict == VerdictOn(mvs) && now == DoAll(m, Before(mvs))
  }

  /** The loop ends before segment `i`, because that one passes the end or because there is none. */
  lemma {:induction false} StoppedAt(m: Mem, bio: Bio, i: nat, sector: nat, now: Mem)
    requires i <= |bio.segs| && Reached(m, bio, i, sector, now)
    requires i < |bio.segs| ==> !InRange(Move(bio.write, Wrap(sector * 512), bio.segs[i]))
    ensures var verdict :=
              if i < |bio.segs| then PastEnd(Move(bio.write, Wrap(sector * 512), bio.segs[i])) else Moved;
            Stopped(m, bio, verdict, now)
  {
    ReachedOffset(m, bio, i, sector, now);
    BeforeUpTo(m, Place(bio.sector, bio.write, bio.segs), i);
    VerdictCount(Place(bio.sector, bio.write, bio.segs), i);
  }

  lemma {:induction false} OneBio(bio: Bio)
    ensures Plan([bio]) == Place(bio.sector, bio.write, bio.segs)
  {
    assert [bio][1..] == [];
  }

  /** The next bio's segments fit. */
  lemma {:induction false} FitNext(m: Mem, req: seq<Bio>, i: nat)
    requires i < |req| && SegsFit(m, AllSegs(req[i..]))
    ensures SegsFit(m, req[i].segs)
  {
    assert req[i..][1..] == req[i + 1..];
    FitSplit(m, req[i].segs, AllSegs(req[i + 1..]));
  }

  /** So do the remaining ones, before and after it is served. */
  lemma {:induction false} FitRest(m: Mem, req: seq<Bio>, i: nat)
    requires i < |req| && SegsFit(m, AllSegs(req[i..]))
    ensures SegsFit(DoAll(m, Before(Place(req[i].sector, req[i].write, req[i].segs))), AllSegs(req[i + 1..]))
  {
    var mvs := Before(Place(req[i].sector, req[i].write, req[i].segs));
    assert req[i..][1..] == req[i + 1..];
    FitSplit(m, req[i].segs, AllSegs(req[i + 1..]));
    ShapeKept(m, mvs, |mvs|);
    SegsStillFit(m, DoAll(m, mvs), AllSegs(req[i + 1..]));
  }

  /** A bio is served behind those before it. */
  lemma {:induction false} ServeOne(m: Mem, pre: seq<Bio>, bio: Bio)
    requires Succeeds(pre)
    ensures var mvs := Place(bio.sector, bio.write, bio.segs);
            && Effect(m, pre + [bio]) == DoAll(Effect(m, pre), Before(mvs))
            && VerdictOn(Plan(pre + [bio])) == VerdictOn(mvs)
  {
    OneBio(bio);
    MergedIsPartsInOrder(m, pre, [bio]);
    PlanConcat(pre, [bio]);
    VerdictConcat(Plan(pre), Plan([bio]));
  }

  /** Nothing is served behind a bio that fails. */
  lemma {:induction false} NothingBehind(m: Mem, pre: seq<Bio>, post: seq<Bio>)
    requires !Succeeds(pre)
    ensures Effect(m, pre + post) == Effect(m, pre) && VerdictOn(Plan(pre + post)) == VerdictOn(Plan(pre))
  {
    MergedIsPartsInOrder(m, pre, post);
    PlanConcat(pre, post);
    VerdictConcat(Plan(pre), Plan(post));
  }

  /** A bio between others ends the request if it fails. */
  lemma {:induction false} ServeBetween(m: Mem, pre: seq<Bio>, bio: Bio, post: seq<Bio>)
    requires Succeeds(pre)
    ensures var mvs := Place(bio.sector, bio.write, bio.segs);
            && Effect(m, pre + [bio]) == DoAll(Effect(m, pre), Before(mvs))
            && (VerdictOn(mvs).Moved? <==> Succeeds(pre + [bio]))
            && (!VerdictOn(mvs).Moved? ==>
                  && VerdictOn(Plan(pre + [bio] + post)) == VerdictOn(mvs)
                  && Effect(m, pre + [bio] + post) == Effect(m, pre + [bio]))
  {
    ServeOne(m, pre, bio);
    VerdictIsExact(Plan(pre + [bio]));
    if !Succeeds(pre + [bio]) {
      NothingBehind(m, pre + [bio], post);
    }
  }

  lemma {:induction false} FitSplit(m: Mem, a: seq<Segment>, b: seq<Segment>)
    requires SegsFit(m, a + b)
    ensures SegsFit(m, a) && SegsFit(m, b)
  {
    assert forall i :: 0 <= i < |a| ==> a[i] == (a + b)[i];
    assert forall i :: 0 <= i < |b| ==> b[i] == (a + b)[|a| + i];
  }
}
