/** The meaning of block requests on values: a disk and the pages of memory that requests name. */
module BlockIo {
  import opened Base

  /** NSECTORS * KERNEL_SECTOR_SIZE: 32 * 1024 sectors of 512 bytes. */
  const CAPACITY: nat := 1024 * 32 * 512

  datatype Mem = Mem(disk: seq<byte>, pages: seq<seq<byte>>)

  /** A bio_vec: `len` bytes of a page from `off` on. */
  datatype Segment = Segment(page: nat, off: nat, len: nat)

  /** sector_t: unsigned, 64 bits. */
  type Sector = s: nat | s < TWO64

  datatype Bio = Bio(sector: Sector, write: bool, segs: seq<Segment>)

  /** One memcpy between the disk at `pos` and a segment. */
  datatype Move = Move(write: bool, pos: nat, seg: Segment)

  predicate InRange(mv: Move) {
    mv.pos + mv.seg.len <= CAPACITY
  }

  /** The driver's bounds check of a segment at `sector`, in its 64-bit arithmetic. */
  predicate CheckPasses(sector: Sector, len: nat) {
    Wrap(Wrap(sector * 512) + len) <= CAPACITY
  }

  predicate SegFits(m: Mem, seg: Segment) {
    seg.page < |m.pages| && seg.off + seg.len <= |m.pages[seg.page]|
  }

  predicate Fits(m: Mem, mv: Move) {
    SegFits(m, mv.seg) && mv.pos + mv.seg.len <= |m.disk|
  }

  predicate SameShape(m: Mem, m': Mem) {
    && |m'.disk| == |m.disk| && |m'.pages| == |m.pages|
    && forall p :: 0 <= p < |m.pages| ==> |m'.pages[p]| == |m.pages[p]|
  }

  function Bytes(m: Mem, seg: Segment): (b: seq<byte>)
    requires SegFits(m, seg)
    ensures |b| == seg.len
  {
    m.pages[seg.page][seg.off..seg.off + seg.len]
  }

  /** The copy; one that does not fit the memory has no meaning here and does nothing. */
  function Do(m: Mem, mv: Move): Mem {
    if !Fits(m, mv) then m
    else if mv.write then m.(disk := Splice(m.disk, mv.pos, Bytes(m, mv.seg)))
    else
      var page := Splice(m.pages[mv.seg.page], mv.seg.off, m.disk[mv.pos..mv.pos + mv.seg.len]);
      m.(pages := m.pages[mv.seg.page := page])
  }

  /** The first `n` copies, one after another. */
  function DoN(m: Mem, mvs: seq<Move>, n: nat): Mem
    requires n <= |mvs|
  {
    if n == 0 then m else Do(DoN(m, mvs, n - 1), mvs[n - 1])
  }

  function DoAll(m: Mem, mvs: seq<Move>): Mem {
    DoN(m, mvs, |mvs|)
  }

  lemma {:induction false} DoKeepsShape(m: Mem, mv: Move)
    ensures SameShape(m, Do(m, mv))
  {
  }

  lemma {:induction false} ShapeKept(m: Mem, mvs: seq<Move>, n: nat)
    requires n <= |mvs|
    ensures SameShape(m, DoN(m, mvs, n))
  {
    if n > 0 {
      ShapeKept(m, mvs, n - 1);
      DoKeepsShape(DoN(m, mvs, n - 1), mvs[n - 1]);
    }
  }

  // ---------- what the driver makes of a request ----------

  /** The sector cursor of a bio before its segment `n`: it advances by len / 512. */
  function Cursor(sector: nat, segs: seq<Segment>, n: nat): nat
    requires n <= |segs|
  {
    if n == 0 then sector else Cursor(sector, segs, n - 1) + segs[n - 1].len / 512
  }

  /** The copy of segment `i` of a bio: `sector * 512` is computed in 64 bits. */
  function MoveAt(sector: nat, write: bool, segs: seq<Segment>, i: nat): Move
    requires i < |segs|
  {
    Move(write, Wrap(Cursor(sector, segs, i) * 512), segs[i])
  }

  /** The copies of one bio. */
  function Place(sector: nat, write: bool, segs: seq<Segment>): (mvs: seq<Move>)
    ensures |mvs| == |segs|
    ensures forall i {:trigger mvs[i]} :: 0 <= i < |segs| ==> mvs[i] == MoveAt(sector, write, segs, i)
  {
    seq(|segs|, i requires 0 <= i < |segs| => MoveAt(sector, write, segs, i))
  }

  /** The copies of a request, bio after bio, each from its own first sector. */
  function Plan(req: seq<Bio>): seq<Move> {
    if req == [] then [] else Place(req[0].sector, req[0].write, req[0].segs) + Plan(req[1..])
  }

  /** The end of the copy wraps around at 64 bits to a position on the disk. */
  predicate WrapsOntoDisk(mv: Move) {
    mv.pos + mv.seg.len >= TWO64 && Wrap(mv.pos + mv.seg.len) <= CAPACITY
  }

  /** The check passes exactly for segments that end on the disk, and for those whose end wraps around
      onto it. */
  lemma {:induction false} CheckIsExact(sector: Sector, write: bool, seg: Segment)
    ensures var mv := Move(write, sector * 512, seg);
            && (CheckPasses(sector, seg.len) <==> InRange(mv) || WrapsOntoDisk(mv))
            && ((CheckPasses(sector, seg.len) <==> InRange(mv)) <==> !WrapsOntoDisk(mv))
  {
    WrapTwice(sector * 512, seg.len);
  }

  /** Where a segment that passes is copied: on the disk, unless the sum in the check has itself wrapped. */
  lemma {:induction false} PassedIsOnDisk(sector: Sector, write: bool, seg: Segment)
    ensures var mv := Move(write, Wrap(sector * 512), seg);
            && (CheckPasses(sector, seg.len) <==> InRange(mv) || WrapsOntoDisk(mv))
            && (CheckPasses(sector, seg.len) && mv.pos + seg.len < TWO64 ==> InRange(mv))
  {
  }

  /** Such segments exist: one of one sector at sector 2^55 passes, and is copied to sector 0. */
  lemma {:induction false} CheckCanBeWrong(seg: Segment)
    requires seg.len == 512
    ensures exists sector: Sector ::
              && CheckPasses(sector, seg.len) && !InRange(Move(true, sector * 512, seg))
              && Place(sector, true, [seg]) == [Move(true, 0, seg)]
  {
    var sector: Sector := 0x80_0000_0000_0000;
    assert Cursor(sector, [seg], 0) == sector;
    assert Place(sector, true, [seg]) == [Move(true, 0, seg)];
    assert CheckPasses(sector, seg.len) && !InRange(Move(true, sector * 512, seg));
  }

  predicate AllInRange(mvs: seq<Move>) {
    forall i :: 0 <= i < |mvs| ==> InRange(mvs[i])
  }

  predicate InRangeUpTo(mvs: seq<Move>, n: nat)
    requires n <= |mvs|
  {
    forall i :: 0 <= i < n ==> InRange(mvs[i])
  }

  lemma {:induction false} OneMoreInRange(mvs: seq<Move>, n: nat)
    requires n < |mvs| && InRangeUpTo(mvs, n) && InRange(mvs[n])
    ensures InRangeUpTo(mvs, n + 1)
  {
  }

  /** How the driver leaves off: everything moved; a segment refused; or a segment that is not on the disk,
      but that the check has let through because its sum wrapped. */
  datatype Verdict = Moved | Refused | Overlooked

  /** What the check makes of a segment past the end. */
  function PastEnd(mv: Move): Verdict {
    if WrapsOntoDisk(mv) then Overlooked else Refused
  }

  /** The verdict on the first copy that would pass the end of the disk. */
  function VerdictOn(mvs: seq<Move>): Verdict {
    if mvs == [] then Moved else if InRange(mvs[0]) then VerdictOn(mvs[1..]) else PastEnd(mvs[0])
  }

  /** The copies before the first that would pass the end of the disk. */
  function Before(mvs: seq<Move>): seq<Move> {
    if mvs == [] || !InRange(mvs[0]) then [] else [mvs[0]] + Before(mvs[1..])
  }

  // ---------- the division into segments and bios does not matter ----------

  /** The length of the first `n` segments. */
  function Total(segs: seq<Segment>, n: nat): nat
    requires n <= |segs|
  {
    if n == 0 then 0 else Total(segs, n - 1) + segs[n - 1].len
  }

  function Length(segs: seq<Segment>): nat {
    Total(segs, |segs|)
  }

  /** What the block layer guarantees of a segment: a positive multiple of the sector size. */
  predicate WholeSectors(segs: seq<Segment>) {
    forall i :: 0 <= i < |segs| ==> segs[i].len > 0 && segs[i].len % 512 == 0
  }

  /** The copy of segment `i`, placed by the bytes done so far, in 64 bits. */
  function MoveFrom(start: nat, write: bool, segs: seq<Segment>, i: nat): Move
    requires i < |segs|
  {
    Move(write, Wrap(start + Total(segs, i)), segs[i])
  }

  function PlaceFrom(start: nat, write: bool, segs: seq<Segment>): (mvs: seq<Move>)
    ensures |mvs| == |segs|
    ensures forall i {:trigger mvs[i]} :: 0 <= i < |segs| ==> mvs[i] == MoveFrom(start, write, segs, i)
  {
    seq(|segs|, i requires 0 <= i < |segs| => MoveFrom(start, write, segs, i))
  }

  lemma {:induction false} CursorAdvance(sector: nat, segs: seq<Segment>, n: nat)
    requires WholeSectors(segs) && n <= |segs|
    ensures Cursor(sector, segs, n) * 512 == sector * 512 + Total(segs, n)
  {
    if n > 0 {
      CursorAdvance(sector, segs, n - 1);
      assert segs[n - 1].len % 512 == 0;
    }
  }

  /** The sector cursor is exact: with whole sectors, every copy goes to the first sector plus the bytes
      done so far. */
  lemma {:induction false} CursorIsExact(sector: nat, write: bool, segs: seq<Segment>)
    requires WholeSectors(segs)
    ensures Place(sector, write, segs) == PlaceFrom(sector * 512, write, segs)
  {
    forall i | 0 <= i < |segs|
      ensures Cursor(sector, segs, i) * 512 == sector * 512 + Total(segs, i)
    {
      CursorAdvance(sector, segs, i);
    }
  }

  lemma {:induction false} TotalConcat(a: seq<Segment>, b: seq<Segment>, n: nat)
    requires n <= |a + b|
    ensures Total(a + b, n) == if n <= |a| then Total(a, n) else Length(a) + Total(b, n - |a|)
  {
    if n > 0 {
      TotalConcat(a, b, n - 1);
    }
  }

  /** Segments `b` behind segments `a` are placed where `a` ends. */
  lemma {:induction false} PlaceConcat(start: nat, write: bool, a: seq<Segment>, b: seq<Segment>)
    ensures PlaceFrom(start, write, a + b) == PlaceFrom(start, write, a) + PlaceFrom(start + Length(a), write, b)
  {
    forall n | 0 <= n <= |a + b|
      ensures Total(a + b, n) == if n <= |a| then Total(a, n) else Length(a) + Total(b, n - |a|)
    {
      TotalConcat(a, b, n);
    }
  }

  function AllSegs(req: seq<Bio>): seq<Segment> {
    if req == [] then [] else req[0].segs + AllSegs(req[1..])
  }

  /** What the block layer guarantees of a request: one direction, whole sectors, and each bio starts
      where the previous one ends. */
  predicate Contiguous(req: seq<Bio>) {
    req == [] ||
    (&& WholeSectors(req[0].segs)
     && Contiguous(req[1..])
     && (|req| > 1 ==>
           && req[1].write == req[0].write
           && req[1].sector * 512 == req[0].sector * 512 + Length(req[0].segs)))
  }

  /** A bio, and segments placed where it ends. */
  lemma {:induction false} JoinBio(bio: Bio, rest: seq<Segment>)
    requires WholeSectors(bio.segs)
    ensures Place(bio.sector, bio.write, bio.segs) +
            PlaceFrom(bio.sector * 512 + Length(bio.segs), bio.write, rest) ==
            PlaceFrom(bio.sector * 512, bio.write, bio.segs + rest)
  {
    CursorIsExact(bio.sector, bio.write, bio.segs);
    PlaceConcat(bio.sector * 512, bio.write, bio.segs, rest);
  }

  lemma {:induction false} AllWholeSectors(req: seq<Bio>)
    requires Contiguous(req)
    ensures WholeSectors(AllSegs(req))
  {
    if req != [] {
      AllWholeSectors(req[1..]);
    }
  }

  /** The copies of a request that starts at `start`, in the direction `write`, are those of its segments. */
  predicate PlannedFrom(req: seq<Bio>, start: nat, write: bool) {
    Plan(req) == PlaceFrom(start, write, AllSegs(req))
  }

  /** A bio in front of a request that starts where the bio ends. */
  lemma {:induction false} PlanBioFirst(req: seq<Bio>)
    requires req != [] && WholeSectors(req[0].segs)
    requires PlannedFrom(req[1..], req[0].sector * 512 + Length(req[0].segs), req[0].write)
    ensures PlannedFrom(req, req[0].sector * 512, req[0].write)
  {
    JoinBio(req[0], AllSegs(req[1..]));
  }

  /** However a request is divided into bios, its copies are those of one bio with all its segments. */
  lemma {:induction false} DivisionIntoBiosIrrelevant(req: seq<Bio>)
    requires Contiguous(req) && req != []
    ensures WholeSectors(AllSegs(req))
    ensures PlannedFrom(req, req[0].sector * 512, req[0].write)
  {
    AllWholeSectors(req);
    if |req| > 1 {
      DivisionIntoBiosIrrelevant(req[1..]);
    }
    PlanBioFirst(req);
  }
}
