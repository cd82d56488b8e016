/** Among pairwise disjoint requests, each has its own effect, wherever in the order it is dispatched. */
module BlockService {
  import opened Base
  import opened BlockIo
  import opened BlockCopies
  import opened BlockRequests
  import opened BlockOrder

  /** The disk's part of a copy and the page's part are in `m'` as in `m`. */
  predicate SameEnds(m: Mem, m': Mem, mv: Move)
    requires SameShape(m, m') && Fits(m, mv)
  {
    Bytes(m', mv.seg) == Bytes(m, mv.seg) && m'.disk[mv.pos..mv.pos + mv.seg.len] == m.disk[mv.pos..mv.pos + mv.seg.len]
  }

  /** A copy leaves alone what another, independent one reads and writes. */
  lemma {:induction false} OtherEnds(m: Mem, a: Move, b: Move)
    requires Fits(m, b) && Independent(a, b)
    ensures SameShape(m, Do(m, a)) && SameEnds(m, Do(m, a), b)
  {
    DoKeepsShape(m, a);
  }

  lemma {:induction false} OtherEndsN(m: Mem, mvs: seq<Move>, n: nat, b: Move)
    requires n <= |mvs| && Fits(m, b) && forall i :: 0 <= i < n ==> Independent(mvs[i], b)
    ensures SameShape(m, DoN(m, mvs, n)) && SameEnds(m, DoN(m, mvs, n), b)
  {
    ShapeKept(m, mvs, n);
    if n > 0 {
      OtherEndsN(m, mvs, n - 1, b);
      OtherEnds(DoN(m, mvs, n - 1), mvs[n - 1], b);
    }
  }

  /** What a request needs and makes is in `m'` as in `m`. */
  ghost predicate Untouched(m: Mem, m': Mem, mvs: seq<Move>) {
    && SameShape(m, m')
    && forall j :: 0 <= j < |mvs| && Fits(m, mvs[j]) ==> SameEnds(m, m', mvs[j])
  }

  lemma {:induction false} OtherRequest(m: Mem, a: seq<Bio>, b: seq<Bio>)
    requires Disjoint(a, b)
    ensures Untouched(m, Effect(m, a), Plan(b))
  {
    var mvs := Before(Plan(a));
    BeforeIsExact(Plan(a));
    ShapeKept(m, mvs, |mvs|);
    forall j | 0 <= j < |Plan(b)| && Fits(m, Plan(b)[j])
      ensures SameEnds(m, Effect(m, a), Plan(b)[j])
    {
      OtherEndsN(m, mvs, |mvs|, Plan(b)[j]);
    }
  }

  lemma {:induction false} UntouchedTwice(m: Mem, m1: Mem, m2: Mem, mvs: seq<Move>)
    requires Untouched(m, m1, mvs) && Untouched(m1, m2, mvs)
    ensures Untouched(m, m2, mvs)
  {
  }

  lemma {:induction false} OtherRequests(m: Mem, reqs: seq<seq<Bio>>, b: seq<Bio>)
    requires forall i :: 0 <= i < |reqs| ==> Disjoint(reqs[i], b)
    ensures Untouched(m, Serve(m, reqs), Plan(b))
    decreases |reqs|
  {
    if reqs != [] {
      OtherRequest(m, reqs[0], b);
      OtherRequests(Effect(m, reqs[0]), reqs[1..], b);
      UntouchedTwice(m, Effect(m, reqs[0]), Serve(m, reqs), Plan(b));
    }
  }

  // ---------- what that means for a contiguous request ----------

  /** The bytes of the disk that a request covers. */
  function OnDiskOf(m: Mem, req: seq<Bio>): seq<byte>
    requires req != [] && Start(req) + Length(AllSegs(req)) <= |m.disk|
  {
    m.disk[Start(req)..Start(req) + Length(AllSegs(req))]
  }

  lemma {:induction false} DiskSame(m: Mem, m': Mem, start: nat, segs: seq<Segment>, n: nat)
    requires SameShape(m, m') && n <= |segs| && start + Total(segs, n) <= |m.disk|
    requires forall i :: 0 <= i < n ==> DiskSameAt(m, m', start, segs, i)
    ensures m'.disk[start..start + Total(segs, n)] == m.disk[start..start + Total(segs, n)]
  {
    if n > 0 {
      DiskSame(m, m', start, segs, n - 1);
      assert DiskSameAt(m, m', start, segs, n - 1);
      JoinSlices(m.disk, start, start + Total(segs, n - 1), start + Total(segs, n));
      JoinSlices(m'.disk, start, start + Total(segs, n - 1), start + Total(segs, n));
    }
  }

  predicate DiskSameAt(m: Mem, m': Mem, start: nat, segs: seq<Segment>, i: nat)
    requires SameShape(m, m') && i < |segs|
  {
    var from, to := start + Total(segs, i), start + Total(segs, i) + segs[i].len;
    to <= |m.disk| ==> m'.disk[from..to] == m.disk[from..to]
  }

  /** The request is in range, and its segments are in memory. */
  predicate Servable(m: Mem, req: seq<Bio>) {
    && Contiguous(req) && req != []
    && Start(req) + Length(AllSegs(req)) <= CAPACITY == |m.disk|
    && SegsFit(m, AllSegs(req)) && (req[0].write || AllApart(AllSegs(req)))
  }

  lemma {:induction false} EndsAt(m: Mem, m': Mem, req: seq<Bio>, i: nat)
    requires Servable(m, req) && Untouched(m, m', Plan(req)) && i < |AllSegs(req)|
    ensures SegsFit(m', AllSegs(req))
    ensures Bytes(m', AllSegs(req)[i]) == Bytes(m, AllSegs(req)[i])
    ensures DiskSameAt(m, m', Start(req), AllSegs(req), i)
  {
    var segs := AllSegs(req);
    DivisionIntoBiosIrrelevant(req);
    TotalGrows(segs, i + 1, |segs|);
    SegsStillFit(m, m', segs);
    assert Plan(req)[i] == Move(req[0].write, Start(req) + Total(segs, i), segs[i]);
    assert Fits(m, Plan(req)[i]);
  }

  lemma {:induction false} UntouchedMeans(m: Mem, m': Mem, req: seq<Bio>)
    requires Servable(m, req) && Untouched(m, m', Plan(req))
    ensures Servable(m', req)
    ensures GatherAll(m', AllSegs(req)) == GatherAll(m, AllSegs(req))
    ensures OnDiskOf(m', req) == OnDiskOf(m, req)
  {
    var segs := AllSegs(req);
    SegsStillFit(m, m', segs);
    forall i | 0 <= i < |segs|
      ensures Bytes(m', segs[i]) == Bytes(m, segs[i]) && DiskSameAt(m, m', Start(req), segs, i)
    {
      EndsAt(m, m', req, i);
    }
    GatherSame(m, m', segs, |segs|);
    DiskSame(m, m', Start(req), segs, |segs|);
  }

  /** The request has had its effect between `m` and `m'`: a write's bytes are on the disk, a read's segments
      hold the disk's bytes. */
  predicate Served(m: Mem, m': Mem, req: seq<Bio>)
    requires Servable(m, req)
  {
    && Servable(m', req)
    && if req[0].write then OnDiskOf(m', req) == GatherAll(m, AllSegs(req))
       else GatherAll(m', AllSegs(req)) == OnDiskOf(m, req)
  }

  lemma {:induction false} EffectServes(m: Mem, req: seq<Bio>)
    requires Servable(m, req)
    ensures Served(m, Effect(m, req), req)
  {
    RequestIsOneCopy(m, req);
    ShapeKept(m, Before(Plan(req)), |Before(Plan(req))|);
    SegsStillFit(m, Effect(m, req), AllSegs(req));
    if req[0].write {
      SpliceBack(m.disk, Start(req), GatherAll(m, AllSegs(req)));
    }
  }

  lemma {:induction false} ServeConcat(m: Mem, a: seq<seq<Bio>>, b: seq<seq<Bio>>)
    ensures Serve(m, a + b) == Serve(Serve(m, a), b)
    decreases |a|
  {
    if a == [] {
      assert a + b == b;
    } else {
      assert (a + b)[1..] == a[1..] + b;
      ServeConcat(Effect(m, a[0]), a[1..], b);
    }
  }

  lemma {:induction false} ServeOne(m: Mem, req: seq<Bio>)
    ensures Serve(m, [req]) == Effect(m, req)
  {
    assert [req][1..] == [];
  }

  lemma {:induction false} ServedBetween(m: Mem, pre: seq<seq<Bio>>, req: seq<Bio>, post: seq<seq<Bio>>)
    requires Servable(m, req)
    requires forall i :: 0 <= i < |pre| ==> Disjoint(pre[i], req)
    requires forall i :: 0 <= i < |post| ==> Disjoint(post[i], req)
    ensures Served(m, Serve(m, pre + [req] + post), req)
  {
    var m1 := Serve(m, pre);
    var m2 := Effect(m1, req);
    ServeConcat(m, pre + [req], post);
    ServeConcat(m, pre, [req]);
    ServeOne(m1, req);
    OtherRequests(m, pre, req);
    UntouchedMeans(m, m1, req);
    EffectServes(m1, req);
    OtherRequests(m2, post, req);
    UntouchedMeans(m2, Serve(m2, post), req);
  }

  lemma {:induction false} TwiceIn<T>(s: seq<T>, i: nat, j: nat)
    requires i < j < |s| && s[i] == s[j]
    ensures multiset(s)[s[i]] >= 2
  {
    SplitAt(s, j);
    assert (s[..j] + s[j + 1..])[i] == s[i];
    assert s[i] in multiset(s[..j] + s[j + 1..]);
  }

  lemma {:induction false} OthersDisjoint(reqs: seq<seq<Bio>>, i: nat, j: nat)
    requires i < |reqs| && j < |reqs| && i != j && PairwiseDisjoint(multiset(reqs))
    ensures Disjoint(reqs[j], reqs[i])
  {
    assert reqs[i] in multiset(reqs) && reqs[j] in multiset(reqs);
    if reqs[i] == reqs[j] {
      TwiceIn(reqs, if i < j then i else j, if i < j then j else i);
    }
  }

  /** Every in-range request of a pairwise disjoint list has its own effect when all have been served: what a write
      had in its segments at first is on the disk, and a read's segments hold what the disk had at first. */
  lemma {:induction false} EachIsServed(m: Mem, reqs: seq<seq<Bio>>, i: nat)
    requires i < |reqs| && PairwiseDisjoint(multiset(reqs)) && Servable(m, reqs[i])
    ensures Served(m, Serve(m, reqs), reqs[i])
  {
    var pre, post := reqs[..i], reqs[i + 1..];
    assert reqs == pre + [reqs[i]] + post;
    forall j | 0 <= j < |pre|
      ensures Disjoint(pre[j], reqs[i])
    {
      OthersDisjoint(reqs, i, j);
    }
    forall j | 0 <= j < |post|
      ensures Disjoint(post[j], reqs[i])
    {
      OthersDisjoint(reqs, i, i + 1 + j);
    }
    ServedBetween(m, pre, reqs[i], post);
  }

  // ---------- which requests are disjoint ----------

  /** The requests' stretches of the disk do not meet. */
  predicate RangesApart(a: seq<Bio>, b: seq<Bio>)
    requires a != [] && b != []
  {
    Start(a) + Length(AllSegs(a)) <= Start(b) || Start(b) + Length(AllSegs(b)) <= Start(a)
  }

  lemma {:induction false} PlacedWithin(m: Mem, req: seq<Bio>, i: nat)
    requires Servable(m, req) && i < |Plan(req)|
    ensures i < |AllSegs(req)| && Plan(req)[i].seg == AllSegs(req)[i]
    ensures Start(req) <= Plan(req)[i].pos
    ensures Plan(req)[i].pos + Plan(req)[i].seg.len <= Start(req) + Length(AllSegs(req))
  {
    DivisionIntoBiosIrrelevant(req);
    TotalGrows(AllSegs(req), i + 1, |AllSegs(req)|);
    assert Plan(req)[i] == MoveFrom(Start(req), req[0].write, AllSegs(req), i);
  }

  /** In-range requests over disjoint sector ranges, with their segments apart, are disjoint. */
  lemma {:induction false} DisjointByRange(m: Mem, a: seq<Bio>, b: seq<Bio>)
    requires Servable(m, a) && Servable(m, b) && RangesApart(a, b)
    requires forall i, j :: 0 <= i < |AllSegs(a)| && 0 <= j < |AllSegs(b)| ==> Apart(AllSegs(a)[i], AllSegs(b)[j])
    ensures Disjoint(a, b)
  {
    forall i, j | 0 <= i < |Plan(a)| && 0 <= j < |Plan(b)|
      ensures Independent(Plan(a)[i], Plan(b)[j])
    {
      PlacedWithin(m, a, i);
      PlacedWithin(m, b, j);
    }
  }
}
