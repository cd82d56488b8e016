/** Requests that do not meet, on the disk or in memory, may be dispatched in any order. */
module BlockOrder {
  import opened Base
  import opened BlockIo
  import opened BlockCopies
  import opened BlockRequests

  predicate Independent(a: Move, b: Move) {
    && (a.pos + a.seg.len <= b.pos || b.pos + b.seg.len <= a.pos)
    && Apart(a.seg, b.seg)
  }

  ghost predicate IndependentLists(a: seq<Move>, b: seq<Move>) {
    forall i, j :: 0 <= i < |a| && 0 <= j < |b| ==> Independent(a[i], b[j])
  }

  lemma {:induction false} SplicesCommute(s: seq<byte>, i: nat, a: seq<byte>, j: nat, b: seq<byte>)
    requires i + |a| <= |s| && j + |b| <= |s| && (i + |a| <= j || j + |b| <= i)
    ensures Splice(Splice(s, i, a), j, b) == Splice(Splice(s, j, b), i, a)
    ensures Splice(s, i, a)[j..j + |b|] == s[j..j + |b|]
  {
  }

  lemma {:induction false} WriteWriteCommute(m: Mem, a: Move, b: Move)
    requires Fits(m, a) && Fits(m, b) && a.write && b.write && Independent(a, b)
    ensures Do(Do(m, a), b) == Do(Do(m, b), a)
  {
    SplicesCommute(m.disk, a.pos, Bytes(m, a.seg), b.pos, Bytes(m, b.seg));
  }

  lemma {:induction false} WriteReadCommute(m: Mem, a: Move, b: Move)
    requires Fits(m, a) && Fits(m, b) && a.write && !b.write && Independent(a, b)
    ensures Do(Do(m, a), b) == Do(Do(m, b), a)
  {
    BytesApart(m, b, a.seg);
    assert Splice(m.disk, a.pos, Bytes(m, a.seg))[b.pos..b.pos + b.seg.len] == m.disk[b.pos..b.pos + b.seg.len];
  }

  lemma {:induction false} ReadReadCommute(m: Mem, a: Move, b: Move)
    requires Fits(m, a) && Fits(m, b) && !a.write && !b.write && Independent(a, b)
    ensures Do(Do(m, a), b) == Do(Do(m, b), a)
  {
    if a.seg.page == b.seg.page {
      SplicesCommute(m.pages[a.seg.page], a.seg.off, m.disk[a.pos..a.pos + a.seg.len],
                     b.seg.off, m.disk[b.pos..b.pos + b.seg.len]);
    }
    assert Do(Do(m, a), b).pages == Do(Do(m, b), a).pages;
  }

  lemma {:induction false} DoCommute(m: Mem, a: Move, b: Move)
    requires Independent(a, b)
    ensures Do(Do(m, a), b) == Do(Do(m, b), a)
  {
    DoKeepsShape(m, a);
    DoKeepsShape(m, b);
    if Fits(m, a) && Fits(m, b) {
      if a.write && b.write {
        WriteWriteCommute(m, a, b);
      } else if a.write {
        WriteReadCommute(m, a, b);
      } else if b.write {
        WriteReadCommute(m, b, a);
      } else {
        ReadReadCommute(m, a, b);
      }
    }
  }

  lemma {:induction false} DoPast(m: Mem, mv: Move, mvs: seq<Move>, n: nat)
    requires n <= |mvs| && forall i :: 0 <= i < n ==> Independent(mvs[i], mv)
    ensures Do(DoN(m, mvs, n), mv) == DoN(Do(m, mv), mvs, n)
  {
    if n > 0 {
      DoPast(m, mv, mvs, n - 1);
      DoCommute(DoN(m, mvs, n - 1), mvs[n - 1], mv);
    }
  }

  lemma {:induction false} ListsCommute(m: Mem, a: seq<Move>, b: seq<Move>, n: nat)
    requires IndependentLists(a, b) && n <= |b|
    ensures DoN(DoAll(m, a), b, n) == DoAll(DoN(m, b, n), a)
  {
    if n > 0 {
      ListsCommute(m, a, b, n - 1);
      DoPast(DoN(m, b, n - 1), b[n - 1], a, |a|);
    }
  }

  /** Two requests whose sectors are disjoint and whose segments are disjoint in memory. */
  ghost predicate Disjoint(a: seq<Bio>, b: seq<Bio>) {
    IndependentLists(Plan(a), Plan(b))
  }

  /** Disjoint requests commute, whether they succeed or fail. */
  lemma {:induction false} RequestsCommute(m: Mem, a: seq<Bio>, b: seq<Bio>)
    requires Disjoint(a, b)
    ensures Effect(Effect(m, a), b) == Effect(Effect(m, b), a)
  {
    BeforeIsExact(Plan(a));
    BeforeIsExact(Plan(b));
    ListsCommute(m, Before(Plan(a)), Before(Plan(b)), |Before(Plan(b))|);
  }

  function Serve(m: Mem, reqs: seq<seq<Bio>>): Mem
    decreases |reqs|
  {
    if reqs == [] then m else Serve(Effect(m, reqs[0]), reqs[1..])
  }

  /** No two of the requests meet. */
  ghost predicate PairwiseDisjoint(reqs: multiset<seq<Bio>>) {
    && (forall a, b :: a in reqs && b in reqs && a != b ==> Disjoint(a, b))
    && (forall a :: a in reqs && reqs[a] >= 2 ==> Disjoint(a, a))
  }

  lemma {:induction false} ServeFirst(m: Mem, pre: seq<seq<Bio>>, r: seq<Bio>, post: seq<seq<Bio>>)
    requires forall i :: 0 <= i < |pre| ==> Disjoint(pre[i], r)
    ensures Serve(m, pre + [r] + post) == Serve(m, [r] + (pre + post))
    decreases |pre|
  {
    if pre == [] {
      assert pre + [r] + post == [r] + (pre + post);
    } else {
      var p, rest := pre[0], pre[1..];
      assert (pre + [r] + post)[1..] == rest + [r] + post;
      ServeFirst(Effect(m, p), rest, r, post);
      RequestsCommute(m, p, r);
      assert ([r] + (rest + post))[1..] == rest + post;
      assert ([r] + (pre + post))[1..] == pre + post && (pre + post)[1..] == rest + post;
    }
  }

  lemma {:induction false} WithoutOne<T>(pre: seq<T>, r: T, post: seq<T>)
    ensures multiset(pre + [r] + post) == multiset(pre + post) + multiset{r}
  {
  }

  lemma {:induction false} Cancel<T>(a: multiset<T>, b: multiset<T>, r: T)
    requires a + multiset{r} == b + multiset{r}
    ensures a == b
  {
    forall x: T
      ensures a[x] == b[x]
    {
      assert (a + multiset{r})[x] == (b + multiset{r})[x];
    }
  }

  lemma {:induction false} FirstAndRest<T>(xs: seq<T>)
    requires xs != []
    ensures xs[0] in multiset(xs) && multiset(xs) == multiset(xs[1..]) + multiset{xs[0]}
  {
    assert xs == [] + [xs[0]] + xs[1..] && [] + xs[1..] == xs[1..];
    WithoutOne([], xs[0], xs[1..]);
  }

  lemma {:induction false} SplitAt<T>(ys: seq<T>, j: nat)
    requires j < |ys|
    ensures ys == ys[..j] + [ys[j]] + ys[j + 1..]
    ensures multiset(ys) == multiset(ys[..j] + ys[j + 1..]) + multiset{ys[j]}
  {
    assert ys == ys[..j] + [ys[j]] + ys[j + 1..];
    WithoutOne(ys[..j], ys[j], ys[j + 1..]);
  }

  /** Where the first of `xs` stands in another order of them. */
  lemma {:induction false} FindIn<T>(xs: seq<T>, ys: seq<T>) returns (pre: seq<T>, post: seq<T>)
    requires xs != [] && multiset(xs) == multiset(ys)
    ensures ys == pre + [xs[0]] + post && multiset(pre + post) == multiset(xs[1..])
    ensures multiset(xs) == multiset(xs[1..]) + multiset{xs[0]}
  {
    FirstAndRest(xs);
    var j := IndexOf(ys, xs[0]);
    pre, post := ys[..j], ys[j + 1..];
    SplitAt(ys, j);
    Cancel(multiset(pre + post), multiset(xs[1..]), xs[0]);
  }

  lemma {:induction false} IndexOf<T>(ys: seq<T>, r: T) returns (j: nat)
    requires r in multiset(ys)
    ensures j < |ys| && ys[j] == r
  {
    assert r in ys;
    j :| j < |ys| && ys[j] == r;
  }

  /** Fewer requests meet no more than more do, and what is left meets none of those taken out. */
  lemma {:induction false} FewerDisjoint(reqs: multiset<seq<Bio>>, fewer: multiset<seq<Bio>>, r: seq<Bio>)
    requires PairwiseDisjoint(reqs) && reqs == fewer + multiset{r}
    ensures PairwiseDisjoint(fewer)
    ensures forall p :: p in fewer ==> Disjoint(p, r)
  {
    forall p | p in fewer
      ensures Disjoint(p, r)
    {
      assert p in reqs && r in reqs;
      if p == r {
        assert reqs[r] >= 2;
      }
    }
  }

  /** Any two dispatch orders of pairwise disjoint requests leave the same disk and the same pages. */
  lemma {:induction false} OrderIrrelevant(m: Mem, xs: seq<seq<Bio>>, ys: seq<seq<Bio>>)
    requires multiset(xs) == multiset(ys) && PairwiseDisjoint(multiset(xs))
    ensures Serve(m, xs) == Serve(m, ys)
    decreases |xs|
  {
    if xs == [] {
      assert |ys| == |multiset(ys)| == 0;
    } else {
      var r, rest := xs[0], xs[1..];
      var pre, post := FindIn(xs, ys);
      FewerDisjoint(multiset(xs), multiset(rest), r);
      assert forall i :: 0 <= i < |pre| ==> pre[i] in multiset(pre + post);
      ServeFirst(m, pre, r, post);
      assert ([r] + (pre + post))[1..] == pre + post;
      OrderIrrelevant(Effect(m, r), rest, pre + post);
    }
  }
}
