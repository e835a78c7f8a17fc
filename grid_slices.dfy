/** Per-thread grid slices laid end to end, and their element-wise sum.

    `gridKernel_scatter_full` gives thread `tno` the slice
    `tmpgrids[tno * siz .. (tno + 1) * siz)`, and `addGrids` then stores
    `srcs[i] + srcs[siz + i] + ... + srcs[(nthreads - 1) * siz + i]` in
    `dst[i]`. */
module GridSlices {
  import opened Complex
  import opened Common
  import opened Accumulate
  import opened Reduction

  /** What `addGrids` stores in `dst[i]`: the sum starts from slice 0 and
      adds slices `1 .. n - 1` in order. */
  function SliceSum(srcs: seq<Complex>, siz: int, n: int, i: int): Complex
    requires 1 <= n && 0 <= i < siz && n * siz <= |srcs|
  {
    CellBound(n - 1, i, n, siz);
    if n == 1 then srcs[i]
    else
      CellBound(n - 2, i, n - 1, siz);
      Add(SliceSum(srcs, siz, n - 1, i), srcs[(n - 1) * siz + i])
  }

  /** The slice thread `t` leaves behind: cell `j` holds what the thread's
      baselines deposit there. */
  function ThreadGrid(bs: seq<seq<Deposit>>, owner: seq<int>, t: int, siz: nat): (g: seq<Complex>)
    requires |owner| == |bs|
    ensures |g| == siz
  {
    Sums(Owned(bs, owner, t, |bs|), siz)
  }

  /** The slices of threads `t < n`, end to end. */
  function ThreadGrids(bs: seq<seq<Deposit>>, owner: seq<int>, siz: nat, n: nat): seq<Complex>
    requires |owner| == |bs|
  {
    if n == 0 then [] else ThreadGrids(bs, owner, siz, n - 1) + ThreadGrid(bs, owner, n - 1, siz)
  }

  lemma {:induction false} ThreadGridsLength(bs: seq<seq<Deposit>>, owner: seq<int>, siz: nat, n: nat)
    requires |owner| == |bs|
    ensures |ThreadGrids(bs, owner, siz, n)| == n * siz
  {
    if n > 0 {
      ThreadGridsLength(bs, owner, siz, n - 1);
      MulAddRight(siz, n - 1, 1);
      assert n * siz == (n - 1) * siz + siz;
    }
  }

  /** `SliceSum` over `n` slices reads nothing past the first `n` slices. */
  lemma {:induction false} SliceSumPrefix(b: seq<Complex>, c: seq<Complex>, siz: int, n: int, i: int)
    requires 1 <= n && 0 <= i < siz && n * siz <= |b|
    ensures SliceSum(b + c, siz, n, i) == SliceSum(b, siz, n, i)
  {
    CellBound(n - 1, i, n, siz);
    if n > 1 {
      CellBound(n - 2, i, n - 1, siz);
      SliceSumPrefix(b, c, siz, n - 1, i);
    }
  }

  /** One more slice adds its cell `i` to the sum. */
  lemma SliceSumSnoc(prev: seq<Complex>, last: seq<Complex>, siz: int, n: int, i: int)
    requires 2 <= n && 0 <= i < siz && |prev| == (n - 1) * siz && |last| == siz
    ensures n * siz == |prev + last|
    ensures SliceSum(prev + last, siz, n, i) == Add(SliceSum(prev, siz, n - 1, i), last[i])
  {
    MulAddRight(siz, n - 1, 1);
    assert n * siz == (n - 1) * siz + siz;
    CellBound(n - 2, i, n - 1, siz);
    SliceSumPrefix(prev, last, siz, n - 1, i);
    assert (prev + last)[(n - 1) * siz + i] == last[i];
  }

  lemma {:induction false} SliceSumOne(g: seq<Complex>, siz: int, i: int)
    requires 0 <= i < siz && |g| == siz
    ensures SliceSum(g, siz, 1, i) == g[i]
  {
  }

  /** With one thread, the slices are that thread's slice and the thread
      sum is its own sum. */
  lemma SliceSumThreadsOne(bs: seq<seq<Deposit>>, owner: seq<int>, siz: nat, n: int, i: int)
    requires |owner| == |bs| && n == 1 && 0 <= i < siz
    ensures |ThreadGrids(bs, owner, siz, n)| == n * siz
            && SliceSum(ThreadGrids(bs, owner, siz, n), siz, n, i) == ThreadSum(bs, owner, n, |bs|, i)
  {
    var last := ThreadGrid(bs, owner, 0, siz);
    var own := SumAt(Owned(bs, owner, 0, |bs|), i);
    assert ThreadGrids(bs, owner, siz, 1) == [] + last == last;
    SumsAt(Owned(bs, owner, 0, |bs|), siz, i);
    SliceSumOne(last, siz, i);
    ZeroAdd(own);
  }

  /** Adding thread `n - 1`'s slice adds its own sum. */
  lemma SliceSumThreadsStep(bs: seq<seq<Deposit>>, owner: seq<int>, siz: nat, n: int, i: int)
    requires |owner| == |bs| && 2 <= n && 0 <= i < siz
    requires |ThreadGrids(bs, owner, siz, n - 1)| == (n - 1) * siz
    requires SliceSum(ThreadGrids(bs, owner, siz, n - 1), siz, n - 1, i) == ThreadSum(bs, owner, n - 1, |bs|, i)
    ensures |ThreadGrids(bs, owner, siz, n)| == n * siz
            && SliceSum(ThreadGrids(bs, owner, siz, n), siz, n, i) == ThreadSum(bs, owner, n, |bs|, i)
  {
    var prev := ThreadGrids(bs, owner, siz, n - 1);
    var last := ThreadGrid(bs, owner, n - 1, siz);
    assert ThreadGrids(bs, owner, siz, n) == prev + last;
    SumsAt(Owned(bs, owner, n - 1, |bs|), siz, i);
    SliceSumSnoc(prev, last, siz, n, i);
  }

  /** Summing the thread slices cell by cell gives the per-thread sums of
      `Reduction`. */
  lemma {:induction false} SliceSumThreads(bs: seq<seq<Deposit>>, owner: seq<int>, siz: nat, n: int, i: int)
    requires |owner| == |bs| && 1 <= n && 0 <= i < siz
    ensures |ThreadGrids(bs, owner, siz, n)| == n * siz
            && SliceSum(ThreadGrids(bs, owner, siz, n), siz, n, i) == ThreadSum(bs, owner, n, |bs|, i)
  {
    if n > 1 {
      SliceSumThreads(bs, owner, siz, n - 1, i);
      SliceSumThreadsStep(bs, owner, siz, n, i);
    } else {
      SliceSumThreadsOne(bs, owner, siz, n, i);
    }
  }

  /** The cells of a spliced buffer up to the end of the window. */
  lemma SplicePrefix(g: seq<Complex>, base: int, w: seq<Complex>)
    requires 0 <= base && base + |w| <= |g|
    ensures Splice(g, base, w)[..base + |w|] == g[..base] + w
  {
    var r := Splice(g, base, w);
    assert forall c :: 0 <= c < base + |w| ==> r[..base + |w|][c] == (g[..base] + w)[c];
  }

  /** The threads `t < n` have each left their slice in `tmp`. */
  ghost predicate SlicesDone(tmp: seq<Complex>, bs: seq<seq<Deposit>>, owner: seq<int>, siz: nat, n: nat)
    requires |owner| == |bs|
  {
    n * siz <= |tmp| && tmp[..n * siz] == ThreadGrids(bs, owner, siz, n)
  }

  /** Thread `n` splicing its slice in after the slices of threads `t < n`. */
  lemma SlicesDoneStep(before: seq<Complex>, after: seq<Complex>, bs: seq<seq<Deposit>>, owner: seq<int>, siz: nat, n: nat)
    requires |owner| == |bs| && (n + 1) * siz <= |before|
    requires SlicesDone(before, bs, owner, siz, n)
    requires n * siz + siz <= |before| && after == Splice(before, n * siz, ThreadGrid(bs, owner, n, siz))
    ensures SlicesDone(after, bs, owner, siz, n + 1)
  {
    MulAddRight(siz, n, 1);
    assert (n + 1) * siz == n * siz + siz;
    SplicePrefix(before, n * siz, ThreadGrid(bs, owner, n, siz));
  }
}
