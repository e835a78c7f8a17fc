/** Work split over threads, then reduced.

    The scatter kernels hand whole baselines to OpenMP threads
    (`schedule(dynamic)`); each thread scatters into its own grid slice and
    counts into its own counter, and the slices and counters are summed at
    the end. Here a baseline's updates form one batch of deposits, the
    schedule is an arbitrary assignment `owner[bl]` of batches to threads,
    and the lemmas show that the reduced sums do not depend on it. */
module Reduction {
  import opened Complex
  import opened Accumulate

  /** All deposits of batches `bl < b`, in batch order. */
  function Flatten(bs: seq<seq<Deposit>>, b: int): seq<Deposit>
    requires 0 <= b <= |bs|
  {
    if b == 0 then [] else Flatten(bs, b - 1) + bs[b - 1]
  }

  /** The deposits of the batches `bl < b` that thread `tno` owns, in the
      order that thread performs them. */
  function Owned(bs: seq<seq<Deposit>>, owner: seq<int>, tno: int, b: int): seq<Deposit>
    requires |owner| == |bs| && 0 <= b <= |bs|
  {
    if b == 0 then []
    else if owner[b - 1] == tno then Owned(bs, owner, tno, b - 1) + bs[b - 1]
    else Owned(bs, owner, tno, b - 1)
  }

  /** Baseline `b` adds its deposits to its owner's list only. */
  lemma OwnedLength(bs: seq<seq<Deposit>>, owner: seq<int>, tno: int, b: int)
    requires |owner| == |bs| && 0 <= b < |bs|
    ensures |Owned(bs, owner, tno, b + 1)| == |Owned(bs, owner, tno, b)| + if owner[b] == tno then |bs[b]| else 0
  {
  }

  /** Sum over threads `t < n` of what thread `t` deposits in `cell`. */
  function ThreadSum(bs: seq<seq<Deposit>>, owner: seq<int>, n: int, b: int, cell: int): Complex
    requires |owner| == |bs| && 0 <= b <= |bs| && 0 <= n
  {
    if n == 0 then Zero
    else Add(ThreadSum(bs, owner, n - 1, b, cell), SumAt(Owned(bs, owner, n - 1, b), cell))
  }

  /** Sum over threads `t < n` of the number of deposits thread `t` makes. */
  function ThreadCount(bs: seq<seq<Deposit>>, owner: seq<int>, n: int, b: int): int
    requires |owner| == |bs| && 0 <= b <= |bs| && 0 <= n
  {
    if n == 0 then 0 else ThreadCount(bs, owner, n - 1, b) + |Owned(bs, owner, n - 1, b)|
  }

  lemma {:induction false} ThreadSumEmpty(bs: seq<seq<Deposit>>, owner: seq<int>, n: int, cell: int)
    requires |owner| == |bs| && 0 <= n
    ensures ThreadSum(bs, owner, n, 0, cell) == Zero
  {
    if n > 0 {
      ThreadSumEmpty(bs, owner, n - 1, cell);
    }
  }

  /** What batch `bl` adds to the threads `t < n` at `cell`. */
  function Share(bs: seq<seq<Deposit>>, owner: seq<int>, n: int, bl: int, cell: int): Complex
    requires |owner| == |bs| && 0 <= bl < |bs|
  {
    if 0 <= owner[bl] < n then SumAt(bs[bl], cell) else Zero
  }

  /** Thread `t` either owns batch `b - 1`, and adds its deposits to its
      own sum, or does not, and adds nothing. */
  lemma ThreadSumStepNext(bs: seq<seq<Deposit>>, owner: seq<int>, t: int, b: int, cell: int)
    requires |owner| == |bs| && 0 < b <= |bs| && 0 <= t
    requires ThreadSum(bs, owner, t, b, cell) == Add(ThreadSum(bs, owner, t, b - 1, cell), Share(bs, owner, t, b - 1, cell))
    ensures ThreadSum(bs, owner, t + 1, b, cell) == Add(ThreadSum(bs, owner, t + 1, b - 1, cell), Share(bs, owner, t + 1, b - 1, cell))
  {
    var T, X, O := ThreadSum(bs, owner, t, b - 1, cell), Share(bs, owner, t, b - 1, cell), SumAt(Owned(bs, owner, t, b - 1), cell);
    if owner[b - 1] == t {
      var S := SumAt(bs[b - 1], cell);
      SumAtConcat(Owned(bs, owner, t, b - 1), bs[b - 1], cell);
      AddSwap(T, X, O, S);
      ZeroAdd(S);
    } else {
      AddRotate(T, X, O);
    }
  }

  /** Adding batch `b - 1` adds its deposits to the one thread that owns
      it, and to none if its owner is not among the first `n` threads. */
  lemma {:induction false} ThreadSumStep(bs: seq<seq<Deposit>>, owner: seq<int>, n: int, b: int, cell: int)
    requires |owner| == |bs| && 0 < b <= |bs| && 0 <= n
    ensures ThreadSum(bs, owner, n, b, cell) == Add(ThreadSum(bs, owner, n, b - 1, cell), Share(bs, owner, n, b - 1, cell))
  {
    if n > 0 {
      var t := n - 1;
      ThreadSumStep(bs, owner, t, b, cell);
      ThreadSumStepNext(bs, owner, t, b, cell);
    }
  }

  /** The sums at `cell` of batches `bl < b`, added in batch order. */
  function BatchSums(bs: seq<seq<Deposit>>, b: int, cell: int): Complex
    requires 0 <= b <= |bs|
  {
    if b == 0 then Zero else Add(BatchSums(bs, b - 1, cell), SumAt(bs[b - 1], cell))
  }

  /** One more batch adds its sum to both sides. */
  lemma BatchSumsFlattenStep(bs: seq<seq<Deposit>>, b: int, cell: int)
    requires 0 <= b < |bs|
    requires BatchSums(bs, b, cell) == SumAt(Flatten(bs, b), cell)
    ensures BatchSums(bs, b + 1, cell) == SumAt(Flatten(bs, b + 1), cell)
  {
    SumAtConcat(Flatten(bs, b), bs[b], cell);
  }

  /** Adding the batches' sums one by one is summing all their deposits. */
  lemma {:induction false} BatchSumsFlatten(bs: seq<seq<Deposit>>, b: int, cell: int)
    requires 0 <= b <= |bs|
    ensures BatchSums(bs, b, cell) == SumAt(Flatten(bs, b), cell)
  {
    if b > 0 {
      var prev := b - 1;
      BatchSumsFlatten(bs, prev, cell);
      BatchSumsFlattenStep(bs, prev, cell);
    }
  }

  /** Batch `b - 1` has an owner among the `n` threads, so it adds all of
      its deposits to the thread sums. */
  lemma ThreadsCoverStep(bs: seq<seq<Deposit>>, owner: seq<int>, n: int, b: int, cell: int)
    requires |owner| == |bs| && 0 < b <= |bs| && 0 <= n && 0 <= owner[b - 1] < n
    requires ThreadSum(bs, owner, n, b - 1, cell) == BatchSums(bs, b - 1, cell)
    ensures ThreadSum(bs, owner, n, b, cell) == BatchSums(bs, b, cell)
  {
    ThreadSumStep(bs, owner, n, b, cell);
  }

  /** No batches, nothing summed on either side. */
  lemma ThreadsCoverEmpty(bs: seq<seq<Deposit>>, owner: seq<int>, n: int, b: int, cell: int)
    requires |owner| == |bs| && b == 0 && 0 <= n
    ensures ThreadSum(bs, owner, n, b, cell) == BatchSums(bs, b, cell)
  {
    ThreadSumEmpty(bs, owner, n, cell);
  }

  /** However the batches are spread over `n` threads, the per-thread sums
      add up to the batches' sums. */
  lemma {:induction false} ThreadsBatches(bs: seq<seq<Deposit>>, owner: seq<int>, n: int, b: int, cell: int)
    requires |owner| == |bs| && 0 <= b <= |bs| && 0 <= n
    requires forall bl :: 0 <= bl < |owner| ==> 0 <= owner[bl] < n
    ensures ThreadSum(bs, owner, n, b, cell) == BatchSums(bs, b, cell)
  {
    if b > 0 {
      ThreadsBatches(bs, owner, n, b - 1, cell);
      ThreadsCoverStep(bs, owner, n, b, cell);
    } else {
      ThreadsCoverEmpty(bs, owner, n, b, cell);
    }
  }

  /** ... and so to the sum of all deposits. */
  lemma ThreadsCover(bs: seq<seq<Deposit>>, owner: seq<int>, n: int, b: int, cell: int)
    requires |owner| == |bs| && 0 <= b <= |bs| && 0 <= n
    requires forall bl :: 0 <= bl < |owner| ==> 0 <= owner[bl] < n
    ensures ThreadSum(bs, owner, n, b, cell) == SumAt(Flatten(bs, b), cell)
  {
    ThreadsBatches(bs, owner, n, b, cell);
    BatchSumsFlatten(bs, b, cell);
  }

  lemma {:induction false} ThreadCountEmpty(bs: seq<seq<Deposit>>, owner: seq<int>, n: int)
    requires |owner| == |bs| && 0 <= n
    ensures ThreadCount(bs, owner, n, 0) == 0
  {
    if n > 0 {
      ThreadCountEmpty(bs, owner, n - 1);
    }
  }

  lemma {:induction false} ThreadCountStep(bs: seq<seq<Deposit>>, owner: seq<int>, n: int, b: int)
    requires |owner| == |bs| && 0 < b <= |bs| && 0 <= n
    ensures ThreadCount(bs, owner, n, b)
         == ThreadCount(bs, owner, n, b - 1) + (if 0 <= owner[b - 1] < n then |bs[b - 1]| else 0)
  {
    if n > 0 {
      ThreadCountStep(bs, owner, n - 1, b);
    }
  }

  /** The per-thread counters add up to the total number of deposits. */
  lemma {:induction false} ThreadCountCover(bs: seq<seq<Deposit>>, owner: seq<int>, n: int, b: int)
    requires |owner| == |bs| && 0 <= b <= |bs| && 0 <= n
    requires forall bl :: 0 <= bl < |owner| ==> 0 <= owner[bl] < n
    ensures ThreadCount(bs, owner, n, b) == |Flatten(bs, b)|
  {
    if b == 0 {
      ThreadCountEmpty(bs, owner, n);
    } else {
      ThreadCountCover(bs, owner, n, b - 1);
      ThreadCountStep(bs, owner, n, b);
    }
  }

  /** Batches whose deposits all land in `[0, siz)` keep every thread's
      deposits there. */
  lemma {:induction false} OwnedWithin(bs: seq<seq<Deposit>>, owner: seq<int>, tno: int, b: int, siz: int)
    requires |owner| == |bs| && 0 <= b <= |bs|
    requires forall bl :: 0 <= bl < |bs| ==> CellsWithin(bs[bl], siz)
    ensures CellsWithin(Owned(bs, owner, tno, b), siz)
  {
    if b > 0 {
      OwnedWithin(bs, owner, tno, b - 1, siz);
      if owner[b - 1] == tno {
        var a, c := Owned(bs, owner, tno, b - 1), bs[b - 1];
        assert forall i :: 0 <= i < |a + c| ==> (a + c)[i] == if i < |a| then a[i] else c[i - |a|];
      }
    }
  }

  /** `Flatten` up to `b` reads only the first `b` batches. */
  lemma {:induction false} FlattenPrefix(s: seq<seq<Deposit>>, t: seq<seq<Deposit>>, b: int)
    requires 0 <= b <= |s| && b <= |t| && s[..b] == t[..b]
    ensures Flatten(s, b) == Flatten(t, b)
  {
    if b > 0 {
      assert s[..b - 1] == t[..b - 1] by {
        assert forall i :: 0 <= i < b - 1 ==> s[..b - 1][i] == s[..b][i] == t[..b][i] == t[..b - 1][i];
      }
      assert s[b - 1] == s[..b][b - 1] == t[..b][b - 1] == t[b - 1];
      FlattenPrefix(s, t, b - 1);
    }
  }

  /** Flattening two runs of batches one after the other. */
  lemma {:induction false} FlattenConcat(a: seq<seq<Deposit>>, b: seq<seq<Deposit>>)
    ensures Flatten(a + b, |a + b|) == Flatten(a, |a|) + Flatten(b, |b|)
    decreases |b|
  {
    if b == [] {
      assert a + b == a;
    } else {
      var b', y := b[..|b| - 1], b[|b| - 1];
      assert b == b' + [y];
      assert (a + b)[..|a + b'|] == (a + b')[..|a + b'|];
      FlattenPrefix(a + b, a + b', |a + b'|);
      assert b[..|b'|] == b'[..|b'|];
      FlattenPrefix(b, b', |b'|);
      FlattenConcat(a, b');
      assert (a + b)[|a + b| - 1] == y;
    }
  }

  /** A run of batches whose multiset holds `x` splits around one
      occurrence of it. */
  lemma SplitBatches(bs: seq<seq<Deposit>>, x: seq<Deposit>) returns (p: seq<seq<Deposit>>, q: seq<seq<Deposit>>)
    requires x in multiset(bs)
    ensures bs == p + [x] + q
    ensures multiset(p + q) == multiset(bs) - multiset{x}
  {
    assert x in bs;
    var i :| 0 <= i < |bs| && bs[i] == x;
    p, q := bs[..i], bs[i + 1..];
    assert bs == p + [x] + q;
  }

  /** A batch in the middle contributes its deposits in the middle. */
  lemma FlattenPick(p: seq<seq<Deposit>>, x: seq<Deposit>, q: seq<seq<Deposit>>)
    ensures Flatten(p + [x] + q, |p + [x] + q|) == Flatten(p, |p|) + x + Flatten(q, |q|)
  {
    FlattenConcat(p + [x], q);
    FlattenConcat(p, [x]);
    assert Flatten([x], 1) == Flatten([x], 0) + [x][0];
  }

  /** Reordering whole batches reorders the flattened deposits and
      nothing more. */
  lemma {:induction false} FlattenPerm(bs: seq<seq<Deposit>>, cs: seq<seq<Deposit>>)
    requires multiset(bs) == multiset(cs)
    ensures multiset(Flatten(bs, |bs|)) == multiset(Flatten(cs, |cs|))
    decreases |bs|
  {
    if bs == [] {
      assert |multiset(cs)| == 0;
      assert cs == [];
    } else {
      var bs', x := bs[..|bs| - 1], bs[|bs| - 1];
      assert bs == bs' + [x];
      var p, q := SplitBatches(cs, x);
      assert multiset(bs') == multiset(p + q);
      FlattenPerm(bs', p + q);
      FlattenPermStep(bs, p, q);
    }
  }

  /** The inductive step of `FlattenPerm`: the last batch of `bs` goes
      between `p` and `q`. */
  lemma FlattenPermStep(bs: seq<seq<Deposit>>, p: seq<seq<Deposit>>, q: seq<seq<Deposit>>)
    requires bs != []
    requires multiset(Flatten(bs[..|bs| - 1], |bs| - 1)) == multiset(Flatten(p + q, |p + q|))
    ensures multiset(Flatten(bs, |bs|)) == multiset(Flatten(p + [bs[|bs| - 1]] + q, |p + [bs[|bs| - 1]] + q|))
  {
    var n, x := |bs| - 1, bs[|bs| - 1];
    var fb, fp, fq := Flatten(bs[..n], n), Flatten(p, |p|), Flatten(q, |q|);
    FlattenPrefix(bs, bs[..n], n);
    FlattenConcat(p, q);
    FlattenPick(p, x, q);
    assert Flatten(bs, |bs|) == fb + x;
    MultisetMiddle(fp, x, fq);
  }

  /** Moving a block of deposits into the middle keeps the multiset. */
  lemma MultisetMiddle(a: seq<Deposit>, x: seq<Deposit>, b: seq<Deposit>)
    ensures multiset((a + b) + x) == multiset(a + x + b)
  {
    calc {
      multiset((a + b) + x);
      multiset(a) + multiset(b) + multiset(x);
      multiset(a) + multiset(x) + multiset(b);
      multiset(a + x + b);
    }
  }

  /** The batches `f(bl)` of the baselines `s`, in that order. */
  function MapBatches(f: int -> seq<Deposit>, s: seq<int>): (r: seq<seq<Deposit>>)
    ensures |r| == |s| && forall i :: 0 <= i < |s| ==> r[i] == f(s[i])
  {
    seq(|s|, i requires 0 <= i < |s| => f(s[i]))
  }

  /** A list of baselines whose multiset holds `x` splits around one
      occurrence of it. */
  lemma SplitIndices(b: seq<int>, x: int) returns (p: seq<int>, q: seq<int>)
    requires x in multiset(b)
    ensures b == p + [x] + q
    ensures multiset(p + q) == multiset(b) - multiset{x}
  {
    assert x in b;
    var i :| 0 <= i < |b| && b[i] == x;
    p, q := b[..i], b[i + 1..];
    assert b == p + [x] + q;
  }

  lemma MapBatchesConcat(f: int -> seq<Deposit>, a: seq<int>, b: seq<int>)
    ensures MapBatches(f, a + b) == MapBatches(f, a) + MapBatches(f, b)
  {
    var l, r := MapBatches(f, a + b), MapBatches(f, a) + MapBatches(f, b);
    assert forall i :: 0 <= i < |l| ==> l[i] == r[i];
  }

  /** Visiting the same baselines in another order gives the same batches
      in another order. */
  lemma {:induction false} MapBatchesPerm(f: int -> seq<Deposit>, a: seq<int>, b: seq<int>)
    requires multiset(a) == multiset(b)
    ensures multiset(MapBatches(f, a)) == multiset(MapBatches(f, b))
    decreases |a|
  {
    if a == [] {
      assert |multiset(b)| == 0;
      assert b == [];
    } else {
      var a', x := a[..|a| - 1], a[|a| - 1];
      assert a == a' + [x];
      var p, q := SplitIndices(b, x);
      assert multiset(a') == multiset(a) - multiset{x};
      MapBatchesPerm(f, a', p + q);
      var fa', fx, fp, fq := MapBatches(f, a'), MapBatches(f, [x]), MapBatches(f, p), MapBatches(f, q);
      MapBatchesConcat(f, a', [x]);
      MapBatchesConcat(f, p + [x], q);
      MapBatchesConcat(f, p, [x]);
      MapBatchesConcat(f, p, q);
      assert multiset(MapBatches(f, a)) == multiset(fa') + multiset(fx);
      assert multiset(MapBatches(f, b)) == multiset(fp) + multiset(fx) + multiset(fq);
    }
  }

}
