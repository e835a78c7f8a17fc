/** Gather accumulation out of a flat complex buffer: the degrid direction
    performs `acc += buf[cell] * val` for each entry of a list, first to
    last. The same `Deposit` lists that describe the scatter updates
    describe these reads, with the visibility taken as one. */
module Gather {
  import opened Complex
  import opened Accumulate

  /** One read: `buf[d.cell] * d.val`. A read outside the buffer
      contributes nothing; the kernels of this model never make one. */
  function Tap(g: seq<Complex>, d: Deposit): Complex
  {
    if 0 <= d.cell < |g| then Mul(g[d.cell], d.val) else Zero
  }

  /** The accumulator after adding the reads of `ds` to `acc`, first to
      last. */
  function GatherFrom(acc: Complex, g: seq<Complex>, ds: seq<Deposit>): Complex
    decreases |ds|
  {
    if ds == [] then acc
    else Add(GatherFrom(acc, g, ds[..|ds| - 1]), Tap(g, ds[|ds| - 1]))
  }

  /** One more read is one more `+=`. */
  lemma GatherFromSnoc(acc: Complex, g: seq<Complex>, ds: seq<Deposit>, d: Deposit)
    ensures GatherFrom(acc, g, ds + [d]) == Add(GatherFrom(acc, g, ds), Tap(g, d))
  {
    assert (ds + [d])[..|ds + [d]| - 1] == ds;
  }

  /** Reading `a` and then `b` is reading `a + b`. */
  lemma {:induction false} GatherFromConcat(acc: Complex, g: seq<Complex>, a: seq<Deposit>, b: seq<Deposit>)
    ensures GatherFrom(acc, g, a + b) == GatherFrom(GatherFrom(acc, g, a), g, b)
    decreases |b|
  {
    if b == [] {
      assert a + b == a;
    } else {
      var b' := b[..|b| - 1];
      assert a + b == (a + b') + [b[|b| - 1]];
      GatherFromConcat(acc, g, a, b');
      GatherFromSnoc(acc, g, a + b', b[|b| - 1]);
    }
  }

  /** The starting value only adds on: what the reads contribute does not
      depend on it. */
  lemma {:induction false} GatherFromShift(acc: Complex, g: seq<Complex>, ds: seq<Deposit>)
    ensures GatherFrom(acc, g, ds) == Add(acc, GatherFrom(Zero, g, ds))
    decreases |ds|
  {
    if ds == [] {
      AddZero(acc);
    } else {
      GatherFromShift(acc, g, ds[..|ds| - 1]);
      AddAssoc(acc, GatherFrom(Zero, g, ds[..|ds| - 1]), Tap(g, ds[|ds| - 1]));
    }
  }

  /** Only the cells the list names are read: buffers that agree on them,
      and on whether they exist, give the same result. */
  lemma {:induction false} GatherFromLocal(acc: Complex, g: seq<Complex>, h: seq<Complex>, ds: seq<Deposit>, siz: int)
    requires CellsWithin(ds, siz) && siz <= |g| && siz <= |h|
    requires forall c :: 0 <= c < siz ==> g[c] == h[c]
    ensures GatherFrom(acc, g, ds) == GatherFrom(acc, h, ds)
    decreases |ds|
  {
    if ds != [] {
      var ds' := ds[..|ds| - 1];
      assert CellsWithin(ds', siz) by {
        assert forall i :: 0 <= i < |ds'| ==> ds'[i] == ds[i];
      }
      assert 0 <= ds[|ds| - 1].cell < siz;
      GatherFromLocal(acc, g, h, ds', siz);
    }
  }
}
