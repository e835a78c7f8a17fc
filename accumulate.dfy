/** Scatter accumulation into a flat complex buffer.

    A scatter kernel performs a sequence of `buf[base + cell] += val`
    updates. A `Deposit` records one update; `ApplyAll` replays a list of
    them in order, and `SumAt` totals the values a list sends to one cell.
    `ApplyAllAt` is the bridge between the two: after replaying a list,
    every cell holds its initial value plus the sum of the deposits aimed at
    it, whatever the order of the list. */
module Accumulate {
  import opened Complex

  datatype Deposit = Deposit(cell: int, val: Complex)

  /** Every deposit of `ds` lands in `[0, siz)`. */
  predicate CellsWithin(ds: seq<Deposit>, siz: int)
  {
    forall k :: 0 <= k < |ds| ==> 0 <= ds[k].cell < siz
  }

  /** The buffer after performing `buf[base + d.cell] += d.val` for each
      deposit `d` of `ds`, first to last. A deposit outside the buffer is
      not performed; every kernel of this model proves that it never issues
      one. */
  function ApplyAll(g: seq<Complex>, base: int, ds: seq<Deposit>): (r: seq<Complex>)
    ensures |r| == |g|
    decreases |ds|
  {
    if ds == [] then g
    else
      var r0 := ApplyAll(g, base, ds[..|ds| - 1]);
      var d := ds[|ds| - 1];
      if 0 <= base + d.cell < |r0| then r0[base + d.cell := Add(r0[base + d.cell], d.val)] else r0
  }

  /** One more deposit inside the buffer is one more `+=`. */
  lemma ApplyAllSnoc(g: seq<Complex>, base: int, ds: seq<Deposit>, d: Deposit)
    requires 0 <= base + d.cell < |g|
    ensures var r0 := ApplyAll(g, base, ds);
            ApplyAll(g, base, ds + [d]) == r0[base + d.cell := Add(r0[base + d.cell], d.val)]
  {
    assert (ds + [d])[..|ds + [d]| - 1] == ds;
  }

  /** A deposit outside the buffer changes nothing. */
  lemma ApplyAllSkip(g: seq<Complex>, base: int, ds: seq<Deposit>, d: Deposit)
    requires !(0 <= base + d.cell < |g|)
    ensures ApplyAll(g, base, ds + [d]) == ApplyAll(g, base, ds)
  {
    assert (ds + [d])[..|ds + [d]| - 1] == ds;
  }

  /** Sum of the values that `ds` deposits into `cell`. */
  function SumAt(ds: seq<Deposit>, cell: int): Complex
    decreases |ds|
  {
    if ds == [] then Zero
    else
      var d := ds[|ds| - 1];
      if d.cell == cell then Add(SumAt(ds[..|ds| - 1], cell), d.val) else SumAt(ds[..|ds| - 1], cell)
  }

  /** Replaying a list of deposits leaves each position with its initial
      value plus the deposits aimed at it; positions no deposit aims at are
      unchanged. */
  lemma {:induction false} ApplyAllAt(g: seq<Complex>, base: int, ds: seq<Deposit>, j: int)
    requires 0 <= j < |g|
    ensures ApplyAll(g, base, ds)[j] == Add(g[j], SumAt(ds, j - base))
    decreases |ds|
  {
    if ds != [] {
      var ds', d := ds[..|ds| - 1], ds[|ds| - 1];
      var r0 := ApplyAll(g, base, ds');
      ApplyAllAt(g, base, ds', j);
      if d.cell == j - base {
        AddAssoc(g[j], SumAt(ds', j - base), d.val);
      }
    }
  }

  /** `ApplyAllAt` at every position at once. */
  lemma ApplyAllSums(g: seq<Complex>, r: seq<Complex>, base: int, ds: seq<Deposit>)
    requires r == ApplyAll(g, base, ds)
    ensures forall c :: 0 <= c < |r| ==> r[c] == Add(g[c], SumAt(ds, c - base))
  {
    forall c | 0 <= c < |r|
      ensures r[c] == Add(g[c], SumAt(ds, c - base))
    {
      ApplyAllAt(g, base, ds, c);
    }
  }

  /** Replaying `a + b` is replaying `a`, then `b`: gridding two batches one
      after the other is gridding their concatenation. */
  lemma {:induction false} ApplyAllConcat(g: seq<Complex>, base: int, a: seq<Deposit>, b: seq<Deposit>)
    ensures ApplyAll(g, base, a + b) == ApplyAll(ApplyAll(g, base, a), base, b)
    decreases |b|
  {
    if b == [] {
      assert a + b == a;
    } else {
      assert (a + b)[..|a + b| - 1] == a + b[..|b| - 1];
      ApplyAllConcat(g, base, a, b[..|b| - 1]);
    }
  }

  lemma CellsWithinConcat(a: seq<Deposit>, b: seq<Deposit>, siz: int)
    requires CellsWithin(a, siz) && CellsWithin(b, siz)
    ensures CellsWithin(a + b, siz)
  {
    assert forall i :: 0 <= i < |a + b| ==> (a + b)[i] == if i < |a| then a[i] else b[i - |a|];
  }

  /** The total deposited in a cell is additive over concatenation. */
  lemma {:induction false} SumAtConcat(a: seq<Deposit>, b: seq<Deposit>, cell: int)
    ensures SumAt(a + b, cell) == Add(SumAt(a, cell), SumAt(b, cell))
    decreases |b|
  {
    if b == [] {
      assert a + b == a;
    } else {
      assert (a + b)[..|a + b| - 1] == a + b[..|b| - 1];
      SumAtConcat(a, b[..|b| - 1], cell);
    }
  }

  /** A cell no deposit aims at receives nothing. */
  lemma {:induction false} SumAtMiss(ds: seq<Deposit>, cell: int)
    requires forall k :: 0 <= k < |ds| ==> ds[k].cell != cell
    ensures SumAt(ds, cell) == Zero
    decreases |ds|
  {
    if ds != [] {
      SumAtMiss(ds[..|ds| - 1], cell);
    }
  }

  /** Replaying deposits over a buffer whose window `[base, base + siz)` is
      zero, when all deposits fall in the window: the window then holds
      exactly the per-cell sums and everything outside it is unchanged. */
  lemma ApplyAllWindow(g: seq<Complex>, base: int, siz: int, ds: seq<Deposit>, j: int)
    requires 0 <= base && base + siz <= |g|
    requires CellsWithin(ds, siz)
    requires 0 <= j < |g|
    ensures base <= j < base + siz ==> ApplyAll(g, base, ds)[j] == Add(g[j], SumAt(ds, j - base))
    ensures !(base <= j < base + siz) ==> ApplyAll(g, base, ds)[j] == g[j]
  {
    ApplyAllAt(g, base, ds, j);
    if !(base <= j < base + siz) {
      SumAtMiss(ds, j - base);
    }
  }

  /** `siz` zero cells (what `memset` leaves in a slice). */
  function Zeros(siz: nat): (z: seq<Complex>)
    ensures |z| == siz && forall j :: 0 <= j < siz ==> z[j] == Zero
  {
    seq(siz, j => Zero)
  }

  /** The per-cell sums of `ds` over the window `[0, siz)`. */
  function Sums(ds: seq<Deposit>, siz: nat): (s: seq<Complex>)
    ensures |s| == siz
  {
    seq(siz, j => SumAt(ds, j))
  }

  lemma SumsAt(ds: seq<Deposit>, siz: nat, j: int)
    requires 0 <= j < siz
    ensures Sums(ds, siz)[j] == SumAt(ds, j)
  {
  }

  /** `g` with the window at `base` replaced by `w`. */
  function Splice(g: seq<Complex>, base: int, w: seq<Complex>): (r: seq<Complex>)
    requires 0 <= base && base + |w| <= |g|
    ensures |r| == |g|
  {
    seq(|g|, c requires 0 <= c < |g| => if base <= c < base + |w| then w[c - base] else g[c])
  }

  /** Replaying deposits that land in `[0, siz)` over a buffer `z` whose
      window at `base` is zero: the window then holds the per-cell sums
      and the rest of the buffer is untouched. */
  lemma ApplyAllOverZero(z: seq<Complex>, e: seq<Complex>, base: int, siz: nat, ds: seq<Deposit>)
    requires 0 <= base && base + siz <= |z| == |e|
    requires CellsWithin(ds, siz)
    requires forall c :: base <= c < base + siz ==> z[c] == Zero && e[c] == SumAt(ds, c - base)
    requires forall c :: 0 <= c < |z| && !(base <= c < base + siz) ==> e[c] == z[c]
    ensures ApplyAll(z, base, ds) == e
  {
    var r := ApplyAll(z, base, ds);
    forall c | 0 <= c < |z|
      ensures r[c] == e[c]
    {
      ApplyAllWindow(z, base, siz, ds, c);
      if base <= c < base + siz {
        ZeroAdd(SumAt(ds, c - base));
      }
    }
  }

  /** The same, for a window zeroed by `Splice`. */
  lemma ApplyAllZeroed(g: seq<Complex>, base: int, siz: nat, ds: seq<Deposit>)
    requires 0 <= base && base + siz <= |g|
    requires CellsWithin(ds, siz)
    ensures ApplyAll(Splice(g, base, Zeros(siz)), base, ds) == Splice(g, base, Sums(ds, siz))
  {
    ApplyAllOverZero(Splice(g, base, Zeros(siz)), Splice(g, base, Sums(ds, siz)), base, siz, ds);
  }

  /** Taking one element out of the middle of a list, the sum at a cell
      loses exactly that element's contribution. */
  lemma SumAtPick(p: seq<Deposit>, x: Deposit, q: seq<Deposit>, cell: int)
    ensures SumAt(p + [x] + q, cell) == Add(SumAt(p + q, cell), SumAt([x], cell))
  {
    SumAtConcat(p + [x], q, cell);
    SumAtConcat(p, [x], cell);
    SumAtConcat(p, q, cell);
    var P, X, Q := SumAt(p, cell), SumAt([x], cell), SumAt(q, cell);
    AddAssoc(P, X, Q);
    AddComm(X, Q);
    AddAssoc(P, Q, X);
  }

  /** A list whose multiset holds `x` splits around one occurrence of it. */
  lemma SplitAt(b: seq<Deposit>, x: Deposit) returns (p: seq<Deposit>, q: seq<Deposit>)
    requires x in multiset(b)
    ensures b == p + [x] + q
    ensures multiset(p + q) == multiset(b) - multiset{x}
  {
    assert x in b;
    var i :| 0 <= i < |b| && b[i] == x;
    p, q := b[..i], b[i + 1..];
    assert b == p + [x] + q;
  }

  /** The total a cell receives does not depend on the order of the
      deposits: lists that are permutations of each other give every cell
      the same sum. */
  lemma {:induction false} SumAtPerm(a: seq<Deposit>, b: seq<Deposit>, cell: int)
    requires multiset(a) == multiset(b)
    ensures SumAt(a, cell) == SumAt(b, cell)
    decreases |a|
  {
    if a == [] {
      assert |multiset(b)| == 0;
    } else {
      var x, a' := a[|a| - 1], a[..|a| - 1];
      assert a == a' + [x];
      var p, q := SplitAt(b, x);
      SumAtPerm(a', p + q, cell);
      SumAtConcat(a', [x], cell);
      SumAtPick(p, x, q, cell);
    }
  }
}
