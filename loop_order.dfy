/** Nested loops and their order.

    A two-level loop nest `for a < A: for b < B: body(a, b)` whose body
    issues the deposits `D(a, b)` issues `Cat(D, A, B)`. Exchanging the two
    loops issues the same deposits in another order (`CatSwap`), so by
    `SumAtPerm` every cell receives the same total. */
module LoopOrder {
  import opened Accumulate

  type Block = (int, int) -> seq<Deposit>

  /** The inner loop for outer index `a`, run for `b < n`. */
  function Inner(D: Block, a: int, n: int): seq<Deposit>
    decreases n
  {
    if n <= 0 then [] else Inner(D, a, n - 1) + D(a, n - 1)
  }

  /** Outer indices `a < m`, each with inner indices `b < B`. */
  function Cat(D: Block, m: int, B: int): seq<Deposit>
    decreases m
  {
    if m <= 0 then [] else Cat(D, m - 1, B) + Inner(D, m - 1, B)
  }

  /** The same body with its two indices exchanged. */
  function Tr(D: Block): (t: Block)
    ensures forall b, a :: t(b, a) == D(a, b)
  {
    (b, a) => D(a, b)
  }

  /** Adding outer index `A - 1` to the exchanged nest adds the deposits
      of that index's inner loop. */
  lemma {:induction false} CatSwapStep(D: Block, A: int, B: int)
    requires 1 <= A
    ensures multiset(Cat(Tr(D), B, A)) == multiset(Cat(Tr(D), B, A - 1)) + multiset(Inner(D, A - 1, B))
    decreases B
  {
    var T := Tr(D);
    if B <= 0 {
      assert Cat(T, B, A) == [] == Cat(T, B, A - 1);
      assert Inner(D, A - 1, B) == [];
    } else {
      CatSwapStep(D, A, B - 1);
      var c1, c0 := Cat(T, B - 1, A), Cat(T, B - 1, A - 1);
      var t0, d := Inner(T, B - 1, A - 1), D(A - 1, B - 1);
      var i0 := Inner(D, A - 1, B - 1);
      assert Cat(T, B, A) == c1 + (t0 + d);
      assert Cat(T, B, A - 1) == c0 + t0;
      assert Inner(D, A - 1, B) == i0 + d;
      assert multiset(c1) == multiset(c0) + multiset(i0);
      calc {
        multiset(Cat(T, B, A));
        multiset(c1) + multiset(t0) + multiset(d);
        multiset(c0) + multiset(t0) + (multiset(i0) + multiset(d));
        multiset(Cat(T, B, A - 1)) + multiset(Inner(D, A - 1, B));
      }
    }
  }

  /** Exchanging the two loops of a nest only reorders its deposits. */
  lemma {:induction false} CatSwap(D: Block, A: int, B: int)
    ensures multiset(Cat(D, A, B)) == multiset(Cat(Tr(D), B, A))
    decreases A
  {
    if A <= 0 {
      CatEmpty(Tr(D), B, A);
    } else {
      CatSwap(D, A - 1, B);
      CatSwapStep(D, A, B);
      assert Cat(D, A, B) == Cat(D, A - 1, B) + Inner(D, A - 1, B);
    }
  }

  /** With no inner indices a nest issues nothing. */
  lemma {:induction false} CatEmpty(D: Block, m: int, n: int)
    requires n <= 0
    ensures Cat(D, m, n) == []
    decreases m
  {
    if m > 0 {
      CatEmpty(D, m - 1, n);
      assert Inner(D, m - 1, n) == [];
    }
  }

  /** Reordering the deposits inside each inner loop reorders those of
      the whole nest. */
  lemma {:induction false} CatCongr(D: Block, E: Block, A: int, B: int)
    requires forall a :: 0 <= a < A ==> multiset(Inner(D, a, B)) == multiset(Inner(E, a, B))
    ensures multiset(Cat(D, A, B)) == multiset(Cat(E, A, B))
    decreases A
  {
    if A > 0 {
      CatCongr(D, E, A - 1, B);
      CatCongrStep(D, E, A, B);
    }
  }

  /** The inductive step of `CatCongr`: one more outer index. */
  lemma CatCongrStep(D: Block, E: Block, A: int, B: int)
    requires A > 0 && multiset(Cat(D, A - 1, B)) == multiset(Cat(E, A - 1, B))
    requires multiset(Inner(D, A - 1, B)) == multiset(Inner(E, A - 1, B))
    ensures multiset(Cat(D, A, B)) == multiset(Cat(E, A, B))
  {
    assert Cat(D, A, B) == Cat(D, A - 1, B) + Inner(D, A - 1, B);
    assert Cat(E, A, B) == Cat(E, A - 1, B) + Inner(E, A - 1, B);
  }

  /** An inner loop whose body is itself a loop is a nest of its own. */
  lemma {:induction false} InnerOfLoops(D: Block, E: Block, a: int, n: int, B: int)
    requires forall j :: 0 <= j < n ==> D(a, j) == Inner(E, j, B)
    ensures Inner(D, a, n) == Cat(E, n, B)
    decreases n
  {
    if n > 0 {
      InnerOfLoops(D, E, a, n - 1, B);
    }
  }
}
