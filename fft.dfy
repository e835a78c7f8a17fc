/** The integer logic of MS5/kernel/cpu/gridding/fft.cpp: `product`, the
    radix factorisation `radix_factor` that picks the FFT stages, and the
    group-aligned zip point `zip_n` of the real-to-complex and
    complex-to-real transforms. */
module Fft {
  import opened Common

  /** The product of the elements, taken from the left. */
  function Prod(r: seq<int>): int
  {
    if |r| == 0 then 1 else Prod(r[..|r| - 1]) * r[|r| - 1]
  }

  lemma {:induction false} ProdConcat(a: seq<int>, b: seq<int>)
    ensures Prod(a + b) == Prod(a) * Prod(b)
  {
    if |b| > 0 {
      var b0 := b[..|b| - 1];
      assert (a + b)[..|a + b| - 1] == a + b0;
      ProdConcat(a, b0);
    } else {
      assert a + b == a;
    }
  }

  /** `product`: multiplies an accumulator starting at 1 by every element. */
  method Product(r: seq<int>) returns (p: int)
    ensures p == Prod(r)
    ensures r == [] ==> p == 1
    ensures (forall i :: 0 <= i < |r| ==> r[i] >= 1) ==> p >= 1
  {
    p := 1;
    var i := 0;
    while i < |r|
      invariant 0 <= i <= |r|
      invariant p == Prod(r[..i])
      invariant (forall j :: 0 <= j < |r| ==> r[j] >= 1) ==> p >= 1
    {
      assert r[..i + 1][..i] == r[..i];
      p := p * r[i];
      i := i + 1;
    }
    assert r[..i] == r;
  }

  /** A product of positive integers is positive. */
  lemma {:induction false} ProdPositive(r: seq<int>)
    requires forall i :: 0 <= i < |r| ==> r[i] >= 1
    ensures Prod(r) >= 1
  {
    if |r| > 0 {
      ProdPositive(r[..|r| - 1]);
    }
  }

  /** The radices `radix_factor` tries, in this order. */
  const Radices: seq<int> := [8, 5, 4, 3, 2]

  predicate IsRadix(x: int)
  {
    x == 8 || x == 5 || x == 4 || x == 3 || x == 2
  }

  /** The radices that take out a factor of two by themselves in a group
      of at most one: all 8s go first, so at most one 4 or one 2 remains. */
  predicate IsSmallPower(x: int)
  {
    x == 4 || x == 2
  }

  /** How many elements are 4 or 2. */
  function SmallCount(r: seq<int>): nat
  {
    multiset(r)[4] + multiset(r)[2]
  }

  /** A cofactor that no radix divides. */
  predicate Leftover(x: int)
  {
    x % 2 != 0 && x % 3 != 0 && x % 5 != 0
  }

  /** What `radix_factor(n)` returns: a factorisation of `n`, never empty
      and `[1]` for `n == 1`, whose elements before the last are radices
      grouped in the order 8, 5, 4, 3, 2; a last element that is not a
      radix is the cofactor no radix divides, and is 1 only in `[1]`; all
      elements are positive, and at most one of them is a 4 or a 2. */
  predicate RadixFactorisation(n: int, r: seq<int>)
  {
    && Prod(r) == n
    && |r| >= 1
    && (n == 1 ==> r == [1])
    && RadixOrdered(r)
  }

  /** The shape of the elements of a `radix_factor` result. */
  predicate RadixOrdered(r: seq<int>)
    requires |r| >= 1
  {
    && (forall j :: 0 <= j < |r| - 1 ==> IsRadix(r[j]))
    && (forall j, k :: 0 <= j < k < |r| && IsRadix(r[k]) ==> r[j] >= r[k])
    && (!IsRadix(r[|r| - 1]) ==> Leftover(r[|r| - 1]) && (r[|r| - 1] == 1 ==> r == [1]))
    && (forall j :: 0 <= j < |r| ==> r[j] >= 1)
    && SmallCount(r) <= 1
  }

  /** `radix_factor`: for each radix in turn, take it out of `N` as often as
      it divides; then append what is left unless that is 1 and something
      was taken out. */
  method RadixFactor(n: int) returns (r: seq<int>)
    requires n >= 1
    ensures RadixFactorisation(n, r)
  {
    r := [];
    var m := n;
    var i := 0;
    while i < |Radices|
      invariant 0 <= i <= |Radices|
      invariant Taken(n, r, m)
      invariant i < |Radices| ==> forall j :: 0 <= j < |r| ==> r[j] >= Radices[i]
      invariant Cleared(m, i)
    {
      var d := Radices[i];
      while m % d == 0
        invariant Taken(n, r, m)
        invariant forall j :: 0 <= j < |r| ==> r[j] >= d
        invariant Cleared(m, i)
        decreases m
      {
        var q := m / d;
        TakeStep(n, r, m, i, q);
        r := r + [d];
        m := q;
      }
      i := i + 1;
    }
    if m != 1 || r == [] {
      AppendLeftover(r, m, n);
      r := r + [m];
    } else {
      FinishWithoutLeftover(r, n);
    }
  }

  /** What `radix_factor` has after taking out the radices `r`: the
      cofactor `m` that is left times their product is `n`, they are
      radices in non-increasing order, and at most one of them is a 4 or a
      2, after which the cofactor is odd. */
  predicate Taken(n: int, r: seq<int>, m: int)
  {
    && 1 <= m && Prod(r) * m == n
    && (forall j :: 0 <= j < |r| ==> IsRadix(r[j]))
    && (forall j, k :: 0 <= j < k < |r| ==> r[j] >= r[k])
    && SmallCount(r) <= 1 && (SmallCount(r) == 1 ==> m % 2 != 0)
  }

  /** Taking radix `i` out once more, when it divides the cofactor. */
  lemma TakeStep(n: int, r: seq<int>, m: int, i: int, q: int)
    requires 0 <= i < |Radices| && Taken(n, r, m) && Cleared(m, i)
    requires forall j :: 0 <= j < |r| ==> r[j] >= Radices[i]
    requires m % Radices[i] == 0 && q == m / Radices[i]
    ensures Taken(n, r + [Radices[i]], q) && Cleared(q, i) && q < m
    ensures forall j :: 0 <= j < |r + [Radices[i]]| ==> (r + [Radices[i]])[j] >= Radices[i]
  {
    var d := Radices[i];
    assert m == d * q;
    ExtractStep(i, m, q, SmallCount(r) == 1);
    ProdSnoc(r, d, m, q);
    SmallCountSnoc(r, d);
    SnocRadix(r, d);
  }

  /** The radices taken out, followed by the leftover cofactor. */
  lemma AppendLeftover(r: seq<int>, m: int, n: int)
    requires 1 <= m && Prod(r) * m == n && Cleared(m, |Radices|)
    requires m != 1 || r == []
    requires forall j :: 0 <= j < |r| ==> IsRadix(r[j])
    requires forall j, k :: 0 <= j < k < |r| ==> r[j] >= r[k]
    requires SmallCount(r) <= 1
    ensures RadixFactorisation(n, r + [m])
  {
    var r' := r + [m];
    assert r'[..|r|] == r;
    LeftoverOrdered(r, m);
    if r != [] {
      ProdAtLeastTwo(r);
      MulLe(2, Prod(r), m);
    }
  }

  lemma LeftoverOrdered(r: seq<int>, m: int)
    requires 1 <= m && Cleared(m, |Radices|) && (m != 1 || r == [])
    requires forall j :: 0 <= j < |r| ==> IsRadix(r[j])
    requires forall j, k :: 0 <= j < k < |r| ==> r[j] >= r[k]
    requires SmallCount(r) <= 1
    ensures RadixOrdered(r + [m])
  {
    SmallCountSnoc(r, m);
  }

  /** The cofactor is 1 and radices were taken out: they are the result. */
  lemma FinishWithoutLeftover(r: seq<int>, n: int)
    requires Prod(r) == n && r != []
    requires forall j :: 0 <= j < |r| ==> IsRadix(r[j])
    requires forall j, k :: 0 <= j < k < |r| ==> r[j] >= r[k]
    requires SmallCount(r) <= 1
    ensures RadixFactorisation(n, r)
  {
    ProdAtLeastTwo(r);
  }

  /** A non-empty product of radices is at least 2. */
  lemma ProdAtLeastTwo(r: seq<int>)
    requires r != [] && forall j :: 0 <= j < |r| ==> IsRadix(r[j])
    ensures Prod(r) >= 2
  {
    var init, last := r[..|r| - 1], r[|r| - 1];
    ProdPositive(init);
    MulLe(1, Prod(init), last);
  }

  /** The radices before position `i` no longer divide `m`. */
  predicate Cleared(m: int, i: int)
  {
    (i > 0 ==> m % 8 != 0) && (i > 1 ==> m % 5 != 0) && (i > 2 ==> m % 4 != 0)
    && (i > 3 ==> m % 3 != 0) && (i > 4 ==> m % 2 != 0)
  }

  /** Taking radix `Radices[i]` out of the remaining cofactor `m` once
      leaves a smaller cofactor `q` that the earlier radices still do not
      divide. Once a 4 or a 2 has been taken out, the cofactor is odd, and
      no further 4 or 2 can be taken out. */
  lemma ExtractStep(i: int, m: int, q: int, hadSmall: bool)
    requires 0 <= i < |Radices| && m == Radices[i] * q && 1 <= m
    requires Cleared(m, i) && (hadSmall ==> m % 2 != 0)
    ensures 1 <= q < m && Cleared(q, i) && IsRadix(Radices[i])
    ensures hadSmall ==> !IsSmallPower(Radices[i])
    ensures hadSmall || IsSmallPower(Radices[i]) ==> q % 2 != 0
  {
    var d := Radices[i];
    if q <= 0 {
      MulPos(d, -q);
    }
    if q >= m {
      MulLe(1, d - 1, q);
    }
    if q % 8 == 0 { MultipleOf(q, d, 8); }
    if q % 5 == 0 { MultipleOf(q, d, 5); }
    if q % 4 == 0 { MultipleOf(q, d, 4); }
    if q % 3 == 0 { MultipleOf(q, d, 3); }
    if q % 2 == 0 {
      MultipleOf(q, d, 2);
      DivModOf(q / 2, 0, 2);
      if d == 4 {
        DivModOf(q / 2, 0, 8);
      } else if d == 2 {
        DivModOf(q / 2, 0, 4);
      }
    }
    if IsSmallPower(d) {
      DivModOf(d / 2 * q, 0, 2);
    }
  }

  /** `d * q` is a multiple of `e` whenever `q` is. */
  lemma MultipleOf(q: int, d: int, e: int)
    requires e > 0 && q % e == 0
    ensures (d * q) % e == 0
  {
    var t := q / e;
    assert q == t * e;
    MulAssoc(d, t, e);
    DivModOf(d * t, 0, e);
  }

  lemma ProdSnoc(r: seq<int>, d: int, m: int, q: int)
    requires m == d * q
    ensures Prod(r + [d]) * q == Prod(r) * m
  {
    assert (r + [d])[..|r|] == r;
    assert Prod(r + [d]) == Prod(r) * d;
    MulAssoc(Prod(r), d, q);
  }

  /** Appending a radix no larger than any element taken out so far keeps
      the elements radices, in non-increasing order. */
  lemma SnocRadix(r: seq<int>, d: int)
    requires IsRadix(d)
    requires forall j :: 0 <= j < |r| ==> IsRadix(r[j])
    requires forall j :: 0 <= j < |r| ==> r[j] >= d
    requires forall j, k :: 0 <= j < k < |r| ==> r[j] >= r[k]
    ensures forall j :: 0 <= j < |r + [d]| ==> IsRadix((r + [d])[j])
    ensures forall j :: 0 <= j < |r + [d]| ==> (r + [d])[j] >= d
    ensures forall j, k :: 0 <= j < k < |r + [d]| ==> (r + [d])[j] >= (r + [d])[k]
  {
  }

  lemma SmallCountSnoc(r: seq<int>, d: int)
    ensures SmallCount(r + [d]) == SmallCount(r) + if IsSmallPower(d) then 1 else 0
  {
    assert multiset(r + [d]) == multiset(r) + multiset{d};
  }

  /** The vectorisation width `group` of the two-dimensional transforms. */
  const Group: int := 4

  function Pow2(b: nat): (p: int)
    ensures p >= 1
  {
    if b == 0 then 1 else 2 * Pow2(b - 1)
  }

  /** Bitwise OR of two integers in two's complement, `y` non-negative: the
      lowest bits combine, the rest are the OR of the arithmetic right
      shifts (`/ 2` rounds towards minus infinity here). */
  function Or(x: int, y: int): int
    requires 0 <= y
    decreases y
  {
    if y == 0 then x
    else
      var low := if x % 2 == 1 || y % 2 == 1 then 1 else 0;
      2 * Or(x / 2, y / 2) + low
  }

  /** ORing with `2^b - 1` sets the lowest `b` bits and keeps the rest, for
      negative `x` as well. */
  lemma {:induction false} OrLowBits(x: int, b: nat)
    decreases b
    ensures Or(x, Pow2(b) - 1) == x - x % Pow2(b) + (Pow2(b) - 1)
  {
    if b > 0 {
      OrLowBits(x / 2, b - 1);
      OrLowBitsStep(x, b);
    }
  }

  /** The inductive step of `OrLowBits`: one more bit from `x / 2`. */
  lemma OrLowBitsStep(x: int, b: nat)
    requires b > 0
    requires Or(x / 2, Pow2(b - 1) - 1) == x / 2 - (x / 2) % Pow2(b - 1) + (Pow2(b - 1) - 1)
    ensures Or(x, Pow2(b) - 1) == x - x % Pow2(b) + (Pow2(b) - 1)
  {
    var p, y := Pow2(b - 1), Pow2(b) - 1;
    assert y == 2 * p - 1;
    assert y / 2 == p - 1 && y % 2 == 1;
    assert Or(x, y) == 2 * Or(x / 2, p - 1) + 1;
    LowBitsHalve(x, p);
  }

  /** `x % (2 * p)` in terms of `x / 2`. */
  lemma LowBitsHalve(x: int, p: int)
    requires p >= 1
    ensures x % (2 * p) == 2 * ((x / 2) % p) + x % 2
  {
    var h, s := x / 2, x % 2;
    var t, u := h / p, h % p;
    assert x == 2 * h + s && h == p * t + u;
    assert x == (2 * p) * t + (2 * u + s);
    assert 0 <= 2 * u + s < 2 * p;
    DivModOf(t, 2 * u + s, 2 * p);
  }

  /** `zip_n = ((k - 1) | (group - 1)) + 1` with `k = N0 / 2`. */
  function ZipN(k: int): int
  {
    Or(k - 1, Group - 1) + 1
  }

  /** `zip_n` is the smallest multiple of `group` that is at least `k`. */
  lemma ZipNAligned(k: int)
    ensures ZipN(k) % Group == 0 && k <= ZipN(k) < k + Group
  {
    OrLowBits(k - 1, 2);
  }

  /** The zip point is exactly half of an `N0`-wide domain (so the columns
      `n0 + zip_n` need no clamping) exactly when 8 divides `N0`. */
  lemma ZipNExactHalf(n0: int)
    requires n0 >= 1
    ensures ZipN(n0 / 2) * 2 == n0 <==> n0 % 8 == 0
  {
    var k := n0 / 2;
    var z := ZipN(k);
    ZipNAligned(k);
    var m := z / 4;
    assert z == 4 * m;
    if n0 % 8 == 0 {
      var q := n0 / 8;
      assert n0 == 8 * q && k == 4 * q;
      assert m == q;
    }
    if z * 2 == n0 {
      assert n0 == 8 * m + 0;
      DivModOf(m, 0, 8);
    }
  }
}
