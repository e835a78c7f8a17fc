/** The GCF layout of MS5/halide_scatter/scatter_gridder_w_dependent_dyn_1p_halide_full.cpp:
    the GCF data holds, w-plane after w-plane, `over * over` layers of
    `gcf_supp * gcf_supp` pixels, and `gcf_offs[wp]` is where w-plane
    `wp`'s block starts. */
module GcfOffsets {
  import Common

  /** `const int over = 8`. */
  const Over: int := 8

  /** The number of pixels of w-plane `wp`'s block. */
  function BlockSize(gcfSupps: seq<int>, wp: int): (n: int)
    requires 0 <= wp < |gcfSupps|
    ensures n >= 0
  {
    SquareNonNegative(gcfSupps[wp]);
    Common.MulPos(Over * Over, gcfSupps[wp] * gcfSupps[wp]);
    Common.MulAssoc(Over * Over, gcfSupps[wp], gcfSupps[wp]);
    Over * Over * gcfSupps[wp] * gcfSupps[wp]
  }

  lemma SquareNonNegative(x: int)
    ensures x * x >= 0
  {
    if x < 0 {
      Common.MulPos(-x, -x);
    } else {
      Common.MulPos(x, x);
    }
  }

  /** The pixels of the blocks of the w-planes `wp < n`. */
  function Offset(gcfSupps: seq<int>, n: int): int
    requires 0 <= n <= |gcfSupps|
  {
    if n == 0 then 0 else Offset(gcfSupps, n - 1) + BlockSize(gcfSupps, n - 1)
  }

  /** The loop that fills `gcf_offs_`: each plane's offset is the running
      total before it, and `off` ends as the total, the element count of
      the whole GCF. */
  method ComputeGcfOffsets(gcfSupps: seq<int>, wplanes: int) returns (gcfOffs: array<int>, off: int)
    requires 0 <= wplanes <= |gcfSupps|
    ensures fresh(gcfOffs) && gcfOffs.Length == wplanes
    ensures forall wp :: 0 <= wp < wplanes ==> gcfOffs[wp] == Offset(gcfSupps, wp)
    ensures off == Offset(gcfSupps, wplanes)
    ensures wplanes > 0 ==> gcfOffs[0] == 0
  {
    gcfOffs := new int[wplanes];
    off := 0;
    var wp := 0;
    while wp < wplanes
      invariant 0 <= wp <= wplanes
      invariant off == Offset(gcfSupps, wp)
      invariant forall j :: 0 <= j < wp ==> gcfOffs[j] == Offset(gcfSupps, j)
    {
      gcfOffs[wp] := off;
      off := off + Over * Over * gcfSupps[wp] * gcfSupps[wp];
      wp := wp + 1;
    }
  }

  /** The running total never decreases. */
  lemma {:induction false} OffsetMonotone(gcfSupps: seq<int>, a: int, b: int)
    requires 0 <= a <= b <= |gcfSupps|
    ensures Offset(gcfSupps, a) <= Offset(gcfSupps, b)
    decreases b - a
  {
    if a < b {
      OffsetMonotone(gcfSupps, a, b - 1);
    }
  }

  /** A plane's block ends no later than the next plane's starts: the
      blocks of distinct planes do not overlap, and each lies inside the
      `off` elements of the GCF. */
  lemma BlocksDisjoint(gcfSupps: seq<int>, a: int, b: int)
    requires 0 <= a < b <= |gcfSupps|
    ensures 0 <= Offset(gcfSupps, a)
    ensures Offset(gcfSupps, a) + BlockSize(gcfSupps, a) <= Offset(gcfSupps, b)
  {
    OffsetMonotone(gcfSupps, 0, a);
    OffsetMonotone(gcfSupps, a + 1, b);
  }
}
