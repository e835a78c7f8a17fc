/** The degrid direction of
    MS4/kernel/cpu/scatter_grid/scatter_gridder_w_dependent_dyn_1p.cpp, as
    values. A sample reads the same footprint cells, through the same
    pixels, as it would write in the grid direction: its taps are the
    deposits of a unit visibility, row `su` after row `su`. */
module DegridTaps {
  import opened Complex
  import opened Common
  import opened Accumulate
  import opened Gather
  import opened ScatterDeposits

  /** A visibility of one for every sample. */
  function UnitVis(k: Kernel): (u: seq<seq<Complex>>)
    ensures VisShaped(k, u)
    ensures forall bl, n :: 0 <= bl < |k.uvw| && 0 <= n < k.tsCh ==> u[bl][n] == One
  {
    seq(|k.uvw|, bl => seq(k.tsCh, n => One))
  }

  /** The reads of footprint rows `su < s` of sample `p`. */
  function Taps(k: Kernel, p: Point, supp: int, s: int): seq<Deposit>
    requires 0 <= k.gridSize <= k.gridPitch && 0 <= s <= supp
    decreases s
  {
    if s == 0 then [] else Taps(k, p, supp, s - 1) + SampleRow(k, One, p, supp, s - 1)
  }

  /** The value the kernel leaves in `vis[bl][n]` for sample `p` of a
      baseline with support `supp`: zero, plus every tap in loop order. */
  function Degridded(k: Kernel, g: seq<Complex>, p: Point, supp: int): Complex
    requires 0 <= k.gridSize <= k.gridPitch && 0 <= supp
  {
    GatherFrom(Zero, g, Taps(k, p, supp, supp))
  }

  lemma {:induction false} TapsDropped(k: Kernel, p: Point, supp: int, s: int)
    requires 0 <= k.gridSize <= k.gridPitch && 0 <= s <= supp
    requires NotInbound(p, supp, k.gridSize)
    ensures Taps(k, p, supp, s) == []
    decreases s
  {
    if s > 0 {
      TapsDropped(k, p, supp, s - 1);
    }
  }

  /** A dropped sample's visibility stays zero. */
  lemma DegridDropped(k: Kernel, g: seq<Complex>, p: Point, supp: int)
    requires 0 <= k.gridSize <= k.gridPitch && 0 <= supp
    requires NotInbound(p, supp, k.gridSize)
    ensures Degridded(k, g, p, supp) == Zero
  {
    TapsDropped(k, p, supp, supp);
  }

  lemma {:induction false} TapsLength(k: Kernel, p: Point, supp: int, s: int)
    requires 0 <= k.gridSize <= k.gridPitch && 0 <= s <= supp
    requires !NotInbound(p, supp, k.gridSize)
    ensures |Taps(k, p, supp, s)| == s * supp
    decreases s
  {
    if s > 0 {
      TapsLength(k, p, supp, s - 1);
      TapsLengthStep(k, p, supp, s);
    }
  }

  /** The inductive step of `TapsLength`: one more row of `supp` taps. */
  lemma TapsLengthStep(k: Kernel, p: Point, supp: int, s: int)
    requires 0 <= k.gridSize <= k.gridPitch && 0 < s <= supp
    requires !NotInbound(p, supp, k.gridSize)
    requires |Taps(k, p, supp, s - 1)| == (s - 1) * supp
    ensures |Taps(k, p, supp, s)| == s * supp
  {
    MulAddRight(supp, s - 1, 1);
  }

  /** Tap `su * supp + sv` of a kept sample reads grid cell
      `(u + su, v + sv)` through pixel `(su, sv)`. */
  lemma {:induction false} TapsAt(k: Kernel, p: Point, supp: int, s: int, su: int, sv: int)
    requires 0 <= k.gridSize <= k.gridPitch && 0 <= s <= supp
    requires !NotInbound(p, supp, k.gridSize)
    requires 0 <= su < s && 0 <= sv < supp
    ensures su * supp + sv < |Taps(k, p, supp, s)|
    ensures Taps(k, p, supp, s)[su * supp + sv]
         == Deposit(Cell(k, p.u + su, p.v + sv), Pixel(k, p, supp, su, sv))
    decreases s
  {
    TapsLength(k, p, supp, s);
    TapsLength(k, p, supp, s - 1);
    CellBound(su, sv, s, supp);
    var prev := Taps(k, p, supp, s - 1);
    var row := SampleRow(k, One, p, supp, s - 1);
    assert Taps(k, p, supp, s) == prev + row;
    if su < s - 1 {
      TapsAt(k, p, supp, s - 1, su, sv);
      assert (prev + row)[su * supp + sv] == prev[su * supp + sv];
    } else {
      assert su * supp + sv - |prev| == sv;
      RowDepositAt(k, One, p, supp, su, supp, sv);
      OneMul(Pixel(k, p, supp, su, sv));
    }
  }

  lemma {:induction false} TapsWithin(k: Kernel, p: Point, supp: int, s: int)
    requires 0 <= k.gridSize <= k.gridPitch && 0 <= s <= supp
    ensures CellsWithin(Taps(k, p, supp, s), Siz(k))
    decreases s
  {
    if s > 0 {
      TapsWithin(k, p, supp, s - 1);
      if !NotInbound(p, supp, k.gridSize) {
        RowWithin(k, One, p, supp, s - 1, supp);
      }
      CellsWithinConcat(Taps(k, p, supp, s - 1), SampleRow(k, One, p, supp, s - 1), Siz(k));
    }
  }

  /** Degridding reads only the `grid_size * grid_pitch` cells of the
      grid: grids that agree there give every sample the same value. */
  lemma DegridReadsGrid(k: Kernel, g: seq<Complex>, h: seq<Complex>, p: Point, supp: int)
    requires 0 <= k.gridSize <= k.gridPitch && 0 <= supp
    requires Siz(k) <= |g| && Siz(k) <= |h|
    requires forall c :: 0 <= c < Siz(k) ==> g[c] == h[c]
    ensures Degridded(k, g, p, supp) == Degridded(k, h, p, supp)
  {
    TapsWithin(k, p, supp, supp);
    GatherFromLocal(Zero, g, h, Taps(k, p, supp, supp), Siz(k));
  }
}
