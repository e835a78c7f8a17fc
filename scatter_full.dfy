/** `addGrids` and `gridKernel_scatter_full` of
    MS4/kernel/cpu/scatter_grid/scatter_gridder_w_dependent_dyn_1p.cpp:
    every thread grids its baselines into its own slice of `tmpgrids` and
    counts into its own counter, the slices are summed into `grid`, and
    the counters into `counters[0]`. The threads run one after another
    here; their slices and counters are disjoint. */
module ScatterFull {
  import opened Complex
  import opened Common
  import opened Accumulate
  import opened Reduction
  import opened ScatterDeposits
  import opened GridSlices
  import opened ScatterKernel

  /** The inner loop of `addGrids`: `srcs[i]` plus cell `i` of slices
      `1 .. nthreads - 1`, in that order. */
  method CellSum(srcs: array<Complex>, siz: int, nthreads: int, i: int) returns (sum: Complex)
    requires 1 <= nthreads && 0 <= i < siz && nthreads * siz <= srcs.Length
    ensures sum == SliceSum(srcs[..], siz, nthreads, i)
  {
    CellBound(0, i, nthreads, siz);
    sum := srcs[i];
    var g := 1;
    while g < nthreads
      invariant 1 <= g <= nthreads
      invariant g * siz <= srcs.Length
      invariant sum == SliceSum(srcs[..], siz, g, i)
    {
      CellBound(g, i, nthreads, siz);
      MulLe(g + 1, nthreads, siz);
      sum := Add(sum, srcs[g * siz + i]);
      g := g + 1;
    }
  }

  /** `addGrids`: `dst[i]` becomes the sum of cell `i` of the `nthreads`
      slices of `srcs`, for every `i < grid_size * grid_pitch`; the rest of
      `dst` is untouched. */
  method AddGrids(dst: array<Complex>, srcs: array<Complex>, nthreads: int, gridPitch: int, gridSize: int)
    requires dst != srcs && 1 <= nthreads
    requires gridSize * gridPitch <= dst.Length && nthreads * (gridSize * gridPitch) <= srcs.Length
    modifies dst
    ensures forall i :: 0 <= i < gridSize * gridPitch ==> dst[i] == SliceSum(srcs[..], gridSize * gridPitch, nthreads, i)
    ensures forall i :: 0 <= i < dst.Length && !(i < gridSize * gridPitch) ==> dst[i] == old(dst[i])
  {
    var siz := gridSize * gridPitch;
    var i := 0;
    while i < siz
      invariant 0 <= i && (i == 0 || i <= siz)
      invariant forall j :: 0 <= j < i ==> dst[j] == SliceSum(srcs[..], siz, nthreads, j)
      invariant forall j :: i <= j < dst.Length ==> dst[j] == old(dst[j])
    {
      dst[i] := CellSum(srcs, siz, nthreads, i);
      i := i + 1;
    }
  }

  /** The thread loop: thread `tno` runs `gridKernel_scatter` on its slice
      and its counter. */
  method RunThreads(k: Kernel, vis: seq<seq<Complex>>, tmpgrids: array<Complex>, counters: array<int>,
                    nthreads: int, owner: seq<int>)
    requires WellFormed(k) && VisShaped(k, vis) && |owner| == |k.uvw|
    requires 1 <= nthreads && counters.Length == nthreads && tmpgrids.Length == nthreads * Siz(k)
    modifies tmpgrids, counters
    ensures 0 <= Siz(k) && tmpgrids[..] == ThreadGrids(Batches(k, vis), owner, Siz(k), nthreads)
    ensures forall t :: 0 <= t < nthreads ==> counters[t] == |Owned(Batches(k, vis), owner, t, |k.uvw|)|
  {
    var siz := k.gridSize * k.gridPitch;
    MulPos(k.gridSize, k.gridPitch);
    ghost var bs := Batches(k, vis);
    var tno := 0;
    while tno < nthreads
      invariant 0 <= tno <= nthreads
      invariant SlicesDone(tmpgrids[..], bs, owner, siz, tno)
      invariant forall t :: 0 <= t < tno ==> counters[t] == |Owned(bs, owner, t, |bs|)|
    {
      ghost var before := tmpgrids[..];
      MulLe(tno + 1, nthreads, siz);
      var c := GridKernelScatter(k, vis, tmpgrids, tno, owner);
      counters[tno] := c;
      SlicesDoneStep(before, tmpgrids[..], bs, owner, siz, tno);
      tno := tno + 1;
    }
    ThreadGridsLength(bs, owner, siz, nthreads);
    assert tmpgrids[..] == tmpgrids[..nthreads * siz];
  }

  /** `for (i = 1; i < nthreads; i++) counters[0] += counters[i]`. */
  method SumCounters(counters: array<int>, ghost bs: seq<seq<Deposit>>, ghost owner: seq<int>) returns (total: int)
    requires |owner| == |bs| && 1 <= counters.Length
    requires forall t :: 0 <= t < counters.Length ==> counters[t] == |Owned(bs, owner, t, |bs|)|
    modifies counters
    ensures total == counters[0] == ThreadCount(bs, owner, counters.Length, |bs|)
  {
    var i := 1;
    while i < counters.Length
      invariant 1 <= i <= counters.Length
      invariant counters[0] == ThreadCount(bs, owner, i, |bs|)
      invariant forall t :: i <= t < counters.Length ==> counters[t] == old(counters[t])
    {
      counters[0] := counters[0] + counters[i];
      i := i + 1;
    }
    total := counters[0];
  }

  /** `gridKernel_scatter_full`: whatever the schedule, as long as it hands
      every baseline to one of the `nthreads` threads, cell `c` of the
      grid ends up holding the sum of all deposits the baselines make at
      `c`, the rest of `grid` is untouched, and the returned count is the
      number of pixel visits, `supp * supp` per kept sample. */
  method GridKernelScatterFull(k: Kernel, vis: seq<seq<Complex>>, grid: array<Complex>, nthreads: int, owner: seq<int>)
    returns (count: int)
    requires WellFormed(k) && VisShaped(k, vis) && |owner| == |k.uvw|
    requires 1 <= nthreads && forall bl :: 0 <= bl < |owner| ==> 0 <= owner[bl] < nthreads
    requires Siz(k) <= grid.Length
    modifies grid
    ensures forall c :: 0 <= c < Siz(k) ==> grid[c] == SumAt(Flatten(Batches(k, vis), |k.uvw|), c)
    ensures forall c :: Siz(k) <= c < grid.Length ==> grid[c] == old(grid[c])
    ensures count == VisitsUpTo(k, |k.uvw|)
  {
    var siz := k.gridSize * k.gridPitch;
    MulPos(k.gridSize, k.gridPitch);
    MulPos(siz, nthreads);
    ghost var bs := Batches(k, vis);
    var counters := new int[nthreads];
    ZeroSlice(grid, 0, siz);
    var tmpgrids := new Complex[siz * nthreads];
    RunThreads(k, vis, tmpgrids, counters, nthreads, owner);
    AddGrids(grid, tmpgrids, nthreads, k.gridPitch, k.gridSize);
    forall c | 0 <= c < siz
      ensures grid[c] == SumAt(Flatten(bs, |bs|), c)
    {
      SliceSumThreads(bs, owner, siz, nthreads, c);
      ThreadsCover(bs, owner, nthreads, |bs|, c);
    }
    count := SumCounters(counters, bs, owner);
    ThreadCountCover(bs, owner, nthreads, |bs|);
    VisitsCount(k, vis, |bs|);
  }
}
