/** The imperative PSF kernels of
    MS3/Sketches/CPU_Gridders/scatter_psf_w_dependent_dyn.cpp:
    `psfiKernel_scatter`, its 256-bit `addGrids`, and
    `psfiKernel_scatter_full`, proved against the deposit lists of
    `PsfDeposits`. */
module PsfKernel {
  import opened Complex
  import opened Common
  import opened Accumulate
  import opened Reduction
  import opened GridSlices
  import opened ScatterKernel
  import opened ScatterFull
  import opened PsfDeposits

  /** The `sv` loop of sample `p` in footprint row `su`: `supp` updates
      `grid[u + su][v + sv] += pixel`, with no bounds test. */
  method PsfScatterRow(k: Psf, p: Pregridded, supp: int, su: int, grids: array<Complex>, base: int)
    requires 0 <= k.gridSize <= k.gridPitch
    requires Scatterable(k, p, supp) && 0 <= su < supp
    requires 0 <= base && base + k.gridSize * k.gridPitch <= grids.Length
    modifies grids
    ensures grids[..] == ApplyAll(old(grids[..]), base, PsfRow(k, p, supp, su, supp))
  {
    ghost var g0 := grids[..];
    ghost var row := PsfRow(k, p, supp, su, supp);
    var sv := 0;
    while sv < supp
      invariant 0 <= sv <= supp
      invariant grids[..] == ApplyAll(g0, base, row[..sv])
    {
      var gsu, gsv := p.u + su, p.v + sv;
      PsfScatterStep(k, p, supp, su, sv, g0, base, grids[..], row);
      var index := p.gcfLayerIndex;
      var supportPixel;
      if k.isHalfGcf {
        if index < 0 {
          supportPixel := Conj(k.gcf[-index][su * supp + sv]);
        } else {
          supportPixel := k.gcf[index][su * supp + sv];
        }
      } else {
        supportPixel := k.gcf[index][su * supp + sv];
      }
      var c := base + gsu * k.gridPitch + gsv;
      grids[c] := Add(grids[c], supportPixel);
      sv := sv + 1;
    }
    assert row[..supp] == row;
  }

  /** The sample loop of footprint row `su` of baseline `bl`: each sample
      is converted by `cvt::pre`, then scattered. */
  method PsfScatterSamples(k: Psf, bl: int, su: int, grids: array<Complex>, base: int)
    requires 0 <= k.gridSize <= k.gridPitch
    requires BlOk(k, bl) && 0 <= su < PsfSupp(k, bl)
    requires 0 <= base && base + k.gridSize * k.gridPitch <= grids.Length
    modifies grids
    ensures grids[..] == ApplyAll(old(grids[..]), base, PsfSamples(k, bl, su, k.tsCh))
  {
    var supp := GetSupp(k.permutations[bl].wp);
    var i := 0;
    while i < k.tsCh
      invariant 0 <= i <= k.tsCh
      invariant grids[..] == ApplyAll(old(grids[..]), base, PsfSamples(k, bl, su, i))
    {
      var p := CvtPre(k, SampleAt(k, bl, i));
      ghost var row := PsfRow(k, p, supp, su, supp);
      PsfScatterRow(k, p, supp, su, grids, base);
      ApplyAllConcat(old(grids[..]), base, PsfSamples(k, bl, su, i), row);
      i := i + 1;
    }
  }

  /** One iteration of the `bl0` loop: the baseline it selects, its
      support, and the `su`, sample, `sv` loops. */
  method PsfScatterBaseline(k: Psf, bl0: int, grids: array<Complex>, base: int)
    requires PsfWellFormed(k) && 0 <= bl0 < k.baselines
    requires 0 <= base && base + k.gridSize * k.gridPitch <= grids.Length
    modifies grids
    ensures grids[..] == ApplyAll(old(grids[..]), base, PsfBatches(k)[bl0])
  {
    var bl;
    if k.usePermutations {
      bl := k.permutations[bl0].bl;
    } else {
      bl := bl0;
    }
    assert bl == Sel(k, bl0) && BlOk(k, bl);
    var maxSuppHere := GetSupp(k.permutations[bl].wp);
    var su := 0;
    while su < maxSuppHere
      invariant 0 <= su <= maxSuppHere
      invariant grids[..] == ApplyAll(old(grids[..]), base, PsfBlUpTo(k, bl, su))
    {
      ghost var rows := PsfSamples(k, bl, su, k.tsCh);
      PsfScatterSamples(k, bl, su, grids, base);
      ApplyAllConcat(old(grids[..]), base, PsfBlUpTo(k, bl, su), rows);
      su := su + 1;
    }
  }

  /** The dynamically scheduled `bl0` loop, as seen by thread `tno`: the
      loop indices it owns, in increasing order. */
  method PsfScatterOwned(k: Psf, grids: array<Complex>, base: int, tno: int, owner: seq<int>)
    requires PsfWellFormed(k) && |owner| == k.baselines
    requires 0 <= base && base + k.gridSize * k.gridPitch <= grids.Length
    modifies grids
    ensures grids[..] == ApplyAll(old(grids[..]), base, Owned(PsfBatches(k), owner, tno, k.baselines))
  {
    ghost var bs := PsfBatches(k);
    var bl0 := 0;
    while bl0 < k.baselines
      invariant 0 <= bl0 <= k.baselines
      invariant grids[..] == ApplyAll(old(grids[..]), base, Owned(bs, owner, tno, bl0))
    {
      if owner[bl0] == tno {
        PsfScatterBaseline(k, bl0, grids, base);
        ApplyAllConcat(old(grids[..]), base, Owned(bs, owner, tno, bl0), bs[bl0]);
      } else {
        assert Owned(bs, owner, tno, bl0 + 1) == Owned(bs, owner, tno, bl0);
      }
      bl0 := bl0 + 1;
    }
  }

  /** Thread `tno`'s part of `psfiKernel_scatter`: zero its slice
      `grids[tno * siz .. (tno + 1) * siz)`, then grid the loop indices the
      schedule gives it. The slice ends up holding, cell by cell, the sum
      of that thread's updates; nothing outside the slice changes. */
  method PsfKernelScatter(k: Psf, grids: array<Complex>, tno: int, owner: seq<int>)
    requires PsfWellFormed(k) && |owner| == k.baselines
    requires 0 <= tno && tno * (k.gridSize * k.gridPitch) + k.gridSize * k.gridPitch <= grids.Length
    modifies grids
    ensures 0 <= tno * (k.gridSize * k.gridPitch) && 0 <= k.gridSize * k.gridPitch
    ensures grids[..] == Splice(old(grids[..]), tno * (k.gridSize * k.gridPitch),
                                ThreadGrid(PsfBatches(k), owner, tno, k.gridSize * k.gridPitch))
  {
    var siz := k.gridSize * k.gridPitch;
    MulPos(k.gridSize, k.gridPitch);
    MulPos(tno, siz);
    var base := tno * siz;
    ZeroSlice(grids, base, siz);
    PsfScatterOwned(k, grids, base, tno, owner);
    ghost var bs := PsfBatches(k);
    PsfBatchesWithin(k);
    OwnedWithin(bs, owner, tno, |bs|, siz);
    ApplyAllZeroed(old(grids[..]), base, siz, Owned(bs, owner, tno, |bs|));
  }

  /** The `omp parallel` region of `psfiKernel_scatter`, one thread after
      another. */
  method PsfRunThreads(k: Psf, tmpgrids: array<Complex>, nthreads: int, owner: seq<int>)
    requires PsfWellFormed(k) && |owner| == k.baselines
    requires 1 <= nthreads && tmpgrids.Length == nthreads * (k.gridSize * k.gridPitch)
    modifies tmpgrids
    ensures 0 <= k.gridSize * k.gridPitch
    ensures tmpgrids[..] == ThreadGrids(PsfBatches(k), owner, k.gridSize * k.gridPitch, nthreads)
  {
    var siz := k.gridSize * k.gridPitch;
    MulPos(k.gridSize, k.gridPitch);
    ghost var bs := PsfBatches(k);
    var tno := 0;
    while tno < nthreads
      invariant 0 <= tno <= nthreads
      invariant SlicesDone(tmpgrids[..], bs, owner, siz, tno)
    {
      ghost var before := tmpgrids[..];
      MulLe(tno + 1, nthreads, siz);
      PsfKernelScatter(k, tmpgrids, tno, owner);
      SlicesDoneStep(before, tmpgrids[..], bs, owner, siz, tno);
      tno := tno + 1;
    }
    ThreadGridsLength(bs, owner, siz, nthreads);
    assert tmpgrids[..] == tmpgrids[..nthreads * siz];
  }

  /** This file's `addGrids`, on `__m256d` vectors of two `complexd`: the
      loop runs to `siz * sizeof(complexd) / 32`, that is `siz / 2`,
      and vector `i` sums cells `2 i` and `2 i + 1`. For odd `siz` the last
      cell is not written. */
  method AddGridsAvx(dst: array<Complex>, srcs: array<Complex>, nthreads: int, gridPitch: int, gridSize: int)
    requires dst != srcs && 1 <= nthreads && 0 <= gridSize * gridPitch
    requires gridSize * gridPitch <= dst.Length && nthreads * (gridSize * gridPitch) <= srcs.Length
    modifies dst
    ensures forall c :: 0 <= c < 2 * (gridSize * gridPitch / 2) ==>
              dst[c] == SliceSum(srcs[..], gridSize * gridPitch, nthreads, c)
    ensures forall c :: 2 * (gridSize * gridPitch / 2) <= c < dst.Length ==> dst[c] == old(dst[c])
  {
    var siz := gridSize * gridPitch;
    var vectors := siz * 16 / 32;
    assert vectors == siz / 2;
    var i := 0;
    while i < vectors
      invariant 0 <= i <= vectors
      invariant forall c :: 0 <= c < 2 * i ==> dst[c] == SliceSum(srcs[..], siz, nthreads, c)
      invariant forall c :: 2 * i <= c < dst.Length ==> dst[c] == old(dst[c])
    {
      var lo := CellSum(srcs, siz, nthreads, 2 * i);
      var hi := CellSum(srcs, siz, nthreads, 2 * i + 1);
      dst[2 * i] := lo;
      dst[2 * i + 1] := hi;
      i := i + 1;
    }
  }

  /** `psfiKernel_scatter_full` with OpenMP: `grid` is zeroed, the threads
      scatter into their own slices of `tmpgrids`, and the slices are
      summed into `grid`. Whatever the schedule, as long as it hands every
      loop index to one of the `nthreads` threads, every cell the vector
      loop covers holds the sum of all updates at that cell; the last
      cell of an odd-sized grid stays zero; the rest of `grid` is
      untouched. */
  method PsfiKernelScatterFull(k: Psf, grid: array<Complex>, nthreads: int, owner: seq<int>)
    requires PsfWellFormed(k) && |owner| == k.baselines
    requires 1 <= nthreads && forall bl0 :: 0 <= bl0 < |owner| ==> 0 <= owner[bl0] < nthreads
    requires k.gridSize * k.gridPitch <= grid.Length
    modifies grid
    ensures forall c :: 0 <= c < 2 * (k.gridSize * k.gridPitch / 2) ==>
              grid[c] == SumAt(Flatten(PsfBatches(k), k.baselines), c)
    ensures forall c :: 2 * (k.gridSize * k.gridPitch / 2) <= c < k.gridSize * k.gridPitch ==> grid[c] == Zero
    ensures forall c :: k.gridSize * k.gridPitch <= c < grid.Length ==> grid[c] == old(grid[c])
  {
    var siz := k.gridSize * k.gridPitch;
    MulPos(k.gridSize, k.gridPitch);
    MulPos(siz, nthreads);
    ghost var bs := PsfBatches(k);
    ZeroSlice(grid, 0, siz);
    var tmpgrids := new Complex[siz * nthreads];
    PsfRunThreads(k, tmpgrids, nthreads, owner);
    AddGridsAvx(grid, tmpgrids, nthreads, k.gridPitch, k.gridSize);
    forall c | 0 <= c < 2 * (siz / 2)
      ensures grid[c] == SumAt(Flatten(bs, |bs|), c)
    {
      SliceSumThreads(bs, owner, siz, nthreads, c);
      ThreadsCover(bs, owner, nthreads, |bs|, c);
    }
  }
}
