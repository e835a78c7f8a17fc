/** The imperative kernels of
    MS4/kernel/cpu/scatter_grid/scatter_gridder_w_dependent_dyn_1p.cpp:
    `gridKernel_scatter` in both directions, `addGrids`, the counter
    reduction of `gridKernel_scatter_full`, and the utilities `grid0`,
    `normalizeCPU` and `reweight`. Grids are flat arrays indexed
    `row * grid_pitch + col`; each kernel is proved against the deposit
    lists of `ScatterDeposits`. */
module ScatterKernel {
  import opened Complex
  import opened Common
  import opened Accumulate
  import opened Reduction
  import opened ScatterDeposits
  import opened GridSlices

  /** One pass of the `sv` loop on a buffer that holds the first `sv`
      updates of the row `row`: the pixel and the cell are inside their
      arrays, and adding `vis * pixel` to that cell gives the first
      `sv + 1`. */
  lemma ScatterStep(k: Kernel, x: Complex, p: Point, supp: int, su: int, sv: int, r: Resolved,
                    g0: seq<Complex>, base: int, g: seq<Complex>, row: seq<Deposit>)
    requires 0 <= k.gridSize <= k.gridPitch
    requires SampleReadable(k, p, supp) && r == Resolve(k, p, supp) && !r.notInbound
    requires 0 <= su < supp && 0 <= sv < supp
    requires 0 <= base && base + Siz(k) <= |g0|
    requires row == RowDeposits(k, x, p, supp, su, supp)
    requires g == ApplyAll(g0, base, row[..sv])
    ensures r.layer in k.gcf && 0 <= r.base + su * r.gcfSupp + sv < |k.gcf[r.layer]|
    ensures 0 <= base + Cell(k, p.u + su, p.v + sv) < |g|
    ensures var layer := k.gcf[r.layer];
            var px := if r.conj then Conj(layer[r.base + su * r.gcfSupp + sv]) else layer[r.base + su * r.gcfSupp + sv];
            var c := base + Cell(k, p.u + su, p.v + sv);
            ApplyAll(g0, base, row[..sv + 1]) == g[c := Add(g[c], Mul(x, px))]
  {
    RowStep(k, x, p, supp, su, sv, r);
    RowDepositsPrefix(k, x, p, supp, su, sv + 1, supp);
    RowDepositsPrefix(k, x, p, supp, su, sv, supp);
    ApplyAllSnoc(g0, base, RowDeposits(k, x, p, supp, su, sv),
                 Deposit(Cell(k, p.u + su, p.v + sv), Mul(x, Pixel(k, p, supp, su, sv))));
  }

  /** The `sv` loop for sample `p` in footprint row `su`: skipped entirely
      when the sample is out of bounds, otherwise `supp` updates
      `grid[u + su][v + sv] += vis * pixel` and as many counter steps. */
  method ScatterRow(k: Kernel, x: Complex, p: Point, supp: int, su: int, r: Resolved,
                    grids: array<Complex>, base: int) returns (visits: int)
    requires 0 <= k.gridSize <= k.gridPitch
    requires SampleReadable(k, p, supp) && r == Resolve(k, p, supp)
    requires 0 <= su < supp
    requires 0 <= base && base + Siz(k) <= grids.Length
    modifies grids
    ensures grids[..] == ApplyAll(old(grids[..]), base, SampleRow(k, x, p, supp, su))
    ensures visits == |SampleRow(k, x, p, supp, su)|
  {
    ghost var g0 := grids[..];
    ghost var row := SampleRow(k, x, p, supp, su);
    visits := 0;
    var sv := 0;
    while sv < supp
      invariant 0 <= sv <= supp
      invariant r.notInbound ==> grids[..] == g0 && visits == 0
      invariant !r.notInbound ==> grids[..] == ApplyAll(g0, base, row[..sv]) && visits == sv
    {
      var gsu, gsv := p.u + su, p.v + sv;
      if r.notInbound {
        sv := sv + 1;
        continue;
      }
      ScatterStep(k, x, p, supp, su, sv, r, g0, base, grids[..], row);
      var layer := k.gcf[r.layer];
      var px := if r.conj then Conj(layer[r.base + su * r.gcfSupp + sv]) else layer[r.base + su * r.gcfSupp + sv];
      var c := base + Cell(k, gsu, gsv);
      grids[c] := Add(grids[c], Mul(x, px));
      visits := visits + 1;
      sv := sv + 1;
    }
    assert !r.notInbound ==> row[..supp] == row;
  }

  /** The per-sample pass of one baseline: the resolved layer, the
      correction and the bounds test of every sample, cached in an array
      (`gcflp`, `gcfsupp`, `not_inbound`). */
  method ResolveSamples(k: Kernel, bl: int) returns (res: array<Resolved>)
    requires WellFormed(k) && 0 <= bl < |k.uvw|
    ensures fresh(res) && res.Length == k.tsCh
    ensures forall n :: 0 <= n < k.tsCh ==> res[n] == Resolve(k, k.uvw[bl][n], k.blSupps[bl])
  {
    var supp := k.blSupps[bl];
    res := new Resolved[k.tsCh];
    var n := 0;
    while n < k.tsCh
      invariant 0 <= n <= k.tsCh
      invariant forall m :: 0 <= m < n ==> res[m] == Resolve(k, k.uvw[bl][m], supp)
    {
      assert SampleReadable(k, k.uvw[bl][n], supp);
      res[n] := Resolve(k, k.uvw[bl][n], supp);
      n := n + 1;
    }
  }

  /** Scattering row `su` of sample `i` after the rows of the samples
      before it replays the rows of the first `i + 1` samples. */
  lemma ScatterSampleStep(k: Kernel, vis: seq<seq<Complex>>, bl: int, su: int, i: int, base: int,
                          g0: seq<Complex>, cur: seq<Complex>, next: seq<Complex>)
    requires WellFormed(k) && VisShaped(k, vis) && 0 <= bl < |k.uvw| && 0 <= su < k.blSupps[bl] && 0 <= i < k.tsCh
    requires cur == ApplyAll(g0, base, SamplesUpTo(k, vis, bl, su, i))
    requires next == ApplyAll(cur, base, SampleRow(k, vis[bl][i], k.uvw[bl][i], k.blSupps[bl], su))
    ensures next == ApplyAll(g0, base, SamplesUpTo(k, vis, bl, su, i + 1))
    ensures |SamplesUpTo(k, vis, bl, su, i + 1)|
         == |SamplesUpTo(k, vis, bl, su, i)| + |SampleRow(k, vis[bl][i], k.uvw[bl][i], k.blSupps[bl], su)|
  {
    ApplyAllConcat(g0, base, SamplesUpTo(k, vis, bl, su, i), SampleRow(k, vis[bl][i], k.uvw[bl][i], k.blSupps[bl], su));
  }

  /** The sample loop for footprint row `su` of baseline `bl`. */
  method ScatterSamples(k: Kernel, vis: seq<seq<Complex>>, bl: int, su: int, res: array<Resolved>,
                        grids: array<Complex>, base: int) returns (visits: int)
    requires WellFormed(k) && VisShaped(k, vis) && 0 <= bl < |k.uvw| && 0 <= su < k.blSupps[bl]
    requires res.Length == k.tsCh
    requires forall n :: 0 <= n < k.tsCh ==> res[n] == Resolve(k, k.uvw[bl][n], k.blSupps[bl])
    requires 0 <= base && base + Siz(k) <= grids.Length
    modifies grids
    ensures grids[..] == ApplyAll(old(grids[..]), base, SamplesUpTo(k, vis, bl, su, k.tsCh))
    ensures visits == |SamplesUpTo(k, vis, bl, su, k.tsCh)|
  {
    var supp := k.blSupps[bl];
    visits := 0;
    var i := 0;
    while i < k.tsCh
      invariant 0 <= i <= k.tsCh
      invariant grids[..] == ApplyAll(old(grids[..]), base, SamplesUpTo(k, vis, bl, su, i))
      invariant visits == |SamplesUpTo(k, vis, bl, su, i)|
    {
      var p := k.uvw[bl][i];
      assert SampleReadable(k, p, supp);
      ghost var cur := grids[..];
      var c := ScatterRow(k, vis[bl][i], p, supp, su, res[i], grids, base);
      ScatterSampleStep(k, vis, bl, su, i, base, old(grids[..]), cur, grids[..]);
      visits := visits + c;
      i := i + 1;
    }
  }

  /** One baseline: the per-sample pass, then the `su`, sample, `sv`
      loops. */
  method ScatterBaseline(k: Kernel, vis: seq<seq<Complex>>, bl: int, grids: array<Complex>, base: int)
    returns (visits: int)
    requires WellFormed(k) && VisShaped(k, vis) && 0 <= bl < |k.uvw|
    requires 0 <= base && base + Siz(k) <= grids.Length
    modifies grids
    ensures grids[..] == ApplyAll(old(grids[..]), base, BlDeposits(k, vis, bl))
    ensures visits == |BlDeposits(k, vis, bl)|
  {
    var res := ResolveSamples(k, bl);
    visits := 0;
    var su := 0;
    while su < k.blSupps[bl]
      invariant 0 <= su <= k.blSupps[bl]
      modifies grids
      invariant grids[..] == ApplyAll(old(grids[..]), base, BlUpTo(k, vis, bl, su))
      invariant visits == |BlUpTo(k, vis, bl, su)|
    {
      ghost var rows := SamplesUpTo(k, vis, bl, su, k.tsCh);
      var c := ScatterSamples(k, vis, bl, su, res, grids, base);
      ApplyAllConcat(old(grids[..]), base, BlUpTo(k, vis, bl, su), rows);
      visits := visits + c;
      su := su + 1;
    }
  }

  /** `memset(_grid, 0, sizeof(complexd) * siz)` on the slice at `base`. */
  method ZeroSlice(grids: array<Complex>, base: int, siz: nat)
    requires 0 <= base && base + siz <= grids.Length
    modifies grids
    ensures grids[..] == Splice(old(grids[..]), base, Zeros(siz))
  {
    var j := 0;
    while j < siz
      invariant 0 <= j <= siz
      invariant forall c :: 0 <= c < grids.Length ==> grids[c] == if base <= c < base + j then Zero else old(grids[c])
    {
      grids[base + j] := Zero;
      j := j + 1;
    }
  }

  /** The dynamically scheduled baseline loop, as seen by thread `tno`: the
      baselines it owns, in increasing order. */
  method GridOwned(k: Kernel, vis: seq<seq<Complex>>, grids: array<Complex>, base: int, tno: int, owner: seq<int>)
    returns (visits: int)
    requires WellFormed(k) && VisShaped(k, vis) && |owner| == |k.uvw|
    requires 0 <= base && base + Siz(k) <= grids.Length
    modifies grids
    ensures grids[..] == ApplyAll(old(grids[..]), base, Owned(Batches(k, vis), owner, tno, |k.uvw|))
    ensures visits == |Owned(Batches(k, vis), owner, tno, |k.uvw|)|
  {
    ghost var bs := Batches(k, vis);
    visits := 0;
    var bl := 0;
    while bl < |k.uvw|
      invariant 0 <= bl <= |k.uvw|
      invariant grids[..] == ApplyAll(old(grids[..]), base, Owned(bs, owner, tno, bl))
      invariant visits == |Owned(bs, owner, tno, bl)|
    {
      ghost var cur := grids[..];
      if owner[bl] == tno {
        var c := ScatterBaseline(k, vis, bl, grids, base);
        visits := visits + c;
      }
      OwnedStep(bs, owner, tno, bl, base, old(grids[..]), cur, grids[..]);
      bl := bl + 1;
    }
  }

  /** Baseline `bl` of the baseline loop: replayed when thread `tno` owns
      it, skipped otherwise. */
  lemma OwnedStep(bs: seq<seq<Deposit>>, owner: seq<int>, tno: int, bl: int, base: int,
                  g0: seq<Complex>, cur: seq<Complex>, next: seq<Complex>)
    requires |owner| == |bs| && 0 <= bl < |bs|
    requires cur == ApplyAll(g0, base, Owned(bs, owner, tno, bl))
    requires next == if owner[bl] == tno then ApplyAll(cur, base, bs[bl]) else cur
    ensures next == ApplyAll(g0, base, Owned(bs, owner, tno, bl + 1))
    ensures |Owned(bs, owner, tno, bl + 1)| == |Owned(bs, owner, tno, bl)| + if owner[bl] == tno then |bs[bl]| else 0
  {
    if owner[bl] == tno {
      ApplyAllConcat(g0, base, Owned(bs, owner, tno, bl), bs[bl]);
    }
  }

  /** Thread `tno`'s part of `gridKernel_scatter`: zero its slice
      `grids[tno * siz .. (tno + 1) * siz)` and its counter, then grid the
      baselines the schedule gives it. The slice ends up holding, cell by
      cell, the sum of that thread's deposits; nothing outside the slice
      changes. */
  method GridKernelScatter(k: Kernel, vis: seq<seq<Complex>>, grids: array<Complex>, tno: int, owner: seq<int>)
    returns (visits: int)
    requires WellFormed(k) && VisShaped(k, vis) && |owner| == |k.uvw|
    requires 0 <= tno && tno * Siz(k) + Siz(k) <= grids.Length
    modifies grids
    ensures 0 <= tno * Siz(k) && 0 <= Siz(k)
    ensures grids[..] == Splice(old(grids[..]), tno * Siz(k), ThreadGrid(Batches(k, vis), owner, tno, Siz(k)))
    ensures visits == |Owned(Batches(k, vis), owner, tno, |k.uvw|)|
  {
    var siz := k.gridSize * k.gridPitch;
    MulPos(k.gridSize, k.gridPitch);
    MulPos(tno, siz);
    var base := tno * siz;
    ZeroSlice(grids, base, siz);
    visits := GridOwned(k, vis, grids, base, tno, owner);
    ghost var bs := Batches(k, vis);
    BatchesWithin(k, vis);
    OwnedWithin(bs, owner, tno, |bs|, siz);
    ApplyAllZeroed(old(grids[..]), base, siz, Owned(bs, owner, tno, |bs|));
  }
}
