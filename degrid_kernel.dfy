/** `gridKernel_scatter` compiled with `__DEGRID`, and
    `deGridKernel_scatter_full`, of
    MS4/kernel/cpu/scatter_grid/scatter_gridder_w_dependent_dyn_1p.cpp: the
    grid is only read, and each sample's visibility is cleared and then
    accumulates `grid[u + su][v + sv] * pixel` over its footprint. `vis`
    holds one row per baseline; threads own whole baselines, so they write
    disjoint rows. */
module DegridKernel {
  import opened Complex
  import opened Common
  import opened Accumulate
  import opened Gather
  import opened Reduction
  import opened ScatterDeposits
  import opened DegridTaps
  import opened ScatterKernel
  import opened ScatterFull

  /** One pass of the `sv` loop over the row `row` of sample `p`: the
      pixel and the cell are inside their arrays, and adding
      `grid[cell] * pixel` to a visibility that holds the first `sv` taps
      of the row gives the first `sv + 1`. */
  lemma DegridStep(k: Kernel, p: Point, supp: int, su: int, sv: int, r: Resolved,
                   acc: Complex, g: seq<Complex>, row: seq<Deposit>)
    requires 0 <= k.gridSize <= k.gridPitch && Siz(k) <= |g|
    requires SampleReadable(k, p, supp) && r == Resolve(k, p, supp) && !r.notInbound
    requires 0 <= su < supp && 0 <= sv < supp
    requires row == RowDeposits(k, One, p, supp, su, supp)
    ensures r.layer in k.gcf && 0 <= r.base + su * r.gcfSupp + sv < |k.gcf[r.layer]|
    ensures 0 <= Cell(k, p.u + su, p.v + sv) < |g|
    ensures var layer := k.gcf[r.layer];
            var px := if r.conj then Conj(layer[r.base + su * r.gcfSupp + sv]) else layer[r.base + su * r.gcfSupp + sv];
            GatherFrom(acc, g, row[..sv + 1]) == Add(GatherFrom(acc, g, row[..sv]), Mul(g[Cell(k, p.u + su, p.v + sv)], px))
  {
    RowStep(k, One, p, supp, su, sv, r);
    var px := Pixel(k, p, supp, su, sv);
    OneMul(px);
    RowDepositsPrefix(k, One, p, supp, su, sv + 1, supp);
    RowDepositsPrefix(k, One, p, supp, su, sv, supp);
    GatherFromSnoc(acc, g, RowDeposits(k, One, p, supp, su, sv), Deposit(Cell(k, p.u + su, p.v + sv), Mul(One, px)));
  }

  /** The `sv` loop for sample `i` of baseline `bl` in footprint row `su`:
      `vis[i] += grid[u + su][v + sv] * pixel`, skipped when the sample is
      out of bounds. */
  method DegridRow(k: Kernel, grid: array<Complex>, vis: array2<Complex>, bl: int, i: int,
                   p: Point, supp: int, su: int, r: Resolved) returns (visits: int)
    requires 0 <= k.gridSize <= k.gridPitch && Siz(k) <= grid.Length
    requires SampleReadable(k, p, supp) && r == Resolve(k, p, supp)
    requires 0 <= su < supp
    requires 0 <= bl < vis.Length0 && 0 <= i < vis.Length1
    modifies vis
    ensures vis[bl, i] == GatherFrom(old(vis[bl, i]), grid[..], SampleRow(k, One, p, supp, su))
    ensures forall b, n :: 0 <= b < vis.Length0 && 0 <= n < vis.Length1 && (b != bl || n != i)
              ==> vis[b, n] == old(vis[b, n])
    ensures visits == |SampleRow(k, One, p, supp, su)|
  {
    ghost var g, acc := grid[..], vis[bl, i];
    ghost var row := SampleRow(k, One, p, supp, su);
    visits := 0;
    var sv := 0;
    while sv < supp
      invariant 0 <= sv <= supp
      invariant r.notInbound ==> vis[bl, i] == acc && visits == 0
      invariant !r.notInbound ==> vis[bl, i] == GatherFrom(acc, g, row[..sv]) && visits == sv
      invariant forall b, n :: 0 <= b < vis.Length0 && 0 <= n < vis.Length1 && (b != bl || n != i)
                  ==> vis[b, n] == old(vis[b, n])
    {
      var gsu, gsv := p.u + su, p.v + sv;
      if r.notInbound {
        sv := sv + 1;
        continue;
      }
      DegridStep(k, p, supp, su, sv, r, acc, g, row);
      var layer := k.gcf[r.layer];
      var px := if r.conj then Conj(layer[r.base + su * r.gcfSupp + sv]) else layer[r.base + su * r.gcfSupp + sv];
      var c := Cell(k, gsu, gsv);
      vis[bl, i] := Add(vis[bl, i], Mul(grid[c], px));
      visits := visits + 1;
      sv := sv + 1;
    }
    assert g == grid[..];
    assert !r.notInbound ==> row[..supp] == row;
  }

  /** The per-sample pass of one baseline in the degrid direction: every
      visibility of the baseline is cleared, and each sample's layer,
      correction and bounds test are cached. */
  method DegridPrepass(k: Kernel, vis: array2<Complex>, bl: int) returns (res: array<Resolved>)
    requires WellFormed(k) && 0 <= bl < |k.uvw| && vis.Length0 == |k.uvw| && vis.Length1 == k.tsCh
    modifies vis
    ensures fresh(res) && res.Length == k.tsCh
    ensures forall n :: 0 <= n < k.tsCh ==> res[n] == Resolve(k, k.uvw[bl][n], k.blSupps[bl])
    ensures forall n :: 0 <= n < k.tsCh ==> vis[bl, n] == Zero
    ensures forall b, n :: 0 <= b < vis.Length0 && b != bl && 0 <= n < vis.Length1 ==> vis[b, n] == old(vis[b, n])
  {
    var supp := k.blSupps[bl];
    res := new Resolved[k.tsCh];
    var n := 0;
    while n < k.tsCh
      invariant 0 <= n <= k.tsCh
      invariant forall m :: 0 <= m < n ==> res[m] == Resolve(k, k.uvw[bl][m], supp)
      invariant forall m :: 0 <= m < n ==> vis[bl, m] == Zero
      invariant forall b, m :: 0 <= b < vis.Length0 && b != bl && 0 <= m < vis.Length1 ==> vis[b, m] == old(vis[b, m])
    {
      vis[bl, n] := Zero;
      assert SampleReadable(k, k.uvw[bl][n], supp);
      res[n] := Resolve(k, k.uvw[bl][n], supp);
      n := n + 1;
    }
  }

  /** Sample `i` of baseline `bl` reads inside the table, and gathering
      its row `su` extends the rows of the samples before it. */
  lemma DegridSampleStep(k: Kernel, bl: int, su: int, i: int)
    requires WellFormed(k) && 0 <= bl < |k.uvw| && 0 <= su < k.blSupps[bl] && 0 <= i < k.tsCh
    ensures SampleReadable(k, k.uvw[bl][i], k.blSupps[bl])
    ensures SamplesUpTo(k, UnitVis(k), bl, su, i + 1)
         == SamplesUpTo(k, UnitVis(k), bl, su, i) + SampleRow(k, One, k.uvw[bl][i], k.blSupps[bl], su)
  {
  }

  /** The sample loop for footprint row `su` of baseline `bl`: every
      sample of the baseline gathers its row `su`. */
  method DegridSamples(k: Kernel, grid: array<Complex>, vis: array2<Complex>, bl: int, su: int, res: array<Resolved>)
    returns (visits: int)
    requires WellFormed(k) && 0 <= bl < |k.uvw| && 0 <= su < k.blSupps[bl] && Siz(k) <= grid.Length
    requires vis.Length0 == |k.uvw| && vis.Length1 == k.tsCh
    requires res.Length == k.tsCh
    requires forall n :: 0 <= n < k.tsCh ==> res[n] == Resolve(k, k.uvw[bl][n], k.blSupps[bl])
    modifies vis
    ensures forall n :: 0 <= n < k.tsCh ==>
              vis[bl, n] == GatherFrom(old(vis[bl, n]), grid[..], SampleRow(k, One, k.uvw[bl][n], k.blSupps[bl], su))
    ensures forall b, n :: 0 <= b < vis.Length0 && b != bl && 0 <= n < vis.Length1 ==> vis[b, n] == old(vis[b, n])
    ensures visits == |SamplesUpTo(k, UnitVis(k), bl, su, k.tsCh)|
  {
    var supp := k.blSupps[bl];
    ghost var u := UnitVis(k);
    visits := 0;
    var i := 0;
    while i < k.tsCh
      invariant 0 <= i <= k.tsCh
      invariant forall b, n :: 0 <= b < vis.Length0 && 0 <= n < vis.Length1 ==>
                  vis[b, n] == if b == bl && n < i
                               then GatherFrom(old(vis[b, n]), grid[..], SampleRow(k, One, k.uvw[bl][n], supp, su))
                               else old(vis[b, n])
      invariant visits == |SamplesUpTo(k, u, bl, su, i)|
    {
      var p := k.uvw[bl][i];
      DegridSampleStep(k, bl, su, i);
      var c := DegridRow(k, grid, vis, bl, i, p, supp, su, res[i]);
      visits := visits + c;
      i := i + 1;
    }
  }

  /** One baseline: the per-sample pass, then the `su`, sample, `sv`
      loops. Its visibilities end up degridded; other baselines' rows are
      untouched. */
  method DegridBaseline(k: Kernel, grid: array<Complex>, vis: array2<Complex>, bl: int) returns (visits: int)
    requires WellFormed(k) && 0 <= bl < |k.uvw| && Siz(k) <= grid.Length
    requires vis.Length0 == |k.uvw| && vis.Length1 == k.tsCh
    modifies vis
    ensures forall n :: 0 <= n < k.tsCh ==> vis[bl, n] == Degridded(k, grid[..], k.uvw[bl][n], k.blSupps[bl])
    ensures forall b, n :: 0 <= b < vis.Length0 && b != bl && 0 <= n < vis.Length1 ==> vis[b, n] == old(vis[b, n])
    ensures visits == |BlDeposits(k, UnitVis(k), bl)|
  {
    var supp := k.blSupps[bl];
    ghost var u := UnitVis(k);
    var res := DegridPrepass(k, vis, bl);
    visits := 0;
    var su := 0;
    while su < supp
      invariant 0 <= su <= supp
      modifies vis
      invariant forall n :: 0 <= n < k.tsCh ==> vis[bl, n] == GatherFrom(Zero, grid[..], Taps(k, k.uvw[bl][n], supp, su))
      invariant forall b, n :: 0 <= b < vis.Length0 && b != bl && 0 <= n < vis.Length1 ==> vis[b, n] == old(vis[b, n])
      invariant visits == |BlUpTo(k, u, bl, su)|
    {
      var c := DegridSamples(k, grid, vis, bl, su, res);
      forall n | 0 <= n < k.tsCh
        ensures vis[bl, n] == GatherFrom(Zero, grid[..], Taps(k, k.uvw[bl][n], supp, su + 1))
      {
        GatherFromConcat(Zero, grid[..], Taps(k, k.uvw[bl][n], supp, su), SampleRow(k, One, k.uvw[bl][n], supp, su));
      }
      visits := visits + c;
      su := su + 1;
    }
  }

  /** The dynamically scheduled baseline loop, as seen by thread `tno`:
      the rows of the baselines it owns are degridded, the other rows are
      untouched. */
  method DegridOwned(k: Kernel, grid: array<Complex>, vis: array2<Complex>, tno: int, owner: seq<int>)
    returns (visits: int)
    requires WellFormed(k) && |owner| == |k.uvw| && Siz(k) <= grid.Length
    requires vis.Length0 == |k.uvw| && vis.Length1 == k.tsCh
    modifies vis
    ensures forall bl, n :: 0 <= bl < |k.uvw| && owner[bl] == tno && 0 <= n < k.tsCh
              ==> vis[bl, n] == Degridded(k, grid[..], k.uvw[bl][n], k.blSupps[bl])
    ensures forall bl, n :: 0 <= bl < |k.uvw| && owner[bl] != tno && 0 <= n < k.tsCh ==> vis[bl, n] == old(vis[bl, n])
    ensures visits == |Owned(Batches(k, UnitVis(k)), owner, tno, |k.uvw|)|
  {
    ghost var bs := Batches(k, UnitVis(k));
    visits := 0;
    var bl := 0;
    while bl < |k.uvw|
      invariant 0 <= bl <= |k.uvw|
      invariant forall b, n :: 0 <= b < bl && owner[b] == tno && 0 <= n < k.tsCh
                  ==> vis[b, n] == Degridded(k, grid[..], k.uvw[b][n], k.blSupps[b])
      invariant forall b, n :: 0 <= b < |k.uvw| && (owner[b] != tno || b >= bl) && 0 <= n < k.tsCh
                  ==> vis[b, n] == old(vis[b, n])
      invariant visits == |Owned(bs, owner, tno, bl)|
    {
      OwnedLength(bs, owner, tno, bl);
      if owner[bl] == tno {
        var c := DegridBaseline(k, grid, vis, bl);
        visits := visits + c;
      }
      bl := bl + 1;
    }
  }

  /** `deGridKernel_scatter_full`: whatever the schedule, as long as it
      hands every baseline to one of the `nthreads` threads, every
      visibility ends up degridded from the unchanged grid, and the
      returned count is the number of pixel visits, `supp * supp` per kept
      sample. */
  method DeGridKernelScatterFull(k: Kernel, grid: array<Complex>, vis: array2<Complex>, nthreads: int, owner: seq<int>)
    returns (count: int)
    requires WellFormed(k) && |owner| == |k.uvw| && Siz(k) <= grid.Length
    requires vis.Length0 == |k.uvw| && vis.Length1 == k.tsCh
    requires 1 <= nthreads && forall bl :: 0 <= bl < |owner| ==> 0 <= owner[bl] < nthreads
    modifies vis
    ensures forall bl, n :: 0 <= bl < |k.uvw| && 0 <= n < k.tsCh
              ==> vis[bl, n] == Degridded(k, grid[..], k.uvw[bl][n], k.blSupps[bl])
    ensures count == VisitsUpTo(k, |k.uvw|)
  {
    ghost var bs := Batches(k, UnitVis(k));
    var counters := new int[nthreads];
    var tno := 0;
    while tno < nthreads
      invariant 0 <= tno <= nthreads
      modifies vis, counters
      invariant forall bl, n :: 0 <= bl < |k.uvw| && owner[bl] < tno && 0 <= n < k.tsCh
                  ==> vis[bl, n] == Degridded(k, grid[..], k.uvw[bl][n], k.blSupps[bl])
      invariant forall t :: 0 <= t < tno ==> counters[t] == |Owned(bs, owner, t, |bs|)|
    {
      var c := DegridOwned(k, grid, vis, tno, owner);
      counters[tno] := c;
      tno := tno + 1;
    }
    count := SumCounters(counters, bs, owner);
    ThreadCountCover(bs, owner, nthreads, |bs|);
    VisitsCount(k, UnitVis(k), |bs|);
  }
}
