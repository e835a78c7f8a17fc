/** What the w-dependent scatter gridder of
    MS4/kernel/cpu/scatter_grid/scatter_gridder_w_dependent_dyn_1p.cpp
    computes, as values: how a sample resolves its GCF layer, which samples
    are dropped, and the list of grid updates the kernel's loops perform,
    in the kernel's own order (baseline, then `su`, then sample, then `sv`). */
module ScatterDeposits {
  import opened Complex
  import opened Common
  import opened Accumulate
  import opened Reduction

  /** A pregridded sample as this kernel consumes it: pixel coordinates
      already translated by minus half the support, the signed layer index
      and the w-plane. */
  datatype Point = Point(u: int, v: int, gcfLayerIndex: int, wPlane: int)

  /** The kernel's read-only inputs. `gcf` is the caller's table of layer
      addresses and `gcfSupps` its table of layer supports; both are addressed
      with signed indices (centred arrays), hence maps. `uvw[bl]` are the
      pregridded samples of baseline `bl`, `blSupps[bl]` its support. */
  datatype Kernel = Kernel(
    isHalfGcf: bool,
    gridSize: int,
    gridPitch: int,
    tsCh: nat,
    blSupps: seq<int>,
    gcf: map<int, seq<Complex>>,
    gcfSupps: map<int, int>,
    uvw: seq<seq<Point>>)

  /** Size of one grid: `grid_size * grid_pitch` cells. */
  function Siz(k: Kernel): int
  {
    k.gridSize * k.gridPitch
  }

  /** Flat index of grid cell `(row, col)`. */
  function Cell(k: Kernel, row: int, col: int): int
  {
    row * k.gridPitch + col
  }

  /** The layer a stored index selects: in half-GCF mode a negative index
      is negated; in full-GCF mode the index is used as it is. */
  function LayerOf(isHalfGcf: bool, index: int): int
  {
    if isHalfGcf then HalfGcfLayer(index) else index
  }

  /** Whether the pixels fetched for a stored index must be conjugated. */
  predicate Conjugated(isHalfGcf: bool, index: int)
  {
    isHalfGcf && index < 0
  }

  /** The out-of-bounds test, evaluated once per sample. */
  predicate NotInbound(p: Point, supp: int, gridSize: int)
  {
    p.u < 0 || p.u >= gridSize - supp || p.v < 0 || p.v >= gridSize - supp
  }

  /** Offset that centres a sample's `supp x supp` window inside a layer of
      side `gcfSupp`. */
  function Correction(gcfSupp: int, supp: int): int
  {
    CDiv(gcfSupp - supp, 2) * (gcfSupp + 1)
  }

  /** Per-sample values the kernel caches before scattering (`gcflp`,
      `gcfsupp`, `not_inbound`). `base` is the offset added to the layer
      address by the correction. */
  datatype Resolved = Resolved(layer: int, conj: bool, gcfSupp: int, base: int, notInbound: bool)

  function Resolve(k: Kernel, p: Point, supp: int): Resolved
    requires p.wPlane in k.gcfSupps
  {
    var gs := k.gcfSupps[p.wPlane];
    Resolved(LayerOf(k.isHalfGcf, p.gcfLayerIndex), Conjugated(k.isHalfGcf, p.gcfLayerIndex),
             gs, Correction(gs, supp), NotInbound(p, supp, k.gridSize))
  }

  /** Position of pixel `(su, sv)` inside the resolved layer. */
  function PixelIndex(r: Resolved, su: int, sv: int): int
  {
    r.base + su * r.gcfSupp + sv
  }

  /** Every pixel `(su, sv)` of a `supp x supp` window, read through `r`,
      lies in `[0, len)`. Stated through the window's extreme offsets; the
      lemma `WindowInsideAt` gives the per-pixel facts, and
      `WindowInsideExact` shows nothing stronger is demanded. */
  predicate WindowInside(r: Resolved, supp: int, len: int)
  {
    var span := (supp - 1) * r.gcfSupp;
    supp <= 0
    || (0 <= r.base + (if span < 0 then span else 0)
        && r.base + (if span < 0 then 0 else span) + supp - 1 < len)
  }

  lemma MulBetween(su: int, supp: int, g: int)
    requires 0 <= su < supp
    ensures g >= 0 ==> 0 <= su * g <= (supp - 1) * g
    ensures g < 0 ==> (supp - 1) * g <= su * g <= 0
  {
    if g >= 0 {
      MulPos(su, g);
      MulPos(supp - 1 - su, g);
    } else {
      MulPos(su, -g);
      MulPos(supp - 1 - su, -g);
    }
  }

  lemma WindowInsideAt(r: Resolved, supp: int, len: int, su: int, sv: int)
    requires WindowInside(r, supp, len)
    requires 0 <= su < supp && 0 <= sv < supp
    ensures 0 <= PixelIndex(r, su, sv) < len
  {
    MulBetween(su, supp, r.gcfSupp);
  }

  /** The window test is exact: if it fails, some corner pixel is outside. */
  lemma WindowInsideExact(r: Resolved, supp: int, len: int)
    requires supp >= 1
    requires forall su, sv :: 0 <= su < supp && 0 <= sv < supp ==>
               0 <= PixelIndex(r, su, sv) < len
    ensures WindowInside(r, supp, len)
  {
    assert 0 <= PixelIndex(r, 0, 0) < len;
    assert 0 <= PixelIndex(r, supp - 1, 0) < len;
    assert 0 <= PixelIndex(r, 0, supp - 1) < len;
    assert 0 <= PixelIndex(r, supp - 1, supp - 1) < len;
  }

  /** All reads the sample can make are inside the table: its w-plane has a
      support, its layer exists, and, when the sample is kept, every pixel of
      its window lies inside the layer. */
  predicate SampleReadable(k: Kernel, p: Point, supp: int)
  {
    p.wPlane in k.gcfSupps
    && LayerOf(k.isHalfGcf, p.gcfLayerIndex) in k.gcf
    && (var r := Resolve(k, p, supp);
        !r.notInbound ==> WindowInside(r, supp, |k.gcf[r.layer]|))
  }

  /** The shapes the kernel relies on: a grid row fits in the pitch, one
      support and `ts_ch` samples per baseline. */
  predicate Shaped(k: Kernel)
  {
    0 <= k.gridSize <= k.gridPitch
    && |k.blSupps| == |k.uvw|
    && (forall bl :: 0 <= bl < |k.uvw| ==> k.blSupps[bl] >= 0 && |k.uvw[bl]| == k.tsCh)
  }

  /** Every sample of every baseline reads only inside the GCF table. */
  predicate Readable(k: Kernel)
    requires Shaped(k)
  {
    forall bl, n :: 0 <= bl < |k.uvw| && 0 <= n < k.tsCh ==>
      SampleReadable(k, k.uvw[bl][n], k.blSupps[bl])
  }

  /** What the kernel demands of its caller. */
  predicate WellFormed(k: Kernel)
  {
    Shaped(k) && Readable(k)
  }

  /** The visibilities, one sequence per baseline. */
  predicate VisShaped(k: Kernel, vis: seq<seq<Complex>>)
  {
    |vis| == |k.uvw| && forall bl :: 0 <= bl < |vis| ==> |vis[bl]| == k.tsCh
  }

  /** The support pixel used for `(su, sv)`: the entry the resolved layer
      holds there, conjugated when the half-GCF rule says so. A read the
      table cannot serve gives zero; `PixelRead` shows that this never
      happens for a sample the kernel keeps. */
  function Pixel(k: Kernel, p: Point, supp: int, su: int, sv: int): Complex
  {
    if p.wPlane in k.gcfSupps && LayerOf(k.isHalfGcf, p.gcfLayerIndex) in k.gcf then
      var r := Resolve(k, p, supp);
      var i := PixelIndex(r, su, sv);
      if 0 <= i < |k.gcf[r.layer]| then
        (if r.conj then Conj(k.gcf[r.layer][i]) else k.gcf[r.layer][i])
      else Zero
    else Zero
  }

  /** The half-GCF rule and the centring correction, pixel by pixel: a kept
      sample reads `gcf[layer][(gs - supp)/2 * (gs + 1) + su * gs + sv]`
      with `gs = gcf_supps[w_plane]`, inside the layer; in half-GCF mode a
      negative index reads layer `-index` and conjugates, otherwise layer
      `index` is read as stored. */
  lemma PixelRead(k: Kernel, p: Point, supp: int, su: int, sv: int)
    requires SampleReadable(k, p, supp) && !NotInbound(p, supp, k.gridSize)
    requires 0 <= su < supp && 0 <= sv < supp
    ensures var gs := k.gcfSupps[p.wPlane];
            var i := CDiv(gs - supp, 2) * (gs + 1) + su * gs + sv;
            var layer := if k.isHalfGcf && p.gcfLayerIndex < 0 then -p.gcfLayerIndex else p.gcfLayerIndex;
            layer in k.gcf && 0 <= i < |k.gcf[layer]|
            && Pixel(k, p, supp, su, sv)
               == if k.isHalfGcf && p.gcfLayerIndex < 0 then Conj(k.gcf[layer][i]) else k.gcf[layer][i]
  {
    var r := Resolve(k, p, supp);
    WindowInsideAt(r, supp, |k.gcf[r.layer]|, su, sv);
  }

  /** A kept sample's footprint lies strictly inside the grid: every cell
      it writes has both coordinates in `[0, grid_size - 1)`. */
  lemma KeptFootprint(k: Kernel, p: Point, supp: int, su: int, sv: int)
    requires 0 <= k.gridSize <= k.gridPitch
    requires !NotInbound(p, supp, k.gridSize)
    requires 0 <= su < supp && 0 <= sv < supp
    ensures 0 <= p.u + su < k.gridSize - 1 && 0 <= p.v + sv < k.gridSize - 1
    ensures 0 <= Cell(k, p.u + su, p.v + sv) < Siz(k)
  {
    CellBound(p.u + su, p.v + sv, k.gridSize, k.gridPitch);
  }

  // ---------------------------------------------------------------------
  // Grid direction: the deposits, in loop order.

  /** The `sv < m` deposits of sample `p` in footprint row `su`:
      `grid[u + su][v + sv] += vis * pixel`. */
  function RowDeposits(k: Kernel, vis: Complex, p: Point, supp: int, su: int, m: int): (r: seq<Deposit>)
    requires 0 <= k.gridSize <= k.gridPitch
    requires !NotInbound(p, supp, k.gridSize)
    requires 0 <= su < supp && 0 <= m <= supp
    ensures |r| == m
    decreases m
  {
    if m == 0 then []
    else
      KeptFootprint(k, p, supp, su, m - 1);
      RowDeposits(k, vis, p, supp, su, m - 1)
      + [Deposit(Cell(k, p.u + su, p.v + m - 1), Mul(vis, Pixel(k, p, supp, su, m - 1)))]
  }

  /** The first `j` updates of a row are the row cut at `j`. */
  lemma {:induction false} RowDepositsPrefix(k: Kernel, x: Complex, p: Point, supp: int, su: int, j: int, m: int)
    requires 0 <= k.gridSize <= k.gridPitch
    requires !NotInbound(p, supp, k.gridSize)
    requires 0 <= su < supp && 0 <= j <= m <= supp
    ensures RowDeposits(k, x, p, supp, su, m)[..j] == RowDeposits(k, x, p, supp, su, j)
    decreases m
  {
    if j < m {
      RowDepositsPrefix(k, x, p, supp, su, j, m - 1);
      assert RowDeposits(k, x, p, supp, su, m)[..j] == RowDeposits(k, x, p, supp, su, m - 1)[..j];
    }
  }

  /** One step of the `sv` loop of a kept sample, read through its cached
      values `r`: the pixel it fetches is `Pixel`, the cell it updates is in
      the grid, and the row gains that update. */
  lemma RowStep(k: Kernel, x: Complex, p: Point, supp: int, su: int, sv: int, r: Resolved)
    requires 0 <= k.gridSize <= k.gridPitch
    requires SampleReadable(k, p, supp) && r == Resolve(k, p, supp) && !r.notInbound
    requires 0 <= su < supp && 0 <= sv < supp
    ensures r.layer in k.gcf && 0 <= r.base + su * r.gcfSupp + sv < |k.gcf[r.layer]|
    ensures Pixel(k, p, supp, su, sv)
            == if r.conj then Conj(k.gcf[r.layer][r.base + su * r.gcfSupp + sv])
               else k.gcf[r.layer][r.base + su * r.gcfSupp + sv]
    ensures 0 <= Cell(k, p.u + su, p.v + sv) < Siz(k)
    ensures !NotInbound(p, supp, k.gridSize)
            && RowDeposits(k, x, p, supp, su, sv + 1)
               == RowDeposits(k, x, p, supp, su, sv) + [Deposit(Cell(k, p.u + su, p.v + sv), Mul(x, Pixel(k, p, supp, su, sv)))]
  {
    WindowInsideAt(r, supp, |k.gcf[r.layer]|, su, sv);
    KeptFootprint(k, p, supp, su, sv);
  }

  /** What one sample deposits in footprint row `su`: nothing if dropped. */
  function SampleRow(k: Kernel, vis: Complex, p: Point, supp: int, su: int): (r: seq<Deposit>)
    requires 0 <= k.gridSize <= k.gridPitch
    requires 0 <= su < supp
    ensures |r| == if NotInbound(p, supp, k.gridSize) then 0 else supp
  {
    if NotInbound(p, supp, k.gridSize) then [] else RowDeposits(k, vis, p, supp, su, supp)
  }

  /** Number of kept samples among the first `m` of baseline `bl`. */
  function KeptUpTo(k: Kernel, bl: int, m: int): (c: nat)
    requires Shaped(k) && 0 <= bl < |k.uvw| && 0 <= m <= k.tsCh
    ensures c <= m
  {
    if m == 0 then 0
    else KeptUpTo(k, bl, m - 1)
         + (if NotInbound(k.uvw[bl][m - 1], k.blSupps[bl], k.gridSize) then 0 else 1)
  }

  /** Footprint row `su` of the first `m` samples of baseline `bl`. */
  function SamplesUpTo(k: Kernel, vis: seq<seq<Complex>>, bl: int, su: int, m: int): (r: seq<Deposit>)
    requires Shaped(k) && VisShaped(k, vis)
    requires 0 <= bl < |k.uvw| && 0 <= su < k.blSupps[bl] && 0 <= m <= k.tsCh
    decreases m
  {
    if m == 0 then []
    else
      SamplesUpTo(k, vis, bl, su, m - 1)
      + SampleRow(k, vis[bl][m - 1], k.uvw[bl][m - 1], k.blSupps[bl], su)
  }

  /** The first `s` footprint rows of baseline `bl`. */
  function BlUpTo(k: Kernel, vis: seq<seq<Complex>>, bl: int, s: int): (r: seq<Deposit>)
    requires Shaped(k) && VisShaped(k, vis)
    requires 0 <= bl < |k.uvw| && 0 <= s <= k.blSupps[bl]
    decreases s
  {
    if s == 0 then []
    else BlUpTo(k, vis, bl, s - 1) + SamplesUpTo(k, vis, bl, s - 1, k.tsCh)
  }

  /** Everything baseline `bl` deposits. */
  function BlDeposits(k: Kernel, vis: seq<seq<Complex>>, bl: int): (r: seq<Deposit>)
    requires Shaped(k) && VisShaped(k, vis) && 0 <= bl < |k.uvw|
  {
    BlUpTo(k, vis, bl, k.blSupps[bl])
  }

  lemma {:induction false} SamplesUpToLength(k: Kernel, vis: seq<seq<Complex>>, bl: int, su: int, m: int)
    requires Shaped(k) && VisShaped(k, vis)
    requires 0 <= bl < |k.uvw| && 0 <= su < k.blSupps[bl] && 0 <= m <= k.tsCh
    ensures |SamplesUpTo(k, vis, bl, su, m)| == k.blSupps[bl] * KeptUpTo(k, bl, m)
    decreases m
  {
    if m > 0 {
      SamplesUpToLength(k, vis, bl, su, m - 1);
      var d := if NotInbound(k.uvw[bl][m - 1], k.blSupps[bl], k.gridSize) then 0 else 1;
      MulAddRight(k.blSupps[bl], KeptUpTo(k, bl, m - 1), d);
    }
  }

  lemma {:induction false} BlUpToLength(k: Kernel, vis: seq<seq<Complex>>, bl: int, s: int)
    requires Shaped(k) && VisShaped(k, vis)
    requires 0 <= bl < |k.uvw| && 0 <= s <= k.blSupps[bl]
    ensures |BlUpTo(k, vis, bl, s)| == s * (k.blSupps[bl] * KeptUpTo(k, bl, k.tsCh))
    decreases s
  {
    if s > 0 {
      BlUpToLength(k, vis, bl, s - 1);
      SamplesUpToLength(k, vis, bl, s - 1, k.tsCh);
      var x := k.blSupps[bl] * KeptUpTo(k, bl, k.tsCh);
      MulAddRight(x, s - 1, 1);
      assert s * x == (s - 1) * x + x;
    }
  }

  /** A baseline deposits `supp^2` values per kept sample. */
  lemma BlDepositsLength(k: Kernel, vis: seq<seq<Complex>>, bl: int)
    requires Shaped(k) && VisShaped(k, vis) && 0 <= bl < |k.uvw|
    ensures |BlDeposits(k, vis, bl)| == k.blSupps[bl] * k.blSupps[bl] * KeptUpTo(k, bl, k.tsCh)
  {
    BlUpToLength(k, vis, bl, k.blSupps[bl]);
    MulAssoc(k.blSupps[bl], k.blSupps[bl], KeptUpTo(k, bl, k.tsCh));
  }

  /** Each baseline's deposits, one batch per baseline. */
  function Batches(k: Kernel, vis: seq<seq<Complex>>): (bs: seq<seq<Deposit>>)
    requires Shaped(k) && VisShaped(k, vis)
    ensures |bs| == |k.uvw|
    ensures forall bl :: 0 <= bl < |bs| ==> bs[bl] == BlDeposits(k, vis, bl)
  {
    seq(|k.uvw|, bl requires 0 <= bl < |k.uvw| => BlDeposits(k, vis, bl))
  }

  /** Pixel visits the kernel counts over baselines `bl < b`: `supp^2` per
      kept sample. */
  function VisitsUpTo(k: Kernel, b: int): int
    requires Shaped(k) && 0 <= b <= |k.uvw|
  {
    if b == 0 then 0
    else VisitsUpTo(k, b - 1) + k.blSupps[b - 1] * k.blSupps[b - 1] * KeptUpTo(k, b - 1, k.tsCh)
  }

  /** Baseline `b` adds as many deposits as it counts visits. */
  lemma VisitsCountStep(k: Kernel, vis: seq<seq<Complex>>, b: int)
    requires Shaped(k) && VisShaped(k, vis) && 0 <= b < |k.uvw|
    requires |Flatten(Batches(k, vis), b)| == VisitsUpTo(k, b)
    ensures |Flatten(Batches(k, vis), b + 1)| == VisitsUpTo(k, b + 1)
  {
    BlDepositsLength(k, vis, b);
  }

  /** The counter equals the number of deposits: every kept sample adds
      `supp^2` visits, a dropped one none. */
  lemma {:induction false} VisitsCount(k: Kernel, vis: seq<seq<Complex>>, b: int)
    requires Shaped(k) && VisShaped(k, vis) && 0 <= b <= |k.uvw|
    ensures |Flatten(Batches(k, vis), b)| == VisitsUpTo(k, b)
  {
    if b > 0 {
      var prev := b - 1;
      VisitsCount(k, vis, prev);
      VisitsCountStep(k, vis, prev);
    }
  }

  /** A sample that is dropped deposits nothing, in every footprint row. */
  lemma DroppedDepositsNothing(k: Kernel, vis: Complex, p: Point, supp: int, su: int)
    requires 0 <= k.gridSize <= k.gridPitch
    requires 0 <= su < supp
    requires NotInbound(p, supp, k.gridSize)
    ensures SampleRow(k, vis, p, supp, su) == []
  {
  }

  /** Each deposit of a kept sample's row goes to `(u + su, v + sv)` and
      carries `vis * pixel(su, sv)`. */
  lemma {:induction false} RowDepositAt(k: Kernel, vis: Complex, p: Point, supp: int, su: int, m: int, sv: int)
    requires 0 <= k.gridSize <= k.gridPitch
    requires !NotInbound(p, supp, k.gridSize)
    requires 0 <= su < supp && 0 <= sv < m <= supp
    ensures RowDeposits(k, vis, p, supp, su, m)[sv]
         == Deposit(Cell(k, p.u + su, p.v + sv), Mul(vis, Pixel(k, p, supp, su, sv)))
    decreases m
  {
    if sv < m - 1 {
      RowDepositAt(k, vis, p, supp, su, m - 1, sv);
    }
  }

  // ---------------------------------------------------------------------
  // Every deposit lands in the grid.

  lemma {:induction false} RowWithin(k: Kernel, vis: Complex, p: Point, supp: int, su: int, m: int)
    requires 0 <= k.gridSize <= k.gridPitch
    requires !NotInbound(p, supp, k.gridSize)
    requires 0 <= su < supp && 0 <= m <= supp
    ensures CellsWithin(RowDeposits(k, vis, p, supp, su, m), Siz(k))
    decreases m
  {
    if m > 0 {
      RowWithin(k, vis, p, supp, su, m - 1);
      KeptFootprint(k, p, supp, su, m - 1);
      var d := Deposit(Cell(k, p.u + su, p.v + m - 1), Mul(vis, Pixel(k, p, supp, su, m - 1)));
      CellsWithinConcat(RowDeposits(k, vis, p, supp, su, m - 1), [d], Siz(k));
    }
  }

  lemma {:induction false} SamplesWithin(k: Kernel, vis: seq<seq<Complex>>, bl: int, su: int, m: int)
    requires Shaped(k) && VisShaped(k, vis)
    requires 0 <= bl < |k.uvw| && 0 <= su < k.blSupps[bl] && 0 <= m <= k.tsCh
    ensures CellsWithin(SamplesUpTo(k, vis, bl, su, m), Siz(k))
    decreases m
  {
    if m > 0 {
      SamplesWithin(k, vis, bl, su, m - 1);
      var p := k.uvw[bl][m - 1];
      if !NotInbound(p, k.blSupps[bl], k.gridSize) {
        RowWithin(k, vis[bl][m - 1], p, k.blSupps[bl], su, k.blSupps[bl]);
      }
      CellsWithinConcat(SamplesUpTo(k, vis, bl, su, m - 1), SampleRow(k, vis[bl][m - 1], p, k.blSupps[bl], su), Siz(k));
    }
  }

  lemma {:induction false} BlUpToWithin(k: Kernel, vis: seq<seq<Complex>>, bl: int, s: int)
    requires Shaped(k) && VisShaped(k, vis)
    requires 0 <= bl < |k.uvw| && 0 <= s <= k.blSupps[bl]
    ensures CellsWithin(BlUpTo(k, vis, bl, s), Siz(k))
    decreases s
  {
    if s > 0 {
      BlUpToWithin(k, vis, bl, s - 1);
      SamplesWithin(k, vis, bl, s - 1, k.tsCh);
      CellsWithinConcat(BlUpTo(k, vis, bl, s - 1), SamplesUpTo(k, vis, bl, s - 1, k.tsCh), Siz(k));
    }
  }

  /** Every update a baseline makes stays inside its `grid_size * grid_pitch`
      grid. */
  lemma BatchesWithin(k: Kernel, vis: seq<seq<Complex>>)
    requires Shaped(k) && VisShaped(k, vis)
    ensures forall bl :: 0 <= bl < |k.uvw| ==> CellsWithin(Batches(k, vis)[bl], Siz(k))
  {
    forall bl | 0 <= bl < |k.uvw|
      ensures CellsWithin(Batches(k, vis)[bl], Siz(k))
    {
      BlUpToWithin(k, vis, bl, k.blSupps[bl]);
    }
  }
}
