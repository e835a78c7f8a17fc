/** The early fixed-size gridder of MS3/Sketches/CPU_Gridders/scatter_gridder.cpp:
    `pregrid` with C's truncating conversions, and the scalar path of `gridKernel_scatter`,
    which accumulates the four polarisations of each visibility with the
    same GCF weight. The AVX path is modelled for one pixel (`AvxGridPol`),
    to compare it with the scalar one. The grid `Double4c grid[grid_size][grid_size]` is a
    flat array indexed `row * grid_size + col`; the GCF
    `gcf[w_planes][over][over][max_supp][max_supp]` is a flat sequence in
    row-major order. */
module Ms3Gridder {
  import opened Complex
  import Common
  import opened Accumulate
  import opened LoopOrder

  /** The four polarisations of `Double4c`. */
  datatype Pol = XX | XY | YX | YY

  datatype Double4c = Double4c(xx: Complex, xy: Complex, yx: Complex, yy: Complex)

  function PolOf(x: Double4c, p: Pol): Complex
  {
    match p
    case XX => x.xx
    case XY => x.xy
    case YX => x.yx
    case YY => x.yy
  }

  /** `__GRID_POL` for all four polarisations: each polarisation of the
      cell gains the same polarisation of the visibility times the weight,
      and no other. */
  function GridPol(g: Double4c, x: Double4c, w: Complex): (r: Double4c)
    ensures forall p :: PolOf(r, p) == Add(PolOf(g, p), Mul(PolOf(x, p), w))
  {
    Double4c(Add(g.xx, Mul(x.xx, w)), Add(g.xy, Mul(x.xy, w)), Add(g.yx, Mul(x.yx, w)), Add(g.yy, Mul(x.yy, w)))
  }

  /** One polarisation of a grid or of a visibility array. */
  function Proj(g: seq<Double4c>, p: Pol): (r: seq<Complex>)
    ensures |r| == |g| && forall j :: 0 <= j < |g| ==> r[j] == PolOf(g[j], p)
  {
    seq(|g|, j requires 0 <= j < |g| => PolOf(g[j], p))
  }

  // ---------------------------------------------------------------------
  // pregrid

  /** This file's `Pregridded`: a shifted `u`, `v` and the offset of the
      sample's GCF layer, in rows of `max_supp` elements. */
  datatype Pregridded = Pregridded(u: int, v: int, gcfLayerOffset: int)

  /** `uv_shift_in_pixels = (max_supp + grid_size) / 2`, the shift both
      `mkCfg` and `pregrid` use. */
  function UvShift(maxSupp: int, gridSize: int): int
  {
    Common.CDiv(maxSupp + gridSize, 2)
  }

  /** The row-major index of `gcf[wplane][fracu][fracv][su][sv]`. */
  function GcfIndex(over: int, maxSupp: int, wplane: int, fracu: int, fracv: int, su: int, sv: int): int
  {
    (((wplane * over + fracu) * over + fracv) * maxSupp + su) * maxSupp + sv
  }

  /** `pregrid` from the truncated `u = int(us)`, `v = int(vs)`, the
      w-plane and the oversampling fractions; the shifted `u` and `v` are
      stored as `short`. */
  function Pregrid(maxSupp: int, gridSize: int, over: int, u: int, v: int, wplane: int, fracu: int, fracv: int): (r: Pregridded)
    requires Common.IsShort(u + UvShift(maxSupp, gridSize)) && Common.IsShort(v + UvShift(maxSupp, gridSize))
    ensures Common.IsShort(r.u) && Common.IsShort(r.v)
    ensures r.u - u == r.v - v == UvShift(maxSupp, gridSize)
  {
    Pregridded(u + UvShift(maxSupp, gridSize), v + UvShift(maxSupp, gridSize),
               ((wplane * over + fracu) * over + fracv) * maxSupp)
  }

  /** The kernel reads pixel `(su, sv)` of a sample at
      `gcf[0][0][0] + gcf_layer_offset` rows, plus `su` rows and `sv`
      elements: exactly element `gcf[wplane][fracu][fracv][su][sv]`, the
      layer that the commented-out definition of the offset names. For
      in-range indices the element lies inside the GCF. */
  lemma PregridAddressesGcf(maxSupp: int, gridSize: int, over: int, wPlanes: int,
                            u: int, v: int, wplane: int, fracu: int, fracv: int, su: int, sv: int)
    requires Common.IsShort(u + UvShift(maxSupp, gridSize)) && Common.IsShort(v + UvShift(maxSupp, gridSize))
    requires 0 <= wplane < wPlanes && 0 <= fracu < over && 0 <= fracv < over
    requires 0 <= su < maxSupp && 0 <= sv < maxSupp
    ensures Pregrid(maxSupp, gridSize, over, u, v, wplane, fracu, fracv).gcfLayerOffset * maxSupp + su * maxSupp + sv
            == GcfIndex(over, maxSupp, wplane, fracu, fracv, su, sv)
    ensures 0 <= GcfIndex(over, maxSupp, wplane, fracu, fracv, su, sv) < (((wPlanes * over) * over) * maxSupp) * maxSupp
  {
    var l := (wplane * over + fracu) * over + fracv;
    var off := l * maxSupp;
    assert Pregrid(maxSupp, gridSize, over, u, v, wplane, fracu, fracv).gcfLayerOffset == off;
    assert (off + su) * maxSupp == off * maxSupp + su * maxSupp by {
      Common.MulAddRight(maxSupp, off, su);
    }
    GcfIndexWithin(over, maxSupp, wPlanes, wplane, fracu, fracv, su, sv);
  }

  /** In-range indices address an element inside the GCF. */
  lemma GcfIndexWithin(over: int, maxSupp: int, wPlanes: int, wplane: int, fracu: int, fracv: int, su: int, sv: int)
    requires 0 <= wplane < wPlanes && 0 <= fracu < over && 0 <= fracv < over
    requires 0 <= su < maxSupp && 0 <= sv < maxSupp
    ensures 0 <= GcfIndex(over, maxSupp, wplane, fracu, fracv, su, sv) < (((wPlanes * over) * over) * maxSupp) * maxSupp
  {
    var a := wplane * over + fracu;
    var w1 := wPlanes * over;
    Common.CellBound(wplane, fracu, wPlanes, over);
    assert 0 <= a < w1;
    var l := a * over + fracv;
    var w2 := w1 * over;
    Common.CellBound(a, fracv, w1, over);
    assert 0 <= l < w2;
    var r := l * maxSupp + su;
    var w3 := w2 * maxSupp;
    Common.CellBound(l, su, w2, maxSupp);
    assert 0 <= r < w3;
    Common.CellBound(r, sv, w3, maxSupp);
    assert GcfIndex(over, maxSupp, wplane, fracu, fracv, su, sv) == r * maxSupp + sv;
  }

  /** `fracu = short(over * (us - u))` with `u = int(us)`: both
      conversions truncate toward zero. */
  function Fraction(over: int, s: real): int
  {
    Common.Trunc((over as real) * (s - Common.Trunc(s) as real))
  }

  /** `pregrid` itself, on the coordinates scaled by `scaleWL`: the
      truncated `u`, `v` and w-plane and the two fractions. */
  function PregridUvw(maxSupp: int, gridSize: int, over: int, wShift: real, wStep: real, s: Common.Double3): (r: Pregridded)
    requires wStep != 0.0
    requires Common.IsShort(Common.Trunc(s.u) + UvShift(maxSupp, gridSize))
    requires Common.IsShort(Common.Trunc(s.v) + UvShift(maxSupp, gridSize))
    // the stored pixel less the shift is the coordinate rounded toward zero
    ensures var u := r.u - UvShift(maxSupp, gridSize);
            (0.0 <= s.u ==> u as real <= s.u < u as real + 1.0) && (s.u < 0.0 ==> u as real - 1.0 < s.u <= u as real)
    ensures var v := r.v - UvShift(maxSupp, gridSize);
            (0.0 <= s.v ==> v as real <= s.v < v as real + 1.0) && (s.v < 0.0 ==> v as real - 1.0 < s.v <= v as real)
  {
    Pregrid(maxSupp, gridSize, over, Common.Trunc(s.u), Common.Trunc(s.v), Common.Trunc((s.w + wShift) / wStep),
            Fraction(over, s.u), Fraction(over, s.v))
  }

  /** Scaling a value of `[0, 1)` by `o > 0` lands in `[0, o)`. */
  lemma ScaleUnit(o: real, d: real)
    requires o > 0.0 && 0.0 <= d < 1.0
    ensures 0.0 <= o * d < o
  {
    assert o * (1.0 - d) > 0.0;
  }

  /** The fraction lies in `[0, over)` for a non-negative coordinate and in
      `(-over, 0]` for a negative one, because `u` rounds toward zero. */
  lemma FractionRange(over: int, s: real)
    requires over >= 1
    ensures 0.0 <= s ==> 0 <= Fraction(over, s) < over
    ensures s < 0.0 ==> -over < Fraction(over, s) <= 0
  {
    var d := s - Common.Trunc(s) as real;
    var o := over as real;
    var f := Common.Trunc(o * d);
    assert Fraction(over, s) == f;
    if 0.0 <= s {
      ScaleUnit(o, d);
      assert f as real < o;
    } else {
      ScaleUnit(o, -d);
      assert o * (-d) == -(o * d);
      assert -o < f as real;
    }
  }

  /** For non-negative scaled coordinates and a w-plane in range, every
      pixel the kernel reads for the sample lies inside the GCF. */
  lemma PregridUvwInGcf(maxSupp: int, gridSize: int, over: int, wPlanes: int, wShift: real, wStep: real,
                        s: Common.Double3, su: int, sv: int)
    requires wStep != 0.0 && over >= 1
    requires Common.IsShort(Common.Trunc(s.u) + UvShift(maxSupp, gridSize))
    requires Common.IsShort(Common.Trunc(s.v) + UvShift(maxSupp, gridSize))
    requires 0.0 <= s.u && 0.0 <= s.v
    requires 0 <= Common.Trunc((s.w + wShift) / wStep) < wPlanes
    requires 0 <= su < maxSupp && 0 <= sv < maxSupp
    ensures var off := PregridUvw(maxSupp, gridSize, over, wShift, wStep, s).gcfLayerOffset * maxSupp + su * maxSupp + sv;
            0 <= off < (((wPlanes * over) * over) * maxSupp) * maxSupp
  {
    FractionRange(over, s.u);
    FractionRange(over, s.v);
    PregridAddressesGcf(maxSupp, gridSize, over, wPlanes, Common.Trunc(s.u), Common.Trunc(s.v),
                        Common.Trunc((s.w + wShift) / wStep), Fraction(over, s.u), Fraction(over, s.v), su, sv);
  }

  /** As written, a negative non-integral coordinate gets a negative
      fraction: `us = -3.25` with `over = 8` truncates to `u = -3` and
      `fracu = -2`. On w-plane 0 the layer offset is then negative, so the
      kernel reads before the start of the GCF. */
  lemma NegativeFraction()
    ensures Fraction(8, -3.25) == -2
    ensures PregridUvw(16, 2048, 8, 0.0, 1.0, Common.Double3(-3.25, 0.0, 0.0)).gcfLayerOffset < 0
  {
    assert Common.Trunc(-3.25) == -3;
    assert Common.Trunc(-2.0) == -2;
    assert Common.Trunc(0.0) == 0;
  }

  // ---------------------------------------------------------------------
  // gridKernel_scatter

  /** The kernel's inputs: `max_supp`, `grid_size`, the GCF, and one
      pregridded sample and one visibility per baseline, timestep and
      channel. */
  datatype Ms3 = Ms3(maxSupp: int, gridSize: int, gcf: seq<Complex>, uvw: seq<Pregridded>, vis: seq<Double4c>)

  /** First row and column of sample `i`'s footprint. */
  function Row0(k: Ms3, i: int): int
    requires 0 <= i < |k.uvw|
  {
    k.uvw[i].u - Common.CDiv(k.maxSupp, 2)
  }

  function Col0(k: Ms3, i: int): int
    requires 0 <= i < |k.uvw|
  {
    k.uvw[i].v - Common.CDiv(k.maxSupp, 2)
  }

  /** What the kernel demands: one visibility per sample, every footprint
      inside the grid (it does no bounds test) and every layer inside the
      GCF. */
  predicate Ms3Ok(k: Ms3)
  {
    |k.vis| == |k.uvw| && 0 <= k.maxSupp
    && forall i :: 0 <= i < |k.uvw| ==> SampleOk(k, i)
  }

  /** Sample `i`'s footprint lies inside the grid and its layer inside
      the GCF. */
  predicate SampleOk(k: Ms3, i: int)
    requires 0 <= i < |k.uvw|
  {
    0 <= Row0(k, i) && Row0(k, i) + k.maxSupp <= k.gridSize
    && 0 <= Col0(k, i) && Col0(k, i) + k.maxSupp <= k.gridSize
    && 0 <= k.uvw[i].gcfLayerOffset * k.maxSupp
    && k.uvw[i].gcfLayerOffset * k.maxSupp + k.maxSupp * k.maxSupp <= |k.gcf|
  }

  /** `gcf_layer[su][sv]` for sample `i` (zero outside the GCF, which the
      kernel never reads). */
  function Weight(k: Ms3, i: int, su: int, sv: int): Complex
  {
    if 0 <= i < |k.uvw| then
      var e := k.uvw[i].gcfLayerOffset * k.maxSupp + su * k.maxSupp + sv;
      if 0 <= e < |k.gcf| then k.gcf[e] else Zero
    else Zero
  }

  /** The update of one polarisation, whose visibilities are `x`, by
      sample `i` at footprint pixel `(su, sv)`. */
  function Dep(k: Ms3, x: seq<Complex>, i: int, su: int, sv: int): Deposit
  {
    var cell := if 0 <= i < |k.uvw| then (Row0(k, i) + su) * k.gridSize + Col0(k, i) + sv else 0;
    Deposit(cell, Mul(if 0 <= i < |x| then x[i] else Zero, Weight(k, i, su, sv)))
  }

  /** The `su` loop of sample `i`, as a nest with `sv` outside. */
  function SuBody(k: Ms3, x: seq<Complex>, i: int): Block
  {
    (sv, su) => [Dep(k, x, i, su, sv)]
  }

  /** The sample loop (with its `su` loop) for one `sv`. */
  function KernelBody(k: Ms3, x: seq<Complex>): Block
  {
    (sv, i) => Inner(SuBody(k, x, i), sv, k.maxSupp)
  }

  /** The updates in the kernel's order: `sv` outer, samples, `su` inner. */
  function KernelOrder(k: Ms3, x: seq<Complex>): seq<Deposit>
  {
    Cat(KernelBody(k, x), k.maxSupp, |k.uvw|)
  }

  /** Sample `i`'s footprint row `su`, pixels `sv` in order. */
  function SampleBody(k: Ms3, x: seq<Complex>): Block
  {
    (i, su) => Inner(Tr(SuBody(k, x, i)), su, k.maxSupp)
  }

  /** The same updates sample by sample, each footprint row by row. */
  function SampleOrder(k: Ms3, x: seq<Complex>): seq<Deposit>
  {
    Cat(SampleBody(k, x), |k.uvw|, k.maxSupp)
  }

  /** The kernel's loop order issues the same updates as the sample-major
      order, only in another order. */
  lemma LoopOrderIrrelevant(k: Ms3, x: seq<Complex>)
    ensures multiset(KernelOrder(k, x)) == multiset(SampleOrder(k, x))
  {
    var ms, n := k.maxSupp, |k.uvw|;
    var kb, sb := KernelBody(k, x), SampleBody(k, x);
    CatSwap(kb, ms, n);
    forall i | 0 <= i < n
      ensures multiset(Inner(Tr(kb), i, ms)) == multiset(Inner(sb, i, ms))
    {
      var g := SuBody(k, x, i);
      InnerOfLoops(Tr(kb), g, i, ms, ms);
      InnerOfLoops(sb, Tr(g), i, ms, ms);
      CatSwap(g, ms, ms);
    }
    CatCongr(Tr(kb), sb, n, ms);
  }

  /** Every polarisation of `g` is `g0`'s after the first `su` steps of
      the `su` loop of sample `i` for `sv`. */
  ghost predicate SuDone(k: Ms3, i: int, sv: int, su: int, g0: seq<Double4c>, g: seq<Double4c>)
  {
    forall p :: Proj(g, p) == ApplyAll(Proj(g0, p), 0, Inner(SuBody(k, Proj(k.vis, p), i), sv, su))
  }

  /** Updating one cell with `GridPol` updates that cell of every
      polarisation. */
  lemma ProjGridPol(g: seq<Double4c>, c: int, x: Double4c, w: Complex, p: Pol)
    requires 0 <= c < |g|
    ensures Proj(g[c := GridPol(g[c], x, w)], p) == Proj(g, p)[c := Add(Proj(g, p)[c], Mul(PolOf(x, p), w))]
  {
  }

  // ---------------------------------------------------------------------
  // The AVX branch, as written

  /** The AVX branch of the `su` loop body on the flat grid. `__DO(0, XX)`
      adds the XX and XY products to cell `c` through `gridptr0[0]`, but
      `__DO(1, YX)` stores through `gridptr1[1]`, one 32-byte vector past
      the cell's `YX`: into the XX and XY of the next cell in memory. The
      cell's own YX and YY are not updated. `None` when the next cell lies
      past the grid, where that store is out of bounds. */
  function AvxGridPol(g: seq<Double4c>, c: int, x: Double4c, w: Complex): (r: Common.Option<seq<Double4c>>)
    requires 0 <= c < |g|
    ensures r.Some? <==> c + 1 < |g|
    ensures r.Some? ==> |r.value| == |g| && forall j :: 0 <= j < |g| && j != c && j != c + 1 ==> r.value[j] == g[j]
  {
    if c + 1 < |g| then
      var here := Double4c(Add(g[c].xx, Mul(x.xx, w)), Add(g[c].xy, Mul(x.xy, w)), g[c].yx, g[c].yy);
      var next := Double4c(Add(g[c + 1].xx, Mul(x.yx, w)), Add(g[c + 1].xy, Mul(x.yy, w)), g[c + 1].yx, g[c + 1].yy);
      Common.Some(g[c := here][c + 1 := next])
    else Common.None
  }

  /** What the AVX branch does instead of `GridPol`: the cell's XX and XY
      are right, its YX and YY keep their old values, and the YX and YY
      products land in the next cell's XX and XY. So whenever the YX
      product is not zero, the result differs from the scalar update. */
  lemma AvxMisplaces(g: seq<Double4c>, c: int, x: Double4c, w: Complex)
    requires 0 <= c && c + 1 < |g|
    ensures var r := AvxGridPol(g, c, x, w).value;
            PolOf(r[c], XX) == PolOf(GridPol(g[c], x, w), XX)
            && PolOf(r[c], XY) == PolOf(GridPol(g[c], x, w), XY)
            && PolOf(r[c], YX) == PolOf(g[c], YX) && PolOf(r[c], YY) == PolOf(g[c], YY)
            && PolOf(r[c + 1], XX) == Add(PolOf(g[c + 1], XX), Mul(PolOf(x, YX), w))
            && PolOf(r[c + 1], XY) == Add(PolOf(g[c + 1], XY), Mul(PolOf(x, YY), w))
    ensures Mul(PolOf(x, YX), w) != Zero ==> AvxGridPol(g, c, x, w).value != g[c := GridPol(g[c], x, w)]
  {
    var r := AvxGridPol(g, c, x, w).value;
    if Mul(PolOf(x, YX), w) != Zero {
      assert PolOf(r[c], YX) != PolOf(GridPol(g[c], x, w), YX);
    }
  }

  /** On any grid cell that has a successor, a visibility whose YX
      polarisation is 1, with weight 1, shows the difference. */
  lemma AvxUnitDiffers(g: seq<Double4c>, c: int)
    requires 0 <= c && c + 1 < |g|
    ensures AvxGridPol(g, c, Double4c(Zero, Zero, One, Zero), One).value != g[c := GridPol(g[c], Double4c(Zero, Zero, One, Zero), One)]
  {
    assert Mul(One, One) == One;
    AvxMisplaces(g, c, Double4c(Zero, Zero, One, Zero), One);
  }

  /** One step of the `su` loop, in one polarisation. */
  lemma SuStep(k: Ms3, x: seq<Complex>, i: int, sv: int, su: int, g0: seq<Complex>, cur: seq<Complex>, c: int, w: Complex)
    requires 0 <= i < |k.uvw| && i < |x| && 0 <= su
    requires c == (Row0(k, i) + su) * k.gridSize + Col0(k, i) + sv && w == Weight(k, i, su, sv)
    requires 0 <= c < |g0| && cur == ApplyAll(g0, 0, Inner(SuBody(k, x, i), sv, su))
    ensures cur[c := Add(cur[c], Mul(x[i], w))] == ApplyAll(g0, 0, Inner(SuBody(k, x, i), sv, su + 1))
  {
    var d := Dep(k, x, i, su, sv);
    assert d == Deposit(c, Mul(x[i], w));
    assert Inner(SuBody(k, x, i), sv, su + 1) == Inner(SuBody(k, x, i), sv, su) + [d];
    ApplyAllSnoc(g0, 0, Inner(SuBody(k, x, i), sv, su), d);
  }

  /** One step of the `su` loop, in all four polarisations. */
  lemma SuDoneStep(k: Ms3, i: int, sv: int, su: int, g0: seq<Double4c>, cur: seq<Double4c>, c: int, w: Complex)
    requires |k.vis| == |k.uvw| && 0 <= i < |k.uvw| && 0 <= su
    requires c == (Row0(k, i) + su) * k.gridSize + Col0(k, i) + sv && w == Weight(k, i, su, sv)
    requires 0 <= c < |g0| == |cur| && SuDone(k, i, sv, su, g0, cur)
    ensures SuDone(k, i, sv, su + 1, g0, cur[c := GridPol(cur[c], k.vis[i], w)])
  {
    forall p
      ensures Proj(cur[c := GridPol(cur[c], k.vis[i], w)], p)
           == ApplyAll(Proj(g0, p), 0, Inner(SuBody(k, Proj(k.vis, p), i), sv, su + 1))
    {
      ProjGridPol(cur, c, k.vis[i], w, p);
      SuStep(k, Proj(k.vis, p), i, sv, su, Proj(g0, p), Proj(cur, p), c, w);
    }
  }

  /** The cell and the GCF entry that pass `su` of the `su` loop reads,
      computed with the loop's own index arithmetic, are in range. */
  lemma ScatterSuBounds(k: Ms3, i: int, sv: int, su: int, gcfLayer: int, gsu: int, gsv: int)
    requires 0 <= i < |k.uvw| && SampleOk(k, i) && 0 <= sv < k.maxSupp && 0 <= su < k.maxSupp
    requires gcfLayer == k.uvw[i].gcfLayerOffset * k.maxSupp
    requires gsu == k.uvw[i].u + su - k.maxSupp / 2 && gsv == k.uvw[i].v + sv - k.maxSupp / 2
    ensures 0 <= gsu * k.gridSize + gsv < k.gridSize * k.gridSize
    ensures 0 <= gcfLayer + su * k.maxSupp + sv < |k.gcf|
  {
    Common.CellBound(gsu, gsv, k.gridSize, k.gridSize);
    Common.CellBound(su, sv, k.maxSupp, k.maxSupp);
  }

  /** Pass `su` of the `su` loop, in the loop's own index arithmetic,
      makes row `su` of the footprint done. */
  lemma ScatterSuStep(k: Ms3, i: int, sv: int, su: int, gcfLayer: int, gsu: int, gsv: int,
                      g0: seq<Double4c>, cur: seq<Double4c>, next: seq<Double4c>, c: int, w: Complex)
    requires |k.vis| == |k.uvw| && 0 <= i < |k.uvw| && SampleOk(k, i) && 0 <= sv < k.maxSupp && 0 <= su < k.maxSupp
    requires gcfLayer == k.uvw[i].gcfLayerOffset * k.maxSupp
    requires gsu == k.uvw[i].u + su - k.maxSupp / 2 && gsv == k.uvw[i].v + sv - k.maxSupp / 2
    requires c == gsu * k.gridSize + gsv && 0 <= c < |cur| == |g0|
    requires 0 <= gcfLayer + su * k.maxSupp + sv < |k.gcf| && w == k.gcf[gcfLayer + su * k.maxSupp + sv]
    requires SuDone(k, i, sv, su, g0, cur) && next == cur[c := GridPol(cur[c], k.vis[i], w)]
    ensures SuDone(k, i, sv, su + 1, g0, next)
  {
    assert gsu == Row0(k, i) + su && gsv == Col0(k, i) + sv;
    SuDoneStep(k, i, sv, su, g0, cur, c, w);
  }

  /** The grid after the first `su` passes of the `su` loop of sample `i`
      for `sv`, pass by pass in the loop's own index arithmetic. */
  ghost function SuGrid(k: Ms3, i: int, sv: int, su: int, g0: seq<Double4c>): (g: seq<Double4c>)
    requires |k.vis| == |k.uvw| && 0 <= i < |k.uvw| && SampleOk(k, i) && 0 <= sv < k.maxSupp && 0 <= su <= k.maxSupp
    requires |g0| == k.gridSize * k.gridSize
    ensures |g| == |g0|
  {
    if su == 0 then g0
    else
      var prev := SuGrid(k, i, sv, su - 1, g0);
      var gcfLayer := k.uvw[i].gcfLayerOffset * k.maxSupp;
      var gsu := k.uvw[i].u + (su - 1) - k.maxSupp / 2;
      var gsv := k.uvw[i].v + sv - k.maxSupp / 2;
      ScatterSuBounds(k, i, sv, su - 1, gcfLayer, gsu, gsv);
      var c := gsu * k.gridSize + gsv;
      prev[c := GridPol(prev[c], k.vis[i], k.gcf[gcfLayer + (su - 1) * k.maxSupp + sv])]
  }

  /** No pass of the `su` loop done: the grid is untouched. */
  lemma SuDoneEmpty(k: Ms3, i: int, sv: int, su: int, g0: seq<Double4c>)
    requires su == 0
    ensures SuDone(k, i, sv, su, g0, g0)
  {
  }

  /** The passes of the `su` loop, replayed, give every polarisation its
      updates. */
  lemma {:induction false} SuGridDone(k: Ms3, i: int, sv: int, su: int, g0: seq<Double4c>)
    requires |k.vis| == |k.uvw| && 0 <= i < |k.uvw| && SampleOk(k, i) && 0 <= sv < k.maxSupp && 0 <= su <= k.maxSupp
    requires |g0| == k.gridSize * k.gridSize
    ensures SuDone(k, i, sv, su, g0, SuGrid(k, i, sv, su, g0))
  {
    if su > 0 {
      var p := su - 1;
      SuGridDone(k, i, sv, p, g0);
      var gcfLayer := k.uvw[i].gcfLayerOffset * k.maxSupp;
      var gsu := k.uvw[i].u + p - k.maxSupp / 2;
      var gsv := k.uvw[i].v + sv - k.maxSupp / 2;
      ScatterSuBounds(k, i, sv, p, gcfLayer, gsu, gsv);
      var c := gsu * k.gridSize + gsv;
      ScatterSuStep(k, i, sv, p, gcfLayer, gsu, gsv, g0, SuGrid(k, i, sv, p, g0), SuGrid(k, i, sv, su, g0),
                    c, k.gcf[gcfLayer + p * k.maxSupp + sv]);
    } else {
      SuDoneEmpty(k, i, sv, su, g0);
    }
  }

  /** The `su` loop of sample `i` for one `sv`: each polarisation of the
      grid receives that polarisation's updates. */
  method ScatterSu(k: Ms3, i: int, sv: int, grid: array<Double4c>)
    requires |k.vis| == |k.uvw| && 0 <= i < |k.uvw| && SampleOk(k, i) && 0 <= sv < k.maxSupp
    requires grid.Length == k.gridSize * k.gridSize
    modifies grid
    ensures grid[..] == SuGrid(k, i, sv, k.maxSupp, old(grid[..]))
  {
    ghost var g0 := grid[..];
    var ms := k.maxSupp;
    var gcfLayer := k.uvw[i].gcfLayerOffset * ms;
    var su := 0;
    while su < ms
      invariant 0 <= su <= ms
      invariant grid[..] == SuGrid(k, i, sv, su, g0)
    {
      var gsu := k.uvw[i].u + su - ms / 2;
      var gsv := k.uvw[i].v + sv - ms / 2;
      ScatterSuBounds(k, i, sv, su, gcfLayer, gsu, gsv);
      var c := gsu * k.gridSize + gsv;
      var w := k.gcf[gcfLayer + su * ms + sv];
      ghost var cur := grid[..];
      grid[c] := GridPol(grid[c], k.vis[i], w);
      assert grid[..] == cur[c := GridPol(cur[c], k.vis[i], w)];
      su := su + 1;
    }
  }

  /** Every polarisation of `g` is `g0`'s after samples `i' < i` of the
      sample loop for `sv`. */
  ghost predicate SamplesDone(k: Ms3, sv: int, i: int, g0: seq<Double4c>, g: seq<Double4c>)
  {
    forall p :: Proj(g, p) == ApplyAll(Proj(g0, p), 0, Inner(KernelBody(k, Proj(k.vis, p)), sv, i))
  }

  /** Every polarisation of `g` is `g0`'s after the iterations `sv' < sv`
      of the outer loop. */
  ghost predicate SvDone(k: Ms3, sv: int, g0: seq<Double4c>, g: seq<Double4c>)
  {
    forall p :: Proj(g, p) == ApplyAll(Proj(g0, p), 0, Cat(KernelBody(k, Proj(k.vis, p)), sv, |k.uvw|))
  }

  lemma SamplesStep(k: Ms3, sv: int, i: int, g0: seq<Double4c>, mid: seq<Double4c>, g: seq<Double4c>)
    requires 0 <= i && SamplesDone(k, sv, i, g0, mid) && SuDone(k, i, sv, k.maxSupp, mid, g)
    ensures SamplesDone(k, sv, i + 1, g0, g)
  {
    forall p
      ensures Proj(g, p) == ApplyAll(Proj(g0, p), 0, Inner(KernelBody(k, Proj(k.vis, p)), sv, i + 1))
    {
      var x := Proj(k.vis, p);
      var kb := KernelBody(k, x);
      assert kb(sv, i) == Inner(SuBody(k, x, i), sv, k.maxSupp);
      ApplyAllConcat(Proj(g0, p), 0, Inner(kb, sv, i), kb(sv, i));
    }
  }

  /** The grid after the first `i` samples of the sample loop for `sv`,
      sample by sample. */
  ghost function SamplesGrid(k: Ms3, sv: int, i: int, g0: seq<Double4c>): (g: seq<Double4c>)
    requires Ms3Ok(k) && 0 <= sv < k.maxSupp && 0 <= i <= |k.uvw| && |g0| == k.gridSize * k.gridSize
    ensures |g| == |g0|
  {
    if i == 0 then g0 else SuGrid(k, i - 1, sv, k.maxSupp, SamplesGrid(k, sv, i - 1, g0))
  }

  /** No sample done: the grid is untouched. */
  lemma SamplesDoneEmpty(k: Ms3, sv: int, i: int, g0: seq<Double4c>)
    requires i == 0
    ensures SamplesDone(k, sv, i, g0, g0)
  {
  }

  /** The samples of the sample loop, replayed, give every polarisation
      its updates. */
  lemma {:induction false} SamplesGridDone(k: Ms3, sv: int, i: int, g0: seq<Double4c>)
    requires Ms3Ok(k) && 0 <= sv < k.maxSupp && 0 <= i <= |k.uvw| && |g0| == k.gridSize * k.gridSize
    ensures SamplesDone(k, sv, i, g0, SamplesGrid(k, sv, i, g0))
  {
    if i > 0 {
      SamplesGridDone(k, sv, i - 1, g0);
      SamplesGridStep(k, sv, i, g0);
    } else {
      SamplesDoneEmpty(k, sv, i, g0);
    }
  }

  /** The inductive step of `SamplesGridDone`: sample `i - 1`. */
  lemma SamplesGridStep(k: Ms3, sv: int, i: int, g0: seq<Double4c>)
    requires Ms3Ok(k) && 0 <= sv < k.maxSupp && 0 < i <= |k.uvw| && |g0| == k.gridSize * k.gridSize
    requires SamplesDone(k, sv, i - 1, g0, SamplesGrid(k, sv, i - 1, g0))
    ensures SamplesDone(k, sv, i, g0, SamplesGrid(k, sv, i, g0))
  {
    SamplesStepOn(k, sv, i - 1, g0, SamplesGrid(k, sv, i - 1, g0), SamplesGrid(k, sv, i, g0));
  }

  /** Sample `i`'s `su` loops, replayed on the grid `mid` left by the
      samples before it, complete the samples up to `i`. */
  lemma SamplesStepOn(k: Ms3, sv: int, i: int, g0: seq<Double4c>, mid: seq<Double4c>, g: seq<Double4c>)
    requires Ms3Ok(k) && 0 <= sv < k.maxSupp && 0 <= i < |k.uvw| && |mid| == k.gridSize * k.gridSize
    requires SamplesDone(k, sv, i, g0, mid) && g == SuGrid(k, i, sv, k.maxSupp, mid)
    ensures SamplesDone(k, sv, i + 1, g0, g)
  {
    SuGridDone(k, i, sv, k.maxSupp, mid);
    SamplesStep(k, sv, i, g0, mid, g);
  }

  lemma SvStep(k: Ms3, sv: int, g0: seq<Double4c>, mid: seq<Double4c>, g: seq<Double4c>)
    requires 0 <= sv && SvDone(k, sv, g0, mid) && SamplesDone(k, sv, |k.uvw|, mid, g)
    ensures SvDone(k, sv + 1, g0, g)
  {
    forall p
      ensures Proj(g, p) == ApplyAll(Proj(g0, p), 0, Cat(KernelBody(k, Proj(k.vis, p)), sv + 1, |k.uvw|))
    {
      var kb := KernelBody(k, Proj(k.vis, p));
      ApplyAllConcat(Proj(g0, p), 0, Cat(kb, sv, |k.uvw|), Inner(kb, sv, |k.uvw|));
    }
  }

  /** The sample loop for one `sv`. */
  method ScatterSamples(k: Ms3, sv: int, grid: array<Double4c>)
    requires Ms3Ok(k) && 0 <= sv < k.maxSupp
    requires grid.Length == k.gridSize * k.gridSize
    modifies grid
    ensures grid[..] == SamplesGrid(k, sv, |k.uvw|, old(grid[..]))
  {
    var i := 0;
    while i < |k.uvw|
      invariant 0 <= i <= |k.uvw|
      invariant grid[..] == SamplesGrid(k, sv, i, old(grid[..]))
    {
      ScatterSu(k, i, sv, grid);
      i := i + 1;
    }
  }

  /** `gridKernel_scatter` (scalar path): the loops `sv`, sample, `su`. In
      every polarisation the grid receives that polarisation's updates,
      in the kernel's order; and so, cell by cell, it gains what the
      sample-major order would give it: the loop order does not matter,
      and no polarisation reads another. */
  method GridKernelScatter(k: Ms3, grid: array<Double4c>)
    requires Ms3Ok(k)
    requires grid.Length == k.gridSize * k.gridSize
    modifies grid
    ensures forall p :: Proj(grid[..], p) == ApplyAll(Proj(old(grid[..]), p), 0, KernelOrder(k, Proj(k.vis, p)))
    ensures forall p, c :: 0 <= c < grid.Length ==>
              PolOf(grid[c], p) == Add(PolOf(old(grid[c]), p), SumAt(SampleOrder(k, Proj(k.vis, p)), c))
  {
    var sv := 0;
    while sv < k.maxSupp
      invariant 0 <= sv <= k.maxSupp
      invariant SvDone(k, sv, old(grid[..]), grid[..])
    {
      ghost var mid := grid[..];
      ScatterSamples(k, sv, grid);
      SamplesGridDone(k, sv, |k.uvw|, mid);
      SvStep(k, sv, old(grid[..]), mid, grid[..]);
      sv := sv + 1;
    }
    KernelCells(k, old(grid[..]), grid[..]);
  }

  lemma KernelCells(k: Ms3, g0: seq<Double4c>, g: seq<Double4c>)
    requires |g| == |g0| && SvDone(k, k.maxSupp, g0, g)
    ensures forall p :: Proj(g, p) == ApplyAll(Proj(g0, p), 0, KernelOrder(k, Proj(k.vis, p)))
    ensures forall p, c :: 0 <= c < |g| ==> PolOf(g[c], p) == Add(PolOf(g0[c], p), SumAt(SampleOrder(k, Proj(k.vis, p)), c))
  {
    forall p, c | 0 <= c < |g|
      ensures PolOf(g[c], p) == Add(PolOf(g0[c], p), SumAt(SampleOrder(k, Proj(k.vis, p)), c))
    {
      assert |Proj(g, p)| == |Proj(g0, p)|;
      KernelCell(k, p, g0, g, c);
    }
  }

  /** Every cell receives the same total in the kernel's loop order as in
      the sample-major order. */
  lemma KernelOrderSums(k: Ms3, x: seq<Complex>, c: int)
    ensures SumAt(KernelOrder(k, x), c) == SumAt(SampleOrder(k, x), c)
  {
    LoopOrderIrrelevant(k, x);
    SumAtPerm(KernelOrder(k, x), SampleOrder(k, x), c);
  }

  /** From the kernel-order replay to the sample-major sum in one cell. */
  lemma KernelCell(k: Ms3, p: Pol, g0: seq<Double4c>, g: seq<Double4c>, c: int)
    requires 0 <= c < |g0| && Proj(g, p) == ApplyAll(Proj(g0, p), 0, KernelOrder(k, Proj(k.vis, p)))
    ensures c < |g| && PolOf(g[c], p) == Add(PolOf(g0[c], p), SumAt(SampleOrder(k, Proj(k.vis, p)), c))
  {
    var x, gp, g0p := Proj(k.vis, p), Proj(g, p), Proj(g0, p);
    var ko, so := KernelOrder(k, x), SampleOrder(k, x);
    ApplyAllAt(g0p, 0, ko, c);
    KernelOrderSums(k, x, c);
    assert gp[c] == Add(g0p[c], SumAt(so, c));
    assert gp[c] == PolOf(g[c], p) && g0p[c] == PolOf(g0[c], p);
  }
}
