/** What the PSF scatter kernel `psfiKernel_scatter` of
    MS3/Sketches/CPU_Gridders/scatter_psf_w_dependent_dyn.cpp computes, as
    values: the same footprint scatter as the gridder, with weight one, an
    optional baseline permutation, no bounds test and no centring
    correction. */
module PsfDeposits {
  import opened Complex
  import opened Common
  import opened Accumulate
  import opened Reduction
  import opened ScatterDeposits

  /** The kernel's input type `Inp`: either already pregridded, or a raw
      `Double3` sample. */
  datatype Input = Given(p: Pregridded) | Sample(s: Double3)

  /** An entry of the `permutations` table (`BlWMap`): a baseline and its
      w-plane. */
  datatype BlWMap = BlWMap(bl: int, wp: int)

  /** The kernel's read-only inputs; `uvw` holds `ts_ch` samples per
      baseline, baseline after baseline. `scale` is the kernel's scale;
      raw samples are pregridded by common.h's `pregridPoint`, whose
      w-plane divisor `w_planes/2` stands for the kernel's `wstep`. */
  datatype Psf = Psf(
    isHalfGcf: bool,
    usePermutations: bool,
    over: int,
    baselines: nat,
    permutations: seq<BlWMap>,
    gcf: map<int, seq<Complex>>,
    uvw: seq<Input>,
    tsCh: nat,
    gridPitch: int,
    gridSize: nat,
    scale: real,
    wPlanes: int)

  /** `cvt::pre` can convert the input: a raw sample's fields fit `short`. */
  predicate CvtOk(k: Psf, inp: Input)
  {
    inp.Sample? ==> PregridFits(k.gridSize, k.over, k.wPlanes, k.isHalfGcf, ScaleUvw(k.scale, inp.s))
  }

  /** `cvt<over, is_half_gcf, Inp>::pre`: a pregridded input is passed on
      as it is, a raw one goes through `pregridPoint` with mirroring on
      exactly when the GCF is a half GCF. */
  function CvtPre(k: Psf, inp: Input): (r: Pregridded)
    requires CvtOk(k, inp)
    ensures inp.Given? ==> r == inp.p
    ensures inp.Sample? ==> r.gcfLayerSupp == GetSupp(PregridValsOf(k.gridSize, k.over, k.wPlanes, ScaleUvw(k.scale, inp.s)).wPlane)
                            && r.u + r.gcfLayerSupp / 2 == Round(ScaleUvw(k.scale, inp.s).u) + k.gridSize / 2
                            && r.v + r.gcfLayerSupp / 2 == Round(ScaleUvw(k.scale, inp.s).v) + k.gridSize / 2
  {
    match inp
    case Given(p) => p
    case Sample(s) => PregridPoint(k.gridSize, k.over, k.wPlanes, k.isHalfGcf, k.scale, s)
  }

  /** The baseline that loop index `bl0` processes. */
  function Sel(k: Psf, bl0: int): int
    requires k.usePermutations ==> 0 <= bl0 < |k.permutations|
  {
    if k.usePermutations then k.permutations[bl0].bl else bl0
  }

  /** The support of baseline `bl`: read from `permutations[bl]`, whether
      or not permutations are in use. */
  function PsfSupp(k: Psf, bl: int): int
    requires 0 <= bl < |k.permutations|
  {
    GetSupp(k.permutations[bl].wp)
  }

  /** Sample `i` of baseline `bl`: `uvw[bl * ts_ch + i]`. */
  function SampleAt(k: Psf, bl: int, i: int): Input
    requires 0 <= bl && bl * k.tsCh + k.tsCh <= |k.uvw| && 0 <= i < k.tsCh
  {
    MulPos(bl, k.tsCh);
    k.uvw[bl * k.tsCh + i]
  }

  /** Flat index of grid cell `(row, col)`. */
  function PsfCell(k: Psf, row: int, col: int): int
  {
    row * k.gridPitch + col
  }

  /** A pregridded sample the kernel can scatter with support `supp`: its
      footprint lies inside the grid (the kernel does not test it) and its
      layer holds the `supp * supp` pixels it reads. */
  predicate Scatterable(k: Psf, p: Pregridded, supp: int)
  {
    0 <= p.u && p.u + supp <= k.gridSize && 0 <= p.v && p.v + supp <= k.gridSize
    && LayerOf(k.isHalfGcf, p.gcfLayerIndex) in k.gcf
    && supp * supp <= |k.gcf[LayerOf(k.isHalfGcf, p.gcfLayerIndex)]|
  }

  /** Baseline `bl` can be gridded: it has a `permutations` entry (read
      for its w-plane), its samples are in `uvw`, and each converts and
      scatters inside the grid and the GCF table. */
  predicate BlOk(k: Psf, bl: int)
  {
    0 <= bl < |k.permutations| && bl * k.tsCh + k.tsCh <= |k.uvw|
    && forall i :: 0 <= i < k.tsCh ==>
         CvtOk(k, SampleAt(k, bl, i)) && Scatterable(k, CvtPre(k, SampleAt(k, bl, i)), PsfSupp(k, bl))
  }

  /** What the kernel demands of its caller: every baseline it visits can
      be gridded. */
  predicate PsfWellFormed(k: Psf)
  {
    0 <= k.gridSize <= k.gridPitch
    && (k.usePermutations ==> k.baselines <= |k.permutations|)
    && forall bl0 :: 0 <= bl0 < k.baselines ==> BlOk(k, Sel(k, bl0))
  }

  /** The pixel for `(su, sv)`: entry `su * supp + sv` of the layer, with no
      centring correction; in half-GCF mode a negative index reads layer
      `-index` and conjugates. */
  function PsfPixel(k: Psf, p: Pregridded, supp: int, su: int, sv: int): Complex
    requires Scatterable(k, p, supp) && 0 <= su < supp && 0 <= sv < supp
  {
    CellBound(su, sv, supp, supp);
    var px := k.gcf[LayerOf(k.isHalfGcf, p.gcfLayerIndex)][su * supp + sv];
    if Conjugated(k.isHalfGcf, p.gcfLayerIndex) then Conj(px) else px
  }

  /** The `sv < m` updates `grid[u + su][v + sv] += pixel` of sample `p`. */
  function PsfRow(k: Psf, p: Pregridded, supp: int, su: int, m: int): (r: seq<Deposit>)
    requires Scatterable(k, p, supp) && 0 <= su < supp && 0 <= m <= supp
    ensures |r| == m
    decreases m
  {
    if m == 0 then []
    else PsfRow(k, p, supp, su, m - 1)
         + [Deposit(PsfCell(k, p.u + su, p.v + m - 1), PsfPixel(k, p, supp, su, m - 1))]
  }

  /** The first `j` updates of a row are the row cut at `j`. */
  lemma {:induction false} PsfRowPrefix(k: Psf, p: Pregridded, supp: int, su: int, j: int, m: int)
    requires Scatterable(k, p, supp) && 0 <= su < supp && 0 <= j <= m <= supp
    ensures PsfRow(k, p, supp, su, m)[..j] == PsfRow(k, p, supp, su, j)
    decreases m
  {
    if j < m {
      PsfRowPrefix(k, p, supp, su, j, m - 1);
      assert PsfRow(k, p, supp, su, m)[..j] == PsfRow(k, p, supp, su, m - 1)[..j];
    }
  }

  /** One step of the `sv` loop: the pixel the kernel fetches is
      `PsfPixel`, the cell it updates is in the grid, and the row gains
      that update. */
  lemma PsfRowStep(k: Psf, p: Pregridded, supp: int, su: int, sv: int)
    requires 0 <= k.gridSize <= k.gridPitch
    requires Scatterable(k, p, supp) && 0 <= su < supp && 0 <= sv < supp
    ensures LayerOf(k.isHalfGcf, p.gcfLayerIndex) in k.gcf
            && 0 <= su * supp + sv < |k.gcf[LayerOf(k.isHalfGcf, p.gcfLayerIndex)]|
    ensures PsfPixel(k, p, supp, su, sv)
            == if k.isHalfGcf && p.gcfLayerIndex < 0 then Conj(k.gcf[-p.gcfLayerIndex][su * supp + sv])
               else k.gcf[p.gcfLayerIndex][su * supp + sv]
    ensures 0 <= PsfCell(k, p.u + su, p.v + sv) < k.gridSize * k.gridPitch
    ensures PsfRow(k, p, supp, su, sv + 1)
            == PsfRow(k, p, supp, su, sv) + [Deposit(PsfCell(k, p.u + su, p.v + sv), PsfPixel(k, p, supp, su, sv))]
  {
    CellBound(su, sv, supp, supp);
    CellBound(p.u + su, p.v + sv, k.gridSize, k.gridPitch);
  }

  /** The same step on a buffer holding the row's first `sv` updates:
      adding the fetched pixel to the cell gives the first `sv + 1`. */
  lemma PsfScatterStep(k: Psf, p: Pregridded, supp: int, su: int, sv: int,
                       g0: seq<Complex>, base: int, g: seq<Complex>, row: seq<Deposit>)
    requires 0 <= k.gridSize <= k.gridPitch
    requires Scatterable(k, p, supp) && 0 <= su < supp && 0 <= sv < supp
    requires 0 <= base && base + k.gridSize * k.gridPitch <= |g0|
    requires row == PsfRow(k, p, supp, su, supp)
    requires g == ApplyAll(g0, base, row[..sv])
    ensures LayerOf(k.isHalfGcf, p.gcfLayerIndex) in k.gcf
            && 0 <= su * supp + sv < |k.gcf[LayerOf(k.isHalfGcf, p.gcfLayerIndex)]|
    ensures 0 <= base + (p.u + su) * k.gridPitch + p.v + sv < |g|
    ensures var layer := k.gcf[LayerOf(k.isHalfGcf, p.gcfLayerIndex)];
            var px := if Conjugated(k.isHalfGcf, p.gcfLayerIndex) then Conj(layer[su * supp + sv]) else layer[su * supp + sv];
            var c := base + (p.u + su) * k.gridPitch + p.v + sv;
            ApplyAll(g0, base, row[..sv + 1]) == g[c := Add(g[c], px)]
  {
    PsfRowStep(k, p, supp, su, sv);
    PsfRowPrefix(k, p, supp, su, sv + 1, supp);
    PsfRowPrefix(k, p, supp, su, sv, supp);
    ApplyAllSnoc(g0, base, PsfRow(k, p, supp, su, sv),
                 Deposit(PsfCell(k, p.u + su, p.v + sv), PsfPixel(k, p, supp, su, sv)));
  }

  /** Footprint row `su` of the first `m` samples of baseline `bl`. */
  function PsfSamples(k: Psf, bl: int, su: int, m: int): seq<Deposit>
    requires BlOk(k, bl) && 0 <= su < PsfSupp(k, bl) && 0 <= m <= k.tsCh
    decreases m
  {
    if m == 0 then []
    else PsfSamples(k, bl, su, m - 1) + PsfRow(k, CvtPre(k, SampleAt(k, bl, m - 1)), PsfSupp(k, bl), su, PsfSupp(k, bl))
  }

  /** The first `s` footprint rows of baseline `bl`. */
  function PsfBlUpTo(k: Psf, bl: int, s: int): seq<Deposit>
    requires BlOk(k, bl) && 0 <= s <= PsfSupp(k, bl)
    decreases s
  {
    if s == 0 then [] else PsfBlUpTo(k, bl, s - 1) + PsfSamples(k, bl, s - 1, k.tsCh)
  }

  /** All updates of baseline `bl`. */
  function PsfBlDeposits(k: Psf, bl: int): seq<Deposit>
    requires BlOk(k, bl)
  {
    PsfBlUpTo(k, bl, PsfSupp(k, bl))
  }

  /** The updates of each loop index, one batch per `bl0`: those of the
      baseline it selects. */
  function PsfBatches(k: Psf): (bs: seq<seq<Deposit>>)
    requires PsfWellFormed(k)
    ensures |bs| == k.baselines
    ensures forall bl0 :: 0 <= bl0 < k.baselines ==> bs[bl0] == PsfBlDeposits(k, Sel(k, bl0))
  {
    seq(k.baselines, bl0 requires 0 <= bl0 < k.baselines => PsfBlDeposits(k, Sel(k, bl0)))
  }

  // ---------------------------------------------------------------------
  // Properties

  /** Update `sv` of row `su` goes to `(u + su, v + sv)` and adds
      pixel `(su, sv)` with weight one. */
  lemma {:induction false} PsfRowAt(k: Psf, p: Pregridded, supp: int, su: int, m: int, sv: int)
    requires Scatterable(k, p, supp) && 0 <= su < supp && 0 <= sv < m <= supp
    ensures PsfRow(k, p, supp, su, m)[sv] == Deposit(PsfCell(k, p.u + su, p.v + sv), PsfPixel(k, p, supp, su, sv))
    decreases m
  {
    if sv < m - 1 {
      PsfRowAt(k, p, supp, su, m - 1, sv);
    }
  }

  /** Without a bounds test the footprint still lies in the grid: every
      update lands in `[0, grid_size * grid_pitch)`. */
  lemma {:induction false} PsfRowWithin(k: Psf, p: Pregridded, supp: int, su: int, m: int)
    requires 0 <= k.gridSize <= k.gridPitch
    requires Scatterable(k, p, supp) && 0 <= su < supp && 0 <= m <= supp
    ensures CellsWithin(PsfRow(k, p, supp, su, m), k.gridSize * k.gridPitch)
    decreases m
  {
    if m > 0 {
      PsfRowWithin(k, p, supp, su, m - 1);
      CellBound(p.u + su, p.v + m - 1, k.gridSize, k.gridPitch);
      var d := Deposit(PsfCell(k, p.u + su, p.v + m - 1), PsfPixel(k, p, supp, su, m - 1));
      CellsWithinConcat(PsfRow(k, p, supp, su, m - 1), [d], k.gridSize * k.gridPitch);
    }
  }

  lemma {:induction false} PsfSamplesWithin(k: Psf, bl: int, su: int, m: int)
    requires 0 <= k.gridSize <= k.gridPitch
    requires BlOk(k, bl) && 0 <= su < PsfSupp(k, bl) && 0 <= m <= k.tsCh
    ensures CellsWithin(PsfSamples(k, bl, su, m), k.gridSize * k.gridPitch)
    decreases m
  {
    if m > 0 {
      var p := CvtPre(k, SampleAt(k, bl, m - 1));
      PsfSamplesWithin(k, bl, su, m - 1);
      PsfRowWithin(k, p, PsfSupp(k, bl), su, PsfSupp(k, bl));
      CellsWithinConcat(PsfSamples(k, bl, su, m - 1), PsfRow(k, p, PsfSupp(k, bl), su, PsfSupp(k, bl)), k.gridSize * k.gridPitch);
    }
  }

  lemma {:induction false} PsfBlUpToWithin(k: Psf, bl: int, s: int)
    requires 0 <= k.gridSize <= k.gridPitch
    requires BlOk(k, bl) && 0 <= s <= PsfSupp(k, bl)
    ensures CellsWithin(PsfBlUpTo(k, bl, s), k.gridSize * k.gridPitch)
    decreases s
  {
    if s > 0 {
      PsfBlUpToWithin(k, bl, s - 1);
      PsfSamplesWithin(k, bl, s - 1, k.tsCh);
      CellsWithinConcat(PsfBlUpTo(k, bl, s - 1), PsfSamples(k, bl, s - 1, k.tsCh), k.gridSize * k.gridPitch);
    }
  }

  lemma PsfBatchesWithin(k: Psf)
    requires PsfWellFormed(k)
    ensures forall bl0 :: 0 <= bl0 < k.baselines ==> CellsWithin(PsfBatches(k)[bl0], k.gridSize * k.gridPitch)
  {
    forall bl0 | 0 <= bl0 < k.baselines
      ensures CellsWithin(PsfBatches(k)[bl0], k.gridSize * k.gridPitch)
    {
      PsfBlUpToWithin(k, Sel(k, bl0), PsfSupp(k, Sel(k, bl0)));
    }
  }

  // ---------------------------------------------------------------------
  // Permutations only reorder the baselines

  /** The indices `0 .. n - 1`. */
  function Range(n: nat): (r: seq<int>)
    ensures |r| == n && forall i :: 0 <= i < n ==> r[i] == i
  {
    seq(n, i => i)
  }

  /** The baselines the `bl0` loop selects, in loop order. */
  function Selected(k: Psf): (r: seq<int>)
    requires PsfWellFormed(k)
    ensures |r| == k.baselines && forall bl0 :: 0 <= bl0 < k.baselines ==> r[bl0] == Sel(k, bl0)
  {
    seq(k.baselines, bl0 requires 0 <= bl0 < k.baselines && PsfWellFormed(k) => Sel(k, bl0))
  }

  /** The table's first `baselines` entries name every baseline
      `0 .. baselines - 1` exactly once. */
  predicate PermutesBaselines(k: Psf)
    requires PsfWellFormed(k)
  {
    multiset(Selected(k)) == multiset(Range(k.baselines))
  }

  /** The updates of baseline `bl`, none for a baseline the kernel could
      not grid. */
  function BatchOf(k: Psf, bl: int): seq<Deposit>
  {
    if BlOk(k, bl) then PsfBlDeposits(k, bl) else []
  }

  /** With a table that permutes the baselines, `use_permutations` only
      changes the order in which the baselines are gridded: every cell
      receives what gridding baselines `0 .. baselines - 1` in order
      would give it. */
  lemma PermutationInvariant(k: Psf, c: int)
    requires PsfWellFormed(k) && PermutesBaselines(k)
    ensures forall bl :: 0 <= bl < k.baselines ==> BlOk(k, bl)
    ensures SumAt(Flatten(PsfBatches(k), k.baselines), c)
         == SumAt(Flatten(MapBatches(bl => BatchOf(k, bl), Range(k.baselines)), k.baselines), c)
  {
    var sel, r := Selected(k), Range(k.baselines);
    forall bl | 0 <= bl < k.baselines
      ensures BlOk(k, bl)
    {
      assert r[bl] in multiset(sel);
      assert r[bl] in sel;
      var bl0 :| 0 <= bl0 < |sel| && sel[bl0] == r[bl];
    }
    var f := bl => BatchOf(k, bl);
    MapBatchesPerm(f, sel, r);
    assert PsfBatches(k) == MapBatches(f, sel);
    FlattenPerm(PsfBatches(k), MapBatches(f, r));
    SumAtPerm(Flatten(PsfBatches(k), k.baselines), Flatten(MapBatches(f, r), k.baselines), c);
  }
}
