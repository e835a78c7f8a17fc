/** The utilities `grid0`, `normalizeCPU` and `reweight` of
    MS4/kernel/cpu/scatter_grid/scatter_gridder_w_dependent_dyn_1p.cpp. The
    samples' scaled coordinates arrive already rounded. `grid0` and
    `reweight` address a buffer of `grid_size * pitch` cells through a
    view centred by `trans = grid_size / 2 * (pitch + 1)`: cell `(u, v)`
    of the view is buffer slot `u * pitch + v + trans`, and a sample whose
    slot falls outside the buffer is skipped. */
module GridUtils {
  import opened Complex
  import opened Common
  import opened Accumulate

  /** A sample's rounded, scaled coordinates `round(u * scale)`,
      `round(v * scale)`. */
  datatype UV = UV(u: int, v: int)

  /** Offset of the view's origin inside the buffer. */
  function Trans(gridSize: int, pitch: int): int
  {
    CDiv(gridSize, 2) * (pitch + 1)
  }

  /** The sample's cell relative to the view's origin, `n` in the source. */
  function Offset(p: UV, pitch: int): int
  {
    p.u * pitch + p.v
  }

  /** Buffer slot of the sample's cell, `ng` in the source. */
  function Slot(p: UV, gridSize: int, pitch: int): int
  {
    Offset(p, pitch) + Trans(gridSize, pitch)
  }

  /** The bounds test `ng >= 0 && ng < last`. */
  predicate Lands(p: UV, gridSize: int, pitch: int)
  {
    0 <= Slot(p, gridSize, pitch) < gridSize * pitch
  }

  // ---------------------------------------------------------------------
  // grid0

  /** The updates `grid[u * pitch + v] += vis` of the first `m` samples,
      relative to the view's origin. */
  function Grid0Deposits(uv: seq<UV>, vis: seq<Complex>, pitch: int, m: int): (r: seq<Deposit>)
    requires 0 <= m <= |uv| == |vis|
    ensures |r| == m
  {
    if m == 0 then []
    else Grid0Deposits(uv, vis, pitch, m - 1) + [Deposit(Offset(uv[m - 1], pitch), vis[m - 1])]
  }

  /** One pass of the `grid0` loop: sample `i` adds its visibility to its
      slot when the slot is inside the buffer, and changes nothing
      otherwise. */
  lemma Grid0Step(uv: seq<UV>, vis: seq<Complex>, pitch: int, trans: int, i: int, g0: seq<Complex>, g: seq<Complex>)
    requires 0 <= i < |uv| == |vis|
    requires g == ApplyAll(g0, trans, Grid0Deposits(uv, vis, pitch, i))
    ensures var ng := Offset(uv[i], pitch) + trans;
            ApplyAll(g0, trans, Grid0Deposits(uv, vis, pitch, i + 1))
              == if 0 <= ng < |g| then g[ng := Add(g[ng], vis[i])] else g
  {
    var d := Deposit(Offset(uv[i], pitch), vis[i]);
    assert Grid0Deposits(uv, vis, pitch, i + 1) == Grid0Deposits(uv, vis, pitch, i) + [d];
    if 0 <= trans + d.cell < |g0| {
      ApplyAllSnoc(g0, trans, Grid0Deposits(uv, vis, pitch, i), d);
    } else {
      ApplyAllSkip(g0, trans, Grid0Deposits(uv, vis, pitch, i), d);
    }
  }

  /** `grid0`: every buffer slot ends up holding its old value plus the
      visibilities of the samples that land on it; samples that fail the
      bounds test change nothing. */
  method Grid0(uv: seq<UV>, vis: seq<Complex>, buf: array<Complex>, pitch: int, gridSize: int)
    requires |uv| == |vis| && buf.Length == gridSize * pitch
    modifies buf
    ensures buf[..] == ApplyAll(old(buf[..]), Trans(gridSize, pitch), Grid0Deposits(uv, vis, pitch, |uv|))
    ensures forall c :: 0 <= c < buf.Length ==>
              buf[c] == Add(old(buf[c]), SumAt(Grid0Deposits(uv, vis, pitch, |uv|), c - Trans(gridSize, pitch)))
  {
    ghost var g0 := buf[..];
    var last := gridSize * pitch;
    var trans := Trans(gridSize, pitch);
    var i := 0;
    while i < |uv|
      invariant 0 <= i <= |uv|
      invariant buf[..] == ApplyAll(g0, trans, Grid0Deposits(uv, vis, pitch, i))
    {
      var n := Offset(uv[i], pitch);
      var ng := n + trans;
      Grid0Step(uv, vis, pitch, trans, i, g0, buf[..]);
      if ng >= 0 && ng < last {
        buf[ng] := Add(buf[ng], vis[i]);
      }
      i := i + 1;
    }
    ApplyAllSums(g0, buf[..], trans, Grid0Deposits(uv, vis, pitch, |uv|));
  }

  // ---------------------------------------------------------------------
  // normalizeCPU

  /** The factor `1.0 / double(siz)`. For `siz == 0` the loop below does
      not run and the factor is never used. */
  function Norm(siz: int): real
  {
    if siz == 0 then 0.0 else 1.0 / (siz as real)
  }

  /** Scaling by `Norm(siz)` is undone by scaling by `siz`. */
  lemma NormInverse(a: Complex, siz: int)
    requires siz != 0
    ensures Scale(Scale(a, Norm(siz)), siz as real) == a
  {
    var n := siz as real;
    assert Norm(siz) * n == 1.0;
    assert a.re * Norm(siz) * n == a.re * (Norm(siz) * n);
    assert a.im * Norm(siz) * n == a.im * (Norm(siz) * n);
  }

  /** `normalizeCPU`, in place: each of the `grid_size * grid_pitch` cells
      is multiplied by `1 / (grid_size * grid_pitch)`; nothing else
      changes. */
  method NormalizeCPU(src: array<Complex>, gridPitch: int, gridSize: int)
    requires gridSize * gridPitch <= src.Length
    modifies src
    ensures forall i :: 0 <= i < gridSize * gridPitch ==>
              src[i] == Scale(old(src[i]), Norm(gridSize * gridPitch))
    ensures forall i :: 0 <= i < src.Length && !(i < gridSize * gridPitch) ==> src[i] == old(src[i])
  {
    var siz := gridSize * gridPitch;
    var norm := if siz == 0 then 0.0 else 1.0 / (siz as real);
    var i := 0;
    while i < siz
      invariant 0 <= i && (i == 0 || i <= siz)
      invariant forall j :: 0 <= j < i ==> src[j] == Scale(old(src[j]), norm)
      invariant forall j :: i <= j < src.Length ==> src[j] == old(src[j])
    {
      src[i] := Scale(src[i], norm);
      i := i + 1;
    }
  }

  // ---------------------------------------------------------------------
  // reweight

  /** Number of the first `m` samples that pass the bounds test and land on
      slot `c` of the `grid_size x grid_size` count grid. */
  function CountAt(uv: seq<UV>, gridSize: int, m: int, c: int): (n: nat)
    requires 0 <= m <= |uv|
    ensures n <= m
  {
    if m == 0 then 0
    else CountAt(uv, gridSize, m - 1, c)
         + (if Lands(uv[m - 1], gridSize, gridSize) && Slot(uv[m - 1], gridSize, gridSize) == c then 1 else 0)
  }

  /** A sample that passes the bounds test counts towards its own slot, so
      the divisor it is given is at least one. */
  lemma {:induction false} CountAtOwn(uv: seq<UV>, gridSize: int, m: int, i: int)
    requires 0 <= i < m <= |uv| && Lands(uv[i], gridSize, gridSize)
    ensures CountAt(uv, gridSize, m, Slot(uv[i], gridSize, gridSize)) >= 1
    decreases m
  {
    if i < m - 1 {
      CountAtOwn(uv, gridSize, m - 1, i);
    }
  }

  /** Slots no sample lands on count zero. */
  lemma {:induction false} CountAtNone(uv: seq<UV>, gridSize: int, m: int, c: int)
    requires 0 <= m <= |uv|
    requires forall i :: 0 <= i < m ==> !(Lands(uv[i], gridSize, gridSize) && Slot(uv[i], gridSize, gridSize) == c)
    ensures CountAt(uv, gridSize, m, c) == 0
    decreases m
  {
    if m > 0 {
      CountAtNone(uv, gridSize, m - 1, c);
    }
  }

  /** What `reweight` leaves in `vis[i]`: divided by the number of samples
      sharing its cell when it passes the bounds test, unchanged
      otherwise. */
  function Reweighted(uv: seq<UV>, x: Complex, gridSize: int, i: int): Complex
    requires 0 <= i < |uv|
  {
    if Lands(uv[i], gridSize, gridSize) then
      CountAtOwn(uv, gridSize, |uv|, i);
      DivReal(x, CountAt(uv, gridSize, |uv|, Slot(uv[i], gridSize, gridSize)) as real)
    else x
  }

  /** The first pass of `reweight`: count the samples per slot and cache
      the rounded coordinates. */
  method CountSamples(uv: seq<UV>, gridSize: int) returns (count: array<int>, pregrid: array<UV>)
    requires 0 <= gridSize * gridSize
    ensures fresh(count) && fresh(pregrid)
    ensures count.Length == gridSize * gridSize && pregrid[..] == uv
    ensures forall c :: 0 <= c < count.Length ==> count[c] == CountAt(uv, gridSize, |uv|, c)
  {
    var last := gridSize * gridSize;
    var trans := CDiv(gridSize, 2) * (gridSize + 1);
    count := new int[last](c => 0);
    pregrid := new UV[|uv|](i => UV(0, 0));
    var i := 0;
    while i < |uv|
      invariant 0 <= i <= |uv|
      invariant forall c :: 0 <= c < last ==> count[c] == CountAt(uv, gridSize, i, c)
      invariant pregrid[..i] == uv[..i]
    {
      var u, v := uv[i].u, uv[i].v;
      var n := u * gridSize + v;
      var ng := n + trans;
      if ng >= 0 && ng < last {
        count[ng] := count[ng] + 1;
      }
      pregrid[i] := UV(u, v);
      i := i + 1;
    }
  }

  /** `reweight`, in place: each visibility whose sample passes the bounds
      test is divided by the number of samples on its cell; the others are
      untouched. */
  method Reweight(uv: seq<UV>, vis: array<Complex>, gridSize: int)
    requires vis.Length == |uv| && 0 <= gridSize * gridSize
    modifies vis
    ensures forall i :: 0 <= i < vis.Length ==> vis[i] == Reweighted(uv, old(vis[i]), gridSize, i)
  {
    var last := gridSize * gridSize;
    var trans := CDiv(gridSize, 2) * (gridSize + 1);
    var count, pregrid := CountSamples(uv, gridSize);
    var i := 0;
    while i < |uv|
      invariant 0 <= i <= |uv|
      modifies vis
      invariant forall j :: 0 <= j < i ==> vis[j] == Reweighted(uv, old(vis[j]), gridSize, j)
      invariant forall j :: i <= j < vis.Length ==> vis[j] == old(vis[j])
    {
      var p := pregrid[i];
      assert p == pregrid[..][i] == uv[i];
      var n := p.u * gridSize + p.v;
      var ng := n + trans;
      assert ng == Slot(uv[i], gridSize, gridSize);
      if ng >= 0 && ng < last {
        CountAtOwn(uv, gridSize, |uv|, i);
        assert count[ng] == CountAt(uv, gridSize, |uv|, ng);
        vis[i] := DivReal(vis[i], count[ng] as real);
      }
      i := i + 1;
    }
  }
}
