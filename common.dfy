/** The coordinate pre-transform shared by the CPU gridders
    (MS3/Sketches/CPU_Gridders/common.h): support size, the translation
    of a sample's pixel by minus half the support, and the GCF layer index
    with the half-GCF sign trick. Coordinates are exact reals and C's
    `round` is modelled exactly, halfway cases included. */
module Common {

  datatype Option<T> = None | Some(value: T)

  const ShortMin: int := -32768
  const ShortMax: int := 32767

  /** Fits the C++ `short` fields of `Pregridded`. */
  predicate IsShort(x: int)
  {
    ShortMin <= x <= ShortMax
  }

  /** C++ integer division, which truncates toward zero (Dafny's `/` is
      Euclidean). */
  function CDiv(a: int, b: int): int
    requires b != 0
  {
    if a >= 0 then a / b else -((-a) / b)
  }

  /** The record `Pregridded` of common.h. */
  datatype Pregridded = Pregridded(u: int, v: int, gcfLayerIndex: int, gcfLayerSupp: int)

  function Abs(x: int): nat
  {
    if x < 0 then -x else x
  }

  /** `get_supp`: the support (side length of the footprint) of a w-plane. */
  function GetSupp(w: int): (s: int)
    ensures s == 8 * Abs(w) + 1
    ensures s >= 1 && s % 2 == 1
  {
    var a := if w < 0 then -w else w;
    DivModOf(4 * a, 1, 2);
    a * 8 + 1
  }

  lemma GetSuppSymmetric(w: int)
    ensures GetSupp(-w) == GetSupp(w)
  {
  }

  /** The unmirrored layer index `(w_plane * over + over_u) * over + over_v`. */
  function LayerIndex(wPlane: int, overU: int, overV: int, over: int): int
  {
    (wPlane * over + overU) * over + overV
  }

  /** A sample's `Double3` coordinates. */
  datatype Double3 = Double3(u: real, v: real, w: real)

  /** C's `round`: the nearest integer, with halfway cases rounded away
      from zero. */
  function Round(x: real): (r: int)
    ensures x - 0.5 <= r as real <= x + 0.5
    ensures r as real == x + 0.5 ==> x >= 0.0
    ensures r as real == x - 0.5 ==> x < 0.0
  {
    if x >= 0.0 then (x + 0.5).Floor else -((0.5 - x).Floor)
  }

  /** The three properties in `Round`'s contract single out its result:
      no other integer is within half a unit with the same tie rule. */
  lemma RoundUnique(x: real, n: int)
    requires x - 0.5 <= n as real <= x + 0.5
    requires n as real == x + 0.5 ==> x >= 0.0
    requires n as real == x - 0.5 ==> x < 0.0
    ensures n == Round(x)
  {
  }

  /** Line 81, `round(over * (x - u))`, for the scaled coordinate `x` and
      the stored pixel `u`. */
  function OverIndex(over: int, x: real, u: int): int
  {
    Round((over as real) * (x - u as real))
  }

  /** C's conversion of a `double` to an integer type: truncation toward
      zero. */
  function Trunc(x: real): (r: int)
    ensures 0.0 <= x ==> 0 <= r && r as real <= x < r as real + 1.0
    ensures x < 0.0 ==> r <= 0 && r as real - 1.0 < x <= r as real
  {
    if x >= 0.0 then x.Floor else -((-x).Floor)
  }

  /** The values `pregridPoint` computes, before they are stored. */
  datatype PregridVals = PregridVals(wPlane: int, maxSupp: int, u: int, v: int, overU: int, overV: int)

  /** Lines 71-73 of `pregridPoint`: the coordinates multiplied by
      `scale`, here exactly. */
  function ScaleUvw(scale: real, uvw: Double3): Double3
  {
    Double3(uvw.u * scale, uvw.v * scale, uvw.w * scale)
  }

  /** Lines 74-82 of `pregridPoint` on the scaled coordinates `s`: round the
      w-plane (`w_planes/2` is integer division), take its support,
      translate the rounded `u`, `v` by `grid_size/2 - max_supp/2`, and take
      the oversampling indices `round(over * (uvw.u - u))` against the
      TRANSLATED pixel. */
  function PregridValsOf(gridSize: nat, over: int, wPlanes: int, s: Double3): (p: PregridVals)
    requires CDiv(wPlanes, 2) != 0
    ensures p.maxSupp == GetSupp(p.wPlane)
    ensures p.u + p.maxSupp / 2 == Round(s.u) + gridSize / 2
    ensures p.v + p.maxSupp / 2 == Round(s.v) + gridSize / 2
  {
    var su, sv, sw := s.u, s.v, s.w;
    var wPlane := Round(sw / (CDiv(wPlanes, 2) as real));
    var maxSupp := GetSupp(wPlane);
    var u := Round(su) + gridSize / 2 - maxSupp / 2;
    var v := Round(sv) + gridSize / 2 - maxSupp / 2;
    PregridVals(wPlane, maxSupp, u, v, OverIndex(over, su, u), OverIndex(over, sv, v))
  }

  /** The layer index `pregridPoint` stores: the unmirrored index, negated
      for the mirrored plane when mirroring a negative w-plane. */
  function StoredIndex(doMirror: bool, p: PregridVals, over: int): int
  {
    if doMirror then
      if p.wPlane < 0 then -LayerIndex(-p.wPlane, p.overU, p.overV, over)
      else LayerIndex(p.wPlane, p.overU, p.overV, over)
    else LayerIndex(p.wPlane, p.overU, p.overV, over)
  }

  /** The divisions are defined and every value stored into a `short` of
      the result is representable, so none of the narrowing conversions
      changes a value. */
  predicate PregridFits(gridSize: nat, over: int, wPlanes: int, doMirror: bool, s: Double3)
  {
    CDiv(wPlanes, 2) != 0
    && var p := PregridValsOf(gridSize, over, wPlanes, s);
    IsShort(p.wPlane) && IsShort(p.maxSupp) && IsShort(p.u) && IsShort(p.v)
    && IsShort(p.overU) && IsShort(p.overV) && IsShort(StoredIndex(doMirror, p, over))
  }

  /** `pregridPoint<grid_size, over, w_planes, do_mirror>(scale, uvw, res)`. */
  function PregridPoint(gridSize: nat, over: int, wPlanes: int, doMirror: bool, scale: real, uvw: Double3): (r: Pregridded)
    requires PregridFits(gridSize, over, wPlanes, doMirror, ScaleUvw(scale, uvw))
    ensures var p := PregridValsOf(gridSize, over, wPlanes, ScaleUvw(scale, uvw));
            r.gcfLayerSupp == GetSupp(p.wPlane)
            // translating back by half the support gives the centre pixel
            && r.u + r.gcfLayerSupp / 2 == Round(ScaleUvw(scale, uvw).u) + gridSize / 2
            && r.v + r.gcfLayerSupp / 2 == Round(ScaleUvw(scale, uvw).v) + gridSize / 2
    ensures IsShort(r.u) && IsShort(r.v) && IsShort(r.gcfLayerIndex) && IsShort(r.gcfLayerSupp)
  {
    var p := PregridValsOf(gridSize, over, wPlanes, ScaleUvw(scale, uvw));
    Pregridded(p.u, p.v, StoredIndex(doMirror, p, over), p.maxSupp)
  }

  // ---------------------------------------------------------------------
  // Properties of the layer index

  lemma MulPos(a: int, b: int)
    requires a >= 0 && b >= 0
    ensures a * b >= 0
  {
  }

  lemma MulAssoc(a: int, b: int, c: int)
    ensures a * (b * c) == a * b * c
  {
  }

  lemma MulAddRight(a: int, b: int, c: int)
    ensures a * (b + c) == a * b + a * c
  {
  }

  lemma MulLe(a: int, b: int, c: int)
    requires 0 <= a <= b && 0 <= c
    ensures a * c <= b * c
  {
    MulPos(b - a, c);
    assert b * c - a * c == (b - a) * c;
  }

  lemma CellBound(row: int, col: int, rows: int, pitch: int)
    requires 0 <= row < rows && 0 <= col < pitch
    ensures 0 <= row * pitch + col < rows * pitch
  {
    MulPos(row, pitch);
    MulPos(rows - 1 - row, pitch);
    assert rows * pitch - row * pitch - pitch == (rows - 1 - row) * pitch;
  }

  /** A non-zero multiple of `n` is at least `n` away from zero. */
  lemma MulSign(d: int, n: int)
    requires n > 0
    ensures d >= 1 ==> d * n >= n
    ensures d <= -1 ==> d * n <= -n
  {
    if d >= 1 {
      MulPos(d - 1, n);
    } else if d <= -1 {
      MulPos(-d - 1, n);
    }
  }

  /** Euclidean division recovers quotient and remainder. */
  lemma DivModOf(q: int, r: int, n: int)
    requires 0 <= r < n
    ensures (q * n + r) / n == q && (q * n + r) % n == r
  {
    var x := q * n + r;
    var q', r' := x / n, x % n;
    assert x == q' * n + r' && 0 <= r' < n;
    assert (q - q') * n == r' - r;
    MulSign(q - q', n);
  }

  /** Taking a layer index apart: over_v, then over_u, then the w-plane. */
  function DecodeLayer(index: int, over: int): (r: (int, int, int))
    requires over > 0
  {
    ((index / over) / over, (index / over) % over, index % over)
  }

  /** With `0 <= over_u, over_v < over`, the unmirrored index determines
      `(w_plane, over_u, over_v)`: distinct inputs address distinct layers. */
  lemma LayerIndexDecodes(wPlane: int, overU: int, overV: int, over: int)
    requires 0 <= overU < over && 0 <= overV < over
    ensures DecodeLayer(LayerIndex(wPlane, overU, overV, over), over) == (wPlane, overU, overV)
  {
    DivModOf(wPlane * over + overU, overV, over);
    DivModOf(wPlane, overU, over);
  }

  lemma LayerIndexInjective(w1: int, u1: int, v1: int, w2: int, u2: int, v2: int, over: int)
    requires 0 <= u1 < over && 0 <= v1 < over
    requires 0 <= u2 < over && 0 <= v2 < over
    requires LayerIndex(w1, u1, v1, over) == LayerIndex(w2, u2, v2, over)
    ensures w1 == w2 && u1 == u2 && v1 == v2
  {
    LayerIndexDecodes(w1, u1, v1, over);
    LayerIndexDecodes(w2, u2, v2, over);
  }

  /** The sign of the unmirrored index is the sign of the w-plane. */
  lemma {:induction false} LayerIndexSign(wPlane: int, overU: int, overV: int, over: int)
    requires 0 <= overU < over && 0 <= overV < over
    ensures wPlane >= 0 ==> LayerIndex(wPlane, overU, overV, over) >= 0
    ensures wPlane > 0 ==> LayerIndex(wPlane, overU, overV, over) > 0
    ensures wPlane < 0 ==> LayerIndex(wPlane, overU, overV, over) < 0
  {
    if wPlane >= 0 {
      MulPos(wPlane, over);
      MulPos(wPlane * over + overU, over);
    }
    if wPlane > 0 {
      MulPos(wPlane - 1, over);
      assert wPlane * over + overU >= over;
      MulPos(wPlane * over + overU - 1, over);
    }
    if wPlane < 0 {
      MulPos(-wPlane - 1, over);
      assert wPlane * over + overU <= -1;
      MulPos(-(wPlane * over + overU) - 1, over);
    }
  }

  /** The layer a kernel resolves from a stored index: in half-GCF mode a
      negative index is negated (and the pixels conjugated). */
  function HalfGcfLayer(index: int): int
  {
    if index < 0 then -index else index
  }

  /** Mirrored mode: when both oversampling indices lie in `[0, over)`,
      the index is negative exactly when the w-plane is, and the kernel's
      resolved layer decodes to `|w_plane|` and the two oversampling
      indices. The sign is the "conjugate" flag, the magnitude the layer
      of the mirrored plane. */
  lemma MirroredIndex(gridSize: nat, over: int, wPlanes: int, scale: real, uvw: Double3)
    requires PregridFits(gridSize, over, wPlanes, true, ScaleUvw(scale, uvw))
    requires var p := PregridValsOf(gridSize, over, wPlanes, ScaleUvw(scale, uvw));
             0 <= p.overU < over && 0 <= p.overV < over
    ensures var p := PregridValsOf(gridSize, over, wPlanes, ScaleUvw(scale, uvw));
            var r := PregridPoint(gridSize, over, wPlanes, true, scale, uvw);
            (r.gcfLayerIndex < 0 <==> p.wPlane < 0)
            && DecodeLayer(HalfGcfLayer(r.gcfLayerIndex), over) == (Abs(p.wPlane), p.overU, p.overV)
  {
    var p := PregridValsOf(gridSize, over, wPlanes, ScaleUvw(scale, uvw));
    LayerIndexSign(Abs(p.wPlane), p.overU, p.overV, over);
    LayerIndexDecodes(Abs(p.wPlane), p.overU, p.overV, over);
  }

  /** Unmirrored mode, under the same hypothesis: the index has the sign
      of the w-plane and decodes to the w-plane and the two oversampling
      indices. */
  lemma UnmirroredIndex(gridSize: nat, over: int, wPlanes: int, scale: real, uvw: Double3)
    requires PregridFits(gridSize, over, wPlanes, false, ScaleUvw(scale, uvw))
    requires var p := PregridValsOf(gridSize, over, wPlanes, ScaleUvw(scale, uvw));
             0 <= p.overU < over && 0 <= p.overV < over
    ensures var p := PregridValsOf(gridSize, over, wPlanes, ScaleUvw(scale, uvw));
            var r := PregridPoint(gridSize, over, wPlanes, false, scale, uvw);
            (r.gcfLayerIndex < 0 <==> p.wPlane < 0)
            && DecodeLayer(r.gcfLayerIndex, over) == (p.wPlane, p.overU, p.overV)
  {
    var p := PregridValsOf(gridSize, over, wPlanes, ScaleUvw(scale, uvw));
    LayerIndexSign(p.wPlane, p.overU, p.overV, over);
    LayerIndexDecodes(p.wPlane, p.overU, p.overV, over);
  }

  /** In either mode, and under the same hypothesis, two samples whose
      stored indices agree share w-plane and both oversampling indices. */
  lemma PregridIndexInjective(gridSize: nat, over: int, wPlanes: int, doMirror: bool, scale: real, a: Double3, b: Double3)
    requires PregridFits(gridSize, over, wPlanes, doMirror, ScaleUvw(scale, a))
    requires PregridFits(gridSize, over, wPlanes, doMirror, ScaleUvw(scale, b))
    requires var p := PregridValsOf(gridSize, over, wPlanes, ScaleUvw(scale, a));
             0 <= p.overU < over && 0 <= p.overV < over
    requires var q := PregridValsOf(gridSize, over, wPlanes, ScaleUvw(scale, b));
             0 <= q.overU < over && 0 <= q.overV < over
    requires PregridPoint(gridSize, over, wPlanes, doMirror, scale, a).gcfLayerIndex
          == PregridPoint(gridSize, over, wPlanes, doMirror, scale, b).gcfLayerIndex
    ensures var p := PregridValsOf(gridSize, over, wPlanes, ScaleUvw(scale, a));
            var q := PregridValsOf(gridSize, over, wPlanes, ScaleUvw(scale, b));
            p.wPlane == q.wPlane && p.overU == q.overU && p.overV == q.overV
  {
    var p := PregridValsOf(gridSize, over, wPlanes, ScaleUvw(scale, a));
    var q := PregridValsOf(gridSize, over, wPlanes, ScaleUvw(scale, b));
    if doMirror {
      MirroredIndex(gridSize, over, wPlanes, scale, a);
      MirroredIndex(gridSize, over, wPlanes, scale, b);
      LayerIndexInjective(Abs(p.wPlane), p.overU, p.overV, Abs(q.wPlane), q.overU, q.overV, over);
    } else {
      LayerIndexInjective(p.wPlane, p.overU, p.overV, q.wPlane, q.overU, q.overV, over);
    }
  }

  /** The oversampled residual `over * (x - round(x))`, shifted down by
      `over * k`. */
  function ShiftedResidual(over: int, x: real, k: int): real
  {
    (over as real) * ((x - Round(x) as real) - k as real)
  }

  /** One coordinate of line 81: with `u = round(x) + k`, the index
      `round(over * (x - u))` is within half a unit of the oversampled
      residual `over * (x - round(x))` shifted down by `over * k`; for
      `k >= 1` and `over >= 2` it is negative. */
  lemma ResidualShift(over: int, x: real, k: int, u: int, o: int)
    requires over >= 2 && k >= 1 && u == Round(x) + k
    requires o == OverIndex(over, x, u)
    ensures ShiftedResidual(over, x, k) - 0.5 <= o as real <= ShiftedResidual(over, x, k) + 0.5
    ensures o < 0
  {
    var d := x - u as real;
    assert d == (x - Round(x) as real) - k as real;
    assert d + 0.5 <= 0.0;
    assert (over as real) * (d + 0.5) <= 0.0;
    assert (over as real) * d <= -0.5 * (over as real);
  }

  /** Because line 81 subtracts the TRANSLATED pixel, each oversampling
      index is the rounded residual shifted down by
      `over * (grid_size/2 - max_supp/2)`. Once the grid is wider than the
      support by two pixels, and `over >= 2`, both indices are negative, so
      the hypothesis `0 <= over_u, over_v < over` of the lemmas above does
      not hold for such grids. */
  lemma OverIndexShift(gridSize: nat, over: int, wPlanes: int, s: Double3)
    requires CDiv(wPlanes, 2) != 0 && over >= 2
    requires gridSize / 2 - PregridValsOf(gridSize, over, wPlanes, s).maxSupp / 2 >= 1
    ensures var p := PregridValsOf(gridSize, over, wPlanes, s);
            var k := gridSize / 2 - p.maxSupp / 2;
            ShiftedResidual(over, s.u, k) - 0.5 <= p.overU as real <= ShiftedResidual(over, s.u, k) + 0.5
            && ShiftedResidual(over, s.v, k) - 0.5 <= p.overV as real <= ShiftedResidual(over, s.v, k) + 0.5
    ensures var p := PregridValsOf(gridSize, over, wPlanes, s);
            p.overU < 0 && p.overV < 0
  {
    var p := PregridValsOf(gridSize, over, wPlanes, s);
    var k := gridSize / 2 - p.maxSupp / 2;
    ResidualShift(over, s.u, k, p.u, p.overU);
    ResidualShift(over, s.v, k, p.v, p.overV);
  }

  /** As written, a sample of w-plane 0 on a grid of at least two pixels,
      with `over >= 2`, gets a negative layer index in either mode: with
      mirroring, the flag that lines 95-99 reserve for negative w-planes is
      set although the w-plane is 0. */
  lemma ZeroPlaneIndexNegative(gridSize: nat, over: int, wPlanes: int, doMirror: bool, scale: real, uvw: Double3)
    requires PregridFits(gridSize, over, wPlanes, doMirror, ScaleUvw(scale, uvw))
    requires over >= 2 && gridSize >= 2
    requires PregridValsOf(gridSize, over, wPlanes, ScaleUvw(scale, uvw)).wPlane == 0
    ensures PregridPoint(gridSize, over, wPlanes, doMirror, scale, uvw).gcfLayerIndex < 0
  {
    var p := PregridValsOf(gridSize, over, wPlanes, ScaleUvw(scale, uvw));
    OverIndexShift(gridSize, over, wPlanes, ScaleUvw(scale, uvw));
    MulSign(p.overU, over);
    assert LayerIndex(p.wPlane, p.overU, p.overV, over) == p.overU * over + p.overV;
  }

  /** A halfway case of line 81: with `over = 8`, `grid_size = 2048`,
      `w_planes = 2` and the scaled `uvw.u = 3.0625` on w-plane 0, the
      translated pixel is 1027 and `over * (uvw.u - u)` is `-8191.5`, which
      rounds away from zero to `-8192`. */
  lemma OverIndexTie()
    ensures PregridValsOf(2048, 8, 2, Double3(3.0625, 0.0, 0.0)).overU == -8192
  {
    var p := PregridValsOf(2048, 8, 2, Double3(3.0625, 0.0, 0.0));
    assert Round(3.0625) == 3;
    assert p.wPlane == 0 && p.maxSupp == 1 && p.u == 1027;
    assert Round(-8191.5) == -8192;
  }

  /** The same sample does not fit `short` in either mode: its layer index
      is `-8192 * 8 - 8192 = -73728`, so the lemmas above that assume
      `PregridFits` describe small grids only. */
  lemma WideGridUnfit(doMirror: bool)
    ensures !PregridFits(2048, 8, 2, doMirror, Double3(3.0625, 0.0, 0.0))
  {
    var p := PregridValsOf(2048, 8, 2, Double3(3.0625, 0.0, 0.0));
    OverIndexTie();
    assert Round(3.0625) == 3 && Round(0.0) == 0;
    assert p.wPlane == 0 && p.maxSupp == 1 && p.v == 1024;
    assert Round(-8192.0) == -8192;
    assert StoredIndex(doMirror, p, 8) == -73728;
  }
}
