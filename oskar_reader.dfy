/** The Oskar 2.6 visibility reader of
    MS3/Sketches/Oskar_New_Reader/OskarBinReader.cpp: the header
    arithmetic of `mkFromFile`, the status sequencing of `bin_read` and of
    `readAndReshuffle`, and the reshuffle loops that move a block's
    `[timesteps][channels][baselines][polarizations]` amplitudes and
    `[timesteps][baselines]` coordinates into the
    `[baselines][timesteps][channels][polarizations]` and
    `[baselines][timesteps][uvw]` arrays.

    The OSKAR library calls are not modelled: each read is represented by
    the status it reports and, for the block reads, by the contents it
    leaves in the temp arrays. */
module OskarReader {
  import opened Common

  /** `OSKAR_DOUBLE` of the OSKAR library's type codes. */
  const OskarDouble: int := 0x08

  // ---------------------------------------------------------------------
  // bin_read: a chain of reads that stops at the first failure

  /** `bin_read` with the reads' statuses in call order: the reads are
      performed one after another, the first non-zero status is returned
      at once, and 0 is returned when every read succeeds. */
  function BinRead(statuses: seq<int>): (r: int)
    ensures r == 0 <==> forall i :: 0 <= i < |statuses| ==> statuses[i] == 0
    ensures r != 0 ==> r == statuses[Performed(statuses) - 1]
  {
    if statuses == [] then 0
    else if statuses[0] != 0 then statuses[0]
    else BinRead(statuses[1..])
  }

  /** How many `oskar_binary_read` calls `bin_read` makes: all of them when
      they succeed, otherwise up to and including the first failure. */
  function Performed(statuses: seq<int>): (n: nat)
    ensures n <= |statuses|
    ensures forall i :: 0 <= i < n - 1 ==> statuses[i] == 0
    ensures n < |statuses| ==> 0 < n && statuses[n - 1] != 0
  {
    if statuses == [] then 0
    else if statuses[0] != 0 then 1
    else 1 + Performed(statuses[1..])
  }

  /** Reading `a` and then, if all of it succeeded, `b`, is one chain of
      reads over `a + b`: this is how consecutive `__CHECK` points compose. */
  lemma {:induction false} BinReadConcat(a: seq<int>, b: seq<int>)
    ensures BinRead(a + b) == if BinRead(a) != 0 then BinRead(a) else BinRead(b)
  {
    if a != [] {
      assert (a + b)[0] == a[0];
      assert (a + b)[1..] == a[1..] + b;
      BinReadConcat(a[1..], b);
    } else {
      assert a + b == b;
    }
  }

  // ---------------------------------------------------------------------
  // mkFromFile: the header

  /** The counts of a `VisData` record. */
  datatype VisData = VisData(numBaselines: int, numChannels: int, numStations: int, numTimes: int,
                             numTimesBaselines: int, numPoints: int)

  /** The record's counts agree with each other the way `mkFromFile`
      computes them, and the header's counts are not negative. */
  predicate Shaped(vd: VisData)
  {
    0 <= vd.numBaselines && 0 <= vd.numChannels && 0 <= vd.numTimes
    && vd.numTimesBaselines == vd.numTimes * vd.numBaselines
    && vd.numPoints == vd.numTimesBaselines * vd.numChannels
  }

  /** `num_stations * (num_stations - 1) / 2` with C's truncating division. */
  function NumBaselines(ns: int): int
  {
    CDiv(ns * (ns - 1), 2)
  }

  /** A product with an even factor is even. */
  lemma EvenProduct(a: int, b: int)
    requires a % 2 == 0 || b % 2 == 0
    ensures (a * b) % 2 == 0
  {
    if a % 2 == 0 {
      var q := a / 2;
      MulAssoc(2, q, b);
      assert a * b == 2 * (q * b);
    } else {
      var q := b / 2;
      MulAssoc(a, 2, q);
      assert a * b == 2 * (a * q);
    }
  }

  /** The product of two consecutive integers is even and never negative. */
  lemma ConsecutiveProduct(ns: int)
    ensures ns * (ns - 1) >= 0 && (ns * (ns - 1)) % 2 == 0
  {
    if ns >= 1 {
      MulPos(ns, ns - 1);
    } else {
      MulPos(-ns, 1 - ns);
    }
    EvenProduct(ns, ns - 1);
  }

  /** So the division by two is exact for every station count. */
  lemma NumBaselinesExact(ns: int)
    ensures NumBaselines(ns) >= 0 && 2 * NumBaselines(ns) == ns * (ns - 1)
  {
    ConsecutiveProduct(ns);
  }

  /** The baselines of `n` stations: the pairs `(a, b)` with `a < b < n`,
      listed by their second station. */
  function StationPairs(n: int): seq<(int, int)>
  {
    if n <= 0 then [] else StationPairs(n - 1) + seq(n - 1, a => (a, n - 1))
  }

  /** `num_baselines` counts the unordered pairs of distinct stations:
      autocorrelations are not baselines. */
  lemma {:induction false} StationPairsCount(n: int)
    requires 0 <= n
    ensures |StationPairs(n)| == NumBaselines(n)
    ensures forall a, b :: (a, b) in StationPairs(n) <==> 0 <= a < b < n
  {
    NumBaselinesExact(n);
    if n > 0 {
      StationPairsCount(n - 1);
      NumBaselinesExact(n - 1);
      var last := seq(n - 1, a => (a, n - 1));
      assert 2 * |StationPairs(n)| == (n - 1) * (n - 2) + 2 * (n - 1);
      assert (n - 1) * (n - 2) + 2 * (n - 1) == n * (n - 1);
      forall a, b
        ensures (a, b) in StationPairs(n) <==> 0 <= a < b < n
      {
        if 0 <= a < b < n && b == n - 1 {
          assert last[a] == (a, b);
        }
        if (a, b) in last {
          var i :| 0 <= i < |last| && last[i] == (a, b);
        }
      }
    }
  }

  /** What the library calls of `mkFromFile` report, in call order:
      `oskar_binary_create`, the four integer header reads and the values
      they deliver, and the eight floating-point header reads. */
  datatype HeaderFile = HeaderFile(createStatus: int, intReads: seq<int>,
                                   ampType: int, numTimes: int, numChannels: int, numStations: int,
                                   doubleReads: seq<int>)

  /** The outcome of `mkFromFile`: the record, or null; and whether the
      file handle is left open with nobody holding it. */
  datatype Opened = Opened(vis: Option<VisData>, handleLeaked: bool)

  /** `(amp_type & 0x0F) == OSKAR_DOUBLE`: the low four bits, in two's
      complement, are the remainder modulo 16. */
  predicate IsDoubleAmp(ampType: int)
  {
    ampType % 16 == OskarDouble
  }

  /** The record `mkFromFile` builds from the header counts. */
  function Counts(f: HeaderFile): VisData
  {
    var nb := NumBaselines(f.numStations);
    var ntb := f.numTimes * nb;
    VisData(nb, f.numChannels, f.numStations, f.numTimes, ntb, ntb * f.numChannels)
  }

  /** `mkFromFile` as written: every failing call is caught by `__CHECK`,
      which frees the handle; the amplitude type test returns null without
      freeing it. */
  function MkFromFile(f: HeaderFile): (r: Opened)
    ensures r.vis.Some? <==> f.createStatus == 0 && BinRead(f.intReads) == 0
                             && IsDoubleAmp(f.ampType) && BinRead(f.doubleReads) == 0
    ensures r.vis.Some? ==> var vd := r.vis.value;
              vd.numStations == f.numStations && vd.numTimes == f.numTimes && vd.numChannels == f.numChannels
              && 2 * vd.numBaselines == f.numStations * (f.numStations - 1)
              && vd.numTimesBaselines == f.numTimes * vd.numBaselines
              && vd.numPoints == vd.numTimesBaselines * f.numChannels
              && (0 <= f.numTimes && 0 <= f.numChannels ==> Shaped(vd))
    ensures r.handleLeaked <==> f.createStatus == 0 && BinRead(f.intReads) == 0 && !IsDoubleAmp(f.ampType)
  {
    NumBaselinesExact(f.numStations);
    if f.createStatus != 0 then Opened(None, false)
    else if BinRead(f.intReads) != 0 then Opened(None, false)
    else if !IsDoubleAmp(f.ampType) then Opened(None, true)
    else if BinRead(f.doubleReads) != 0 then Opened(None, false)
    else Opened(Some(Counts(f)), false)
  }

  /** A header whose amplitudes are single precision (`OSKAR_SINGLE |
      OSKAR_COMPLEX | OSKAR_MATRIX`, type code 0x64) is rejected, and the
      handle that was opened for it is never freed. */
  lemma SinglePrecisionLeaks()
    ensures var f := HeaderFile(0, [0, 0, 0, 0], 0x64, 10, 1, 3, []);
            MkFromFile(f).vis.None? && MkFromFile(f).handleLeaked
  {
  }

  /** `mkFromFile` with the amplitude type test freeing the handle the way
      `__CHECK` does: the same outcome, and no handle is ever left open. */
  function MkFromFileFreeing(f: HeaderFile): (r: Opened)
    ensures r.vis == MkFromFile(f).vis
    ensures !r.handleLeaked
  {
    NumBaselinesExact(f.numStations);
    if f.createStatus != 0 then Opened(None, false)
    else if BinRead(f.intReads) != 0 then Opened(None, false)
    else if !IsDoubleAmp(f.ampType) then Opened(None, false)
    else if BinRead(f.doubleReads) != 0 then Opened(None, false)
    else Opened(Some(Counts(f)), false)
  }

  /** `(num_times + max_times_per_block - 1) / max_times_per_block`. */
  function NumBlocks(nt: int, m: int): int
    requires m != 0
  {
    CDiv(nt + m - 1, m)
  }

  /** The block count is the ceiling of `num_times / max_times_per_block`:
      the fewest blocks of at most `m` time steps that hold `nt` of them. */
  lemma NumBlocksCeil(nt: int, m: int)
    requires 0 <= nt && 1 <= m
    ensures 0 <= NumBlocks(nt, m)
    ensures nt <= NumBlocks(nt, m) * m
    ensures 0 < nt ==> (NumBlocks(nt, m) - 1) * m < nt
    ensures NumBlocks(nt, m) == 0 <==> nt == 0
  {
    var x := nt + m - 1;
    var q, r := x / m, x % m;
    assert x == q * m + r && 0 <= r < m;
    assert q * m == nt + m - 1 - r;
    assert (q - 1) * m == q * m - m;
    if q < 0 {
      MulSign(q, m);
    }
    if nt == 0 {
      DivModOf(0, m - 1, m);
    }
  }

  // ---------------------------------------------------------------------
  // The reshuffle index maps

  /** Coordinate `k` of baseline `b` at time `tt` in `[baselines][timesteps][uvw]`. */
  function UvwSlot(nt: int, b: int, tt: int, k: int): int
  {
    3 * (nt * b + tt) + k
  }

  /** Polarisation `cc` of `(b, tt, ct)` in
      `[baselines][timesteps][channels][polarizations]`. */
  function AmpSlot(nt: int, nc: int, b: int, tt: int, ct: int, cc: int): int
  {
    ((nt * b + tt) * nc + ct) * 8 + cc
  }

  /** Baseline `b` at block time `t` in the block's `[timesteps][baselines]`. */
  function UvwSource(nb: int, t: int, b: int): int
  {
    b + nb * t
  }

  /** Polarisation `cc` of `(t, c, b)` in the block's
      `[timesteps][channels][baselines][polarizations]`. */
  function AmpSource(nb: int, nc: int, t: int, c: int, b: int, cc: int): int
  {
    8 * (b + nb * (c + nc * t)) + cc
  }

  /** The coordinate slots of an in-range `(b, tt)` lie inside the
      `3 * num_times_baselines` output array. */
  lemma UvwSlotRange(nt: int, nb: int, b: int, tt: int, k: int)
    requires 0 <= b < nb && 0 <= tt < nt && 0 <= k < 3
    ensures 0 <= UvwSlot(nt, b, tt, k) < nt * nb * 3
  {
    CellBound(b, tt, nb, nt);
    assert nt * b == b * nt;
  }

  /** The amplitude slots of an in-range `(b, tt, ct)` lie inside the
      `8 * num_points` output array. */
  lemma AmpSlotRange(nt: int, nc: int, nb: int, b: int, tt: int, ct: int, cc: int)
    requires 0 <= b < nb && 0 <= tt < nt && 0 <= ct < nc && 0 <= cc < 8
    ensures 0 <= AmpSlot(nt, nc, b, tt, ct, cc) < nt * nb * nc * 8
  {
    CellBound(b, tt, nb, nt);
    var tmp := nt * b + tt;
    assert 0 <= tmp < nt * nb;
    CellBound(tmp, ct, nt * nb, nc);
    var x := tmp * nc + ct;
    CellBound(x, cc, nt * nb * nc, 8);
  }

  /** Distinct in-range `(b, tt, k)` get distinct coordinate slots. */
  lemma UvwSlotInjective(nt: int, b: int, tt: int, k: int, b': int, tt': int, k': int)
    requires 0 <= tt < nt && 0 <= k < 3 && 0 <= tt' < nt && 0 <= k' < 3
    requires UvwSlot(nt, b, tt, k) == UvwSlot(nt, b', tt', k')
    ensures b == b' && tt == tt' && k == k'
  {
    DivModOf(nt * b + tt, k, 3);
    DivModOf(nt * b' + tt', k', 3);
    assert 3 * (nt * b + tt) + k == (nt * b + tt) * 3 + k;
    assert 3 * (nt * b' + tt') + k' == (nt * b' + tt') * 3 + k';
    DivModOf(b, tt, nt);
    DivModOf(b', tt', nt);
    assert nt * b + tt == b * nt + tt && nt * b' + tt' == b' * nt + tt';
  }

  /** Distinct in-range `(b, tt, ct, cc)` get distinct amplitude slots: the
      eight polarisations of each `(b, tt, ct)` form a block of their own,
      disjoint from every other's. */
  lemma AmpSlotInjective(nt: int, nc: int, b: int, tt: int, ct: int, cc: int,
                         b': int, tt': int, ct': int, cc': int)
    requires 0 <= tt < nt && 0 <= ct < nc && 0 <= cc < 8
    requires 0 <= tt' < nt && 0 <= ct' < nc && 0 <= cc' < 8
    requires AmpSlot(nt, nc, b, tt, ct, cc) == AmpSlot(nt, nc, b', tt', ct', cc')
    ensures b == b' && tt == tt' && ct == ct' && cc == cc'
  {
    var x, x' := (nt * b + tt) * nc + ct, (nt * b' + tt') * nc + ct';
    DivModOf(x, cc, 8);
    DivModOf(x', cc', 8);
    assert x == x';
    DivModOf(nt * b + tt, ct, nc);
    DivModOf(nt * b' + tt', ct', nc);
    assert nt * b + tt == nt * b' + tt';
    DivModOf(b, tt, nt);
    DivModOf(b', tt', nt);
    assert nt * b + tt == b * nt + tt && nt * b' + tt' == b' * nt + tt';
  }

  /** The block's coordinate index stays inside the `max_times_per_block *
      num_baselines` temp arrays. */
  lemma UvwSourceRange(nb: int, m: int, t: int, b: int)
    requires 0 <= t < m && 0 <= b < nb
    ensures 0 <= UvwSource(nb, t, b) < m * nb
  {
    CellBound(t, b, m, nb);
    assert nb * t == t * nb;
  }

  /** The block's amplitude index stays inside the temp array of
      `max_times_per_block * num_baselines * num_channels * 8` values. */
  lemma AmpSourceRange(nb: int, nc: int, m: int, t: int, c: int, b: int, cc: int)
    requires 0 <= t < m && 0 <= c < nc && 0 <= b < nb && 0 <= cc < 8
    ensures 0 <= AmpSource(nb, nc, t, c, b, cc) < m * nb * nc * 8
  {
    CellBound(t, c, m, nc);
    var x := c + nc * t;
    assert x == t * nc + c;
    CellBound(x, b, m * nc, nb);
    var y := b + nb * x;
    assert y == x * nb + b;
    CellBound(y, cc, m * nc * nb, 8);
    MulAssoc(m, nc, nb);
    MulAssoc(m, nb, nc);
    assert m * nc * nb == m * nb * nc;
  }

  // ---------------------------------------------------------------------
  // readAndReshuffle

  /** One visibility block as the library delivers it: the statuses of its
      seven reads in call order, the start and size it declares, and what
      the reads leave in the temp arrays. */
  datatype Block = Block(dimRead: int, freqRead: int, timeRead: int, crossRead: int,
                         uuRead: int, vvRead: int, wwRead: int,
                         startTime: int, startChannel: int, timesInBlock: int,
                         amp: seq<real>, u: seq<real>, v: seq<real>, w: seq<real>)

  /** The block's reads in call order. */
  function BlockReads(blk: Block): seq<int>
  {
    [blk.dimRead, blk.freqRead, blk.timeRead, blk.crossRead, blk.uuRead, blk.vvRead, blk.wwRead]
  }

  /** The status the block's reads end with. */
  function BlockStatus(blk: Block): int
  {
    BinRead(BlockReads(blk))
  }

  /** A block fits the layout: its time steps lie within the header's
      `num_times` and within `max_times_per_block`, it carries every
      channel from channel 0, and the temp arrays have the sizes
      `readAndReshuffle` allocates. */
  predicate Fits(vd: VisData, m: int, blk: Block)
  {
    0 <= blk.timesInBlock <= m && 0 <= blk.startTime && blk.startTime + blk.timesInBlock <= vd.numTimes
    && blk.startChannel == 0
    && |blk.u| == m * vd.numBaselines && |blk.v| == m * vd.numBaselines && |blk.w| == m * vd.numBaselines
    && |blk.amp| == m * vd.numBaselines * vd.numChannels * 8
  }

  /** One array store `a[idx] = val`. */
  datatype Write = Write(idx: int, val: real)

  /** The array after the stores `ws`, in order; a later store to a cell
      overrides an earlier one. */
  function Written(a: seq<real>, ws: seq<Write>): (r: seq<real>)
    ensures |r| == |a|
  {
    if ws == [] then a
    else
      var w := ws[|ws| - 1];
      var r := Written(a, ws[..|ws| - 1]);
      if 0 <= w.idx < |r| then r[w.idx := w.val] else r
  }

  lemma WrittenSnoc(a: seq<real>, ws: seq<Write>, w: Write)
    requires 0 <= w.idx < |a|
    ensures Written(a, ws + [w]) == Written(a, ws)[w.idx := w.val]
  {
    assert (ws + [w])[..|ws|] == ws;
  }

  lemma {:induction false} WrittenConcat(a: seq<real>, p: seq<Write>, q: seq<Write>)
    ensures Written(a, p + q) == Written(Written(a, p), q)
  {
    if q == [] {
      assert p + q == p;
    } else {
      var q' := q[..|q| - 1];
      assert (p + q)[..|p + q| - 1] == p + q';
      WrittenConcat(a, p, q');
    }
  }

  /** The output slot of coordinate `k` of the block's `(t, b)`: that of
      `(b, start_time_idx + t)`. */
  function UvwAt(vd: VisData, blk: Block, t: int, b: int, k: int): (i: int)
    requires Shaped(vd) && 0 <= blk.startTime && 0 <= t && blk.startTime + t < vd.numTimes
    requires 0 <= b < vd.numBaselines && 0 <= k < 3
    ensures 0 <= i < vd.numTimesBaselines * 3
  {
    UvwSlotRange(vd.numTimes, vd.numBaselines, b, blk.startTime + t, k);
    UvwSlot(vd.numTimes, b, blk.startTime + t, k)
  }

  /** The block's coordinate `k` (u, v, then w) of `(t, b)`. */
  function UvwOf(vd: VisData, m: int, blk: Block, t: int, b: int, k: int): real
    requires Shaped(vd) && Fits(vd, m, blk) && 0 <= t < blk.timesInBlock && 0 <= b < vd.numBaselines
    requires 0 <= k < 3
  {
    UvwSourceRange(vd.numBaselines, m, t, b);
    var j := UvwSource(vd.numBaselines, t, b);
    if k == 0 then blk.u[j] else if k == 1 then blk.v[j] else blk.w[j]
  }

  /** The three coordinate stores of `(t, b)`: u, v, then w. */
  function UvwCell(vd: VisData, m: int, blk: Block, t: int, b: int): seq<Write>
    requires Shaped(vd) && Fits(vd, m, blk) && 0 <= t < blk.timesInBlock && 0 <= b < vd.numBaselines
  {
    [Write(UvwAt(vd, blk, t, b, 0), UvwOf(vd, m, blk, t, b, 0)),
     Write(UvwAt(vd, blk, t, b, 1), UvwOf(vd, m, blk, t, b, 1)),
     Write(UvwAt(vd, blk, t, b, 2), UvwOf(vd, m, blk, t, b, 2))]
  }

  /** The coordinate stores of baselines `b < n` at block time `t`. */
  function UvwRow(vd: VisData, m: int, blk: Block, t: int, n: int): seq<Write>
    requires Shaped(vd) && Fits(vd, m, blk) && 0 <= t < blk.timesInBlock && n <= vd.numBaselines
  {
    if n <= 0 then [] else UvwRow(vd, m, blk, t, n - 1) + UvwCell(vd, m, blk, t, n - 1)
  }

  /** The coordinate stores of channels `c < n` at block time `t`: the
      channel loop repeats the same row of stores for every channel. */
  function UvwTime(vd: VisData, m: int, blk: Block, t: int, n: int): seq<Write>
    requires Shaped(vd) && Fits(vd, m, blk) && 0 <= t < blk.timesInBlock
  {
    if n <= 0 then [] else UvwTime(vd, m, blk, t, n - 1) + UvwRow(vd, m, blk, t, vd.numBaselines)
  }

  /** The coordinate stores of block times `t < n`. */
  function UvwBlock(vd: VisData, m: int, blk: Block, n: int): seq<Write>
    requires Shaped(vd) && Fits(vd, m, blk) && n <= blk.timesInBlock
  {
    if n <= 0 then [] else UvwBlock(vd, m, blk, n - 1) + UvwTime(vd, m, blk, n - 1, vd.numChannels)
  }

  /** The output slot of polarisation `cc` of the block's `(t, c, b)`:
      that of `(b, start_time_idx + t, start_channel_idx + c)`. */
  function AmpAt(vd: VisData, blk: Block, t: int, c: int, b: int, cc: int): (i: int)
    requires Shaped(vd) && 0 <= blk.startTime && 0 <= t && blk.startTime + t < vd.numTimes
    requires blk.startChannel == 0 && 0 <= c < vd.numChannels && 0 <= b < vd.numBaselines && 0 <= cc < 8
    ensures 0 <= i < vd.numPoints * 8
  {
    AmpSlotRange(vd.numTimes, vd.numChannels, vd.numBaselines, b, blk.startTime + t, blk.startChannel + c, cc);
    AmpSlot(vd.numTimes, vd.numChannels, b, blk.startTime + t, blk.startChannel + c, cc)
  }

  /** The block's amplitude of polarisation `cc` of `(t, c, b)`. */
  function AmpOf(vd: VisData, m: int, blk: Block, t: int, c: int, b: int, cc: int): real
    requires Shaped(vd) && Fits(vd, m, blk) && 0 <= t < blk.timesInBlock && 0 <= c < vd.numChannels
    requires 0 <= b < vd.numBaselines && 0 <= cc < 8
  {
    AmpSourceRange(vd.numBaselines, vd.numChannels, m, t, c, b, cc);
    blk.amp[AmpSource(vd.numBaselines, vd.numChannels, t, c, b, cc)]
  }

  /** The amplitude stores of polarisations `cc < n` of `(t, c, b)`. */
  function AmpCell(vd: VisData, m: int, blk: Block, t: int, c: int, b: int, n: int): seq<Write>
    requires Shaped(vd) && Fits(vd, m, blk) && 0 <= t < blk.timesInBlock && 0 <= c < vd.numChannels
    requires 0 <= b < vd.numBaselines && n <= 8
  {
    if n <= 0 then []
    else AmpCell(vd, m, blk, t, c, b, n - 1) + [Write(AmpAt(vd, blk, t, c, b, n - 1), AmpOf(vd, m, blk, t, c, b, n - 1))]
  }

  /** The amplitude stores of baselines `b < n` at `(t, c)`. */
  function AmpRow(vd: VisData, m: int, blk: Block, t: int, c: int, n: int): seq<Write>
    requires Shaped(vd) && Fits(vd, m, blk) && 0 <= t < blk.timesInBlock && 0 <= c < vd.numChannels
    requires n <= vd.numBaselines
  {
    if n <= 0 then [] else AmpRow(vd, m, blk, t, c, n - 1) + AmpCell(vd, m, blk, t, c, n - 1, 8)
  }

  /** The amplitude stores of channels `c < n` at block time `t`. */
  function AmpTime(vd: VisData, m: int, blk: Block, t: int, n: int): seq<Write>
    requires Shaped(vd) && Fits(vd, m, blk) && 0 <= t < blk.timesInBlock && n <= vd.numChannels
  {
    if n <= 0 then [] else AmpTime(vd, m, blk, t, n - 1) + AmpRow(vd, m, blk, t, n - 1, vd.numBaselines)
  }

  /** The amplitude stores of block times `t < n`. */
  function AmpBlock(vd: VisData, m: int, blk: Block, n: int): seq<Write>
    requires Shaped(vd) && Fits(vd, m, blk) && n <= blk.timesInBlock
  {
    if n <= 0 then [] else AmpBlock(vd, m, blk, n - 1) + AmpTime(vd, m, blk, n - 1, vd.numChannels)
  }

  /** The coordinate stores of baseline `b` at block time `t`:
      `uvws[jt ..] = {u, v, w}_temp[j]`. */
  method StoreUvw(vd: VisData, m: int, blk: Block, t: int, b: int, uvws: array<real>)
    requires Shaped(vd) && Fits(vd, m, blk) && 0 <= t < blk.timesInBlock && 0 <= b < vd.numBaselines
    requires uvws.Length == vd.numTimesBaselines * 3
    modifies uvws
    ensures uvws[..] == Written(old(uvws[..]), UvwCell(vd, m, blk, t, b))
  {
    var nb, nt := vd.numBaselines, vd.numTimes;
    var j := b + nb * t;
    var tt := blk.startTime + t;
    var tmp := nt * b + tt;
    var jt := 3 * tmp;
    UvwSourceRange(nb, m, t, b);
    UvwSlotRange(nt, nb, b, tt, 2);
    ghost var w0 := Write(jt, blk.u[j]);
    ghost var w1 := Write(jt + 1, blk.v[j]);
    ghost var w2 := Write(jt + 2, blk.w[j]);
    assert UvwCell(vd, m, blk, t, b) == [] + [w0] + [w1] + [w2];
    WrittenSnoc(old(uvws[..]), [], w0);
    WrittenSnoc(old(uvws[..]), [] + [w0], w1);
    WrittenSnoc(old(uvws[..]), [] + [w0] + [w1], w2);
    uvws[jt] := blk.u[j];
    uvws[jt + 1] := blk.v[j];
    uvws[jt + 2] := blk.w[j];
  }

  /** The polarisation loop of `(t, c, b)`: `amps[it + cc] = amp_temp[i + cc]`. */
  method StorePols(vd: VisData, m: int, blk: Block, t: int, c: int, b: int, amps: array<real>)
    requires Shaped(vd) && Fits(vd, m, blk) && 0 <= t < blk.timesInBlock && 0 <= c < vd.numChannels
    requires 0 <= b < vd.numBaselines && amps.Length == vd.numPoints * 8
    modifies amps
    ensures amps[..] == Written(old(amps[..]), AmpCell(vd, m, blk, t, c, b, 8))
  {
    var nb, nc, nt := vd.numBaselines, vd.numChannels, vd.numTimes;
    var i := 8 * (b + nb * (c + nc * t));
    var tt := blk.startTime + t;
    var ct := blk.startChannel + c;
    var tmp := nt * b + tt;
    var it := (tmp * nc + ct) * 8;
    var cc := 0;
    while cc < 8
      invariant 0 <= cc <= 8
      invariant amps[..] == Written(old(amps[..]), AmpCell(vd, m, blk, t, c, b, cc))
    {
      AmpSourceRange(nb, nc, m, t, c, b, cc);
      AmpSlotRange(nt, nc, nb, b, tt, ct, cc);
      ghost var wr := Write(it + cc, blk.amp[i + cc]);
      assert AmpCell(vd, m, blk, t, c, b, cc + 1) == AmpCell(vd, m, blk, t, c, b, cc) + [wr];
      WrittenSnoc(old(amps[..]), AmpCell(vd, m, blk, t, c, b, cc), wr);
      amps[it + cc] := blk.amp[i + cc];
      cc := cc + 1;
    }
  }

  /** The baseline loop at `(t, c)`. */
  method ReshuffleRow(vd: VisData, m: int, blk: Block, t: int, c: int, amps: array<real>, uvws: array<real>)
    requires Shaped(vd) && Fits(vd, m, blk) && 0 <= t < blk.timesInBlock && 0 <= c < vd.numChannels
    requires amps.Length == vd.numPoints * 8 && uvws.Length == vd.numTimesBaselines * 3 && amps != uvws
    modifies amps, uvws
    ensures uvws[..] == Written(old(uvws[..]), UvwRow(vd, m, blk, t, vd.numBaselines))
    ensures amps[..] == Written(old(amps[..]), AmpRow(vd, m, blk, t, c, vd.numBaselines))
  {
    var b := 0;
    while b < vd.numBaselines
      invariant 0 <= b <= vd.numBaselines
      invariant uvws[..] == Written(old(uvws[..]), UvwRow(vd, m, blk, t, b))
      invariant amps[..] == Written(old(amps[..]), AmpRow(vd, m, blk, t, c, b))
    {
      StoreUvw(vd, m, blk, t, b, uvws);
      WrittenConcat(old(uvws[..]), UvwRow(vd, m, blk, t, b), UvwCell(vd, m, blk, t, b));
      StorePols(vd, m, blk, t, c, b, amps);
      WrittenConcat(old(amps[..]), AmpRow(vd, m, blk, t, c, b), AmpCell(vd, m, blk, t, c, b, 8));
      b := b + 1;
    }
  }

  /** The channel loop at block time `t`. */
  method ReshuffleTime(vd: VisData, m: int, blk: Block, t: int, amps: array<real>, uvws: array<real>)
    requires Shaped(vd) && Fits(vd, m, blk) && 0 <= t < blk.timesInBlock
    requires amps.Length == vd.numPoints * 8 && uvws.Length == vd.numTimesBaselines * 3 && amps != uvws
    modifies amps, uvws
    ensures uvws[..] == Written(old(uvws[..]), UvwTime(vd, m, blk, t, vd.numChannels))
    ensures amps[..] == Written(old(amps[..]), AmpTime(vd, m, blk, t, vd.numChannels))
  {
    var c := 0;
    while c < vd.numChannels
      invariant 0 <= c <= vd.numChannels
      invariant uvws[..] == Written(old(uvws[..]), UvwTime(vd, m, blk, t, c))
      invariant amps[..] == Written(old(amps[..]), AmpTime(vd, m, blk, t, c))
    {
      ReshuffleRow(vd, m, blk, t, c, amps, uvws);
      WrittenConcat(old(uvws[..]), UvwTime(vd, m, blk, t, c), UvwRow(vd, m, blk, t, vd.numBaselines));
      WrittenConcat(old(amps[..]), AmpTime(vd, m, blk, t, c), AmpRow(vd, m, blk, t, c, vd.numBaselines));
      c := c + 1;
    }
  }

  /** The time loop of one block, after its reads have all succeeded. */
  method ReshuffleBlock(vd: VisData, m: int, blk: Block, amps: array<real>, uvws: array<real>)
    requires Shaped(vd) && Fits(vd, m, blk)
    requires amps.Length == vd.numPoints * 8 && uvws.Length == vd.numTimesBaselines * 3 && amps != uvws
    modifies amps, uvws
    ensures uvws[..] == Written(old(uvws[..]), UvwBlock(vd, m, blk, blk.timesInBlock))
    ensures amps[..] == Written(old(amps[..]), AmpBlock(vd, m, blk, blk.timesInBlock))
  {
    var t := 0;
    while t < blk.timesInBlock
      invariant 0 <= t <= blk.timesInBlock
      invariant uvws[..] == Written(old(uvws[..]), UvwBlock(vd, m, blk, t))
      invariant amps[..] == Written(old(amps[..]), AmpBlock(vd, m, blk, t))
    {
      ReshuffleTime(vd, m, blk, t, amps, uvws);
      WrittenConcat(old(uvws[..]), UvwBlock(vd, m, blk, t), UvwTime(vd, m, blk, t, vd.numChannels));
      WrittenConcat(old(amps[..]), AmpBlock(vd, m, blk, t), AmpTime(vd, m, blk, t, vd.numChannels));
      t := t + 1;
    }
  }

  /** The coordinate stores of blocks `k < n`, block after block. */
  function UvwBlocks(vd: VisData, m: int, blocks: seq<Block>, n: int): seq<Write>
    requires Shaped(vd) && n <= |blocks| && forall k :: 0 <= k < n ==> Fits(vd, m, blocks[k])
  {
    if n <= 0 then []
    else UvwBlocks(vd, m, blocks, n - 1) + UvwBlock(vd, m, blocks[n - 1], blocks[n - 1].timesInBlock)
  }

  /** The amplitude stores of blocks `k < n`, block after block. */
  function AmpBlocks(vd: VisData, m: int, blocks: seq<Block>, n: int): seq<Write>
    requires Shaped(vd) && n <= |blocks| && forall k :: 0 <= k < n ==> Fits(vd, m, blocks[k])
  {
    if n <= 0 then []
    else AmpBlocks(vd, m, blocks, n - 1) + AmpBlock(vd, m, blocks[n - 1], blocks[n - 1].timesInBlock)
  }

  /** The status `readAndReshuffle` returns, and how many blocks it has
      reshuffled by then. */
  datatype Outcome = Outcome(status: int, done: nat)

  /** The block loop over blocks `k < n`: it stops at the first block whose
      reads fail, with that block's status; every block before it has been
      reshuffled. */
  function BlocksOutcome(blocks: seq<Block>, n: nat): (o: Outcome)
    requires n <= |blocks|
    ensures o.done <= n
    ensures forall k :: 0 <= k < o.done ==> BlockStatus(blocks[k]) == 0
    ensures o.status == 0 <==> o.done == n
    ensures o.done < n ==> o.status == BlockStatus(blocks[o.done])
  {
    if n == 0 then Outcome(0, 0)
    else
      var o := BlocksOutcome(blocks, n - 1);
      if o.status != 0 then o
      else if BlockStatus(blocks[n - 1]) != 0 then Outcome(BlockStatus(blocks[n - 1]), n - 1)
      else Outcome(0, n)
  }

  /** Once block `k` fails, the later blocks are never read. */
  lemma {:induction false} BlocksOutcomeStops(blocks: seq<Block>, k: nat, n: nat)
    requires k < n <= |blocks|
    requires BlocksOutcome(blocks, k) == Outcome(0, k) && BlockStatus(blocks[k]) != 0
    ensures BlocksOutcome(blocks, n) == Outcome(BlockStatus(blocks[k]), k)
  {
    if n > k + 1 {
      BlocksOutcomeStops(blocks, k, n - 1);
    }
  }

  /** The file is readable the way `readAndReshuffle` reads it: when the
      header reads succeed, `max_times_per_block` is positive, the file has
      a block for every block index, and every block whose reads succeed
      fits the layout. */
  predicate Readable(vd: VisData, headerReads: seq<int>, m: int, blocks: seq<Block>)
  {
    BinRead(headerReads) == 0 ==>
      1 <= m && NumBlocks(vd.numTimes, m) <= |blocks|
      && forall k :: 0 <= k < NumBlocks(vd.numTimes, m) && BlockStatus(blocks[k]) == 0 ==> Fits(vd, m, blocks[k])
  }

  /** `readAndReshuffle`'s outcome: the header reads' status when they
      fail, otherwise the block loop's over `num_blocks` blocks. */
  function ReshuffleOutcome(vd: VisData, headerReads: seq<int>, m: int, blocks: seq<Block>): (o: Outcome)
    requires Shaped(vd) && Readable(vd, headerReads, m, blocks)
    ensures o.done <= |blocks| && forall k :: 0 <= k < o.done ==> Fits(vd, m, blocks[k])
    ensures BinRead(headerReads) != 0 ==> o.status == BinRead(headerReads) && o.done == 0
  {
    if BinRead(headerReads) != 0 then Outcome(BinRead(headerReads), 0)
    else
      NumBlocksCeil(vd.numTimes, m);
      BlocksOutcome(blocks, NumBlocks(vd.numTimes, m))
  }

  /** The block's reads, group by group as its six `bin_read` calls make
      them. */
  lemma BlockStatusChain(blk: Block)
    ensures BlockStatus(blk) == BinRead([blk.dimRead] + ([blk.freqRead, blk.timeRead] + ([blk.crossRead]
                                  + ([blk.uuRead] + ([blk.vvRead] + [blk.wwRead])))))
    ensures var r1 := [blk.freqRead, blk.timeRead] + ([blk.crossRead] + ([blk.uuRead] + ([blk.vvRead] + [blk.wwRead])));
            var r2 := [blk.crossRead] + ([blk.uuRead] + ([blk.vvRead] + [blk.wwRead]));
            var r3 := [blk.uuRead] + ([blk.vvRead] + [blk.wwRead]);
            BinRead([blk.dimRead] + r1) == (if BinRead([blk.dimRead]) != 0 then BinRead([blk.dimRead]) else BinRead(r1))
            && BinRead(r1) == (if BinRead([blk.freqRead, blk.timeRead]) != 0 then BinRead([blk.freqRead, blk.timeRead]) else BinRead(r2))
            && BinRead(r2) == (if BinRead([blk.crossRead]) != 0 then BinRead([blk.crossRead]) else BinRead(r3))
            && BinRead(r3) == (if BinRead([blk.uuRead]) != 0 then BinRead([blk.uuRead]) else BinRead([blk.vvRead] + [blk.wwRead]))
            && BinRead([blk.vvRead] + [blk.wwRead]) == (if BinRead([blk.vvRead]) != 0 then BinRead([blk.vvRead]) else BinRead([blk.wwRead]))
  {
    var r3 := [blk.uuRead] + ([blk.vvRead] + [blk.wwRead]);
    var r2 := [blk.crossRead] + r3;
    var r1 := [blk.freqRead, blk.timeRead] + r2;
    assert BlockReads(blk) == [blk.dimRead] + r1;
    BinReadConcat([blk.dimRead], r1);
    BinReadConcat([blk.freqRead, blk.timeRead], r2);
    BinReadConcat([blk.crossRead], r3);
    BinReadConcat([blk.uuRead], [blk.vvRead] + [blk.wwRead]);
    BinReadConcat([blk.vvRead], [blk.wwRead]);
  }

  /** The block's six `bin_read` calls, each followed by `__CHECK1`. */
  method ReadBlock(blk: Block) returns (status: int)
    ensures status == BlockStatus(blk)
  {
    BlockStatusChain(blk);
    status := BinRead([blk.dimRead]);
    if status != 0 { return; }
    status := BinRead([blk.freqRead, blk.timeRead]);
    if status != 0 { return; }
    status := BinRead([blk.crossRead]);
    if status != 0 { return; }
    status := BinRead([blk.uuRead]);
    if status != 0 { return; }
    status := BinRead([blk.vvRead]);
    if status != 0 { return; }
    status := BinRead([blk.wwRead]);
  }

  /** Blocks `k < n` fit the layout and have been stored, in order, over
      `a0` and `u0`. */
  ghost predicate BlocksStored(vd: VisData, m: int, blocks: seq<Block>, n: int,
                               a0: seq<real>, u0: seq<real>, a: seq<real>, u: seq<real>)
  {
    Shaped(vd) && 0 <= n <= |blocks| && (forall k :: 0 <= k < n ==> Fits(vd, m, blocks[k]))
    && u == Written(u0, UvwBlocks(vd, m, blocks, n)) && a == Written(a0, AmpBlocks(vd, m, blocks, n))
  }

  /** Storing block `n` after blocks `k < n`. */
  lemma BlocksStoredStep(vd: VisData, m: int, blocks: seq<Block>, n: int,
                         a0: seq<real>, u0: seq<real>, a: seq<real>, u: seq<real>, a': seq<real>, u': seq<real>)
    requires BlocksStored(vd, m, blocks, n, a0, u0, a, u) && n < |blocks| && Fits(vd, m, blocks[n])
    requires u' == Written(u, UvwBlock(vd, m, blocks[n], blocks[n].timesInBlock))
    requires a' == Written(a, AmpBlock(vd, m, blocks[n], blocks[n].timesInBlock))
    ensures BlocksStored(vd, m, blocks, n + 1, a0, u0, a', u')
  {
    WrittenConcat(u0, UvwBlocks(vd, m, blocks, n), UvwBlock(vd, m, blocks[n], blocks[n].timesInBlock));
    WrittenConcat(a0, AmpBlocks(vd, m, blocks, n), AmpBlock(vd, m, blocks[n], blocks[n].timesInBlock));
  }

  /** The block loop of `readAndReshuffle` over blocks `k < n`: each
      block's reads, then its reshuffle; the first failing read ends the
      loop with its status. Exactly the blocks before the failure have been
      stored, in order. */
  method ReadBlocks(vd: VisData, m: int, blocks: seq<Block>, n: nat, amps: array<real>, uvws: array<real>)
    returns (status: int)
    requires Shaped(vd) && n <= |blocks|
    requires forall k :: 0 <= k < n && BlockStatus(blocks[k]) == 0 ==> Fits(vd, m, blocks[k])
    requires amps.Length == vd.numPoints * 8 && uvws.Length == vd.numTimesBaselines * 3 && amps != uvws
    modifies amps, uvws
    ensures status == BlocksOutcome(blocks, n).status
    ensures uvws[..] == Written(old(uvws[..]), UvwBlocks(vd, m, blocks, BlocksOutcome(blocks, n).done))
    ensures amps[..] == Written(old(amps[..]), AmpBlocks(vd, m, blocks, BlocksOutcome(blocks, n).done))
  {
    status := 0;
    var block := 0;
    while block < n
      invariant 0 <= block <= n && status == 0
      invariant BlocksOutcome(blocks, block) == Outcome(0, block)
      invariant BlocksStored(vd, m, blocks, block, old(amps[..]), old(uvws[..]), amps[..], uvws[..])
    {
      var blk := blocks[block];
      status := ReadBlock(blk);
      if status != 0 {
        BlocksOutcomeStops(blocks, block, n);
        break;
      }
      ghost var a, u := amps[..], uvws[..];
      ReshuffleBlock(vd, m, blk, amps, uvws);
      BlocksStoredStep(vd, m, blocks, block, old(amps[..]), old(uvws[..]), a, u, amps[..], uvws[..]);
      block := block + 1;
    }
  }

  /** `readAndReshuffle`: read the header's block geometry, then the
      `num_blocks` blocks; a failing header read skips straight to the
      cleanup. The status returned is that of the first failing read, 0
      when nothing fails. */
  method ReadAndReshuffle(vd: VisData, headerReads: seq<int>, maxTimesPerBlock: int, blocks: seq<Block>,
                          amps: array<real>, uvws: array<real>) returns (status: int)
    requires Shaped(vd) && Readable(vd, headerReads, maxTimesPerBlock, blocks)
    requires amps.Length == vd.numPoints * 8 && uvws.Length == vd.numTimesBaselines * 3 && amps != uvws
    modifies amps, uvws
    ensures status == ReshuffleOutcome(vd, headerReads, maxTimesPerBlock, blocks).status
    ensures uvws[..] == Written(old(uvws[..]), UvwBlocks(vd, maxTimesPerBlock, blocks,
                                                         ReshuffleOutcome(vd, headerReads, maxTimesPerBlock, blocks).done))
    ensures amps[..] == Written(old(amps[..]), AmpBlocks(vd, maxTimesPerBlock, blocks,
                                                         ReshuffleOutcome(vd, headerReads, maxTimesPerBlock, blocks).done))
  {
    status := BinRead(headerReads);
    if status == 0 {
      var m := maxTimesPerBlock;
      var numBlocks := CDiv(vd.numTimes + m - 1, m);
      NumBlocksCeil(vd.numTimes, m);
      status := ReadBlocks(vd, m, blocks, numBlocks, amps, uvws);
    }
  }

  // ---------------------------------------------------------------------
  // What one block's reshuffle leaves in `amps`

  /** The coordinates `(b, tt, ct, cc)` a slot of the output array stands for. */
  datatype Coords = Coords(b: int, tt: int, ct: int, cc: int)

  /** A slot's coordinates are the ones it was computed from. */
  lemma AmpCoordsOfAt(vd: VisData, blk: Block, t: int, c: int, b: int, cc: int)
    requires Shaped(vd) && 0 <= blk.startTime && 0 <= t && blk.startTime + t < vd.numTimes
    requires blk.startChannel == 0 && 0 <= c < vd.numChannels && 0 <= b < vd.numBaselines && 0 <= cc < 8
    ensures AmpCoords(vd, AmpAt(vd, blk, t, c, b, cc)) == Coords(b, blk.startTime + t, c, cc)
  {
    var nt, nc, tt := vd.numTimes, vd.numChannels, blk.startTime + t;
    DivModOf((nt * b + tt) * nc + c, cc, 8);
    DivModOf(nt * b + tt, c, nc);
    DivModOf(b, tt, nt);
    assert nt * b + tt == b * nt + tt;
  }

  lemma DivBelow(x: int, a: int, d: int)
    requires 0 <= x < a * d && 0 < d
    ensures 0 <= x / d < a
  {
    var q := x / d;
    assert q * d + x % d == x;
    if q >= a {
      MulLe(a, q, d);
    }
  }

  /** Reading the layout `[baselines][timesteps][channels][polarizations]`
      backwards: every slot of the output array is the slot of its
      coordinates, and those are in range. */
  function AmpCoords(vd: VisData, i: int): (k: Coords)
    requires Shaped(vd) && 0 < vd.numChannels && 0 < vd.numTimes && 0 <= i < vd.numPoints * 8
    ensures 0 <= k.b < vd.numBaselines && 0 <= k.tt < vd.numTimes && 0 <= k.ct < vd.numChannels && 0 <= k.cc < 8
    ensures AmpSlot(vd.numTimes, vd.numChannels, k.b, k.tt, k.ct, k.cc) == i
  {
    var nt, nc, nb := vd.numTimes, vd.numChannels, vd.numBaselines;
    var q1 := i / 8;
    DivBelow(i, vd.numPoints, 8);
    var q2 := q1 / nc;
    DivBelow(q1, nt * nb, nc);
    DivBelow(q2, nb, nt);
    assert nb * nt == nt * nb;
    assert q2 == nt * (q2 / nt) + q2 % nt;
    Coords(q2 / nt, q2 % nt, q1 % nc, i % 8)
  }

  /** The polarisation loop of `(t, c, b)` over `cc < n`. */
  lemma {:induction false} AmpCellAt(vd: VisData, m: int, blk: Block, t: int, c: int, b: int, n: int,
                                     a: seq<real>, i: int)
    requires Shaped(vd) && Fits(vd, m, blk) && 0 <= t < blk.timesInBlock && 0 <= c < vd.numChannels
    requires 0 <= b < vd.numBaselines && 0 <= n <= 8 && |a| == vd.numPoints * 8 && 0 <= i < |a|
    requires 0 < vd.numChannels && 0 < vd.numTimes
    ensures var k := AmpCoords(vd, i);
            Written(a, AmpCell(vd, m, blk, t, c, b, n))[i]
            == if k.b == b && k.tt == blk.startTime + t && k.ct == c && k.cc < n then AmpOf(vd, m, blk, t, c, b, k.cc)
               else a[i]
  {
    if n > 0 {
      AmpCellAt(vd, m, blk, t, c, b, n - 1, a, i);
      var w := Write(AmpAt(vd, blk, t, c, b, n - 1), AmpOf(vd, m, blk, t, c, b, n - 1));
      assert AmpCell(vd, m, blk, t, c, b, n) == AmpCell(vd, m, blk, t, c, b, n - 1) + [w];
      WrittenSnoc(a, AmpCell(vd, m, blk, t, c, b, n - 1), w);
      AmpCoordsOfAt(vd, blk, t, c, b, n - 1);
    }
  }

  /** The baseline loop at `(t, c)` over `b < n`. */
  lemma {:induction false} AmpRowAt(vd: VisData, m: int, blk: Block, t: int, c: int, n: int, a: seq<real>, i: int)
    requires Shaped(vd) && Fits(vd, m, blk) && 0 <= t < blk.timesInBlock && 0 <= c < vd.numChannels
    requires 0 <= n <= vd.numBaselines && |a| == vd.numPoints * 8 && 0 <= i < |a|
    requires 0 < vd.numChannels && 0 < vd.numTimes
    ensures var k := AmpCoords(vd, i);
            Written(a, AmpRow(vd, m, blk, t, c, n))[i]
            == if k.b < n && k.tt == blk.startTime + t && k.ct == c then AmpOf(vd, m, blk, t, c, k.b, k.cc) else a[i]
  {
    if n > 0 {
      AmpRowAt(vd, m, blk, t, c, n - 1, a, i);
      AmpRowStep(vd, m, blk, t, c, n, a, i);
    }
  }

  /** Adding baseline `n - 1` to the baseline loop. */
  lemma AmpRowStep(vd: VisData, m: int, blk: Block, t: int, c: int, n: int, a: seq<real>, i: int)
    requires Shaped(vd) && Fits(vd, m, blk) && 0 <= t < blk.timesInBlock && 0 <= c < vd.numChannels
    requires 0 < n <= vd.numBaselines && |a| == vd.numPoints * 8 && 0 <= i < |a|
    requires 0 < vd.numChannels && 0 < vd.numTimes
    ensures var k := AmpCoords(vd, i);
            var a1 := Written(a, AmpRow(vd, m, blk, t, c, n - 1));
            Written(a, AmpRow(vd, m, blk, t, c, n))[i]
            == if k.b == n - 1 && k.tt == blk.startTime + t && k.ct == c then AmpOf(vd, m, blk, t, c, k.b, k.cc) else a1[i]
  {
    var prev, cell := AmpRow(vd, m, blk, t, c, n - 1), AmpCell(vd, m, blk, t, c, n - 1, 8);
    assert AmpRow(vd, m, blk, t, c, n) == prev + cell;
    AmpCellAt(vd, m, blk, t, c, n - 1, 8, Written(a, prev), i);
    WrittenConcat(a, prev, cell);
  }

  /** The channel loop at block time `t` over `c < n`. */
  lemma {:induction false} AmpTimeAt(vd: VisData, m: int, blk: Block, t: int, n: int, a: seq<real>, i: int)
    requires Shaped(vd) && Fits(vd, m, blk) && 0 <= t < blk.timesInBlock
    requires 0 <= n <= vd.numChannels && |a| == vd.numPoints * 8 && 0 <= i < |a|
    requires 0 < vd.numChannels && 0 < vd.numTimes
    ensures var k := AmpCoords(vd, i);
            Written(a, AmpTime(vd, m, blk, t, n))[i]
            == if k.tt == blk.startTime + t && k.ct < n then AmpOf(vd, m, blk, t, k.ct, k.b, k.cc) else a[i]
  {
    if n > 0 {
      AmpTimeAt(vd, m, blk, t, n - 1, a, i);
      AmpTimeStep(vd, m, blk, t, n, a, i);
    }
  }

  /** Adding channel `n - 1` to the channel loop. */
  lemma AmpTimeStep(vd: VisData, m: int, blk: Block, t: int, n: int, a: seq<real>, i: int)
    requires Shaped(vd) && Fits(vd, m, blk) && 0 <= t < blk.timesInBlock
    requires 0 < n <= vd.numChannels && |a| == vd.numPoints * 8 && 0 <= i < |a|
    requires 0 < vd.numTimes
    ensures var k := AmpCoords(vd, i);
            var a1 := Written(a, AmpTime(vd, m, blk, t, n - 1));
            Written(a, AmpTime(vd, m, blk, t, n))[i]
            == if k.tt == blk.startTime + t && k.ct == n - 1 then AmpOf(vd, m, blk, t, k.ct, k.b, k.cc) else a1[i]
  {
    var prev, row := AmpTime(vd, m, blk, t, n - 1), AmpRow(vd, m, blk, t, n - 1, vd.numBaselines);
    assert AmpTime(vd, m, blk, t, n) == prev + row;
    AmpRowAt(vd, m, blk, t, n - 1, vd.numBaselines, Written(a, prev), i);
    WrittenConcat(a, prev, row);
  }

  /** What a block's time loop over `t < n` leaves in `amps`: every slot
      whose time step is one of the block's first `n` holds the block's
      value for the same baseline, channel and polarisation, read from the
      block's `[timesteps][channels][baselines][polarizations]` layout;
      every other slot keeps its value. */
  lemma {:induction false} AmpBlockUpTo(vd: VisData, m: int, blk: Block, n: int, a: seq<real>, i: int)
    requires Shaped(vd) && Fits(vd, m, blk) && 0 <= n <= blk.timesInBlock
    requires |a| == vd.numPoints * 8 && 0 <= i < |a|
    ensures 0 < vd.numChannels && 0 < vd.numTimes
    ensures var k := AmpCoords(vd, i);
            Written(a, AmpBlock(vd, m, blk, n))[i]
            == if blk.startTime <= k.tt < blk.startTime + n then AmpOf(vd, m, blk, k.tt - blk.startTime, k.ct, k.b, k.cc)
               else a[i]
  {
    if n > 0 {
      AmpBlockUpTo(vd, m, blk, n - 1, a, i);
      AmpBlockStep(vd, m, blk, n, a, i);
    } else {
      NonEmptyLayout(vd);
    }
  }

  /** Adding block time `n - 1` to the time loop. */
  lemma AmpBlockStep(vd: VisData, m: int, blk: Block, n: int, a: seq<real>, i: int)
    requires Shaped(vd) && Fits(vd, m, blk) && 0 < n <= blk.timesInBlock
    requires |a| == vd.numPoints * 8 && 0 <= i < |a|
    requires 0 < vd.numChannels
    requires var k := AmpCoords(vd, i);
             Written(a, AmpBlock(vd, m, blk, n - 1))[i]
             == if blk.startTime <= k.tt < blk.startTime + (n - 1) then AmpOf(vd, m, blk, k.tt - blk.startTime, k.ct, k.b, k.cc)
                else a[i]
    ensures var k := AmpCoords(vd, i);
            Written(a, AmpBlock(vd, m, blk, n))[i]
            == if blk.startTime <= k.tt < blk.startTime + n then AmpOf(vd, m, blk, k.tt - blk.startTime, k.ct, k.b, k.cc)
               else a[i]
  {
    var prev, time := AmpBlock(vd, m, blk, n - 1), AmpTime(vd, m, blk, n - 1, vd.numChannels);
    assert AmpBlock(vd, m, blk, n) == prev + time;
    AmpTimeAt(vd, m, blk, n - 1, vd.numChannels, Written(a, prev), i);
    WrittenConcat(a, prev, time);
  }

  lemma ZeroTimes(x: int, y: int)
    ensures x == 0 || y == 0 ==> x * y == 0
  {
  }

  /** An output array with a slot has a channel, a time step and a baseline. */
  lemma NonEmptyLayout(vd: VisData)
    requires Shaped(vd) && 0 < vd.numPoints
    ensures 0 < vd.numChannels && 0 < vd.numTimes && 0 < vd.numBaselines
  {
    ZeroTimes(vd.numTimesBaselines, vd.numChannels);
    ZeroTimes(vd.numTimes, vd.numBaselines);
  }

  // ---------------------------------------------------------------------
  // What one block's reshuffle leaves in `uvws`

  /** The coordinates `(b, tt, k)` a slot of the coordinate array stands for. */
  datatype UvwCoords = UvwCoords(b: int, tt: int, k: int)

  /** Reading the layout `[baselines][timesteps][uvw]` backwards: every slot
      is the slot of its coordinates, and those are in range. */
  function UvwCoordsOf(vd: VisData, i: int): (r: UvwCoords)
    requires Shaped(vd) && 0 < vd.numTimes && 0 <= i < vd.numTimesBaselines * 3
    ensures 0 <= r.b < vd.numBaselines && 0 <= r.tt < vd.numTimes && 0 <= r.k < 3
    ensures UvwSlot(vd.numTimes, r.b, r.tt, r.k) == i
  {
    var nt, nb := vd.numTimes, vd.numBaselines;
    var q := i / 3;
    DivBelow(i, vd.numTimesBaselines, 3);
    DivBelow(q, nb, nt);
    assert nb * nt == nt * nb;
    assert q == nt * (q / nt) + q % nt;
    UvwCoords(q / nt, q % nt, i % 3)
  }

  /** A slot's coordinates are the ones it was computed from. */
  lemma UvwCoordsOfAt(vd: VisData, blk: Block, t: int, b: int, k: int)
    requires Shaped(vd) && 0 <= blk.startTime && 0 <= t && blk.startTime + t < vd.numTimes
    requires 0 <= b < vd.numBaselines && 0 <= k < 3
    ensures UvwCoordsOf(vd, UvwAt(vd, blk, t, b, k)) == UvwCoords(b, blk.startTime + t, k)
  {
    var nt, tt := vd.numTimes, blk.startTime + t;
    DivModOf(nt * b + tt, k, 3);
    assert 3 * (nt * b + tt) + k == (nt * b + tt) * 3 + k;
    DivModOf(b, tt, nt);
    assert nt * b + tt == b * nt + tt;
  }

  /** The three stores of `(t, b)`. */
  lemma UvwCellAt(vd: VisData, m: int, blk: Block, t: int, b: int, a: seq<real>, i: int)
    requires Shaped(vd) && Fits(vd, m, blk) && 0 <= t < blk.timesInBlock && 0 <= b < vd.numBaselines
    requires |a| == vd.numTimesBaselines * 3 && 0 <= i < |a|
    ensures var r := UvwCoordsOf(vd, i);
            Written(a, UvwCell(vd, m, blk, t, b))[i]
            == if r.b == b && r.tt == blk.startTime + t then UvwOf(vd, m, blk, t, b, r.k) else a[i]
  {
    var w0 := Write(UvwAt(vd, blk, t, b, 0), UvwOf(vd, m, blk, t, b, 0));
    var w1 := Write(UvwAt(vd, blk, t, b, 1), UvwOf(vd, m, blk, t, b, 1));
    var w2 := Write(UvwAt(vd, blk, t, b, 2), UvwOf(vd, m, blk, t, b, 2));
    assert UvwCell(vd, m, blk, t, b) == [] + [w0] + [w1] + [w2];
    WrittenSnoc(a, [], w0);
    WrittenSnoc(a, [] + [w0], w1);
    WrittenSnoc(a, [] + [w0] + [w1], w2);
    UvwCoordsOfAt(vd, blk, t, b, 0);
    UvwCoordsOfAt(vd, blk, t, b, 1);
    UvwCoordsOfAt(vd, blk, t, b, 2);
  }

  /** The baseline loop at block time `t` over `b < n`. */
  lemma {:induction false} UvwRowAt(vd: VisData, m: int, blk: Block, t: int, n: int, a: seq<real>, i: int)
    requires Shaped(vd) && Fits(vd, m, blk) && 0 <= t < blk.timesInBlock && 0 <= n <= vd.numBaselines
    requires |a| == vd.numTimesBaselines * 3 && 0 <= i < |a|
    ensures var r := UvwCoordsOf(vd, i);
            Written(a, UvwRow(vd, m, blk, t, n))[i]
            == if r.b < n && r.tt == blk.startTime + t then UvwOf(vd, m, blk, t, r.b, r.k) else a[i]
  {
    if n > 0 {
      UvwRowAt(vd, m, blk, t, n - 1, a, i);
      UvwRowStep(vd, m, blk, t, n, a, i);
    }
  }

  /** Adding baseline `n - 1` to the baseline loop. */
  lemma UvwRowStep(vd: VisData, m: int, blk: Block, t: int, n: int, a: seq<real>, i: int)
    requires Shaped(vd) && Fits(vd, m, blk) && 0 <= t < blk.timesInBlock && 0 < n <= vd.numBaselines
    requires |a| == vd.numTimesBaselines * 3 && 0 <= i < |a|
    ensures var r := UvwCoordsOf(vd, i);
            var a1 := Written(a, UvwRow(vd, m, blk, t, n - 1));
            Written(a, UvwRow(vd, m, blk, t, n))[i]
            == if r.b == n - 1 && r.tt == blk.startTime + t then UvwOf(vd, m, blk, t, r.b, r.k) else a1[i]
  {
    var prev, cell := UvwRow(vd, m, blk, t, n - 1), UvwCell(vd, m, blk, t, n - 1);
    assert UvwRow(vd, m, blk, t, n) == prev + cell;
    UvwCellAt(vd, m, blk, t, n - 1, Written(a, prev), i);
    WrittenConcat(a, prev, cell);
  }

  /** The channel loop at block time `t` over `c < n`: every channel
      stores the same row again. */
  lemma {:induction false} UvwTimeAt(vd: VisData, m: int, blk: Block, t: int, n: int, a: seq<real>, i: int)
    requires Shaped(vd) && Fits(vd, m, blk) && 0 <= t < blk.timesInBlock && 0 <= n
    requires |a| == vd.numTimesBaselines * 3 && 0 <= i < |a|
    ensures var r := UvwCoordsOf(vd, i);
            Written(a, UvwTime(vd, m, blk, t, n))[i]
            == if 0 < n && r.tt == blk.startTime + t then UvwOf(vd, m, blk, t, r.b, r.k) else a[i]
  {
    if n > 0 {
      UvwTimeAt(vd, m, blk, t, n - 1, a, i);
      var prev, row := UvwTime(vd, m, blk, t, n - 1), UvwRow(vd, m, blk, t, vd.numBaselines);
      assert UvwTime(vd, m, blk, t, n) == prev + row;
      UvwRowAt(vd, m, blk, t, vd.numBaselines, Written(a, prev), i);
      WrittenConcat(a, prev, row);
    }
  }

  /** The time loop of a block over `t < n`. */
  lemma {:induction false} UvwBlockUpTo(vd: VisData, m: int, blk: Block, n: int, a: seq<real>, i: int)
    requires Shaped(vd) && Fits(vd, m, blk) && 0 <= n <= blk.timesInBlock
    requires |a| == vd.numTimesBaselines * 3 && 0 <= i < |a|
    ensures 0 < vd.numTimes
    ensures var r := UvwCoordsOf(vd, i);
            Written(a, UvwBlock(vd, m, blk, n))[i]
            == if 0 < vd.numChannels && blk.startTime <= r.tt < blk.startTime + n
               then UvwOf(vd, m, blk, r.tt - blk.startTime, r.b, r.k) else a[i]
  {
    if n > 0 {
      UvwBlockUpTo(vd, m, blk, n - 1, a, i);
      UvwBlockStep(vd, m, blk, n, a, i);
    } else {
      ZeroTimes(vd.numTimes, vd.numBaselines);
    }
  }

  /** Adding block time `n - 1` to the time loop. */
  lemma UvwBlockStep(vd: VisData, m: int, blk: Block, n: int, a: seq<real>, i: int)
    requires Shaped(vd) && Fits(vd, m, blk) && 0 < n <= blk.timesInBlock
    requires |a| == vd.numTimesBaselines * 3 && 0 <= i < |a|
    requires var r := UvwCoordsOf(vd, i);
             Written(a, UvwBlock(vd, m, blk, n - 1))[i]
             == if 0 < vd.numChannels && blk.startTime <= r.tt < blk.startTime + (n - 1)
                then UvwOf(vd, m, blk, r.tt - blk.startTime, r.b, r.k) else a[i]
    ensures var r := UvwCoordsOf(vd, i);
            Written(a, UvwBlock(vd, m, blk, n))[i]
            == if 0 < vd.numChannels && blk.startTime <= r.tt < blk.startTime + n
               then UvwOf(vd, m, blk, r.tt - blk.startTime, r.b, r.k) else a[i]
  {
    var prev, time := UvwBlock(vd, m, blk, n - 1), UvwTime(vd, m, blk, n - 1, vd.numChannels);
    assert UvwBlock(vd, m, blk, n) == prev + time;
    UvwTimeAt(vd, m, blk, n - 1, vd.numChannels, Written(a, prev), i);
    WrittenConcat(a, prev, time);
  }
}
