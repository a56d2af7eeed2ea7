/** The column contents that convert_casacal/write_casacal.py writes into a
    CASA bandpass calibration table (`make_caltab`) and into its
    SPECTRAL_WINDOW sub-table (`make_spwtab`). Opening, describing and
    closing the tables is outside the model; what is modelled is the value
    each computed column receives. */
module CalTable {
  import opened Common
  import opened ReferenceAntenna

  /** The computed columns of the main table: one row per antenna; FLAG, SNR,
      PARAMERR and CPARAM hold (channel, polarisation) cells for the two
      kept polarisations. */
  datatype CalColumns<T> = CalColumns(
    time: seq<int>,
    fieldId: seq<int>,
    spectralWindowId: seq<int>,
    antenna1: seq<int>,
    antenna2: seq<int>,
    interval: seq<real>,
    observationId: seq<int>,
    flag: seq<seq<seq<bool>>>,
    snr: seq<seq<seq<real>>>,
    paramErr: seq<seq<seq<real>>>,
    cparam: seq<seq<seq<T>>>)

  /** `n` copies of `x` (`np.zeros`, `np.ones`, `np.ones(...) * x`). */
  function Filled<X>(n: nat, x: X): (r: seq<X>)
    ensures |r| == n && forall k :: 0 <= k < n ==> r[k] == x
  {
    seq(n, _ => x)
  }

  /** An (nant, nchan, 2) array holding `x` everywhere. */
  function Cube<X>(nant: nat, nchan: nat, x: X): seq<seq<seq<X>>>
  {
    Filled(nant, Filled(nchan, Filled(2, x)))
  }

  /** `x` has shape (nant, nchan, 2). */
  predicate CubeShaped<X>(x: seq<seq<seq<X>>>, nant: nat, nchan: nat)
  {
    |x| == nant
    && (forall a :: 0 <= a < nant ==> |x[a]| == nchan)
    && (forall a, c :: 0 <= a < nant && 0 <= c < nchan ==> |x[a][c]| == 2)
  }

  /** `x` has shape (nant, nchan, 2) and holds `v` everywhere. */
  predicate CubeOf<X(==)>(x: seq<seq<seq<X>>>, nant: nat, nchan: nat, v: X)
  {
    CubeShaped(x, nant, nchan)
    && forall a, c, p :: 0 <= a < nant && 0 <= c < nchan && 0 <= p < 2 ==> x[a][c][p] == v
  }

  /** The bandpass (`bp.shape == (_, nant, nchan, npol)`, npol > 3) has a
      solution 0 whose antennas all have `nchan` channels. */
  predicate BandpassShaped<T>(bp: seq<seq<seq<seq<T>>>>, nchan: nat)
  {
    WellShaped(bp) && forall a :: 0 <= a < |bp[0]| ==> |bp[0][a]| == nchan
  }

  /** `bp[..., [0, 3]][0]`: solution 0 restricted to pols 0 and 3. */
  function Pols0And3<T>(bp: seq<seq<seq<seq<T>>>>, nchan: nat): (cp: seq<seq<seq<T>>>)
    requires BandpassShaped(bp, nchan)
    ensures CubeShaped(cp, |bp[0]|, nchan)
    ensures forall a, c :: 0 <= a < |bp[0]| && 0 <= c < nchan ==>
      cp[a][c][0] == bp[0][a][c][0] && cp[a][c][1] == bp[0][a][c][3]
  {
    seq(|bp[0]|, a requires 0 <= a < |bp[0]| =>
      seq(nchan, c requires 0 <= c < nchan => [bp[0][a][c][0], bp[0][a][c][3]]))
  }

  /** The columns once the reference antenna is known. */
  function Columns<T>(bp: seq<seq<seq<seq<T>>>>, nchan: nat, refant: int): CalColumns<T>
    requires BandpassShaped(bp, nchan)
  {
    var nant := |bp[0]|;
    CalColumns(
      Filled(nant, 0), Filled(nant, 0), Filled(nant, 0),
      seq(nant, a => a), Filled(nant, refant), Filled(nant, 0.0), Filled(nant, 0),
      Cube(nant, nchan, false), Cube(nant, nchan, 10.0), Cube(nant, nchan, 1.0),
      Pols0And3(bp, nchan))
  }

  /** `make_caltab(calpath, bp, refant)`: the reference antenna is searched
      for only when none is given, and the search failing is the only error.
      Every row is one antenna; every row names the same reference antenna;
      nothing is flagged; SNR is 10 and PARAMERR 1 in every cell; CPARAM is
      the pol-0 and pol-3 bandpass of solution 0. */
  function MakeCaltab<T>(bp: seq<seq<seq<seq<T>>>>, nchan: nat, refant: Option<int>, angle: T -> Val)
    : (r: Result<CalColumns<T>, RefantError>)
    requires BandpassShaped(bp, nchan)
    ensures r.Failure? <==> refant.None? && Refant(bp, angle).Failure?
    ensures r.Success? ==>
      var nant := |bp[0]|;
      var cols := r.value;
      var ref := if refant.Some? then refant.value else Refant(bp, angle).value;
      && |cols.time| == |cols.fieldId| == |cols.spectralWindowId| == |cols.observationId| == nant
      && |cols.interval| == |cols.antenna1| == |cols.antenna2| == nant
      && (forall a :: 0 <= a < nant ==>
            cols.time[a] == 0 && cols.fieldId[a] == 0 && cols.spectralWindowId[a] == 0
            && cols.observationId[a] == 0 && cols.interval[a] == 0.0)
      && (forall a :: 0 <= a < nant ==> cols.antenna1[a] == a && cols.antenna2[a] == ref)
      && CubeOf(cols.flag, nant, nchan, false)
      && CubeOf(cols.snr, nant, nchan, 10.0)
      && CubeOf(cols.paramErr, nant, nchan, 1.0)
      && CubeShaped(cols.cparam, nant, nchan)
      && (forall a, c :: 0 <= a < nant && 0 <= c < nchan ==>
            cols.cparam[a][c] == [bp[0][a][c][0], bp[0][a][c][3]])
  {
    match refant
    case Some(ref) => Success(Columns(bp, nchan, ref))
    case None =>
      match Refant(bp, angle)
      case Success(ref) => Success(Columns(bp, nchan, ref))
      case Failure(e) => Failure(e)
  }

  /** No phase in one CPARAM row exceeds the tolerance. */
  predicate RowWithinTolerance<T>(row: seq<seq<T>>, angle: T -> Val)
  {
    forall c, p :: 0 <= c < |row| && 0 <= p < |row[c]| ==> !Exceeds(angle(row[c][p]))
  }

  /** When the table picks its own reference antenna, the CPARAM row of that
      antenna has every phase within the tolerance, and every earlier row has
      a phase beyond it. */
  lemma ChosenReferenceRowIsFlat<T>(bp: seq<seq<seq<seq<T>>>>, nchan: nat, angle: T -> Val)
    requires BandpassShaped(bp, nchan)
    requires MakeCaltab(bp, nchan, None, angle).Success?
    ensures
      var cols := MakeCaltab(bp, nchan, None, angle).value;
      && 0 <= cols.antenna2[0] < |bp[0]|
      && RowWithinTolerance(cols.cparam[cols.antenna2[0]], angle)
      && forall b :: 0 <= b < cols.antenna2[0] ==> !RowWithinTolerance(cols.cparam[b], angle)
  {
    var cols := MakeCaltab(bp, nchan, None, angle).value;
    var ref := Refant(bp, angle).value;
    assert cols.antenna2[0] == ref;
    forall c, p | 0 <= c < nchan && 0 <= p < 2
      ensures !Exceeds(angle(cols.cparam[ref][c][p]))
    {
      assert ChannelWithinTolerance(bp[0][ref][c], angle);
    }
    forall b | 0 <= b < ref
      ensures !RowWithinTolerance(cols.cparam[b], angle)
    {
      assert !Qualifies(bp[0][b], angle);
      var c :| 0 <= c < nchan && !ChannelWithinTolerance(bp[0][b][c], angle);
      if Exceeds(angle(bp[0][b][c][0])) {
        assert Exceeds(angle(cols.cparam[b][c][0]));
      } else {
        assert Exceeds(angle(cols.cparam[b][c][1]));
      }
    }
  }

  /** The computed columns of the SPECTRAL_WINDOW row. Not-a-number widths are
      `NoData`. */
  datatype SpwColumns = SpwColumns(
    chanFreq: seq<real>,
    refFrequency: real,
    chanWidth: seq<Val>,
    effectiveBw: seq<Val>,
    resolution: seq<real>,
    numChan: nat,
    totalBandwidth: Val)

  /** `freqs[0]` fails on an empty frequency axis. */
  datatype SpwError = NoChannels

  function Sum(xs: seq<real>): real
  {
    if xs == [] then 0.0 else Sum(xs[..|xs| - 1]) + xs[|xs| - 1]
  }

  /** `freqs[1:] - freqs[:-1]`. */
  function Diffs(freqs: seq<real>): (d: seq<real>)
    ensures |d| == if |freqs| == 0 then 0 else |freqs| - 1
    ensures forall k :: 0 <= k < |d| ==> d[k] == freqs[k + 1] - freqs[k]
  {
    if |freqs| < 2 then [] else seq(|freqs| - 1, k requires 0 <= k < |freqs| - 1 => freqs[k + 1] - freqs[k])
  }

  /** `np.mean`: not-a-number for an empty array. */
  function Mean(xs: seq<real>): (m: Val)
    ensures m == NoData <==> xs == []
    ensures xs != [] ==> m.V? && m.v * |xs| as real == Sum(xs)
  {
    if xs == [] then NoData else V(Sum(xs) / |xs| as real)
  }

  /** Consecutive differences add up to the distance from the first to the last. */
  lemma {:induction false} SumOfDiffs(freqs: seq<real>)
    requires |freqs| > 0
    ensures Sum(Diffs(freqs)) == freqs[|freqs| - 1] - freqs[0]
  {
    if |freqs| > 1 {
      var n := |freqs|;
      var front := freqs[..n - 1];
      SumOfDiffs(front);
      DiffsOfFront(freqs);
      var d := Diffs(freqs);
      assert Sum(d) == Sum(d[..n - 2]) + d[n - 2];
    }
  }

  /** Dropping the last frequency drops the last difference. */
  lemma DiffsOfFront(freqs: seq<real>)
    requires |freqs| >= 2
    ensures Diffs(freqs)[..|freqs| - 2] == Diffs(freqs[..|freqs| - 1])
  {
  }

  /** The channel width of write_casacal.py:63, the mean of the successive
      frequency differences: the span of the axis
      divided by the number of gaps; not-a-number with fewer than two channels. */
  function ChanWidth(freqs: seq<real>): (w: Val)
    ensures w == NoData <==> |freqs| < 2
    ensures |freqs| >= 2 ==> w == V((freqs[|freqs| - 1] - freqs[0]) / (|freqs| - 1) as real)
  {
    if |freqs| >= 2 then SumOfDiffs(freqs); Mean(Diffs(freqs)) else Mean(Diffs(freqs))
  }

  /** `x * k` where not-a-number stays not-a-number. */
  function Scale(x: Val, k: real): (r: Val)
    ensures r == NoData <==> x == NoData
    ensures x.V? ==> r.V? && r.v == x.v * k
  {
    if x.V? then V(x.v * k) else NoData
  }

  /** `make_spwtab(calpath, freqs)`: the empty frequency axis fails at
      `freqs[0]`; otherwise the channel frequencies and resolutions are the
      axis, the reference frequency its first entry, every channel width and
      effective bandwidth the mean spacing, and the total bandwidth the mean
      spacing times the channel count (not-a-number for a single channel). */
  function MakeSpwtab(freqs: seq<real>): (r: Result<SpwColumns, SpwError>)
    ensures r.Failure? <==> freqs == []
    ensures r.Success? ==>
      var n := |freqs|;
      var cols := r.value;
      && cols.chanFreq == freqs && cols.resolution == freqs && cols.refFrequency == freqs[0]
      && cols.numChan == n
      && |cols.chanWidth| == n && |cols.effectiveBw| == n
      && (forall k :: 0 <= k < n ==> cols.chanWidth[k] == cols.effectiveBw[k] == ChanWidth(freqs))
      && cols.totalBandwidth == Scale(ChanWidth(freqs), n as real)
  {
    var nchan := |freqs|;
    var chanWidth := ChanWidth(freqs);
    var total := Scale(chanWidth, nchan as real);
    if freqs == [] then Failure(NoChannels)
    else
      Success(SpwColumns(freqs, freqs[0], Filled(nchan, chanWidth), Filled(nchan, chanWidth), freqs, nchan, total))
  }

  /** Dividing a multiple by its factor gives back the multiplicand. */
  lemma CancelFactor(x: real, g: real)
    requires g != 0.0
    ensures (g * x) / g == x
  {
  }

  /** On an evenly spaced axis every channel width is the spacing and the
      total bandwidth is the spacing times the channel count. */
  lemma UniformAxis(freqs: seq<real>, width: real)
    requires |freqs| >= 2
    requires forall k :: 0 <= k < |freqs| ==> freqs[k] == freqs[0] + k as real * width
    ensures MakeSpwtab(freqs).Success?
    ensures forall k :: 0 <= k < |freqs| ==> MakeSpwtab(freqs).value.chanWidth[k] == V(width)
    ensures MakeSpwtab(freqs).value.totalBandwidth.V?
    ensures MakeSpwtab(freqs).value.totalBandwidth.v == width * |freqs| as real
  {
    var n := |freqs|;
    var gaps := (n - 1) as real;
    var span := freqs[n - 1] - freqs[0];
    assert span == gaps * width;
    CancelFactor(width, gaps);
    assert span / gaps == width;
    var w := ChanWidth(freqs);
    assert w == V(span / gaps);
    assert w == V(width);
    TotalOfWidth(freqs, width);
  }

  /** The total bandwidth is the channel count times a known channel width. */
  lemma TotalOfWidth(freqs: seq<real>, width: real)
    requires freqs != [] && ChanWidth(freqs) == V(width)
    ensures MakeSpwtab(freqs).value.totalBandwidth.V?
    ensures MakeSpwtab(freqs).value.totalBandwidth.v == width * |freqs| as real
  {
    var total := MakeSpwtab(freqs).value.totalBandwidth;
    assert total == Scale(ChanWidth(freqs), |freqs| as real);
  }
}
