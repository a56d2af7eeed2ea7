/** `_work_refant` of convert_casacal/write_casacal.py: the reference antenna
    is the first antenna whose pol-0 and pol-3 bandpass phases stay within
    0.1 degree in every channel. The bandpass is indexed
    [solution][antenna][channel][polarisation]; only solution 0 is read. The
    phase of an entry (`np.angle(·, deg=True)`) is a parameter `angle`, which
    gives `NoData` for a not-a-number entry. */
module ReferenceAntenna {
  import opened Common

  /** The bound, in degrees, on the magnitude of a reference antenna's phase. */
  const PhaseTolerance: real := 0.1

  datatype RefantError = NoReferenceAntenna

  /** `abs(phase) > 0.1`; every comparison with not-a-number is false, so a
      missing phase never exceeds the bound. */
  predicate Exceeds(phase: Val)
  {
    phase.V? && (phase.v > PhaseTolerance || phase.v < -PhaseTolerance)
  }

  /** Every channel carries the polarisations 0 through 3. */
  predicate HasFourPols<T>(chans: seq<seq<T>>)
  {
    forall c :: 0 <= c < |chans| ==> |chans[c]| > 3
  }

  /** The bandpass has a solution 0 whose channels all carry pols 0 through 3. */
  predicate WellShaped<T>(bp: seq<seq<seq<seq<T>>>>)
  {
    |bp| > 0 && forall a :: 0 <= a < |bp[0]| ==> HasFourPols(bp[0][a])
  }

  /** Neither the pol-0 nor the pol-3 phase of one channel exceeds the bound. */
  predicate ChannelWithinTolerance<T>(chan: seq<T>, angle: T -> Val)
    requires |chan| > 3
  {
    !Exceeds(angle(chan[0])) && !Exceeds(angle(chan[3]))
  }

  /** `(abs(antdata_degree) > 0.1).sum()`: how many pol-0 and pol-3 phases of
      one antenna exceed the bound. */
  function Exceedances<T>(chans: seq<seq<T>>, angle: T -> Val): (count: nat)
    requires HasFourPols(chans)
    ensures count <= 2 * |chans|
    ensures count == 0 <==> forall c :: 0 <= c < |chans| ==> ChannelWithinTolerance(chans[c], angle)
  {
    if chans == [] then 0
    else
      (if Exceeds(angle(chans[0][0])) then 1 else 0)
      + (if Exceeds(angle(chans[0][3])) then 1 else 0)
      + Exceedances(chans[1..], angle)
  }

  /** An antenna may serve as reference when none of its phases exceeds the bound. */
  predicate Qualifies<T>(chans: seq<seq<T>>, angle: T -> Val)
    requires HasFourPols(chans)
  {
    Exceedances(chans, angle) == 0
  }

  /** The first qualifying antenna at index `from` or later. */
  function FirstQualifying<T>(ants: seq<seq<seq<T>>>, from: nat, angle: T -> Val): (r: Option<nat>)
    requires forall a :: 0 <= a < |ants| ==> HasFourPols(ants[a])
    requires from <= |ants|
    ensures r.Some? ==> from <= r.value < |ants| && Qualifies(ants[r.value], angle)
    ensures r.Some? ==> forall b :: from <= b < r.value ==> !Qualifies(ants[b], angle)
    ensures r.None? <==> forall b :: from <= b < |ants| ==> !Qualifies(ants[b], angle)
    decreases |ants| - from
  {
    if from == |ants| then None
    else if Qualifies(ants[from], angle) then Some(from)
    else FirstQualifying(ants, from + 1, angle)
  }

  /** The reference antenna `_work_refant` picks: the least qualifying
      antenna, or the "no reference antenna found" error when none qualifies. */
  function Refant<T>(bp: seq<seq<seq<seq<T>>>>, angle: T -> Val): (r: Result<nat, RefantError>)
    requires WellShaped(bp)
    ensures r.Success? ==> r.value < |bp[0]| && Qualifies(bp[0][r.value], angle)
    ensures r.Success? ==> forall b :: 0 <= b < r.value ==> !Qualifies(bp[0][b], angle)
    ensures r.Failure? <==> forall b :: 0 <= b < |bp[0]| ==> !Qualifies(bp[0][b], angle)
  {
    match FirstQualifying(bp[0], 0, angle)
    case Some(a) => Success(a)
    case None => Failure(NoReferenceAntenna)
  }

  /** `_work_refant(bp)`: scans the antennas in order and returns the first
      that qualifies; falling off the end raises the error. */
  method WorkRefant<T>(bp: seq<seq<seq<seq<T>>>>, angle: T -> Val) returns (r: Result<nat, RefantError>)
    requires WellShaped(bp)
    ensures r == Refant(bp, angle)
  {
    var ants := bp[0];
    var nant := |ants|;
    for iant := 0 to nant
      invariant forall b :: 0 <= b < iant ==> !Qualifies(ants[b], angle)
    {
      var exceeded := Exceedances(ants[iant], angle);
      if exceeded == 0 {
        return Success(iant);
      }
    }
    return Failure(NoReferenceAntenna);
  }

  /** The count of exceedances looks only at the phases of pols 0 and 3. */
  lemma {:induction false} ExceedancesReadPols0And3<T>(chans: seq<seq<T>>, chans': seq<seq<T>>, angle: T -> Val)
    requires HasFourPols(chans) && HasFourPols(chans') && |chans| == |chans'|
    requires forall c :: 0 <= c < |chans| ==>
      angle(chans[c][0]) == angle(chans'[c][0]) && angle(chans[c][3]) == angle(chans'[c][3])
    ensures Exceedances(chans, angle) == Exceedances(chans', angle)
  {
    if chans != [] {
      ExceedancesReadPols0And3(chans[1..], chans'[1..], angle);
    }
  }

  /** The choice depends on nothing but the pol-0 and pol-3 phases of
      solution 0: the other solutions, the other polarisations and the
      magnitudes of the entries are never read. */
  lemma RefantReadsPhasesOfPols0And3<T>(bp: seq<seq<seq<seq<T>>>>, bp': seq<seq<seq<seq<T>>>>, angle: T -> Val)
    requires WellShaped(bp) && WellShaped(bp') && |bp[0]| == |bp'[0]|
    requires forall a :: 0 <= a < |bp[0]| ==> |bp[0][a]| == |bp'[0][a]|
    requires forall a, c :: 0 <= a < |bp[0]| && 0 <= c < |bp[0][a]| ==>
      angle(bp[0][a][c][0]) == angle(bp'[0][a][c][0]) && angle(bp[0][a][c][3]) == angle(bp'[0][a][c][3])
    ensures Refant(bp, angle) == Refant(bp', angle)
  {
    forall a | 0 <= a < |bp[0]|
      ensures Qualifies(bp[0][a], angle) == Qualifies(bp'[0][a], angle)
    {
      ExceedancesReadPols0And3(bp[0][a], bp'[0][a], angle);
    }
  }

  /** An antenna whose pol-0 and pol-3 phases are all missing qualifies, so
      the search stops there at the latest: a fully flagged antenna can
      become the reference. */
  lemma MissingPhasesQualify<T>(bp: seq<seq<seq<seq<T>>>>, angle: T -> Val, a: nat)
    requires WellShaped(bp) && a < |bp[0]|
    requires forall c :: 0 <= c < |bp[0][a]| ==> angle(bp[0][a][c][0]) == NoData && angle(bp[0][a][c][3]) == NoData
    ensures Refant(bp, angle).Success? && Refant(bp, angle).value <= a
  {
    assert Qualifies(bp[0][a], angle);
  }
}
