/** The time-axis preparation of inspect_script/derive_SEFD.py: the symmetric
    edge trim of `_tweak_time_slice`, Python's slice semantics for the slice
    it returns, and numpy's `reshape(-1, size, ...)` of a leading axis into
    equal blocks. */
module TimeSlice {
  import opened Common

  /** The slice `_tweak_time_slice` returns: `slice(None, None)` (Whole) or
      `slice(front, -back)` (Trim). */
  datatype Slice = Whole | Trim(front: nat, back: nat)

  /** `_tweak_time_slice(sample_ave, nsamp)`. The source divides by
      `sample_ave`, so a zero block size is the caller's error. */
  function TweakTimeSlice(sampleAve: nat, nsamp: nat): (s: Slice)
    requires sampleAve > 0
    ensures s == Whole <==> nsamp % sampleAve == 0
    ensures s.Trim? ==> s.front + s.back == nsamp % sampleAve
    ensures s.Trim? ==> s.front <= s.back <= s.front + 1
    ensures s.Trim? ==> s.back >= 1
  {
    if nsamp % sampleAve == 0 then Whole
    else
      var remain := nsamp % sampleAve;
      var start := remain / 2;
      Trim(start, remain - start)
  }

  /** Python's `xs[s]` for the two slice shapes above: both bounds are clamped
      to the sequence, `-back` counts from the end, `-0` is the stop 0, and an
      empty range gives an empty result. */
  function ApplySlice<T>(xs: seq<T>, s: Slice): (r: seq<T>)
    ensures s.Whole? ==> r == xs
    ensures s.Trim? && s.back >= 1 && s.front + s.back <= |xs| ==> r == xs[s.front .. |xs| - s.back]
    ensures s.Trim? && s.front + s.back >= |xs| ==> r == []
    ensures s.Trim? && s.back == 0 ==> r == []
  {
    match s
    case Whole => xs
    case Trim(front, back) =>
      var lo := if front <= |xs| then front else |xs|;
      var hi := if 0 < back <= |xs| then |xs| - back else 0;
      if lo < hi then xs[lo..hi] else []
  }

  /** The kept time range: the front loses floor(r/2) samples and the back
      the other r - floor(r/2), where r = nsamp % sample_ave. */
  lemma TrimKeepsMiddle<T>(xs: seq<T>, sampleAve: nat)
    requires sampleAve > 0
    ensures var r := |xs| % sampleAve;
      r <= |xs| && ApplySlice(xs, TweakTimeSlice(sampleAve, |xs|)) == xs[r / 2 .. |xs| - (r - r / 2)]
  {
    DivMod(|xs|, sampleAve);
    var r := |xs| % sampleAve;
    if r == 0 {
      assert xs[0..|xs|] == xs;
    }
  }

  /** What the trim leaves is a whole number of blocks: nsamp - r samples. */
  lemma TrimKeepsWholeBlocks<T>(xs: seq<T>, sampleAve: nat)
    requires sampleAve > 0
    ensures |ApplySlice(xs, TweakTimeSlice(sampleAve, |xs|))| == (|xs| / sampleAve) * sampleAve
  {
    TrimKeepsMiddle(xs, sampleAve);
    DivMod(|xs|, sampleAve);
  }

  /** The blocks of `xs`, `size` at a time, in order. */
  function Chunks<T>(xs: seq<T>, size: nat, count: nat): (blocks: seq<seq<T>>)
    requires |xs| == count * size
    ensures |blocks| == count
    ensures forall b :: 0 <= b < count ==> |blocks[b]| == size
    ensures Flatten(blocks) == xs
  {
    if count == 0 then []
    else
      assert |xs[size..]| == (count - 1) * size;
      [xs[..size]] + Chunks(xs[size..], size, count - 1)
  }

  /** Concatenation of a sequence of blocks. */
  function Flatten<T>(blocks: seq<seq<T>>): seq<T>
  {
    if blocks == [] then [] else blocks[0] + Flatten(blocks[1..])
  }

  datatype ShapeError = CannotReshape

  /** `xs.reshape(-1, size, ...)` along the leading axis, where `inner` is the
      product of the trailing dimensions `...`. numpy raises when the known
      dimensions multiply to 0 (`size` or `inner` is 0: the -1 is then
      undetermined, even on an empty array) and when the length is not a
      multiple of `size`; otherwise the blocks are the consecutive runs of
      `size`. */
  function Reshape<T>(xs: seq<T>, size: nat, inner: nat): (r: Result<seq<seq<T>>, ShapeError>)
    ensures r.Success? <==> size > 0 && inner > 0 && |xs| % size == 0
    ensures r.Success? ==> |r.value| * size == |xs| && Flatten(r.value) == xs
    ensures r.Success? ==> forall b :: 0 <= b < |r.value| ==> |r.value[b]| == size
  {
    if size == 0 || inner == 0 || |xs| % size != 0 then Failure(CannotReshape)
    else
      assert |xs| == (|xs| / size) * size;
      Success(Chunks(xs, size, |xs| / size))
  }

  /** After the trim, the reshape into blocks of `sample_ave` fails only when
      the trailing dimensions (nbl - nant, nchan, npol) multiply to 0, as with
      a single antenna; otherwise it yields floor(nsamp / sample_ave) blocks. */
  lemma TrimThenReshape<T>(xs: seq<T>, sampleAve: nat, inner: nat)
    requires sampleAve > 0
    ensures var r := Reshape(ApplySlice(xs, TweakTimeSlice(sampleAve, |xs|)), sampleAve, inner);
      (r.Success? <==> inner > 0) && (r.Success? ==> |r.value| == |xs| / sampleAve)
  {
    if inner > 0 {
      var q := |xs| / sampleAve;
      var kept := ApplySlice(xs, TweakTimeSlice(sampleAve, |xs|));
      TrimKeepsWholeBlocks(xs, sampleAve);
      assert |kept| == q * sampleAve;
      ReshapeWholeBlocks(kept, sampleAve, inner, q);
      assert Reshape(kept, sampleAve, inner).Success? && |Reshape(kept, sampleAve, inner).value| == q;
    }
  }

  /** A sequence of q blocks' worth of entries reshapes into q blocks. */
  lemma ReshapeWholeBlocks<T>(xs: seq<T>, size: nat, inner: nat, q: nat)
    requires size > 0 && inner > 0 && |xs| == q * size
    ensures Reshape(xs, size, inner).Success? && |Reshape(xs, size, inner).value| == q
  {
    DivModUnique(|xs|, size, q, 0);
    var n := |Reshape(xs, size, inner).value|;
    assert n * size == q * size;
    MulAwayFromZero(size, n - q);
    assert size * (n - q) == 0;
  }

  /** Euclidean division of a natural number, spelled out for the solver. */
  lemma DivMod(x: nat, d: nat)
    requires d > 0
    ensures x == (x / d) * d + x % d && 0 <= x % d < d
    ensures 0 <= x / d && 0 <= (x / d) * d && x % d <= x
  {
  }

  /** A non-zero multiple of d is at least d away from zero. */
  lemma {:induction false} MulAwayFromZero(d: int, k: int)
    requires d > 0
    ensures k > 0 ==> d * k >= d
    ensures k < 0 ==> d * k <= -d
    decreases if k < 0 then -k else k
  {
    if k > 1 {
      MulAwayFromZero(d, k - 1);
      assert d * k == d * (k - 1) + d;
    } else if k < -1 {
      MulAwayFromZero(d, k + 1);
      assert d * k == d * (k + 1) - d;
    }
  }

  /** The quotient and remainder of x by d are the only q, r with x == q*d + r
      and 0 <= r < d. */
  lemma DivModUnique(x: nat, d: nat, q: int, r: int)
    requires d > 0 && 0 <= r < d && x == q * d + r
    ensures x / d == q && x % d == r
  {
    DivMod(x, d);
    var k := x / d - q;
    assert d * k == r - x % d;
    MulAwayFromZero(d, k);
  }
}
