/** Baseline bookkeeping of inspect_script/derive_SEFD.py: how many baselines
    `nant` antennas give, the row-major upper-triangular order of the baseline
    axis, and which positions of that axis hold cross-correlations. */
module Baselines {

  /** `nant * (nant - 1)` is never odd, so halving it loses nothing. */
  lemma {:induction false} EvenPairProduct(n: nat)
    ensures n * (n - 1) >= 0 && (n * (n - 1)) % 2 == 0
  {
    if n > 0 {
      EvenPairProduct(n - 1);
      PairProductStep(n);
      var prev := (n - 1) * (n - 2);
      assert prev % 2 == 0;
      assert n * (n - 1) == prev + 2 * (n - 1);
    }
  }

  /** The polynomial identity behind one step of EvenPairProduct. */
  lemma PairProductStep(n: int)
    ensures n * (n - 1) == (n - 1) * (n - 2) + 2 * (n - 1)
  {
  }

  /** `getnbl`: the number of baselines, with (`auto`) or without the
      auto-correlations. The source divides by two in floating point and
      truncates; the ensures says the halving is exact. */
  function GetNbl(nant: nat, auto: bool): (nbl: nat)
    ensures 2 * nbl == nant * (nant - 1) + (if auto then 2 * nant else 0)
  {
    EvenPairProduct(nant);
    if auto then nant * (nant - 1) / 2 + nant else nant * (nant - 1) / 2
  }

  /** Including the auto-correlations adds exactly one baseline per antenna. */
  lemma NblAutoAddsOnePerAntenna(nant: nat)
    ensures GetNbl(nant, true) == GetNbl(nant, false) + nant
  {
  }

  /** The first partner of antenna `i` in its row: itself when auto-correlations
      are enumerated, the next antenna otherwise. */
  function First(i: nat, auto: bool): nat
  {
    if auto then i else i + 1
  }

  /** Row `i` of the enumeration: the pairs (i, j), First(i) <= j < nant, in
      increasing j. */
  function Row(nant: nat, i: nat, auto: bool): seq<(nat, nat)>
    requires i < nant
  {
    seq(nant - First(i, auto), k requires 0 <= k < nant - First(i, auto) => (i, First(i, auto) + k))
  }

  /** A pair that the enumeration lists: i <= j (i < j without autos), j < nant. */
  predicate Listed(nant: nat, p: (nat, nat), auto: bool)
  {
    First(p.0, auto) <= p.1 < nant
  }

  /** The enumeration of rows 0 .. m-1, in row-major order. */
  function PairsUpTo(nant: nat, m: nat, auto: bool): (ps: seq<(nat, nat)>)
    requires m <= nant
    ensures forall k :: 0 <= k < |ps| ==> ps[k].0 < m && Listed(nant, ps[k], auto)
  {
    if m == 0 then [] else PairsUpTo(nant, m - 1, auto) + Row(nant, m - 1, auto)
  }

  /** The whole baseline enumeration of the loops in `get_crosspair_index`
      (auto) and `SEFD_pairs_function` (cross only). */
  function Pairs(nant: nat, auto: bool): (ps: seq<(nat, nat)>)
    ensures |ps| == GetNbl(nant, auto)
    ensures forall k :: 0 <= k < |ps| ==> Listed(nant, ps[k], auto)
  {
    PairsUpToLength(nant, nant, auto);
    PairsUpTo(nant, nant, auto)
  }

  /** Closed form of the number of pairs in the first m rows. */
  lemma {:induction false} PairsUpToLength(nant: nat, m: nat, auto: bool)
    requires m <= nant
    ensures 2 * |PairsUpTo(nant, m, auto)| == m * (2 * nant - m + (if auto then 1 else -1))
  {
    if m > 0 {
      PairsUpToLength(nant, m - 1, auto);
      var e := if auto then 1 else -1;
      assert 2 * |Row(nant, m - 1, auto)| == 2 * nant - 2 * m + 1 + e;
      RowSumStep(nant, m, e);
    }
  }

  /** The polynomial identity behind one step of PairsUpToLength. */
  lemma RowSumStep(n: int, m: int, e: int)
    ensures (m - 1) * (2 * n - (m - 1) + e) + (2 * n - 2 * m + 1 + e) == m * (2 * n - m + e)
  {
  }

  /** Rows are only ever appended: the first m rows fit inside the first m' rows. */
  lemma {:induction false} PairsUpToMonotone(nant: nat, m: nat, m': nat, auto: bool)
    requires m <= m' <= nant
    ensures |PairsUpTo(nant, m, auto)| <= |PairsUpTo(nant, m', auto)|
    ensures PairsUpTo(nant, m', auto)[..|PairsUpTo(nant, m, auto)|] == PairsUpTo(nant, m, auto)
  {
    if m < m' {
      PairsUpToMonotone(nant, m, m' - 1, auto);
    }
  }

  /** Where pair (i, j) sits in the enumeration: after the rows before i,
      at offset j - First(i) in row i. */
  function Position(nant: nat, p: (nat, nat), auto: bool): nat
    requires p.0 <= nant && First(p.0, auto) <= p.1
  {
    |PairsUpTo(nant, p.0, auto)| + (p.1 - First(p.0, auto))
  }

  /** Every listed pair occurs in the enumeration, at its Position. */
  lemma {:induction false} PairAtPosition(nant: nat, m: nat, p: (nat, nat), auto: bool)
    requires m <= nant && p.0 < m && Listed(nant, p, auto)
    ensures Position(nant, p, auto) < |PairsUpTo(nant, m, auto)|
    ensures PairsUpTo(nant, m, auto)[Position(nant, p, auto)] == p
  {
    if p.0 < m - 1 {
      PairAtPosition(nant, m - 1, p, auto);
    }
  }

  /** Every entry of the enumeration sits at the Position of its own pair, so
      no pair is listed twice. */
  lemma {:induction false} PositionOfEntry(nant: nat, m: nat, k: nat, auto: bool)
    requires m <= nant && k < |PairsUpTo(nant, m, auto)|
    ensures Position(nant, PairsUpTo(nant, m, auto)[k], auto) == k
  {
    if k < |PairsUpTo(nant, m - 1, auto)| {
      PositionOfEntry(nant, m - 1, k, auto);
    }
  }

  /** The position of the auto-correlation of antenna a in the full baseline
      axis: a*nant - a*(a-1)/2. */
  function AutoIndex(nant: nat, a: nat): int
  {
    a * nant - a * (a - 1) / 2
  }

  /** Row a of the full enumeration starts at AutoIndex(nant, a). */
  lemma RowStartIsAutoIndex(nant: nat, a: nat)
    requires a <= nant
    ensures |PairsUpTo(nant, a, true)| == AutoIndex(nant, a)
  {
    PairsUpToLength(nant, a, true);
    EvenPairProduct(a);
    var q := a * (a - 1);
    assert a * (2 * nant - a + 1) == 2 * (a * nant) - q;
    assert q == 2 * (q / 2);
  }

  /** The auto-correlation of every antenna a sits at AutoIndex(nant, a). */
  lemma AutoPairAt(nant: nat, a: nat)
    requires a < nant
    ensures 0 <= AutoIndex(nant, a) < GetNbl(nant, true)
    ensures Pairs(nant, true)[AutoIndex(nant, a)] == (a, a)
  {
    RowStartIsAutoIndex(nant, a);
    PairAtPosition(nant, nant, (a, a), true);
    var pos := Position(nant, (a, a), true);
    assert pos == |PairsUpTo(nant, a, true)|;
    assert Pairs(nant, true) == PairsUpTo(nant, nant, true);
  }

  /** Conversely, a position that holds an auto-correlation (a, a) is AutoIndex(nant, a). */
  lemma AutoPairOnlyAt(nant: nat, p: nat)
    requires p < GetNbl(nant, true)
    requires Pairs(nant, true)[p].0 == Pairs(nant, true)[p].1
    ensures p == AutoIndex(nant, Pairs(nant, true)[p].0)
  {
    var a := Pairs(nant, true)[p].0;
    PositionOfEntry(nant, nant, p, true);
    RowStartIsAutoIndex(nant, a);
  }

  /** `get_crosspair_index`: the positions of the full baseline axis that hold
      cross-correlations, found by walking the enumeration with a counter. */
  method GetCrossPairIndex(nant: nat) returns (crossidx: seq<nat>)
    ensures |crossidx| == GetNbl(nant, false)
    ensures forall k :: 0 <= k < |crossidx| ==>
      crossidx[k] < GetNbl(nant, true) && Pairs(nant, true)[crossidx[k]] == Pairs(nant, false)[k]
    ensures forall k, l :: 0 <= k < l < |crossidx| ==> crossidx[k] < crossidx[l]
    ensures forall p :: 0 <= p < GetNbl(nant, true) ==>
      (p in crossidx <==> Pairs(nant, true)[p].0 != Pairs(nant, true)[p].1)
  {
    var idx := 0;
    crossidx := [];
    for ant1 := 0 to nant
      invariant idx == |PairsUpTo(nant, ant1, true)| && |crossidx| == |PairsUpTo(nant, ant1, false)|
      invariant CrossIndexSoFar(nant, crossidx, idx)
    {
      for ant2 := ant1 to nant
        invariant idx == |PairsUpTo(nant, ant1, true)| + (ant2 - ant1)
        invariant |crossidx| == |PairsUpTo(nant, ant1, false)| + (if ant2 == ant1 then 0 else ant2 - ant1 - 1)
        invariant CrossIndexSoFar(nant, crossidx, idx)
      {
        CrossIndexStep(nant, crossidx, idx, ant1, ant2);
        if ant1 != ant2 {
          crossidx := crossidx + [idx];
        }
        idx := idx + 1;
      }
    }
    assert Pairs(nant, true) == PairsUpTo(nant, nant, true);
    assert Pairs(nant, false) == PairsUpTo(nant, nant, false);
  }

  /** The loop invariant of GetCrossPairIndex: `crossidx` holds, in increasing
      order, the cross positions below `idx`, each matched with the cross pair
      of the same rank. */
  ghost predicate CrossIndexSoFar(nant: nat, crossidx: seq<nat>, idx: nat)
  {
    var all := PairsUpTo(nant, nant, true);
    var cross := PairsUpTo(nant, nant, false);
    && idx <= |all|
    && |crossidx| <= |cross|
    && (forall k :: 0 <= k < |crossidx| ==> crossidx[k] < idx && all[crossidx[k]] == cross[k])
    && (forall k, l :: 0 <= k < l < |crossidx| ==> crossidx[k] < crossidx[l])
    && (forall p :: 0 <= p < idx ==> (p in crossidx <==> all[p].0 != all[p].1))
  }

  /** One step of the inner loop of GetCrossPairIndex keeps its invariant. */
  lemma CrossIndexStep(nant: nat, crossidx: seq<nat>, idx: nat, ant1: nat, ant2: nat)
    requires ant1 <= ant2 < nant
    requires idx == |PairsUpTo(nant, ant1, true)| + (ant2 - ant1)
    requires |crossidx| == |PairsUpTo(nant, ant1, false)| + (if ant2 == ant1 then 0 else ant2 - ant1 - 1)
    requires CrossIndexSoFar(nant, crossidx, idx)
    ensures CrossIndexSoFar(nant, if ant1 != ant2 then crossidx + [idx] else crossidx, idx + 1)
  {
    PairAtPosition(nant, nant, (ant1, ant2), true);
    if ant1 != ant2 {
      PairAtPosition(nant, nant, (ant1, ant2), false);
      CrossStepAppends(nant, crossidx, idx, (ant1, ant2));
    } else {
      assert idx !in crossidx;
    }
  }

  /** Appending the position of a cross pair keeps the invariant. */
  lemma CrossStepAppends(nant: nat, crossidx: seq<nat>, idx: nat, pair: (nat, nat))
    requires CrossIndexSoFar(nant, crossidx, idx)
    requires pair.0 != pair.1
    requires idx < |PairsUpTo(nant, nant, true)| && PairsUpTo(nant, nant, true)[idx] == pair
    requires |crossidx| < |PairsUpTo(nant, nant, false)| && PairsUpTo(nant, nant, false)[|crossidx|] == pair
    ensures CrossIndexSoFar(nant, crossidx + [idx], idx + 1)
  {
    var all := PairsUpTo(nant, nant, true);
    var next := crossidx + [idx];
    forall p | 0 <= p < idx + 1
      ensures p in next <==> all[p].0 != all[p].1
    {
      if p < idx {
        assert p in next <==> p in crossidx;
      }
    }
  }
  /** `xs[idx]` for a list of positions along one axis (numpy's integer-array
      indexing), as in `visdata[:, crossidx, :, :]`. */
  function Select<T>(xs: seq<T>, idx: seq<nat>): (r: seq<T>)
    requires forall k :: 0 <= k < |idx| ==> idx[k] < |xs|
    ensures |r| == |idx|
    ensures forall k :: 0 <= k < |idx| ==> r[k] == xs[idx[k]]
  {
    if idx == [] then [] else [xs[idx[0]]] + Select(xs, idx[1..])
  }

  /** Selecting the cross positions from data laid out along the full
      baseline axis leaves the data of the cross pairs, in the order in which
      `SEFD_pairs_function` walks them. */
  lemma SelectCrossPairs<T>(nant: nat, crossidx: seq<nat>, data: seq<T>, ofPair: ((nat, nat)) -> T)
    requires |crossidx| == GetNbl(nant, false)
    requires forall k :: 0 <= k < |crossidx| ==>
      crossidx[k] < GetNbl(nant, true) && Pairs(nant, true)[crossidx[k]] == Pairs(nant, false)[k]
    requires |data| == GetNbl(nant, true)
    requires forall p :: 0 <= p < |data| ==> data[p] == ofPair(Pairs(nant, true)[p])
    ensures |Select(data, crossidx)| == GetNbl(nant, false)
    ensures forall k :: 0 <= k < GetNbl(nant, false) ==> Select(data, crossidx)[k] == ofPair(Pairs(nant, false)[k])
  {
  }

  /** The positions `get_crosspair_index` leaves out are exactly the
      auto-correlation positions AutoIndex(nant, a), a < nant. */
  lemma OmittedPositionsAreAutoIndices(nant: nat, crossidx: seq<nat>, p: nat)
    requires forall q :: 0 <= q < GetNbl(nant, true) ==>
      (q in crossidx <==> Pairs(nant, true)[q].0 != Pairs(nant, true)[q].1)
    requires p < GetNbl(nant, true)
    ensures p !in crossidx <==> exists a :: 0 <= a < nant && p == AutoIndex(nant, a)
  {
    if p !in crossidx {
      var a := Pairs(nant, true)[p].0;
      AutoPairOnlyAt(nant, p);
      assert 0 <= a < nant && p == AutoIndex(nant, a);
    }
    if exists a :: 0 <= a < nant && p == AutoIndex(nant, a) {
      var a :| 0 <= a < nant && p == AutoIndex(nant, a);
      AutoPairAt(nant, a);
    }
  }
}
