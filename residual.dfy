/** The least-squares problem of inspect_script/derive_SEFD.py: the residual
    function `SEFD_pairs_function` handed to the optimiser, and the initial
    guess of `SEFD_ant_fit`. Antenna values are the optimiser's reals; pair
    products may be missing. */
module Residual {
  import opened Common
  import opened Baselines

  datatype ResidualError = MismatchedBaselines

  /** The residual of one pair: a_i * a_j - P_ij, or exactly 0 when P_ij is
      missing, so that a missing pair neither pulls nor pushes the fit. */
  function PairResidual(ants: seq<real>, pair: (nat, nat), product: Val): real
    requires pair.0 < |ants| && pair.1 < |ants|
  {
    match product
    case NoData => 0.0
    case V(p) => ants[pair.0] * ants[pair.1] - p
  }

  /** The residual vector, entry k for the k-th cross pair (i, j), i < j, in
      row-major order. */
  function Residuals(ants: seq<real>, products: seq<Val>): seq<real>
    requires |products| == GetNbl(|ants|, false)
  {
    var pairs := Pairs(|ants|, false);
    seq(|products|, k requires 0 <= k < |products| => PairResidual(ants, pairs[k], products[k]))
  }

  /** `SEFD_pairs_function(SEFD_ants, SEFD_pairs)`: the assertion that there is
      one product per cross pair fails with an error; otherwise the nested
      loops walk the cross pairs with a running index. */
  method SefdPairsFunction(ants: seq<real>, products: seq<Val>) returns (r: Result<seq<real>, ResidualError>)
    ensures r.Failure? <==> |products| != GetNbl(|ants|, false)
    ensures r.Success? ==> r.value == Residuals(ants, products)
  {
    var nant := |ants|;
    var nbl := GetNbl(nant, false);
    if nbl != |products| {
      return Failure(MismatchedBaselines);
    }
    var prodList: seq<real> := [];
    var index := 0;
    ghost var expected := Residuals(ants, products);
    for i := 0 to nant
      invariant index == |PairsUpTo(nant, i, false)| <= |products|
      invariant prodList == expected[..index]
    {
      PairsUpToMonotone(nant, i + 1, nant, false);
      for j := i + 1 to nant
        invariant index == |PairsUpTo(nant, i, false)| + (j - i - 1) <= |products|
        invariant prodList == expected[..index]
      {
        ResidualStep(ants, products, i, j, index, prodList);
        prodList := prodList + [PairResidual(ants, (i, j), products[index])];
        index := index + 1;
      }
    }
    assert index == |products| by {
      assert Pairs(nant, false) == PairsUpTo(nant, nant, false);
    }
    return Success(prodList);
  }

  /** One step of the inner loop of SefdPairsFunction: pair (i, j) is the
      pair at the running index, and its residual extends the prefix. */
  lemma ResidualStep(ants: seq<real>, products: seq<Val>, i: nat, j: nat, index: nat, prodList: seq<real>)
    requires |products| == GetNbl(|ants|, false)
    requires i < j < |ants|
    requires index == |PairsUpTo(|ants|, i, false)| + (j - i - 1)
    requires index <= |products| && prodList == Residuals(ants, products)[..index]
    ensures index < |products|
    ensures prodList + [PairResidual(ants, (i, j), products[index])] == Residuals(ants, products)[..index + 1]
  {
    var nant := |ants|;
    PairAtPosition(nant, nant, (i, j), false);
    assert Pairs(nant, false)[index] == (i, j);
  }

  /** Every present product matches the antenna products exactly if and only
      if the residual vector is all zeros. */
  lemma ZeroResidualIffConsistent(ants: seq<real>, products: seq<Val>)
    requires |products| == GetNbl(|ants|, false)
    ensures (forall k :: 0 <= k < |products| ==> Residuals(ants, products)[k] == 0.0) <==>
      (forall k :: 0 <= k < |products| && products[k].V? ==>
         products[k].v == ants[Pairs(|ants|, false)[k].0] * ants[Pairs(|ants|, false)[k].1])
  {
    var pairs := Pairs(|ants|, false);
    var r := Residuals(ants, products);
    forall k | 0 <= k < |products|
      ensures r[k] == 0.0 <==> (products[k].V? ==> products[k].v == ants[pairs[k].0] * ants[pairs[k].1])
    {
      assert r[k] == PairResidual(ants, pairs[k], products[k]);
    }
  }

  /** All antenna values negated. */
  function Negated(ants: seq<real>): (r: seq<real>)
    ensures |r| == |ants| && forall i :: 0 <= i < |ants| ==> r[i] == -ants[i]
  {
    seq(|ants|, i requires 0 <= i < |ants| => -ants[i])
  }

  /** The residual cannot tell a vector from its negation. */
  lemma ResidualSignInvariant(ants: seq<real>, products: seq<Val>)
    requires |products| == GetNbl(|ants|, false)
    ensures Residuals(Negated(ants), products) == Residuals(ants, products)
  {
    var pairs := Pairs(|ants|, false);
    forall k | 0 <= k < |products|
      ensures Residuals(Negated(ants), products)[k] == Residuals(ants, products)[k]
    {
      var (i, j) := pairs[k];
      assert (-ants[i]) * (-ants[j]) == ants[i] * ants[j];
    }
  }

  /** Antenna m takes part only in missing pairs. */
  predicate Unconstrained(nant: nat, products: seq<Val>, m: nat)
    requires |products| == GetNbl(nant, false)
  {
    forall k :: 0 <= k < |products| && (Pairs(nant, false)[k].0 == m || Pairs(nant, false)[k].1 == m) ==>
      products[k] == NoData
  }

  /** Changing the value of an antenna that takes part only in missing pairs
      leaves the residual vector unchanged. */
  lemma UnconstrainedAntennaIsFree(ants: seq<real>, ants': seq<real>, products: seq<Val>, m: nat)
    requires |ants'| == |ants| && |products| == GetNbl(|ants|, false)
    requires forall i :: 0 <= i < |ants| && i != m ==> ants'[i] == ants[i]
    requires Unconstrained(|ants|, products, m)
    ensures Residuals(ants', products) == Residuals(ants, products)
  {
  }

  /** The starting point of the fit (derive_SEFD.py:90): every antenna starts
      at the default SEFD. */
  function InitialGuess(nant: nat, defaultSEFD: real): (x0: seq<real>)
    ensures |x0| == nant && forall i :: 0 <= i < nant ==> x0[i] == defaultSEFD
  {
    seq(nant, _ => defaultSEFD)
  }

  /** At the initial guess every present pair's residual is default^2 - P_ij. */
  lemma ResidualAtInitialGuess(nant: nat, defaultSEFD: real, products: seq<Val>, k: nat)
    requires |products| == GetNbl(nant, false) && k < |products|
    ensures Residuals(InitialGuess(nant, defaultSEFD), products)[k] ==
      match products[k] case NoData => 0.0 case V(p) => defaultSEFD * defaultSEFD - p
  {
  }
}
