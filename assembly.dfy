/** The per-channel fit loop and the result assembly of `main` in
    inspect_script/derive_SEFD.py. The optimiser (`scipy.optimize.leastsq`)
    is not part of the model: it is a parameter, `solve`, that maps an initial
    guess and one channel's pair products to the fitted antenna vector. */
module Assembly {
  import opened Common
  import opened Residual

  datatype AssemblyError = NothingToStack

  /** Pair products `[baseline][channel][polarisation]`, as `SEFD_pairs` is
      laid out: every baseline has `nchan` channels, each with at least one
      polarisation. */
  predicate ProductsShaped(products: seq<seq<seq<Val>>>, nchan: nat)
  {
    forall b :: 0 <= b < |products| ==>
      |products[b]| == nchan && forall c :: 0 <= c < nchan ==> |products[b][c]| > 0
  }

  /** `SEFD_pairs[:, ichan, 0]`: the products of one channel, first polarisation. */
  function Column(products: seq<seq<seq<Val>>>, nchan: nat, c: nat): (col: seq<Val>)
    requires ProductsShaped(products, nchan) && c < nchan
    ensures |col| == |products|
    ensures forall b :: 0 <= b < |products| ==> col[b] == products[b][c][0]
  {
    seq(|products|, b requires 0 <= b < |products| => products[b][c][0])
  }

  /** The channel loop: channel c is fitted from the initial guess and that
      channel's products, and the fits are collected in channel order. */
  method FitChannels(products: seq<seq<seq<Val>>>, nchan: nat, nant: nat, defaultSEFD: real,
                     solve: (seq<real>, seq<Val>) -> seq<real>) returns (fits: seq<seq<real>>)
    requires ProductsShaped(products, nchan)
    ensures |fits| == nchan
    ensures forall c :: 0 <= c < nchan ==>
      fits[c] == solve(InitialGuess(nant, defaultSEFD), Column(products, nchan, c))
  {
    fits := [];
    for ichan := 0 to nchan
      invariant |fits| == ichan
      invariant forall c :: 0 <= c < ichan ==>
        fits[c] == solve(InitialGuess(nant, defaultSEFD), Column(products, nchan, c))
    {
      var x0 := InitialGuess(nant, defaultSEFD);
      var fit := solve(x0, Column(products, nchan, ichan));
      fits := fits + [fit];
    }
  }

  /** The clean-up of the fitted array (derive_SEFD.py:155) on one entry,
      which treats a fit still at its starting value as having failed: a value equal to the default becomes missing; a missing value
      (never equal to anything) stays missing; every other value is kept. */
  function Unstick(v: Val, defaultSEFD: real): (r: Val)
    ensures r == NoData <==> v == NoData || v == V(defaultSEFD)
    ensures r != NoData ==> r == v
    ensures r != V(defaultSEFD)
  {
    if v == V(defaultSEFD) then NoData else v
  }

  /** Rewriting twice is rewriting once. */
  lemma UnstickIdempotent(v: Val, defaultSEFD: real)
    ensures Unstick(Unstick(v, defaultSEFD), defaultSEFD) == Unstick(v, defaultSEFD)
  {
  }

  /** The in-place rewrite of line 155 over the stacked `[nchan, nant]` array. */
  method RewriteDefault(m: array2<Val>, defaultSEFD: real)
    modifies m
    ensures forall c, a :: 0 <= c < m.Length0 && 0 <= a < m.Length1 ==>
      m[c, a] == Unstick(old(m[c, a]), defaultSEFD)
  {
    for c := 0 to m.Length0
      invariant forall c', a :: 0 <= c' < c && 0 <= a < m.Length1 ==>
        m[c', a] == Unstick(old(m[c', a]), defaultSEFD)
      invariant forall c', a :: c <= c' < m.Length0 && 0 <= a < m.Length1 ==> m[c', a] == old(m[c', a])
    {
      for a := 0 to m.Length1
        invariant forall c', a' :: 0 <= c' < c && 0 <= a' < m.Length1 ==>
          m[c', a'] == Unstick(old(m[c', a']), defaultSEFD)
        invariant forall a' :: 0 <= a' < a ==> m[c, a'] == Unstick(old(m[c, a']), defaultSEFD)
        invariant forall c', a' :: c <= c' < m.Length0 && 0 <= a' < m.Length1 && (c' != c || a' >= a) ==>
          m[c', a'] == old(m[c', a'])
      {
        if m[c, a] == V(defaultSEFD) {
          m[c, a] := NoData;
        }
      }
    }
  }

  /** `np.vstack` of the per-channel fits (each of shape `[1, nant]`) followed
      by the rewrite of line 155. numpy refuses to stack an empty list, so a
      run with no channel fails here. */
  method Assemble(fits: seq<seq<real>>, nant: nat, defaultSEFD: real) returns (r: Result<array2<Val>, AssemblyError>)
    requires forall c :: 0 <= c < |fits| ==> |fits[c]| == nant
    ensures r.Failure? <==> fits == []
    ensures r.Success? ==> fresh(r.value) && r.value.Length0 == |fits| && r.value.Length1 == nant
    ensures r.Success? ==> forall c, a :: 0 <= c < |fits| && 0 <= a < nant ==>
      r.value[c, a] == Unstick(V(fits[c][a]), defaultSEFD)
  {
    if fits == [] {
      return Failure(NothingToStack);
    }
    var m := new Val[|fits|, nant];
    for c := 0 to |fits|
      invariant forall c', a :: 0 <= c' < c && 0 <= a < nant ==> m[c', a] == V(fits[c'][a])
    {
      for a := 0 to nant
        invariant forall c', a' :: 0 <= c' < c && 0 <= a' < nant ==> m[c', a'] == V(fits[c'][a'])
        invariant forall a' :: 0 <= a' < a ==> m[c, a'] == V(fits[c][a'])
      {
        m[c, a] := V(fits[c][a]);
      }
    }
    RewriteDefault(m, defaultSEFD);
    return Success(m);
  }
}
