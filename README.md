# SEFD derivation and CASA bandpass-table conversion, modelled in Dafny

This project models two scripts of a radio-interferometry toolkit.

`inspect_script/derive_SEFD.py` derives each antenna's system equivalent flux
density (SEFD) from a calibrator observation. The model covers these parts:

- **Baseline bookkeeping.** This covers the baseline count `getnbl` and the row-major
  upper-triangular baseline order. It also covers the positions of the cross-correlations
  on the full baseline axis (`get_crosspair_index`) and the selection of those positions.
- **Preparing the data.** The model covers the masking of flagged visibilities, the
  symmetric edge trim of the time axis (`_tweak_time_slice`) with Python's slice
  semantics, and the `reshape(-1, size, ...)` of the leading axis into equal blocks.
- **The least-squares problem.** The model covers the residual vector `SEFD_pairs_function`,
  with its baseline-count assertion, and the initial guess `x0`.
- **Fitting and assembly.** The model covers the per-channel fit loop, the stacking of the
  fits and the rewrite of values equal to the default SEFD into "missing".
- **The output path.** The model covers the file name under which the result is saved.

`convert_casacal/write_casacal.py` turns a bandpass solution into a CASA
calibration table. The model covers the reference-antenna search
`_work_refant`. It also covers the contents of the computed columns of the main
table (`make_caltab`) and of its SPECTRAL_WINDOW sub-table (`make_spwtab`).

Conventions of the model:

- A numpy not-a-number is the constructor `NoData` of `Common.Sample`.
- Floating-point numbers are exact reals.
- Exceptions are `Failure` values of `Common.Result`:
  - the assertion in `SEFD_pairs_function`;
  - the `ValueError` of `_work_refant`;
  - `np.vstack` of an empty list;
  - `freqs[0]` on an empty frequency axis;
  - a reshape that does not divide the axis, or whose other dimensions multiply to 0.
- The optimiser `leastsq` is a function parameter `solve`.
- `np.angle(·, deg=True)` is a function parameter `angle`.
- Most `requires` clauses state a shape guarantee the numpy arrays carry, such as equal
  lengths of DATA and FLAG. One states `sample_ave > 0`: the only call site uses the default 30, and 0 would raise
  `ZeroDivisionError` at the `%` of line 54. A negative `sample_ave` passes line 54 and fails
  only at the reshape of line 134; the model does not cover it.
- Three `requires` clauses are assumptions about what the caller passes in. They are not
  guarantees of numpy. The bandpass is assumed to have a solution 0 and at least four
  polarisations (`WellShaped`, `BandpassShaped`). The pair products are assumed to have
  at least one polarisation (`ProductsShaped`). The source raises `IndexError` on the
  excluded inputs, as listed under "## Left out".

Modules:

- `Common` (common.dfy): shared values.
- `Baselines` (baselines.dfy): baseline count, order and cross-pair positions.
- `TimeSlice` (time_slice.dfy): time-axis trim and reshape.
- `Masking` (masking.dfy): flag masking.
- `Residual` (residual.dfy): the residual vector and the initial guess.
- `Assembly` (assembly.dfy): the channel loop and the assembly of the result.
- `OutputPath` (output_path.dfy): the output file name.
- `ReferenceAntenna` (refant.dfy): the reference-antenna search.
- `CalTable` (cal_tables.dfy): the computed table columns.

Where the code and its documentation differ, the model follows the code:

- The statistics of lines 141-144 (left out) have no zero-variance guard. σ = 0 with
  μ ≠ 0 gives a product of 0, and the residual treats that 0 as a present value.
- The rewrite of line 155 compares every fitted value with the default by
  exact equality, so a value equal to the default becomes missing.

## Model

| member | source | states |
|---|---|---|
| Baselines.GetNbl | inspect_script/derive_SEFD.py:38-39 | twice the count is nant(nant-1), plus 2·nant with auto-correlations, so the source's float halving and `int` truncation lose nothing |
| Baselines.NblAutoAddsOnePerAntenna | inspect_script/derive_SEFD.py:38-39 | including auto-correlations adds exactly nant baselines (the `nbl-nant` of line 134) |
| Baselines.PairsUpToLength | inspect_script/derive_SEFD.py:45-48 | the first m rows of the enumeration hold m(2·nant − m ± 1)/2 pairs |
| Baselines.Pairs | inspect_script/derive_SEFD.py:45-46 | the row-major enumeration of (ant1, ant2), ant1 ≤ ant2 (< without autos), has exactly `getnbl` entries, each a listed pair |
| Baselines.PairAtPosition | inspect_script/derive_SEFD.py:43-48 | the running counter `idx` reaches pair p exactly at Position(p): the enumeration holds p there |
| Baselines.PositionOfEntry | inspect_script/derive_SEFD.py:43-48 | every entry of the enumeration sits at its own Position, so each pair is listed once |
| Baselines.AutoPairAt | inspect_script/derive_SEFD.py:45-48 | auto-correlation (a, a) sits at a·nant − a(a−1)/2 on the full axis, inside the axis |
| Baselines.AutoPairOnlyAt | inspect_script/derive_SEFD.py:45-48 | a position holds an auto-correlation only if it is one of those diagonal positions |
| Baselines.GetCrossPairIndex | inspect_script/derive_SEFD.py:42-49 | returns getnbl(nant, False) strictly increasing positions; position k holds the k-th cross pair; a position is returned if and only if it holds a cross-correlation |
| Baselines.OmittedPositionsAreAutoIndices | inspect_script/derive_SEFD.py:42-49 | a position of the full axis is left out of `crossidx` if and only if it is AutoIndex(nant, a) for some antenna a < nant |
| Baselines.Select | inspect_script/derive_SEFD.py:126 | integer-array indexing along the baseline axis: entry k is the entry at the k-th index |
| Baselines.SelectCrossPairs | inspect_script/derive_SEFD.py:124-126 | selecting the cross positions from baseline-ordered data yields the cross pairs' data in the order the residual function walks them |
| TimeSlice.TweakTimeSlice | inspect_script/derive_SEFD.py:53-58 | whole axis if and only if sample_ave divides nsamp; otherwise front + back = nsamp mod sample_ave, front ≤ back ≤ front + 1, and back ≥ 1 so `-end` never becomes `-0` |
| TimeSlice.ApplySlice | inspect_script/derive_SEFD.py:131 | Python's `xs[front:-back]` with clamping: the whole axis for `slice(None, None)`; xs[front .. n − back] when back ≥ 1 and front + back ≤ n; empty when front + back ≥ n; empty when back = 0, since `-0` is the stop 0 |
| TimeSlice.TrimKeepsMiddle | inspect_script/derive_SEFD.py:128-131 | the sliced time axis is exactly xs[r/2 .. n − (r − r/2)], r = n mod sample_ave |
| TimeSlice.TrimKeepsWholeBlocks | inspect_script/derive_SEFD.py:128-131 | the trimmed axis has floor(n / sample_ave) · sample_ave samples |
| TimeSlice.Chunks | inspect_script/derive_SEFD.py:134 | cutting into `count` blocks gives blocks of the requested size whose concatenation is the input |
| TimeSlice.Reshape | inspect_script/derive_SEFD.py:121 | `reshape(-1, size, ...)` succeeds if and only if size > 0, the trailing dimensions multiply to more than 0, and size divides the length; then blocks of `size` concatenate back to the input. So line 121 raises when nchan or npol is 0 |
| TimeSlice.TrimThenReshape | inspect_script/derive_SEFD.py:128-134 | after the trim the reshape into sample_ave blocks fails if and only if the trailing dimensions (nbl − nant, nchan, npol) multiply to 0, as with a single antenna; otherwise it gives floor(nsamp / sample_ave) blocks |
| Masking.Masked | inspect_script/derive_SEFD.py:118 | an entry is missing after masking if and only if it was flagged or already missing; unflagged entries are unchanged |
| Masking.MaskIdempotent | inspect_script/derive_SEFD.py:118 | masking twice with the same flags equals masking once |
| Masking.MaskFlagged | inspect_script/derive_SEFD.py:117-118 | the in-place assignment leaves the array equal to the masked contents of the old array |
| Residual.SefdPairsFunction | inspect_script/derive_SEFD.py:61-83 | fails if and only if the product count differs from nant(nant−1)/2; otherwise entry k is a_i·a_j − P_k for the k-th cross pair (i, j), and 0 where P_k is missing |
| Residual.ZeroResidualIffConsistent | inspect_script/derive_SEFD.py:73-81 | the residual vector is all zero if and only if every present product equals the product of its two antennas' values |
| Residual.Negated | inspect_script/derive_SEFD.py:79 | the negated antenna vector: same length, every entry negated |
| Residual.ResidualSignInvariant | inspect_script/derive_SEFD.py:79 | negating all antenna values leaves the residual vector unchanged, so the fit's sign is not determined by the residual |
| Residual.UnconstrainedAntennaIsFree | inspect_script/derive_SEFD.py:75-77 | an antenna whose pairs are all missing does not affect the residual vector, so the optimiser has no reason to move it |
| Residual.InitialGuess | inspect_script/derive_SEFD.py:90 | x0 has nant entries, each equal to defaultSEFD |
| Residual.ResidualAtInitialGuess | inspect_script/derive_SEFD.py:75-90 | at x0 a present pair's residual is defaultSEFD² − P and a missing pair's is 0 |
| Assembly.Column | inspect_script/derive_SEFD.py:150 | `SEFD_pairs[:, ichan, 0]`: one entry per baseline, entry b is baseline b's channel-c, pol-0 product |
| Assembly.FitChannels | inspect_script/derive_SEFD.py:147-151 | one fit per channel, in channel order; fit c is the optimiser started at x0 on the channel-c, pol-0 products |
| Assembly.Unstick | inspect_script/derive_SEFD.py:155 | the result is missing if and only if the value was missing or equal to the default; otherwise it is unchanged; it never equals the default |
| Assembly.UnstickIdempotent | inspect_script/derive_SEFD.py:155 | applying the rewrite twice equals applying it once |
| Assembly.RewriteDefault | inspect_script/derive_SEFD.py:155 | every cell of the array becomes the rewrite of its old value |
| Assembly.Assemble | inspect_script/derive_SEFD.py:153-155 | fails if and only if there are no channels; otherwise a fresh nchan × nant array whose cell (c, a) is the rewrite of fit c, antenna a |
| OutputPath.StripTrailingSlash | inspect_script/derive_SEFD.py:96 | the path loses at most one '/', and only a trailing one |
| OutputPath.LastComponent | inspect_script/derive_SEFD.py:157 | the result has no '/', is a suffix of the input, and is preceded by a '/' unless it is the whole input |
| OutputPath.SefdOutputPath | inspect_script/derive_SEFD.py:157-159 | the saved path is `pathdir`, then '/', then a name with no '/', then ".SEFDant.npy"; the name is the '/'-free end of the dataset path after one trailing '/' is stripped, preceded by '/' unless it is the whole path |
| OutputPath.LastComponentOf | inspect_script/derive_SEFD.py:157 | a '/'-free name after a '/' or at the start is the last component |
| OutputPath.OutputPathOfDataset | inspect_script/derive_SEFD.py:157-159 | a dataset name, bare or after a prefix ending in '/', with or without one trailing '/', is saved as pathdir/name.SEFDant.npy |
| OutputPath.DoubleSlashGivesEmptyName | inspect_script/derive_SEFD.py:96 | only one trailing '/' is stripped: a path ending in "//" is saved as pathdir/.SEFDant.npy |
| ReferenceAntenna.Exceedances | convert_casacal/write_casacal.py:21-23 | the count of pol-0 and pol-3 phases beyond 0.1° is at most 2·nchan, and is zero if and only if every channel is within tolerance |
| ReferenceAntenna.FirstQualifying | convert_casacal/write_casacal.py:20-24 | the least qualifying antenna at or after `from`; none if and only if no antenna there qualifies |
| ReferenceAntenna.Refant | convert_casacal/write_casacal.py:17-25 | the chosen antenna qualifies and every smaller one does not; the error if and only if no antenna qualifies |
| ReferenceAntenna.WorkRefant | convert_casacal/write_casacal.py:17-25 | the loop with early return computes exactly Refant |
| ReferenceAntenna.ExceedancesReadPols0And3 | convert_casacal/write_casacal.py:21-23 | the exceedance count of an antenna depends only on the phases of its pols 0 and 3 |
| ReferenceAntenna.RefantReadsPhasesOfPols0And3 | convert_casacal/write_casacal.py:18-23 | two bandpasses whose solution-0 pol-0 and pol-3 phases agree give the same reference antenna |
| ReferenceAntenna.MissingPhasesQualify | convert_casacal/write_casacal.py:22-24 | an antenna whose phases are all not-a-number qualifies, so the search succeeds at or before it |
| CalTable.Filled | convert_casacal/write_casacal.py:45-54 | `n` copies of a value: length n, every entry the value |
| CalTable.Pols0And3 | convert_casacal/write_casacal.py:57 | `bp[..., [0, 3]][0]` has shape (nant, nchan, 2); cell (a, c) is solution 0's pol 0 then pol 3 |
| CalTable.MakeCaltab | convert_casacal/write_casacal.py:41-57 | fails if and only if no reference antenna is given and none qualifies; TIME, FIELD_ID, SPECTRAL_WINDOW_ID, OBSERVATION_ID and INTERVAL are zero; ANTENNA1 is the row number; ANTENNA2 is the same reference antenna in every row; FLAG false, SNR 10, PARAMERR 1 over (nant, nchan, 2); CPARAM pols 0 and 3 of solution 0 |
| CalTable.ChosenReferenceRowIsFlat | convert_casacal/write_casacal.py:41-57 | when the table chooses its reference, that antenna's CPARAM row has every phase within 0.1° and every earlier row has one beyond |
| CalTable.Diffs | convert_casacal/write_casacal.py:63 | `freqs[1:] - freqs[:-1]`: nchan − 1 entries (none for an empty axis), entry k is freqs[k+1] − freqs[k] |
| CalTable.Mean | convert_casacal/write_casacal.py:63 | `np.mean`: not-a-number if and only if the input is empty; otherwise the mean times the count is the sum |
| CalTable.SumOfDiffs | convert_casacal/write_casacal.py:63 | the successive differences add up to last − first |
| CalTable.ChanWidth | convert_casacal/write_casacal.py:63 | not-a-number if and only if there are fewer than two channels; otherwise (last − first)/(nchan − 1) |
| CalTable.Scale | convert_casacal/write_casacal.py:64 | not-a-number times a count stays not-a-number, and only then |
| CalTable.MakeSpwtab | convert_casacal/write_casacal.py:62-83 | fails if and only if the axis is empty; CHAN_FREQ and RESOLUTION are the axis, REF_FREQUENCY its first entry, NUM_CHAN nchan; CHAN_WIDTH and EFFECTIVE_BW are nchan copies of chan_width; TOTAL_BANDWIDTH is chan_width · nchan |
| CalTable.TotalOfWidth | convert_casacal/write_casacal.py:64 | with a known channel width w, TOTAL_BANDWIDTH is w · nchan |
| CalTable.UniformAxis | convert_casacal/write_casacal.py:62-83 | on an evenly spaced axis of at least two channels, every CHAN_WIDTH is the spacing and TOTAL_BANDWIDTH is spacing · nchan |

## Left out

- `leastsq` (line 91) is not modelled. It is the parameter `solve`, and nothing is claimed about the values it returns.
- Assembly.FitChannels: the model states that each fit starts at x0 on the right channel. It does not state what the optimiser does there.
- The statistics of lines 135-144 are not modelled: `np.nanmean` over the time blocks, `.real`, `nanmean`/`nanstd` over time, and the SEFD formula. They are floating-point reductions. Their result enters the model as the pair products `SEFD_pairs`.
- Floating point is not modelled: the model uses exact reals. Rounding, infinities and overflow are not modelled.
- ReferenceAntenna.WorkRefant: does not model the `IndexError` that `bp[0]` (line 18) raises on a bandpass with no solution. It also does not model the `IndexError` of `bp[iant, :, (0, 3)]` (line 21) with fewer than four polarisations. `WellShaped` requires both shapes of the caller.
- CalTable.MakeCaltab: does not model the `IndexError` of `bp[..., [0, 3]][0]` (line 57) on a bandpass with no solution or fewer than four polarisations. `BandpassShaped` requires both shapes of the caller.
- Assembly.FitChannels: does not model the `IndexError` of `SEFD_pairs[:, ichan, 0]` (line 150) when the products have no polarisation. `ProductsShaped` requires at least one.
- Baselines.GetNbl: does not model the float rounding of `nant * (nant - 1) / 2` for counts beyond 2^53. The model proves the halving exact for every natural number.
- Reading and writing the CASA tables and files is not modelled. This covers `tables.table`, `getcol`, `putcol`, `pickle`, `np.save`, the table descriptions and the columns copied from pickled data. Logging is not modelled either.
- `CasaGetNumAntenna`, `CasaGetNumPol`, `CasaGetSpt` and the channel width and exposure means of lines 100-107 read the tables, so they are not modelled.
- CalTable.MakeCaltab: the source creates the table before `_work_refant` can raise, with `nrow=nant` (line 38), so a failed search leaves a table of nant rows with no columns written. The model returns only the error.
- CalTable.MakeSpwtab: the source writes CHAN_FREQ and the copied columns before `freqs[0]` raises. The model returns only the error.
- `make_fietab`, `make_histab`, the remaining table builders and the command-line entry points copy data or do I/O, so they are not modelled.
- The complex visibilities and bandpass gains are an opaque type `T`. Only their phases (through `angle`) and their presence are observed.
- Masking.MaskFlagged works on the flattened DATA and FLAG arrays. numpy's multi-dimensional layout is left to that flattening.
- TimeSlice.TweakTimeSlice: takes `sample_ave` as a positive natural number. It does not model a negative `sample_ave`, which Python's floored `%` accepts and the reshape of line 134 rejects. It does not model the `ZeroDivisionError` of 0 either.
- Assembly.Assemble: the failure of an empty `vstack` cannot be reached from `main`. With no channels, the reshape of line 121 has already raised.
- Assembly.Assemble builds a new array rather than reusing numpy's `vstack` buffer. Aliasing between the fits and the result is not modelled.
