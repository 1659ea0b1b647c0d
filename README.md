# MLEM / MAP neutron spectrum unfolding, modelled in Dafny

This project models the numerical core of a neutron-spectrum unfolding tool.
A set of measurements from a nested neutron spectrometer (one count rate per moderator
configuration) is turned into an energy spectrum by iterative reconstruction with a known
response matrix. The matrix has one row per measurement and one column per energy bin.

The model covers these parts of `unfolding/source/physics_calculations.cpp`:

- `normalizeResponse`: the per-bin normalisation vector (column sums of the response matrix).
- `runMLEM`: maximum-likelihood expectation maximisation, run in place on the caller's
  spectrum. Each pass:
  - forward-projects the spectrum;
  - forms measured/estimated ratios into the caller's `mlem_ratio` vector;
  - back-projects the ratios;
  - rescales every bin by its correction over its normalisation.

  The loop stops after the first pass whose ratios all lie strictly inside
  `(1 - error, 1 + error)`, or at `cutoff`. It returns the 0-based index of the first pass
  whose ratios converged, or `cutoff` when none did (then it equals the number of passes run).
- `runMAP`: the same loop, except that each bin is divided by its normalisation plus a
  beta-weighted smoothness penalty (the energy correction). The penalty is computed from the
  spectrum before the pass and written to the caller's `energy_correction` vector.
- `calculateTotalCharge`, `calculateTotalFlux`, `calculateDose` and
  `calculateAverageEnergy`: sums and weighted sums over a finished spectrum.

Files:

- `Sums.dfy`: finite sums, dot products and column sums, accumulated in the same order as
  the C++ loops. Also lemmas about them: signs, bounds, and the row-by-row total equalling
  the column-by-column total.
- `Reducers.dfy`: `normalizeResponse` and the four reducers. Each is a method with the
  C++ loop, proved against the sums.
- `Unfolding.dfy`: the mathematics of one pass and of a run.
  - `Step` is one MLEM or MAP pass, computed from the spectrum before the pass.
  - `Run` is the reference definition of a whole run: the returned index, the final
    spectrum, and the spectrum the last pass started from.
  - `RunStopsAt` characterises a run declaratively in terms of the passes from the start
    spectrum.
- `Engine.dfy`: the in-place engine. `RealVector` is a class for the caller-owned
  `std::vector`s that the C++ clears, appends to and overwrites.
  - `RunMLEM` and `RunMAP` are methods with the outer loop, the early `break`, and the
    per-pass loops.
  - The per-pass loops appear twice verbatim in the C++ and are shared helper methods here.
  - Both runs are proved to produce exactly what `Run` describes.
- `Properties.dfy` proves, about passes and whole runs:
  - MAP with beta = 0 is MLEM;
  - a non-negative beta only enlarges the denominators;
  - empty bins stay empty;
  - non-negative data keep the spectrum non-negative;
  - a spectrum that reproduces the measurements is a fixed point;
  - a worked two-bin run returns 1.

Doubles are modelled as exact reals. Every division the code performs becomes a
precondition that its divisor is non-zero:

- `EstimatesNonZero` for the forward projections;
- `PassDefined` for a whole pass;
- `RunDefined` for exactly the passes a run executes before it stops.

Three facts about the code that the model keeps:

- The stopping band is strict. `physics_calculations.cpp:301` keeps iterating when some
  ratio is `>= 1 + error` or `<= 1 - error`, so a ratio exactly on a band edge does not
  stop the run.
- The returned value is the 0-based index of the first pass whose ratios converged, or
  `cutoff` when none did (the loop counter is incremented before the loop test fails at
  `physics_calculations.cpp:251`). When pass k converges, k + 1 passes ran; when none
  converges, the value equals the number of passes run.
- Nothing is signalled on a division by zero; the code divides regardless. The model
  excludes those inputs by preconditions instead of modelling an error result.

## Model

| member | source | states |
|---|---|---|
| Reducers.NormalizeResponse | unfolding/source/physics_calculations.cpp:25-43 | the result has num_bins entries and entry b is the sum of column b over the first num_measurements rows |
| Reducers.NormalizationNonNegative | unfolding/source/physics_calculations.cpp:25-43 | a response block with no negative coefficient gives a normalisation vector with no negative entry |
| Reducers.NormalizationTotal | unfolding/source/physics_calculations.cpp:25-43 | the normalisation vector adds up to the sum of every coefficient of the response block (each coefficient counted once) |
| Sums.TotalsAgree | unfolding/source/physics_calculations.cpp:25-43 | adding a block row by row or column by column gives the same total |
| Reducers.Dose | unfolding/source/physics_calculations.cpp:101-115 | the dose is the sum of spectrum[b] * icrp_factors[b] over the first num_bins bins, times 3600 and 1e-9 |
| Reducers.DoseNonNegative | unfolding/source/physics_calculations.cpp:101-115 | a non-negative spectrum weighted by non-negative factors has a non-negative dose |
| Reducers.TotalCharge | unfolding/source/physics_calculations.cpp:121-129 | the total charge is the sum of the first num_measurements measurements |
| Reducers.TotalFlux | unfolding/source/physics_calculations.cpp:135-143 | the total flux is the sum of the first num_bins spectrum entries |
| Sums.SumNonNegative | unfolding/source/physics_calculations.cpp:121-143 | the sum of non-negative entries (total charge, total flux) is non-negative |
| Reducers.AverageEnergy | unfolding/source/physics_calculations.cpp:152-162 | with no bins the result is 0; otherwise it is the sum of energy_bins[b] * spectrum[b] divided by the total flux, which must be non-zero |
| Reducers.AverageEnergyBetween | unfolding/source/physics_calculations.cpp:152-162 | for a non-negative spectrum with positive total flux, the average energy lies between the lowest and the highest bin energy |
| Sums.DotBetween | unfolding/source/physics_calculations.cpp:152-162 | a weighted sum of non-negative values with weights in [lo, hi] lies between lo and hi times the plain sum |
| Engine.RealVector.Clear | unfolding/source/physics_calculations.cpp:252 | clearing leaves the vector empty |
| Engine.RealVector.PushBack | unfolding/source/physics_calculations.cpp:273 | appending adds exactly one entry at the end and keeps the others |
| Engine.RealVector.Set | unfolding/source/physics_calculations.cpp:294 | overwriting entry i changes that entry only |
| Engine.ForwardProject | unfolding/source/physics_calculations.cpp:260-268 | one estimate per measurement; estimate m is row m of the response times the spectrum |
| Engine.PushRatios | unfolding/source/physics_calculations.cpp:271-274 | num_measurements entries measured[m] / estimate[m] are appended after the previous contents |
| Engine.BackProject | unfolding/source/physics_calculations.cpp:281-289 | one correction per bin; correction b is column b of the response times the ratio vector |
| Unfolding.Ratios | unfolding/source/physics_calculations.cpp:271-274 | one ratio per measurement, and ratio m times the forward projection of the spectrum onto measurement m gives back measurement m |
| Unfolding.Corrections | unfolding/source/physics_calculations.cpp:281-289 | one correction per energy bin; entry b is the back projection of the ratio vector through column b of the response |
| Unfolding.Penalty | unfolding/source/physics_calculations.cpp:368-377 | a bin's smoothness penalty is never negative: the squared difference to its single neighbour at either end, the sum of the squared differences to both neighbours inside |
| Unfolding.EnergyCorrection | unfolding/source/physics_calculations.cpp:368-377 | one energy correction per bin, beta times that bin's penalty in the spectrum before the pass |
| Unfolding.Denominators | unfolding/source/physics_calculations.cpp:380-383 | one denominator per bin: the normalisation for MLEM (line 294), the normalisation plus the energy correction of the pre-pass spectrum for MAP |
| Unfolding.Step | unfolding/source/physics_calculations.cpp:260-295 | one pass keeps the spectrum's length; it rescales the first num_bins bins of the pre-pass spectrum by its corrections over its denominators, every one of them computed from the spectrum before the pass |
| Unfolding.Converged | unfolding/source/physics_calculations.cpp:299-305 | the stopping test holds when every ratio lies strictly inside (1 - error, 1 + error); a non-empty ratio vector can pass it only when error > 0 |
| Engine.RescaleInPlace | unfolding/source/physics_calculations.cpp:292-295 | the first num_bins bins, overwritten one by one, end as Rescale of the spectrum before the loop; the rest is untouched |
| Unfolding.RescaleAt | unfolding/source/physics_calculations.cpp:292-295 | each updated bin is its own pre-pass value times its correction over its denominator, and bins from num_bins on keep their value: overwriting a bin never affects another bin's update |
| Engine.KeepIterating | unfolding/source/physics_calculations.cpp:299-305 | the test says continue exactly when some ratio is on or outside a band edge, i.e. when the ratios are not all strictly inside (1 - error, 1 + error) |
| Engine.ProjectAndCompare | unfolding/source/physics_calculations.cpp:252-289 | the ratio vector is cleared and refilled with the ratios of the spectrum, and the corrections are their back projection |
| Engine.MLEMPass | unfolding/source/physics_calculations.cpp:252-295 | one MLEM pass leaves the ratios of the pre-pass spectrum in the ratio vector and the spectrum Step(MLEM) of the pre-pass spectrum |
| Engine.FillEnergyCorrection | unfolding/source/physics_calculations.cpp:368-377 | the energy correction vector is refilled with num_bins entries: beta (s0 - s1)^2 first, beta (s[n-1] - s[n-2])^2 last, and beta ((s[b] - s[b-1])^2 + (s[b] - s[b+1])^2) in between |
| Engine.MAPPass | unfolding/source/physics_calculations.cpp:327-383 | one MAP pass leaves the ratios and the energy corrections of the pre-pass spectrum and the spectrum Step(MAP(beta)) of the pre-pass spectrum |
| Unfolding.Run | unfolding/source/physics_calculations.cpp:251-311 | with a positive cutoff the returned index lies in [0, cutoff], the final spectrum is one pass from the last input, and the index is below the cutoff exactly when the last input's ratios converged; with a non-positive cutoff nothing happens and 0 is returned |
| Unfolding.RunContinues | unfolding/source/physics_calculations.cpp:306-308 | unfolding step of Run: a pass that did not converge hands the run to the spectrum it produced with one pass fewer, or ends it at index 1 when it was the last pass allowed |
| Unfolding.RunStopsAt | unfolding/source/physics_calculations.cpp:251-311 | a run returns the index of the first pass whose ratios converged, or the cutoff when none did; every earlier pass was defined and did not converge; the final spectrum is the one after the passes executed and the last input the one a pass earlier |
| Unfolding.IterateStep | unfolding/source/physics_calculations.cpp:251-295 | unfolding step of Iterate: n + 1 passes from s are the pass from s followed by n passes from its result |
| Unfolding.StopsAtShift | unfolding/source/physics_calculations.cpp:251-311 | prefixing a non-converging pass shifts the stopping index by one |
| Unfolding.ReachesShift | unfolding/source/physics_calculations.cpp:251-311 | prefixing a pass shifts the spectra a run reaches by one pass |
| Unfolding.DescribesShift | unfolding/source/physics_calculations.cpp:251-311 | prefixing a non-converging pass to a described run describes the longer run |
| Unfolding.FirstPassDescribes | unfolding/source/physics_calculations.cpp:251-311 | a run that ends after its first pass (converged, or cutoff 1) is described by that single pass |
| Engine.RunMLEM | unfolding/source/physics_calculations.cpp:248-312 | the returned index, the final spectrum and the ratio vector are those of Run; 0 <= k <= cutoff; after at least one pass the ratio vector has num_measurements entries, holds the ratios of the spectrum one update behind, and k < cutoff exactly when they are all strictly inside the band; a non-positive cutoff returns 0 and touches nothing |
| Engine.RunMAP | unfolding/source/physics_calculations.cpp:323-400 | as RunMLEM with the MAP rule; in addition, after at least one pass the energy correction vector has num_bins entries computed from the spectrum one update behind |
| Properties.EnergyCorrectionNonNegative | unfolding/source/physics_calculations.cpp:368-377 | with beta >= 0 every energy correction is non-negative |
| Properties.MAPDenominatorsAtLeastNorm | unfolding/source/physics_calculations.cpp:380-383 | with beta >= 0 every MAP denominator is at least the bin's normalisation |
| Properties.FlatSpectrumNoCorrection | unfolding/source/physics_calculations.cpp:368-377 | a flat spectrum has zero energy correction for every beta |
| Properties.MAPZeroDenominators | unfolding/source/physics_calculations.cpp:380-383 | with beta = 0 the MAP denominators are the normalisation itself |
| Properties.MAPZeroStep | unfolding/source/physics_calculations.cpp:323-383 | with beta = 0 a MAP pass is defined exactly when the MLEM pass is and produces the same spectrum |
| Properties.MAPZeroRunIsMLEMRun | unfolding/source/physics_calculations.cpp:323-400 | with beta = 0 a MAP run is defined exactly when the MLEM run is and returns the same index, final spectrum and last input (hence the same ratio vector) |
| Properties.StepKeepsZeroBin | unfolding/source/physics_calculations.cpp:292-295 | a bin that is 0 before a pass is 0 after it |
| Properties.RunKeepsZeroBin | unfolding/source/physics_calculations.cpp:251-311 | a bin that is 0 at the start stays 0 in the final spectrum and in the last input of a run |
| Properties.DenominatorsPositive | unfolding/source/physics_calculations.cpp:380-383 | with positive normalisation (and beta >= 0 for MAP) every denominator is positive |
| Properties.RatiosNonNegative | unfolding/source/physics_calculations.cpp:260-274 | non-negative measurements, response and spectrum give non-negative ratios |
| Properties.ScaleNonNegative | unfolding/source/physics_calculations.cpp:294 | a non-negative bin times a non-negative correction over a positive denominator is non-negative |
| Properties.StepKeepsNonNegative | unfolding/source/physics_calculations.cpp:260-295 | with non-negative data and positive weights a pass keeps the spectrum non-negative |
| Properties.RunKeepsNonNegative | unfolding/source/physics_calculations.cpp:251-311 | with non-negative data and positive weights every spectrum a run leaves is non-negative |
| Properties.ExactFitIsFixedPoint | unfolding/source/physics_calculations.cpp:260-295 | with the column-sum normalisation, a spectrum that reproduces the non-zero measurements has all ratios 1 and is unchanged by an MLEM pass |
| Properties.ExactFitStopsAtOnce | unfolding/source/physics_calculations.cpp:251-311 | such a spectrum stops the run after its first pass, at index 0, unchanged, for every positive tolerance |
| Properties.IdentityRun | unfolding/source/physics_calculations.cpp:251-311 | identity response, measurements [10, 20], start [1, 1]: the first pass gives ratios [10, 20] and spectrum [10, 20] and goes on, the second has ratios [1, 1] and stops, and the run returns 1 for every cutoff >= 2 and tolerance in (0, 9] |

## Left out

- `poisson` and the Mersenne-Twister generator `mrand`: random sampling, not on the unfolding path.
- `calculateRMSD`, `calculateRMSD_vector`, `calculateSumUncertainty` and `calculateEnergyUncertainty`: each ends in a square root, which Dafny's reals do not have.
- `calculateSourceStrength`: the total flux times the `duration` argument, divided by the `dose_mu` argument, times 100, then divided by a sum of empirical factors involving pi (physics_calculations.cpp:227-235); beyond the already-modelled total flux it is straight-line arithmetic on constants and two arguments.
- `unfold_trend.cpp` (the driver: arguments, configuration and file I/O, CSV output, the beta sweep) is not part of this model.
- `root_helpers.cpp` (ROOT plotting) is not part of this model.
- IEEE-754 doubles: rounding, overflow, NaN and infinity are not modelled. Values are exact reals, and `pow(x, 2)` is `x * x`.
- Division by zero: the C++ produces infinities or NaN. The model requires every divisor a call actually uses to be non-zero, so those inputs are outside the model.
- Negative counts and short vectors: counts are natural numbers. Every vector and matrix must have the entries the loops index; out-of-range access is undefined in C++ and excluded by preconditions.
- Engine.RunMLEM: requires `Problem.Valid` (the measurement, response and normalisation entries a pass reads) even for a non-positive cutoff, where the code reads no vector and returns 0; the requirement keeps the contract stated through the single reference run `Run`.
- Engine.RunMAP: requires `Problem.Valid` and at least two bins even for a non-positive cutoff, where the code reads no bin and returns 0, because the reference run for the MAP rule is only defined on problems with two or more bins.
- Aliasing: `spectrum`, `mlem_ratio` and `energy_correction` are assumed to be distinct objects.
- The temporaries `mlem_estimate` and `mlem_correction` are values returned by helper methods, not vectors grown in place.
- Convergence of MLEM or MAP towards the true spectrum is not claimed. Only the loop bound, the stopping rule and the invariants above are proved.
