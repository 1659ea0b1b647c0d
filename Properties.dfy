/** What the MLEM and MAP updates guarantee about a pass and about a whole run: a MAP run
    with beta = 0 is an MLEM run, a non-negative beta only enlarges the denominators, empty
    bins stay empty, non-negative data keep the spectrum non-negative, a spectrum that already
    reproduces the measurements is a fixed point, and a small worked run. */
module Properties {
  import opened Sums
  import opened Unfolding

  /** Every entry of s is non-negative. */
  predicate NonNegative(s: seq<real>)
  {
    forall i :: 0 <= i < |s| ==> s[i] >= 0.0
  }

  /** The measured values and the response coefficients a pass reads are non-negative. */
  predicate NonNegativeData(p: Problem)
  {
    && p.Valid()
    && (forall m :: 0 <= m < p.numMeasurements ==> p.measurements[m] >= 0.0)
    && (forall m, b :: 0 <= m < p.numMeasurements && 0 <= b < p.numBins ==> p.response[m][b] >= 0.0)
  }

  /** The normalisation is positive and, for MAP, the smoothing strength is not negative. */
  predicate PositiveWeights(p: Problem, rule: Rule)
  {
    && Fits(p, rule)
    && (forall b :: 0 <= b < p.numBins ==> p.norm[b] > 0.0)
    && (rule.MAP? ==> rule.beta >= 0.0)
  }

  /** With beta >= 0 every energy correction is non-negative. */
  lemma {:induction false} EnergyCorrectionNonNegative(beta: real, s: seq<real>, n: nat)
    requires 2 <= n <= |s| && beta >= 0.0
    ensures forall b :: 0 <= b < n ==> EnergyCorrection(beta, s, n)[b] >= 0.0
  {
  }

  /** With beta >= 0 the MAP denominator of every bin is at least its normalisation. */
  lemma {:induction false} MAPDenominatorsAtLeastNorm(p: Problem, beta: real, s: seq<real>)
    requires Fits(p, MAP(beta)) && p.numBins <= |s| && beta >= 0.0
    ensures forall b :: 0 <= b < p.numBins ==> Denominators(p, MAP(beta), s)[b] >= p.norm[b]
  {
    EnergyCorrectionNonNegative(beta, s, p.numBins);
  }

  /** A flat spectrum has no smoothness penalty, whatever beta is. */
  lemma {:induction false} FlatSpectrumNoCorrection(beta: real, s: seq<real>, n: nat)
    requires 2 <= n <= |s|
    requires forall b :: 0 <= b < n ==> s[b] == s[0]
    ensures forall b :: 0 <= b < n ==> EnergyCorrection(beta, s, n)[b] == 0.0
  {
  }

  /** With beta = 0 the MAP denominators are the MLEM ones. */
  lemma {:induction false} MAPZeroDenominators(p: Problem, s: seq<real>)
    requires Fits(p, MAP(0.0)) && p.numBins <= |s|
    ensures Denominators(p, MAP(0.0), s) == Denominators(p, MLEM, s)
  {
  }

  /** With beta = 0 a MAP pass is defined exactly when the MLEM pass is, and then both
      produce the same spectrum. */
  lemma {:induction false} MAPZeroStep(p: Problem, s: seq<real>)
    requires Fits(p, MAP(0.0))
    ensures PassDefined(p, MAP(0.0), s) <==> PassDefined(p, MLEM, s)
    ensures PassDefined(p, MLEM, s) ==> Step(p, MAP(0.0), s) == Step(p, MLEM, s)
  {
    if p.numBins <= |s| {
      MAPZeroDenominators(p, s);
    }
  }

  /** With beta = 0 a MAP run is defined exactly when the MLEM run is, and then both return
      the same index and leave the same spectrum and the same last input (hence the same
      ratio vector). */
  lemma {:induction false} MAPZeroRunIsMLEMRun(p: Problem, error: real, s: seq<real>, cutoff: int)
    requires Fits(p, MAP(0.0))
    ensures RunDefined(p, MAP(0.0), error, s, cutoff) <==> RunDefined(p, MLEM, error, s, cutoff)
    ensures RunDefined(p, MLEM, error, s, cutoff) ==>
      Run(p, MAP(0.0), error, s, cutoff) == Run(p, MLEM, error, s, cutoff)
    decreases cutoff
  {
    if cutoff > 0 {
      MAPZeroStep(p, s);
      if PassDefined(p, MLEM, s) && !Converged(Ratios(p, s), error) {
        MAPZeroRunIsMLEMRun(p, error, Step(p, MLEM, s), cutoff - 1);
      }
    }
  }

  /** A bin that is 0 before a pass is 0 after it: the update multiplies the bin's own value. */
  lemma {:induction false} StepKeepsZeroBin(p: Problem, rule: Rule, s: seq<real>, i: nat)
    requires Fits(p, rule) && PassDefined(p, rule, s) && i < |s| && s[i] == 0.0
    ensures Step(p, rule, s)[i] == 0.0
  {
    var c, d := Corrections(p, Ratios(p, s)), Denominators(p, rule, s);
    RescaleAt(s, c, d, p.numBins, i);
  }

  /** A bin that is 0 at the start of a run is 0 in every spectrum the run leaves. */
  lemma {:induction false} RunKeepsZeroBin(p: Problem, rule: Rule, error: real, s: seq<real>, cutoff: int, i: nat)
    requires Fits(p, rule) && RunDefined(p, rule, error, s, cutoff) && i < |s| && s[i] == 0.0
    ensures i < |Run(p, rule, error, s, cutoff).final| && Run(p, rule, error, s, cutoff).final[i] == 0.0
    ensures i < |Run(p, rule, error, s, cutoff).lastInput| && Run(p, rule, error, s, cutoff).lastInput[i] == 0.0
    decreases cutoff
  {
    if cutoff > 0 {
      StepKeepsZeroBin(p, rule, s, i);
      if !Converged(Ratios(p, s), error) && cutoff > 1 {
        RunContinues(p, rule, error, s, cutoff, Step(p, rule, s), cutoff - 1);
        RunKeepsZeroBin(p, rule, error, Step(p, rule, s), cutoff - 1, i);
      }
    }
  }

  /** With positive weights every denominator is positive. */
  lemma {:induction false} DenominatorsPositive(p: Problem, rule: Rule, s: seq<real>)
    requires PositiveWeights(p, rule) && p.numBins <= |s|
    ensures forall b :: 0 <= b < p.numBins ==> Denominators(p, rule, s)[b] > 0.0
  {
    if rule.MAP? {
      MAPDenominatorsAtLeastNorm(p, rule.beta, s);
    }
  }

  /** Non-negative data, positive weights and a non-negative spectrum give non-negative
      ratios. */
  lemma {:induction false} RatiosNonNegative(p: Problem, s: seq<real>)
    requires NonNegativeData(p) && p.numBins <= |s| && NonNegative(s) && EstimatesNonZero(p, s)
    ensures NonNegative(Ratios(p, s))
  {
    var r := Ratios(p, s);
    forall m | 0 <= m < p.numMeasurements
      ensures r[m] >= 0.0
    {
      DotNonNegative(p.response[m], s, p.numBins);
      var e := Estimate(p, s, m);
      assert e > 0.0;
      assert r[m] == p.measurements[m] / e;
      assert r[m] * e == p.measurements[m];
    }
  }

  lemma {:induction false} ScaleNonNegative(x: real, c: real, d: real)
    requires x >= 0.0 && c >= 0.0 && d > 0.0
    ensures Scale(x, c, d) >= 0.0
  {
  }

  /** Non-negative data and positive weights keep a non-negative spectrum non-negative
      through a pass. */
  lemma {:induction false} StepKeepsNonNegative(p: Problem, rule: Rule, s: seq<real>)
    requires NonNegativeData(p) && PositiveWeights(p, rule) && PassDefined(p, rule, s) && NonNegative(s)
    ensures NonNegative(Step(p, rule, s))
  {
    var ratio := Ratios(p, s);
    RatiosNonNegative(p, s);
    var c, d := Corrections(p, ratio), Denominators(p, rule, s);
    DenominatorsPositive(p, rule, s);
    forall i | 0 <= i < |s|
      ensures Step(p, rule, s)[i] >= 0.0
    {
      RescaleAt(s, c, d, p.numBins, i);
      if i < p.numBins {
        ColumnDotNonNegative(p.response, ratio, i, p.numMeasurements);
        ScaleNonNegative(s[i], c[i], d[i]);
      }
    }
  }

  /** Non-negative data and positive weights keep every spectrum of a run from a
      non-negative start non-negative. */
  lemma {:induction false} RunKeepsNonNegative(p: Problem, rule: Rule, error: real, s: seq<real>, cutoff: int)
    requires NonNegativeData(p) && PositiveWeights(p, rule) && RunDefined(p, rule, error, s, cutoff)
    requires NonNegative(s)
    ensures NonNegative(Run(p, rule, error, s, cutoff).final)
    ensures NonNegative(Run(p, rule, error, s, cutoff).lastInput)
    decreases cutoff
  {
    if cutoff > 0 {
      StepKeepsNonNegative(p, rule, s);
      if !Converged(Ratios(p, s), error) && cutoff > 1 {
        RunContinues(p, rule, error, s, cutoff, Step(p, rule, s), cutoff - 1);
        RunKeepsNonNegative(p, rule, error, Step(p, rule, s), cutoff - 1);
      }
    }
  }

  /** The normalisation vector is the column sums of the response, as normalizeResponse
      builds it, and has no zero entry. */
  predicate NormalizedByColumns(p: Problem)
    requires p.Valid()
  {
    forall b :: 0 <= b < p.numBins ==>
      p.norm[b] == ColumnSum(p.response, b, p.numMeasurements) && p.norm[b] != 0.0
  }

  /** s reproduces every (non-zero) measurement exactly. */
  predicate FitsExactly(p: Problem, s: seq<real>)
    requires p.Valid() && p.numBins <= |s|
  {
    forall m :: 0 <= m < p.numMeasurements ==>
      Estimate(p, s, m) == p.measurements[m] && p.measurements[m] != 0.0
  }

  /** A spectrum that reproduces the measurements has all ratios 1 and is left unchanged by
      an MLEM pass with the column-sum normalisation. */
  lemma {:induction false} ExactFitIsFixedPoint(p: Problem, s: seq<real>)
    requires p.Valid() && p.numBins <= |s| && NormalizedByColumns(p) && FitsExactly(p, s)
    ensures PassDefined(p, MLEM, s)
    ensures forall m :: 0 <= m < p.numMeasurements ==> Ratios(p, s)[m] == 1.0
    ensures Step(p, MLEM, s) == s
  {
    var ratio := Ratios(p, s);
    forall m | 0 <= m < p.numMeasurements
      ensures ratio[m] == 1.0
    {
      assert ratio[m] == p.measurements[m] / p.measurements[m];
    }
    var c, d := Corrections(p, ratio), Denominators(p, MLEM, s);
    forall i | 0 <= i < |s|
      ensures Step(p, MLEM, s)[i] == s[i]
    {
      RescaleAt(s, c, d, p.numBins, i);
      if i < p.numBins {
        ColumnDotOfOnes(p.response, ratio, i, p.numMeasurements);
        assert c[i] == d[i] && d[i] != 0.0;
        assert c[i] / d[i] == 1.0;
        assert Scale(s[i], c[i], d[i]) == s[i] * (c[i] / d[i]) == s[i];
      }
      assert Step(p, MLEM, s)[i] == Rescale(s, c, d, p.numBins)[i];
    }
  }

  /** A run from a spectrum that reproduces the measurements stops after its first pass, at
      index 0, with the spectrum unchanged, for every positive tolerance. */
  lemma {:induction false} ExactFitStopsAtOnce(p: Problem, error: real, s: seq<real>, cutoff: int)
    requires p.Valid() && p.numBins <= |s| && NormalizedByColumns(p) && FitsExactly(p, s)
    requires error > 0.0 && cutoff > 0
    ensures RunDefined(p, MLEM, error, s, cutoff)
    ensures Run(p, MLEM, error, s, cutoff) == Outcome(0, s, s)
  {
    ExactFitIsFixedPoint(p, s);
    assert Converged(Ratios(p, s), error);
  }

  /** Two measurements seen through the identity response. */
  function IdentityProblem(): (p: Problem)
    ensures p.Valid()
  {
    Problem(2, 2, [10.0, 20.0], [[1.0, 0.0], [0.0, 1.0]], [1.0, 1.0])
  }

  /** Starting from [1, 1], the first pass moves the spectrum to the measurements [10, 20]
      with ratios [10, 20] and goes on; the second pass has ratios [1, 1], stops, and the run
      returns 1, for every cutoff of at least 2 and every tolerance in (0, 9]. */
  lemma {:induction false} IdentityRun(error: real, cutoff: int)
    requires 0.0 < error <= 9.0 && cutoff >= 2
    ensures RunDefined(IdentityProblem(), MLEM, error, [1.0, 1.0], cutoff)
    ensures Run(IdentityProblem(), MLEM, error, [1.0, 1.0], cutoff) == Outcome(1, [10.0, 20.0], [10.0, 20.0])
  {
    var p := IdentityProblem();
    var s0, s1 := [1.0, 1.0], [10.0, 20.0];
    assert Estimate(p, s0, 0) == 1.0 && Estimate(p, s0, 1) == 1.0;
    assert Ratios(p, s0) == [10.0, 20.0];
    assert !InBand(Ratios(p, s0)[0], error);
    assert ColumnDot(p.response, [10.0, 20.0], 0, 2) == 10.0;
    assert ColumnDot(p.response, [10.0, 20.0], 1, 2) == 20.0;
    assert Corrections(p, Ratios(p, s0)) == [10.0, 20.0];
    assert Step(p, MLEM, s0) == s1;
    assert Estimate(p, s1, 0) == 10.0 && Estimate(p, s1, 1) == 20.0;
    assert Ratios(p, s1) == [1.0, 1.0];
    assert Converged(Ratios(p, s1), error);
    assert ColumnDot(p.response, [1.0, 1.0], 0, 2) == 1.0;
    assert ColumnDot(p.response, [1.0, 1.0], 1, 2) == 1.0;
    assert Step(p, MLEM, s1) == s1;
    assert RunDefined(p, MLEM, error, s1, cutoff - 1);
    assert Run(p, MLEM, error, s1, cutoff - 1) == Outcome(0, s1, s1);
  }
}
