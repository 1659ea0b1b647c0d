/** The mathematics of the iterative unfolding: one MLEM or MAP pass as a function of the
    spectrum before the pass, the sequence of spectra a run goes through, and where a run
    with a given cutoff stops. The in-place engine in module Engine is proved against these
    definitions; the lemmas here state what the update rule guarantees. */
module Unfolding {
  import opened Sums

  /** The inputs that stay fixed during a run: the counts, the measured values, the response
      matrix (rows are measurements, columns are energy bins) and the normalisation vector. */
  datatype Problem = Problem(
    numMeasurements: nat,
    numBins: nat,
    measurements: seq<real>,
    response: seq<seq<real>>,
    norm: seq<real>)
  {
    /** Every entry the passes read exists. */
    predicate Valid()
    {
      numMeasurements <= |measurements| && numBins <= |norm|
      && Shaped(response, numMeasurements, numBins)
    }
  }

  /** The update rule: plain MLEM, or MAP with smoothing strength beta. */
  datatype Rule = MLEM | MAP(beta: real)

  /** The rule can run on the problem: MAP reads the two neighbours of the end bins. */
  predicate Fits(p: Problem, rule: Rule)
  {
    p.Valid() && (rule.MAP? ==> p.numBins >= 2)
  }

  /** Forward projection of spectrum s onto measurement m. */
  function Estimate(p: Problem, s: seq<real>, m: nat): real
    requires p.Valid() && p.numBins <= |s| && m < p.numMeasurements
  {
    Dot(p.response[m], s, p.numBins)
  }

  predicate EstimatesNonZero(p: Problem, s: seq<real>)
    requires p.Valid() && p.numBins <= |s|
  {
    forall m :: 0 <= m < p.numMeasurements ==> Estimate(p, s, m) != 0.0
  }

  /** Measured over estimated, one entry per measurement: scaling estimate m by ratio m
      gives back measurement m. */
  function Ratios(p: Problem, s: seq<real>): (r: seq<real>)
    requires p.Valid() && p.numBins <= |s| && EstimatesNonZero(p, s)
    ensures |r| == p.numMeasurements
    ensures forall m :: 0 <= m < p.numMeasurements ==> r[m] * Estimate(p, s, m) == p.measurements[m]
  {
    seq(p.numMeasurements, m requires 0 <= m < p.numMeasurements =>
      p.measurements[m] / Estimate(p, s, m))
  }

  /** Back projection of the ratios: entry b is the column-b sum of response times ratio. */
  function Corrections(p: Problem, ratio: seq<real>): (c: seq<real>)
    requires p.Valid() && p.numMeasurements <= |ratio|
    ensures |c| == p.numBins
  {
    seq(p.numBins, b requires 0 <= b < p.numBins => ColumnDot(p.response, ratio, b, p.numMeasurements))
  }

  function Square(x: real): (r: real)
    ensures r >= 0.0
  {
    x * x
  }

  /** The smoothness penalty of bin b of an n-bin spectrum: the squared differences to its
      two neighbours, one-sided at the first and the last bin. */
  function Penalty(s: seq<real>, n: nat, b: nat): (r: real)
    requires 2 <= n <= |s| && b < n
    ensures r >= 0.0
  {
    if b == 0 then Square(s[0] - s[1])
    else if b == n - 1 then Square(s[n - 1] - s[n - 2])
    else Square(s[b] - s[b - 1]) + Square(s[b] - s[b + 1])
  }

  /** The MAP energy-correction vector: beta times each bin's penalty. */
  function EnergyCorrection(beta: real, s: seq<real>, n: nat): (ec: seq<real>)
    requires 2 <= n <= |s|
    ensures |ec| == n
  {
    seq(n, b requires 0 <= b < n => beta * Penalty(s, n, b))
  }

  /** What each bin's corrected value is divided by: the normalisation for MLEM, the
      normalisation plus the energy correction of the pre-pass spectrum for MAP. */
  function Denominators(p: Problem, rule: Rule, s: seq<real>): (d: seq<real>)
    requires Fits(p, rule) && p.numBins <= |s|
    ensures |d| == p.numBins
  {
    match rule
    case MLEM => p.norm[..p.numBins]
    case MAP(beta) =>
      var ec := EnergyCorrection(beta, s, p.numBins);
      seq(p.numBins, b requires 0 <= b < p.numBins => p.norm[b] + ec[b])
  }

  /** One bin's update: its value times its correction over its denominator. */
  function Scale(x: real, c: real, d: real): real
    requires d != 0.0
  {
    x * c / d
  }

  /** Bins below n become Scale(s[b], c[b], d[b]), one bin after the other; entries beyond
      n are not touched. */
  function Rescale(s: seq<real>, c: seq<real>, d: seq<real>, n: nat): (r: seq<real>)
    requires n <= |s| && n <= |c| && n <= |d|
    requires forall b :: 0 <= b < n ==> d[b] != 0.0
    ensures |r| == |s|
  {
    if n == 0 then s else Rescale(s, c, d, n - 1)[n - 1 := Scale(s[n - 1], c[n - 1], d[n - 1])]
  }

  /** Entry i of the rescaled spectrum: updated below n, as it was from n on. */
  lemma {:induction false} RescaleAt(s: seq<real>, c: seq<real>, d: seq<real>, n: nat, i: nat)
    requires n <= |s| && n <= |c| && n <= |d| && i < |s|
    requires forall b :: 0 <= b < n ==> d[b] != 0.0
    ensures Rescale(s, c, d, n)[i] == if i < n then Scale(s[i], c[i], d[i]) else s[i]
  {
    if n > 0 {
      RescaleAt(s, c, d, n - 1, i);
    }
  }

  /** Rescaling one more bin updates that bin, still at its original value, and changes
      nothing else. */
  lemma {:induction false} RescaleNext(s: seq<real>, c: seq<real>, d: seq<real>, n: nat)
    requires n < |s| && n < |c| && n < |d|
    requires forall b :: 0 <= b <= n ==> d[b] != 0.0
    ensures Rescale(s, c, d, n + 1)
         == Rescale(s, c, d, n)[n := Scale(Rescale(s, c, d, n)[n], c[n], d[n])]
  {
    RescaleAt(s, c, d, n, n);
  }

  /** A pass on s divides only by non-zero values. */
  predicate PassDefined(p: Problem, rule: Rule, s: seq<real>)
    requires Fits(p, rule)
  {
    p.numBins <= |s| && EstimatesNonZero(p, s)
    && forall b :: 0 <= b < p.numBins ==> Denominators(p, rule, s)[b] != 0.0
  }

  /** The spectrum after one pass. Every quantity on the right is computed from the
      spectrum before the pass. */
  function Step(p: Problem, rule: Rule, s: seq<real>): (r: seq<real>)
    requires Fits(p, rule) && PassDefined(p, rule, s)
    ensures |r| == |s|
  {
    Rescale(s, Corrections(p, Ratios(p, s)), Denominators(p, rule, s), p.numBins)
  }

  /** x lies strictly inside the band (1 - error, 1 + error). */
  predicate InBand(x: real, error: real)
  {
    1.0 - error < x < 1.0 + error
  }

  /** The stopping test: every ratio strictly inside the band. The band is empty unless
      error > 0, so with error <= 0 a non-empty ratio vector never converges (the first
      ratio, inside the band, witnesses it). */
  predicate Converged(ratio: seq<real>, error: real): (c: bool)
    ensures c && |ratio| > 0 ==> InBand(ratio[0], error) && error > 0.0
  {
    forall m :: 0 <= m < |ratio| ==> InBand(ratio[m], error)
  }

  /** Every pass that a run from s with this many passes left actually executes divides
      only by non-zero values: the run ends at the cutoff or after the first converged pass. */
  predicate RunDefined(p: Problem, rule: Rule, error: real, s: seq<real>, passesLeft: int)
    requires Fits(p, rule)
    decreases passesLeft
  {
    passesLeft <= 0
    || (PassDefined(p, rule, s)
        && (Converged(Ratios(p, s), error) || RunDefined(p, rule, error, Step(p, rule, s), passesLeft - 1)))
  }

  /** What a run leaves behind: the index it returns, the spectrum after its last pass, and
      the spectrum that last pass started from (the one the ratio and energy correction
      vectors were computed from). */
  datatype Outcome = Outcome(index: int, final: seq<real>, lastInput: seq<real>)

  /** A run from s with passesLeft passes allowed, pass by pass: each pass computes the
      ratios of s and the next spectrum; the run ends after a pass whose ratios converged,
      or after the pass that reaches the cutoff; the index counts the passes that did not
      converge. */
  function Run(p: Problem, rule: Rule, error: real, s: seq<real>, passesLeft: int): (o: Outcome)
    requires Fits(p, rule) && RunDefined(p, rule, error, s, passesLeft)
    ensures passesLeft <= 0 ==> o == Outcome(0, s, s)
    ensures passesLeft > 0 ==>
      && 0 <= o.index <= passesLeft
      && PassDefined(p, rule, o.lastInput) && o.final == Step(p, rule, o.lastInput)
      && (o.index < passesLeft <==> Converged(Ratios(p, o.lastInput), error))
    decreases passesLeft
  {
    if passesLeft <= 0 then Outcome(0, s, s)
    else if Converged(Ratios(p, s), error) then Outcome(0, Step(p, rule, s), s)
    else if passesLeft == 1 then Outcome(1, Step(p, rule, s), s)
    else
      var rest := Run(p, rule, error, Step(p, rule, s), passesLeft - 1);
      Shift(rest, 1)
  }

  /** The outcome of a run seen from k passes earlier. */
  function Shift(o: Outcome, k: int): Outcome
  {
    o.(index := o.index + k)
  }

  /** Shifting twice is shifting once by the sum. */
  lemma {:induction false} ShiftTwice(o: Outcome, j: int, k: int)
    ensures Shift(Shift(o, j), k) == Shift(o, j + k)
  {
  }

  /** After k passes that did not converge, the run from s0 with the given cutoff goes on
      from s with passesLeft passes allowed. */
  ghost predicate Resumes(p: Problem, rule: Rule, error: real, s0: seq<real>, cutoff: int, k: int,
                          s: seq<real>, passesLeft: int)
  {
    && Fits(p, rule) && RunDefined(p, rule, error, s0, cutoff) && RunDefined(p, rule, error, s, passesLeft)
    && (passesLeft > 0 ==> Run(p, rule, error, s0, cutoff) == Shift(Run(p, rule, error, s, passesLeft), k))
  }

  /** A pass from s whose ratios did not converge hands the rest of the run to the spectrum
      next it produced, with one pass fewer; with a single pass left, the run ends there at
      index 1. */
  lemma {:induction false} RunContinues(p: Problem, rule: Rule, error: real, s: seq<real>, passesLeft: int,
                                        next: seq<real>, passesLeft': int)
    requires Fits(p, rule) && RunDefined(p, rule, error, s, passesLeft) && passesLeft > 0
    requires !Converged(Ratios(p, s), error)
    requires next == Step(p, rule, s) && passesLeft' == passesLeft - 1
    ensures PassDefined(p, rule, s) && RunDefined(p, rule, error, next, passesLeft')
    ensures passesLeft' > 0 ==> Run(p, rule, error, s, passesLeft) == Shift(Run(p, rule, error, next, passesLeft'), 1)
    ensures passesLeft' == 0 ==> Run(p, rule, error, s, passesLeft) == Outcome(1, next, s)
  {
  }

  /** A pass from s that did not converge moves a resumed run on by one pass; when it was
      the last pass allowed, the run from s0 ends there. */
  lemma {:induction false} ResumesNext(p: Problem, rule: Rule, error: real, s0: seq<real>, cutoff: int,
                                       k: int, s: seq<real>, passesLeft: int,
                                       k': int, next: seq<real>, passesLeft': int)
    requires Resumes(p, rule, error, s0, cutoff, k, s, passesLeft) && passesLeft > 0
    requires PassDefined(p, rule, s) && !Converged(Ratios(p, s), error)
    requires k' == k + 1 && next == Step(p, rule, s) && passesLeft' == passesLeft - 1
    ensures Resumes(p, rule, error, s0, cutoff, k', next, passesLeft')
    ensures passesLeft' == 0 ==> Run(p, rule, error, s0, cutoff) == Outcome(k', next, s)
  {
    RunContinues(p, rule, error, s, passesLeft, next, passesLeft');
    if passesLeft' > 0 {
      ShiftTwice(Run(p, rule, error, next, passesLeft'), 1, k);
    }
  }

  /** A pass from s whose ratios converged ends a resumed run: the run from s0 returns k. */
  lemma {:induction false} ResumesStops(p: Problem, rule: Rule, error: real, s0: seq<real>, cutoff: int, k: int,
                                        s: seq<real>, passesLeft: int)
    requires Resumes(p, rule, error, s0, cutoff, k, s, passesLeft) && passesLeft > 0
    requires PassDefined(p, rule, s) && Converged(Ratios(p, s), error)
    ensures Run(p, rule, error, s0, cutoff) == Outcome(k, Step(p, rule, s), s)
  {
  }

  /** The first n passes from s are all defined. */
  predicate DefinedFor(p: Problem, rule: Rule, s: seq<real>, n: nat)
    requires Fits(p, rule)
    decreases n
  {
    n == 0 || (PassDefined(p, rule, s) && DefinedFor(p, rule, Step(p, rule, s), n - 1))
  }

  /** The spectrum after n passes from s. */
  function Iterate(p: Problem, rule: Rule, s: seq<real>, n: nat): (r: seq<real>)
    requires Fits(p, rule) && DefinedFor(p, rule, s, n)
    ensures |r| == |s|
    decreases n
  {
    if n == 0 then s else Iterate(p, rule, Step(p, rule, s), n - 1)
  }

  /** The first k passes from s are all defined and none of them converged. */
  predicate NoneConverged(p: Problem, rule: Rule, error: real, s: seq<real>, k: nat)
    requires Fits(p, rule)
    decreases k
  {
    k == 0
    || (PassDefined(p, rule, s) && !Converged(Ratios(p, s), error)
        && NoneConverged(p, rule, error, Step(p, rule, s), k - 1))
  }

  /** k is the index a run from s with this cutoff returns: 0 when the cutoff is not
      positive; otherwise passes 0 .. k-1 did not converge, and either pass k is defined and
      converged (k < cutoff) or the cutoff was reached (k == cutoff). */
  ghost predicate StopsAt(p: Problem, rule: Rule, error: real, s: seq<real>, cutoff: int, k: int)
    requires Fits(p, rule)
  {
    if cutoff <= 0 then k == 0
    else
      && 0 <= k <= cutoff
      && NoneConverged(p, rule, error, s, k)
      && (k < cutoff ==>
           && DefinedFor(p, rule, s, k) && PassDefined(p, rule, Iterate(p, rule, s, k))
           && Converged(Ratios(p, Iterate(p, rule, s, k)), error))
  }

  /** How many passes a run that returned k executed. */
  function PassesRun(cutoff: int, k: int): int
  {
    if cutoff <= 0 then 0 else if k < cutoff then k + 1 else k
  }

  /** o's last input is the spectrum after m passes from s and its final spectrum the one
      after m + 1 passes. */
  ghost predicate ReachesAfter(p: Problem, rule: Rule, s: seq<real>, m: nat, o: Outcome)
    requires Fits(p, rule)
  {
    && DefinedFor(p, rule, s, m + 1) && o.final == Iterate(p, rule, s, m + 1)
    && DefinedFor(p, rule, s, m) && o.lastInput == Iterate(p, rule, s, m)
  }

  /** With a positive cutoff, o's spectra are those reached by the passes the run executed. */
  ghost predicate Reaches(p: Problem, rule: Rule, s: seq<real>, cutoff: int, o: Outcome)
    requires Fits(p, rule)
  {
    cutoff > 0 ==> PassesRun(cutoff, o.index) >= 1 && ReachesAfter(p, rule, s, PassesRun(cutoff, o.index) - 1, o)
  }

  /** o is what a run from s with this cutoff leaves, in terms of passes from s. */
  ghost predicate Describes(p: Problem, rule: Rule, error: real, s: seq<real>, cutoff: int, o: Outcome)
    requires Fits(p, rule)
  {
    StopsAt(p, rule, error, s, cutoff, o.index) && Reaches(p, rule, s, cutoff, o)
  }

  /** Passes from s are the pass from s followed by passes from Step(s). */
  lemma {:induction false} IterateStep(p: Problem, rule: Rule, s: seq<real>, n: nat)
    requires Fits(p, rule) && PassDefined(p, rule, s) && DefinedFor(p, rule, Step(p, rule, s), n)
    ensures DefinedFor(p, rule, s, n + 1)
    ensures Iterate(p, rule, s, n + 1) == Iterate(p, rule, Step(p, rule, s), n)
  {
  }

  /** The shifted outcome's index is where a run from s stops. */
  lemma {:induction false} StopsAtShift(p: Problem, rule: Rule, error: real, s: seq<real>, cutoff: int, k: int)
    requires Fits(p, rule) && PassDefined(p, rule, s) && !Converged(Ratios(p, s), error) && cutoff > 1
    requires StopsAt(p, rule, error, Step(p, rule, s), cutoff - 1, k)
    ensures StopsAt(p, rule, error, s, cutoff, k + 1)
  {
    assert NoneConverged(p, rule, error, s, k + 1);
    if k < cutoff - 1 {
      IterateStep(p, rule, s, k);
    }
  }

  /** m passes from Step(s) are m + 1 passes from s, for any outcome o with rest's spectra. */
  lemma {:induction false} ReachesAfterStep(p: Problem, rule: Rule, s: seq<real>, m: nat, rest: Outcome, o: Outcome)
    requires Fits(p, rule) && PassDefined(p, rule, s)
    requires ReachesAfter(p, rule, Step(p, rule, s), m, rest)
    requires o.final == rest.final && o.lastInput == rest.lastInput
    ensures ReachesAfter(p, rule, s, m + 1, o)
  {
    IterateStep(p, rule, s, m + 1);
    IterateStep(p, rule, s, m);
  }

  /** The number of passes behind the last input of a run that reached o. */
  lemma {:induction false} ReachesUnfold(p: Problem, rule: Rule, s: seq<real>, cutoff: int, o: Outcome) returns (m: nat)
    requires Fits(p, rule) && cutoff > 0 && Reaches(p, rule, s, cutoff, o)
    ensures m == PassesRun(cutoff, o.index) - 1 && ReachesAfter(p, rule, s, m, o)
  {
    m := PassesRun(cutoff, o.index) - 1;
  }

  /** The spectra a run from Step(s) reaches with one pass fewer are, one pass later, the
      spectra the run from s reaches. */
  lemma {:induction false} ReachesShift(p: Problem, rule: Rule, s: seq<real>, cutoff: int, rest: Outcome)
    requires Fits(p, rule) && PassDefined(p, rule, s) && cutoff > 1
    requires Reaches(p, rule, Step(p, rule, s), cutoff - 1, rest)
    ensures Reaches(p, rule, s, cutoff, Shift(rest, 1))
  {
    var o := Shift(rest, 1);
    assert o.final == rest.final && o.lastInput == rest.lastInput && o.index == rest.index + 1;
    var m := ReachesUnfold(p, rule, Step(p, rule, s), cutoff - 1, rest);
    assert PassesRun(cutoff, o.index) - 1 == m + 1;
    ReachesAfterStep(p, rule, s, m, rest, o);
  }

  /** Describing the run from Step(s) with one pass fewer describes, shifted by one pass, the
      run from s when the pass from s is defined and did not converge. */
  lemma {:induction false} DescribesShift(p: Problem, rule: Rule, error: real, s: seq<real>, cutoff: int, rest: Outcome)
    requires Fits(p, rule) && PassDefined(p, rule, s) && !Converged(Ratios(p, s), error) && cutoff > 1
    requires Describes(p, rule, error, Step(p, rule, s), cutoff - 1, rest)
    ensures Describes(p, rule, error, s, cutoff, Shift(rest, 1))
  {
    StopsAtShift(p, rule, error, s, cutoff, rest.index);
    ReachesShift(p, rule, s, cutoff, rest);
  }

  /** A run that ends with its first pass, because that pass converged or the cutoff is 1,
      is described by one pass from s. */
  lemma {:induction false} FirstPassDescribes(p: Problem, rule: Rule, error: real, s: seq<real>, cutoff: int)
    requires Fits(p, rule) && PassDefined(p, rule, s) && cutoff > 0
    requires Converged(Ratios(p, s), error) || cutoff == 1
    ensures RunDefined(p, rule, error, s, cutoff)
    ensures Describes(p, rule, error, s, cutoff, Run(p, rule, error, s, cutoff))
  {
    IterateStep(p, rule, s, 0);
    if !Converged(Ratios(p, s), error) {
      assert NoneConverged(p, rule, error, s, 1);
    }
  }

  /** The run a cutoff allows from s returns the index StopsAt describes (the first pass
      whose ratios converged, or the cutoff), leaves the spectrum after the passes it
      executed, and its last pass started from the spectrum one pass earlier. */
  lemma {:induction false} RunStopsAt(p: Problem, rule: Rule, error: real, s: seq<real>, cutoff: int)
    requires Fits(p, rule) && RunDefined(p, rule, error, s, cutoff)
    ensures Describes(p, rule, error, s, cutoff, Run(p, rule, error, s, cutoff))
    decreases cutoff
  {
    if cutoff > 0 {
      if Converged(Ratios(p, s), error) || cutoff == 1 {
        FirstPassDescribes(p, rule, error, s, cutoff);
      } else {
        var s1 := Step(p, rule, s);
        RunContinues(p, rule, error, s, cutoff, s1, cutoff - 1);
        RunStopsAt(p, rule, error, s1, cutoff - 1);
        DescribesShift(p, rule, error, s, cutoff, Run(p, rule, error, s1, cutoff - 1));
      }
    }
  }
}
