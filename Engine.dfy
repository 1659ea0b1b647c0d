/** The in-place unfolding engine: runMLEM and runMAP. Both update the caller's spectrum
    bin by bin, clear and refill the caller's ratio vector (and, for MAP, the energy
    correction vector) on every pass, and stop early once every ratio is inside the
    tolerance band. The per-pass loops that the two C++ routines repeat verbatim are the
    helper methods below, shared by both. */
module Engine {
  import opened Sums
  import opened Unfolding

  /** A caller-owned vector of reals that the engine clears and appends to. */
  class RealVector {
    var elems: seq<real>

    constructor (init: seq<real>)
      ensures elems == init
    {
      elems := init;
    }

    method Clear()
      modifies this
      ensures elems == []
    {
      elems := [];
    }

    method PushBack(x: real)
      modifies this
      ensures elems == old(elems) + [x]
    {
      elems := elems + [x];
    }

    method Set(i: nat, x: real)
      requires i < |elems|
      modifies this
      ensures elems == old(elems)[i := x]
    {
      elems := elems[i := x];
    }
  }

  /** Forward projection: one estimate per measurement, the response row times the spectrum. */
  method ForwardProject(response: seq<seq<real>>, spectrum: seq<real>, numMeasurements: nat, numBins: nat)
    returns (estimates: seq<real>)
    requires Shaped(response, numMeasurements, numBins) && numBins <= |spectrum|
    ensures |estimates| == numMeasurements
    ensures forall m :: 0 <= m < numMeasurements ==> estimates[m] == Dot(response[m], spectrum, numBins)
  {
    estimates := [];
    for m := 0 to numMeasurements
      invariant |estimates| == m
      invariant forall j :: 0 <= j < m ==> estimates[j] == Dot(response[j], spectrum, numBins)
    {
      var acc := 0.0;
      for b := 0 to numBins
        invariant acc == Dot(response[m], spectrum, b)
      {
        acc := acc + response[m][b] * spectrum[b];
      }
      estimates := estimates + [acc];
    }
  }

  /** Appends measured / estimated for every measurement. */
  method PushRatios(ratio: RealVector, measurements: seq<real>, estimates: seq<real>, numMeasurements: nat)
    requires numMeasurements <= |measurements| && numMeasurements <= |estimates|
    requires forall m :: 0 <= m < numMeasurements ==> estimates[m] != 0.0
    modifies ratio
    ensures |ratio.elems| == |old(ratio.elems)| + numMeasurements
    ensures ratio.elems[..|old(ratio.elems)|] == old(ratio.elems)
    ensures forall m :: 0 <= m < numMeasurements ==>
      ratio.elems[|old(ratio.elems)| + m] == measurements[m] / estimates[m]
  {
    ghost var before := ratio.elems;
    for m := 0 to numMeasurements
      invariant |ratio.elems| == |before| + m
      invariant ratio.elems[..|before|] == before
      invariant forall j :: 0 <= j < m ==> ratio.elems[|before| + j] == measurements[j] / estimates[j]
    {
      ratio.PushBack(measurements[m] / estimates[m]);
    }
  }

  /** Back projection: one correction factor per bin, the response column times the ratios. */
  method BackProject(response: seq<seq<real>>, ratio: seq<real>, numMeasurements: nat, numBins: nat)
    returns (corrections: seq<real>)
    requires Shaped(response, numMeasurements, numBins) && numMeasurements <= |ratio|
    ensures |corrections| == numBins
    ensures forall b :: 0 <= b < numBins ==> corrections[b] == ColumnDot(response, ratio, b, numMeasurements)
  {
    corrections := [];
    for b := 0 to numBins
      invariant |corrections| == b
      invariant forall j :: 0 <= j < b ==> corrections[j] == ColumnDot(response, ratio, j, numMeasurements)
    {
      var acc := 0.0;
      for m := 0 to numMeasurements
        invariant acc == ColumnDot(response, ratio, b, m)
      {
        acc := acc + response[m][b] * ratio[m];
      }
      corrections := corrections + [acc];
    }
  }

  /** Refills the energy correction vector from the spectrum: the first entry, the interior
      entries in order, then the last entry. */
  method FillEnergyCorrection(energyCorrection: RealVector, beta: real, spectrum: seq<real>, numBins: nat)
    requires 2 <= numBins <= |spectrum|
    modifies energyCorrection
    ensures energyCorrection.elems == EnergyCorrection(beta, spectrum, numBins)
  {
    energyCorrection.Clear();
    energyCorrection.PushBack(beta * Square(spectrum[0] - spectrum[1]));
    for b := 1 to numBins - 1
      invariant |energyCorrection.elems| == b
      invariant forall j :: 0 <= j < b ==> energyCorrection.elems[j] == beta * Penalty(spectrum, numBins, j)
    {
      var penalty := Square(spectrum[b] - spectrum[b - 1]) + Square(spectrum[b] - spectrum[b + 1]);
      energyCorrection.PushBack(beta * penalty);
    }
    energyCorrection.PushBack(beta * Square(spectrum[numBins - 1] - spectrum[numBins - 2]));
    assert forall j :: 0 <= j < numBins ==>
      energyCorrection.elems[j] == EnergyCorrection(beta, spectrum, numBins)[j];
  }

  /** Overwrites each of the first numBins bins, in order, with bin * correction /
      denominator. */
  method RescaleInPlace(spectrum: RealVector, corrections: seq<real>, denominators: seq<real>, numBins: nat)
    requires numBins <= |spectrum.elems| && numBins <= |corrections| && numBins <= |denominators|
    requires forall b :: 0 <= b < numBins ==> denominators[b] != 0.0
    modifies spectrum
    ensures spectrum.elems == Rescale(old(spectrum.elems), corrections, denominators, numBins)
  {
    for b := 0 to numBins
      invariant spectrum.elems == Rescale(old(spectrum.elems), corrections, denominators, b)
    {
      RescaleNext(old(spectrum.elems), corrections, denominators, b);
      spectrum.Set(b, Scale(spectrum.elems[b], corrections[b], denominators[b]));
    }
  }

  /** The stopping test: true as soon as one of the first numMeasurements ratios is on or
      outside the band edge 1 - error or 1 + error. */
  method KeepIterating(ratio: seq<real>, numMeasurements: nat, error: real) returns (keepGoing: bool)
    requires numMeasurements <= |ratio|
    ensures keepGoing <==> !Converged(ratio[..numMeasurements], error)
  {
    keepGoing := false;
    var m := 0;
    while m < numMeasurements
      invariant 0 <= m <= numMeasurements
      invariant !keepGoing
      invariant forall j :: 0 <= j < m ==> InBand(ratio[j], error)
    {
      if ratio[m] >= 1.0 + error || ratio[m] <= 1.0 - error {
        keepGoing := true;
        assert !InBand(ratio[..numMeasurements][m], error);
        break;
      }
      m := m + 1;
    }
  }

  /** The first half of a pass, the same for MLEM and MAP: clear the ratio vector, forward
      project the spectrum, append measured / estimated for every measurement, and back
      project the ratios into one correction factor per bin. */
  method ProjectAndCompare(p: Problem, spectrum: seq<real>, ratio: RealVector) returns (corrections: seq<real>)
    requires p.Valid() && p.numBins <= |spectrum| && EstimatesNonZero(p, spectrum)
    modifies ratio
    ensures ratio.elems == Ratios(p, spectrum)
    ensures corrections == Corrections(p, ratio.elems)
  {
    ratio.Clear();
    var estimates := ForwardProject(p.response, spectrum, p.numMeasurements, p.numBins);
    assert forall m :: 0 <= m < p.numMeasurements ==> estimates[m] == Estimate(p, spectrum, m);
    PushRatios(ratio, p.measurements, estimates, p.numMeasurements);
    assert ratio.elems == Ratios(p, spectrum);
    corrections := BackProject(p.response, ratio.elems, p.numMeasurements, p.numBins);
  }

  /** One MLEM pass in place: the ratio vector is refilled from the spectrum before the
      pass, then every bin is rescaled by its correction over its normalisation. */
  method MLEMPass(p: Problem, spectrum: RealVector, ratio: RealVector)
    requires Fits(p, MLEM) && PassDefined(p, MLEM, spectrum.elems) && spectrum != ratio
    modifies spectrum, ratio
    ensures ratio.elems == Ratios(p, old(spectrum.elems))
    ensures spectrum.elems == Step(p, MLEM, old(spectrum.elems))
  {
    assert p.norm[..p.numBins] == Denominators(p, MLEM, spectrum.elems);
    var corrections := ProjectAndCompare(p, spectrum.elems, ratio);
    RescaleInPlace(spectrum, corrections, p.norm[..p.numBins], p.numBins);
  }

  /** One MAP pass in place: as MLEMPass, but the energy correction vector is refilled from
      the spectrum before the pass and each bin is divided by its normalisation plus its
      energy correction. */
  method MAPPass(p: Problem, beta: real, spectrum: RealVector, ratio: RealVector, energyCorrection: RealVector)
    requires Fits(p, MAP(beta)) && PassDefined(p, MAP(beta), spectrum.elems)
    requires energyCorrection != ratio && spectrum != ratio && spectrum != energyCorrection
    modifies spectrum, ratio, energyCorrection
    ensures ratio.elems == Ratios(p, old(spectrum.elems))
    ensures energyCorrection.elems == EnergyCorrection(beta, old(spectrum.elems), p.numBins)
    ensures spectrum.elems == Step(p, MAP(beta), old(spectrum.elems))
  {
    var corrections := ProjectAndCompare(p, spectrum.elems, ratio);
    FillEnergyCorrection(energyCorrection, beta, spectrum.elems, p.numBins);
    var ec := energyCorrection.elems;
    var denominators := seq(p.numBins, b requires 0 <= b < p.numBins => p.norm[b] + ec[b]);
    assert denominators == Denominators(p, MAP(beta), old(spectrum.elems));
    RescaleInPlace(spectrum, corrections, denominators, p.numBins);
  }

  /** runMLEM: at most cutoff passes of the MLEM update on the spectrum, stopping after the
      first pass whose ratios are all strictly inside (1 - error, 1 + error). The result is
      the run Run describes: the 0-based index of the pass that stopped (cutoff when none
      did), the spectrum after the last executed pass, and the ratio vector of that pass,
      one update behind the spectrum. A non-positive cutoff touches nothing. */
  method RunMLEM(cutoff: int, error: real, numMeasurements: nat, numBins: nat, measurements: seq<real>,
                 spectrum: RealVector, response: seq<seq<real>>, norm: seq<real>, ratio: RealVector)
    returns (k: int)
    requires Problem(numMeasurements, numBins, measurements, response, norm).Valid()
    requires spectrum != ratio
    requires RunDefined(Problem(numMeasurements, numBins, measurements, response, norm), MLEM, error, spectrum.elems, cutoff)
    modifies spectrum, ratio
    ensures var o := Run(Problem(numMeasurements, numBins, measurements, response, norm), MLEM, error, old(spectrum.elems), cutoff);
      && k == o.index && spectrum.elems == o.final
      && (cutoff <= 0 ==> ratio.elems == old(ratio.elems))
      && (cutoff > 0 ==> ratio.elems == Ratios(Problem(numMeasurements, numBins, measurements, response, norm), o.lastInput))
    ensures 0 <= k && (cutoff >= 0 ==> k <= cutoff)
    ensures cutoff > 0 ==> |ratio.elems| == numMeasurements && (k < cutoff <==> Converged(ratio.elems, error))
  {
    var p := Problem(numMeasurements, numBins, measurements, response, norm);
    ghost var s0 := spectrum.elems;
    ghost var prev := s0;
    ghost var left := cutoff;
    k := 0;
    while k < cutoff
      invariant 0 <= k && (cutoff <= 0 ==> k == 0) && (cutoff > 0 ==> k <= cutoff)
      invariant left == cutoff - k
      invariant Resumes(p, MLEM, error, s0, cutoff, k, spectrum.elems, left)
      invariant k == 0 ==> spectrum.elems == s0 && ratio.elems == old(ratio.elems)
      invariant k > 0 ==> PassDefined(p, MLEM, prev) && ratio.elems == Ratios(p, prev)
      invariant 0 < k == cutoff ==> Run(p, MLEM, error, s0, cutoff) == Outcome(k, spectrum.elems, prev)
      decreases left
    {
      ghost var s := spectrum.elems;
      MLEMPass(p, spectrum, ratio);
      var keepGoing := KeepIterating(ratio.elems, numMeasurements, error);
      assert ratio.elems[..numMeasurements] == ratio.elems;
      if !keepGoing {
        ResumesStops(p, MLEM, error, s0, cutoff, k, s, left);
        break;
      }
      ghost var k0, left0 := k, left;
      prev, k, left := s, k + 1, left - 1;
      ResumesNext(p, MLEM, error, s0, cutoff, k0, s, left0, k, spectrum.elems, left);
    }
  }

  /** runMAP: runMLEM with each bin divided by its normalisation plus the energy correction
      of the spectrum before the pass. The energy correction vector is refilled on every
      pass and afterwards holds the corrections of the last executed pass. */
  method RunMAP(energyCorrection: RealVector, beta: real, cutoff: int, error: real,
                numMeasurements: nat, numBins: nat, measurements: seq<real>, spectrum: RealVector,
                response: seq<seq<real>>, norm: seq<real>, ratio: RealVector)
    returns (k: int)
    requires Problem(numMeasurements, numBins, measurements, response, norm).Valid()
    requires 2 <= numBins <= |spectrum.elems|
    requires energyCorrection != ratio && spectrum != ratio && spectrum != energyCorrection
    requires RunDefined(Problem(numMeasurements, numBins, measurements, response, norm), MAP(beta), error, spectrum.elems, cutoff)
    modifies spectrum, ratio, energyCorrection
    ensures var o := Run(Problem(numMeasurements, numBins, measurements, response, norm), MAP(beta), error, old(spectrum.elems), cutoff);
      && k == o.index && spectrum.elems == o.final
      && (cutoff <= 0 ==> ratio.elems == old(ratio.elems) && energyCorrection.elems == old(energyCorrection.elems))
      && (cutoff > 0 ==>
           && ratio.elems == Ratios(Problem(numMeasurements, numBins, measurements, response, norm), o.lastInput)
           && energyCorrection.elems == EnergyCorrection(beta, o.lastInput, numBins))
    ensures 0 <= k && (cutoff >= 0 ==> k <= cutoff)
    ensures cutoff > 0 ==> |ratio.elems| == numMeasurements && (k < cutoff <==> Converged(ratio.elems, error))
    ensures cutoff > 0 ==> |energyCorrection.elems| == numBins
  {
    var p := Problem(numMeasurements, numBins, measurements, response, norm);
    ghost var s0 := spectrum.elems;
    ghost var prev := s0;
    ghost var left := cutoff;
    k := 0;
    while k < cutoff
      invariant 0 <= k && (cutoff <= 0 ==> k == 0) && (cutoff > 0 ==> k <= cutoff)
      invariant left == cutoff - k
      invariant Resumes(p, MAP(beta), error, s0, cutoff, k, spectrum.elems, left)
      invariant k == 0 ==>
        && spectrum.elems == s0
        && ratio.elems == old(ratio.elems) && energyCorrection.elems == old(energyCorrection.elems)
      invariant k > 0 ==>
        && PassDefined(p, MAP(beta), prev)
        && ratio.elems == Ratios(p, prev) && energyCorrection.elems == EnergyCorrection(beta, prev, numBins)
      invariant 0 < k == cutoff ==> Run(p, MAP(beta), error, s0, cutoff) == Outcome(k, spectrum.elems, prev)
      decreases left
    {
      ghost var s := spectrum.elems;
      MAPPass(p, beta, spectrum, ratio, energyCorrection);
      var keepGoing := KeepIterating(ratio.elems, numMeasurements, error);
      assert ratio.elems[..numMeasurements] == ratio.elems;
      if !keepGoing {
        ResumesStops(p, MAP(beta), error, s0, cutoff, k, s, left);
        break;
      }
      ghost var k0, left0 := k, left;
      prev, k, left := s, k + 1, left - 1;
      ResumesNext(p, MAP(beta), error, s0, cutoff, k0, s, left0, k, spectrum.elems, left);
    }
  }
}
