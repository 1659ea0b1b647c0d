/** The normalisation vector of the response matrix and the quantities derived from a
    finished spectrum: total flux, total charge, ambient dose equivalent rate and average
    energy. Each C++ routine is a loop accumulating into a local; each is modelled by a
    method with that loop, proved against the sums of module Sums. */
module Reducers {
  import opened Sums

  /** Seconds per hour, the time factor of the dose conversion. */
  const SecondsPerHour: real := 3600.0
  /** Millisievert per picosievert, the unit factor of the dose conversion. */
  const MilliPerPico: real := 0.000000001

  /** The per-bin normalisation vector: entry b is the sum of column b over the first
      numMeasurements rows of the response matrix. */
  method NormalizeResponse(numBins: nat, numMeasurements: nat, response: seq<seq<real>>)
    returns (norm: seq<real>)
    requires Shaped(response, numMeasurements, numBins)
    ensures |norm| == numBins
    ensures forall b :: 0 <= b < numBins ==> norm[b] == ColumnSum(response, b, numMeasurements)
  {
    norm := [];
    for b := 0 to numBins
      invariant |norm| == b
      invariant forall j :: 0 <= j < b ==> norm[j] == ColumnSum(response, j, numMeasurements)
    {
      var acc := 0.0;
      for m := 0 to numMeasurements
        invariant acc == ColumnSum(response, b, m)
      {
        acc := acc + response[m][b];
      }
      norm := norm + [acc];
    }
  }

  /** A response block with no negative coefficient has no negative normalisation entry. */
  lemma {:induction false} NormalizationNonNegative(response: seq<seq<real>>, numMeasurements: nat, numBins: nat)
    requires Shaped(response, numMeasurements, numBins)
    requires forall m, b :: 0 <= m < numMeasurements && 0 <= b < numBins ==> response[m][b] >= 0.0
    ensures forall b :: 0 <= b < numBins ==> ColumnSum(response, b, numMeasurements) >= 0.0
  {
    forall b | 0 <= b < numBins
      ensures ColumnSum(response, b, numMeasurements) >= 0.0
    {
      ColumnSumNonNegative(response, b, numMeasurements);
    }
  }

  /** The normalisation vector adds up to the total of the response block: summing it
      accounts for every coefficient exactly once. */
  lemma {:induction false} NormalizationTotal(response: seq<seq<real>>, numMeasurements: nat, numBins: nat)
    requires Shaped(response, numMeasurements, numBins)
    ensures Sum(ColumnSums(response, numMeasurements, numBins), numBins)
         == RowMajorTotal(response, numMeasurements, numBins)
  {
    TotalsAgree(response, numMeasurements, numBins);
    ColumnMajorTotalIsSumOfColumnSums(response, numMeasurements, numBins, numBins);
  }

  /** Sum of the first numMeasurements measured charges. */
  method TotalCharge(numMeasurements: nat, measurements: seq<real>) returns (total: real)
    requires numMeasurements <= |measurements|
    ensures total == Sum(measurements, numMeasurements)
  {
    total := 0.0;
    for m := 0 to numMeasurements
      invariant total == Sum(measurements, m)
    {
      total := total + measurements[m];
    }
  }

  /** Sum of the first numBins spectrum entries. */
  method TotalFlux(numBins: nat, spectrum: seq<real>) returns (total: real)
    requires numBins <= |spectrum|
    ensures total == Sum(spectrum, numBins)
  {
    total := 0.0;
    for b := 0 to numBins
      invariant total == Sum(spectrum, b)
    {
      total := total + spectrum[b];
    }
  }

  /** Ambient dose equivalent rate in mSv/h: the ICRP-weighted sum of the spectrum in pSv/s,
      converted with 3600 s/h and 1e-9 mSv/pSv. */
  method Dose(numBins: nat, spectrum: seq<real>, icrpFactors: seq<real>) returns (dose: real)
    requires numBins <= |spectrum| && numBins <= |icrpFactors|
    ensures dose == Dot(spectrum, icrpFactors, numBins) * (SecondsPerHour * MilliPerPico)
  {
    dose := 0.0;
    for b := 0 to numBins
      invariant dose == Dot(spectrum, icrpFactors, b)
    {
      dose := dose + spectrum[b] * icrpFactors[b];
    }
    dose := dose * (SecondsPerHour * MilliPerPico);
  }

  /** A non-negative spectrum weighted by non-negative factors has a non-negative dose. */
  lemma {:induction false} DoseNonNegative(spectrum: seq<real>, icrpFactors: seq<real>, numBins: nat)
    requires numBins <= |spectrum| && numBins <= |icrpFactors|
    requires forall b :: 0 <= b < numBins ==> spectrum[b] >= 0.0 && icrpFactors[b] >= 0.0
    ensures Dot(spectrum, icrpFactors, numBins) * (SecondsPerHour * MilliPerPico) >= 0.0
  {
    DotNonNegative(spectrum, icrpFactors, numBins);
  }

  /** Flux-weighted mean bin energy. Each term is divided by the total flux as it is added,
      so with no bins nothing is divided and the result is 0; with at least one bin a zero
      total flux is a division by zero. */
  method AverageEnergy(numBins: nat, spectrum: seq<real>, energyBins: seq<real>) returns (avg: real)
    requires numBins <= |spectrum| && numBins <= |energyBins|
    requires numBins > 0 ==> Sum(spectrum, numBins) != 0.0
    ensures numBins == 0 ==> avg == 0.0
    ensures numBins > 0 ==> avg == Dot(energyBins, spectrum, numBins) / Sum(spectrum, numBins)
  {
    var totalFlux := TotalFlux(numBins, spectrum);
    avg := 0.0;
    for b := 0 to numBins
      invariant b > 0 ==> avg * totalFlux == Dot(energyBins, spectrum, b)
      invariant b == 0 ==> avg == 0.0
    {
      var term := energyBins[b] * spectrum[b] / totalFlux;
      assert term * totalFlux == energyBins[b] * spectrum[b];
      avg := avg + term;
    }
  }

  /** For a non-negative spectrum with positive total flux, the average energy lies between
      the lowest and the highest bin energy. */
  lemma {:induction false} AverageEnergyBetween(spectrum: seq<real>, energyBins: seq<real>, numBins: nat, lo: real, hi: real)
    requires numBins <= |spectrum| && numBins <= |energyBins|
    requires Sum(spectrum, numBins) > 0.0
    requires forall b :: 0 <= b < numBins ==> spectrum[b] >= 0.0 && lo <= energyBins[b] <= hi
    ensures lo <= Dot(energyBins, spectrum, numBins) / Sum(spectrum, numBins) <= hi
  {
    var weighted, total := Dot(energyBins, spectrum, numBins), Sum(spectrum, numBins);
    DotBetween(energyBins, spectrum, numBins, lo, hi);
    assert lo * total <= weighted <= hi * total;
    assert lo <= weighted / total <= hi;
  }
}
