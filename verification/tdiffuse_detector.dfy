/**
 The diffuse transmittance detector: a scalar accumulator of the weights of
 photons that leave through the bottom of the tissue, with an optional second
 moment for variance estimates.
 */
module TDiffuse {
  import opened Common
  import opened TallyTypes
  import Numerics

  datatype TDiffuseDetector = TDiffuseDetector(
    tallySecondMoment: bool,
    mean: real,
    secondMoment: real,
    tallyType: TallyType,
    name: string,
    tallyCount: int)

  /** A fresh detector: nothing tallied yet. */
  function Create(tallySecondMoment: bool, name: string): (d: TDiffuseDetector)
    ensures d.mean == 0.0 && d.secondMoment == 0.0 && d.tallyCount == 0
    ensures d.tallyType == TDiffuse && d.name == name && d.tallySecondMoment == tallySecondMoment
  {
    TDiffuseDetector(tallySecondMoment, 0.0, 0.0, TDiffuse, name, 0)
  }

  /** The default detector tracks the second moment and is named after its tally type. */
  function CreateDefault(): (d: TDiffuseDetector)
    ensures d.tallySecondMoment && d.name == "TDiffuse"
    ensures d.mean == 0.0 && d.secondMoment == 0.0 && d.tallyCount == 0 && d.tallyType == TDiffuse
  {
    Create(true, "TDiffuse")
  }

  /** Accumulate one photon's weight (and its square, when tracked). */
  function Tally(d: TDiffuseDetector, dp: PhotonDataPoint): (r: TDiffuseDetector)
    ensures r.mean == d.mean + dp.weight
    ensures r.secondMoment == if d.tallySecondMoment then d.secondMoment + dp.weight * dp.weight else d.secondMoment
    ensures r.tallyCount == d.tallyCount + 1
    ensures r.tallySecondMoment == d.tallySecondMoment && r.name == d.name && r.tallyType == d.tallyType
  {
    var second := if d.tallySecondMoment then d.secondMoment + dp.weight * dp.weight else d.secondMoment;
    d.(mean := d.mean + dp.weight, secondMoment := second, tallyCount := d.tallyCount + 1)
  }

  /**
   Divide the accumulated moments by the photon count. Nothing records that
   this has happened, so a second call divides again.
   */
  function Normalize(d: TDiffuseDetector, numPhotons: int): (r: TDiffuseDetector)
    requires numPhotons != 0
    ensures r.mean * (numPhotons as real) == d.mean
    ensures d.tallySecondMoment ==> r.secondMoment * (numPhotons as real) == d.secondMoment
    ensures !d.tallySecondMoment ==> r.secondMoment == d.secondMoment
    ensures r.tallyCount == d.tallyCount && r.name == d.name && r.tallyType == d.tallyType
    ensures r.tallySecondMoment == d.tallySecondMoment
  {
    var n := numPhotons as real;
    d.(mean := d.mean / n, secondMoment := if d.tallySecondMoment then d.secondMoment / n else d.secondMoment)
  }

  /** The detector counts a photon exactly when its state includes ExitedOutBottom. */
  predicate ContainsPoint(dp: PhotonDataPoint) {
    ExitedOutBottom in dp.stateFlag
  }

  /** Membership, not equality: other flags alongside ExitedOutBottom do not matter. */
  lemma ContainsPointIgnoresOtherFlags(dp: PhotonDataPoint, others: StateFlags)
    ensures ContainsPoint(dp.(stateFlag := others + {ExitedOutBottom}))
    ensures !ContainsPoint(dp.(stateFlag := others - {ExitedOutBottom}))
  {
  }

  /** Tally every photon of dps in order. */
  function TallyAll(d: TDiffuseDetector, dps: seq<PhotonDataPoint>): TDiffuseDetector
    decreases |dps|
  {
    if dps == [] then d else TallyAll(Tally(d, dps[0]), dps[1..])
  }

  function SumWeights(dps: seq<PhotonDataPoint>): real
    decreases |dps|
  {
    if dps == [] then 0.0 else dps[0].weight + SumWeights(dps[1..])
  }

  function SumSquaredWeights(dps: seq<PhotonDataPoint>): real
    decreases |dps|
  {
    if dps == [] then 0.0 else dps[0].weight * dps[0].weight + SumSquaredWeights(dps[1..])
  }

  /**
   After tallying a sequence of photons the mean has grown by the sum of their
   weights, the count by their number, and the second moment (when tracked) by
   the sum of their squared weights.
   */
  lemma {:induction false} TallyAllAccumulates(d: TDiffuseDetector, dps: seq<PhotonDataPoint>)
    ensures TallyAll(d, dps).mean == d.mean + SumWeights(dps)
    ensures TallyAll(d, dps).tallyCount == d.tallyCount + |dps|
    ensures TallyAll(d, dps).secondMoment ==
              if d.tallySecondMoment then d.secondMoment + SumSquaredWeights(dps) else d.secondMoment
    ensures TallyAll(d, dps).tallySecondMoment == d.tallySecondMoment
    ensures TallyAll(d, dps).name == d.name && TallyAll(d, dps).tallyType == d.tallyType
    decreases |dps|
  {
    if dps != [] {
      TallyAllAccumulates(Tally(d, dps[0]), dps[1..]);
    }
  }

  /** With non-negative weights both moments stay non-negative, whatever is tallied. */
  lemma {:induction false} TallyAllNonNegative(d: TDiffuseDetector, dps: seq<PhotonDataPoint>)
    requires 0.0 <= d.mean && 0.0 <= d.secondMoment
    requires forall i :: 0 <= i < |dps| ==> 0.0 <= dps[i].weight
    ensures 0.0 <= TallyAll(d, dps).mean && 0.0 <= TallyAll(d, dps).secondMoment
    decreases |dps|
  {
    if dps != [] {
      var w := dps[0].weight;
      if w != 0.0 {
        Numerics.MulLe(0.0, w, w);
      }
      TallyAllNonNegative(Tally(d, dps[0]), dps[1..]);
    }
  }

  /** Normalizing twice divides twice, so Normalize is not idempotent. */
  lemma NormalizeTwiceDividesTwice(d: TDiffuseDetector, numPhotons: int)
    requires numPhotons != 0
    ensures Normalize(Normalize(d, numPhotons), numPhotons).mean * ((numPhotons * numPhotons) as real) == d.mean
    ensures d.mean != 0.0 && numPhotons != 1 ==>
              Normalize(Normalize(d, numPhotons), numPhotons) != Normalize(d, numPhotons)
  {
    var n := numPhotons as real;
    var once := Normalize(d, numPhotons);
    var twice := Normalize(once, numPhotons);
    assert twice.mean * n == once.mean;
    assert once.mean * n == d.mean;
    assert (twice.mean * n) * n == d.mean;
    assert ((numPhotons * numPhotons) as real) == n * n;
    if d.mean != 0.0 && numPhotons != 1 {
      assert once.mean != 0.0;
      DivisionMoves(once.mean, n);
      assert twice.mean != once.mean;
    }
  }

  /** Dividing a non-zero value by anything other than 0 or 1 changes it. */
  lemma DivisionMoves(x: real, n: real)
    requires x != 0.0 && n != 0.0 && n != 1.0
    ensures x / n != x
  {
    assert (x / n) * n == x;
    assert x - x / n == (x / n) * (n - 1.0);
    Numerics.NonZeroProduct(x / n, n - 1.0);
  }

  /** The normalized mean over a run of N photons is their summed exiting weight over N. */
  lemma NormalizedMeanIsAverage(dps: seq<PhotonDataPoint>, tallySecondMoment: bool, name: string, numPhotons: int)
    requires numPhotons != 0
    ensures Normalize(TallyAll(Create(tallySecondMoment, name), dps), numPhotons).mean * (numPhotons as real)
              == SumWeights(dps)
  {
    TallyAllAccumulates(Create(tallySecondMoment, name), dps);
  }
}
