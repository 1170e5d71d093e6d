/**
 Frequency-domain reflectance as a function of source-detector separation rho
 and modulation frequency omega. Every photon leaving through the top surface
 adds, to the row of its rho annulus, one complex phasor per frequency whose
 phase is set by the photon's time of flight.
 */
module ROfRhoAndOmega {
  import opened Common
  import opened Numerics
  import DetectorBinning

  /** A rho-by-omega grid of complex values, stored row by row. */
  type Grid = seq<seq<Complex>>

  datatype ROfRhoAndOmegaTally = ROfRhoAndOmegaTally(
    rho: DoubleRange,
    omega: DoubleRange,
    mean: Grid,
    secondMoment: Grid)

  predicate Shaped(g: Grid, rows: nat, cols: nat) {
    |g| == rows && forall i :: 0 <= i < rows ==> |g[i]| == cols
  }

  /** Both grids have one row per rho point and one column per omega point. */
  predicate WellFormed(t: ROfRhoAndOmegaTally) {
    Shaped(t.mean, t.rho.count, t.omega.count) && Shaped(t.secondMoment, t.rho.count, t.omega.count)
  }

  function ZeroGrid(rows: nat, cols: nat): (g: Grid)
    ensures Shaped(g, rows, cols)
    ensures forall i, j :: 0 <= i < rows && 0 <= j < cols ==> g[i][j] == Zero
  {
    seq(rows, _ => seq(cols, _ => Zero))
  }

  /** A fresh tally: both grids sized rho.count by omega.count and filled with zeros. */
  function Create(rho: DoubleRange, omega: DoubleRange): (t: ROfRhoAndOmegaTally)
    ensures WellFormed(t) && t.rho == rho && t.omega == omega
    ensures forall i, j :: 0 <= i < rho.count && 0 <= j < omega.count ==>
              t.mean[i][j] == Zero && t.secondMoment[i][j] == Zero
  {
    ROfRhoAndOmegaTally(rho, omega, ZeroGrid(rho.count, omega.count), ZeroGrid(rho.count, omega.count))
  }

  /**
   The tally counts a photon only when its state is exactly ExitedOutTop: an
   equality test on the flag set, not a membership test.
   */
  predicate ContainsPoint(dp: PhotonDataPoint) {
    dp.stateFlag == {ExitedOutTop}
  }

  /**
   A photon that exited through the top and also carries any other flag is not
   counted, while a photon carrying ExitedOutTop alone is.
   */
  lemma ContainsPointNeedsExactFlag(dp: PhotonDataPoint, other: PhotonStateType)
    requires other != ExitedOutTop
    ensures ContainsPoint(dp.(stateFlag := {ExitedOutTop}))
    ensures !ContainsPoint(dp.(stateFlag := {ExitedOutTop, other}))
    ensures ContainsPoint(dp) ==> ExitedOutTop in dp.stateFlag
  {
    assert other in {ExitedOutTop, other};
  }

  /**
   The photon's total time of flight: the time delay in each tissue region,
   pairing the i-th sub-region record with the i-th region's refractive index.
   */
  function TotalTime(subRegions: seq<SubRegionInfo>, ops: seq<OpticalProperties>): real
    requires |subRegions| <= |ops|
    decreases |subRegions|
  {
    if subRegions == [] then 0.0
    else DetectorBinning.GetTimeDelay(subRegions[0].pathLength, ops[0].n) + TotalTime(subRegions[1..], ops[1..])
  }

  /** The optical path length: each region's path length weighted by its refractive index. */
  function OpticalPathLength(subRegions: seq<SubRegionInfo>, ops: seq<OpticalProperties>): real
    requires |subRegions| <= |ops|
    decreases |subRegions|
  {
    if subRegions == [] then 0.0
    else subRegions[0].pathLength * ops[0].n + OpticalPathLength(subRegions[1..], ops[1..])
  }

  /** The total time of flight is the optical path length divided by the speed of light. */
  lemma {:induction false} TotalTimeIsOpticalPathOverC(subRegions: seq<SubRegionInfo>, ops: seq<OpticalProperties>)
    requires |subRegions| <= |ops|
    ensures TotalTime(subRegions, ops) == OpticalPathLength(subRegions, ops) / DetectorBinning.C
    decreases |subRegions|
  {
    if subRegions != [] {
      TotalTimeIsOpticalPathOverC(subRegions[1..], ops[1..]);
    }
  }

  /** With non-negative path lengths and indices the time of flight is non-negative. */
  lemma {:induction false} TotalTimeNonNegative(subRegions: seq<SubRegionInfo>, ops: seq<OpticalProperties>)
    requires |subRegions| <= |ops|
    requires forall i :: 0 <= i < |subRegions| ==> 0.0 <= subRegions[i].pathLength && 0.0 <= ops[i].n
    ensures 0.0 <= TotalTime(subRegions, ops)
    decreases |subRegions|
  {
    if subRegions != [] {
      var p, n := subRegions[0].pathLength, ops[0].n;
      if n != 0.0 {
        MulLe(0.0, p, n);
      }
      assert 0.0 <= p * n;
      TotalTimeNonNegative(subRegions[1..], ops[1..]);
    }
  }

  /** Modulation frequency of column iw, in GHz: the first column is one spacing above zero. */
  function Frequency(omega: DoubleRange, iw: int): real {
    ((iw + 1) as real) * omega.Delta()
  }

  /** Phase lag -2 pi f t, with f in GHz and t in ps scaled to Hz-seconds by 1e-3. */
  function Phase(freq: real, time: real): real {
    -2.0 * Pi * freq * time * 0.001
  }

  /** The photon's phasor at one frequency: weight times cos(phase) + i sin(phase). */
  function Contribution(math: MathLib, weight: real, freq: real, time: real): (c: Complex)
    ensures weight == 0.0 ==> c == Zero
    ensures math.sin(Phase(freq, time)) == 0.0 ==> c.im == 0.0
    ensures math.cos(Phase(freq, time)) == 0.0 ==> c.re == 0.0
  {
    var phase := Phase(freq, time);
    Complex(weight * math.cos(phase), weight * math.sin(phase))
  }

  /** The rho row a photon exiting at dp's position falls into. */
  function RhoBin(math: MathLib, rho: DoubleRange, dp: PhotonDataPoint): (ir: int)
    requires rho.Delta() != 0.0
    ensures 0 <= ir < rho.count
  {
    DetectorBinning.WhichBin(
      DetectorBinning.GetRho(math.sqrt, dp.position.x, dp.position.y), rho.count, rho.Delta(), rho.start)
  }

  /**
   Tally one exiting photon: in the row of its rho annulus, each frequency
   column's mean gains the photon's phasor and its second moment gains the
   phasor's complex square. Every other row is left as it was.
   */
  function Tally(t: ROfRhoAndOmegaTally, math: MathLib, dp: PhotonDataPoint, ops: seq<OpticalProperties>)
    : (r: ROfRhoAndOmegaTally)
    requires WellFormed(t) && t.rho.Delta() != 0.0
    requires |dp.subRegionInfoList| <= |ops|
    ensures WellFormed(r) && r.rho == t.rho && r.omega == t.omega
    ensures var ir := RhoBin(math, t.rho, dp);
            var time := TotalTime(dp.subRegionInfoList, ops);
            && (forall iw :: 0 <= iw < t.omega.count ==>
                  r.mean[ir][iw] == Add(t.mean[ir][iw], Contribution(math, dp.weight, Frequency(t.omega, iw), time)))
            && (forall iw :: 0 <= iw < t.omega.count ==>
                  var c := Contribution(math, dp.weight, Frequency(t.omega, iw), time);
                  r.secondMoment[ir][iw] == Add(t.secondMoment[ir][iw], Mul(c, c)))
            && (forall i :: 0 <= i < t.rho.count && i != ir ==>
                  r.mean[i] == t.mean[i] && r.secondMoment[i] == t.secondMoment[i])
  {
    var ir := RhoBin(math, t.rho, dp);
    var time := TotalTime(dp.subRegionInfoList, ops);
    var n := t.omega.count;
    var meanRow := seq(n, iw requires 0 <= iw < n =>
      Add(t.mean[ir][iw], Contribution(math, dp.weight, Frequency(t.omega, iw), time)));
    var secondRow := seq(n, iw requires 0 <= iw < n =>
      var c := Contribution(math, dp.weight, Frequency(t.omega, iw), time);
      Add(t.secondMoment[ir][iw], Mul(c, c)));
    t.(mean := t.mean[ir := meanRow], secondMoment := t.secondMoment[ir := secondRow])
  }

  /**
   The second moment gains the phasor's complex square c * c, not its modulus
   squared |c|^2: the two agree when the phasor is real (weight times sin of the
   phase is zero), and the entry differs from the |c|^2 update whenever both
   the cosine and the sine part of the phasor are non-zero.
   */
  lemma TallySecondMomentVersusModulusSquared(
    t: ROfRhoAndOmegaTally, math: MathLib, dp: PhotonDataPoint, ops: seq<OpticalProperties>, iw: int)
    requires WellFormed(t) && t.rho.Delta() != 0.0
    requires |dp.subRegionInfoList| <= |ops|
    requires 0 <= iw < t.omega.count
    ensures var ir := RhoBin(math, t.rho, dp);
            var c := Contribution(math, dp.weight, Frequency(t.omega, iw), TotalTime(dp.subRegionInfoList, ops));
            var modulusUpdate := Add(t.secondMoment[ir][iw], Complex(ModulusSquared(c), 0.0));
            && (c.im == 0.0 ==> Tally(t, math, dp, ops).secondMoment[ir][iw] == modulusUpdate)
            && (c.re * c.im != 0.0 ==> Tally(t, math, dp, ops).secondMoment[ir][iw] != modulusUpdate)
  {
    var ir := RhoBin(math, t.rho, dp);
    var c := Contribution(math, dp.weight, Frequency(t.omega, iw), TotalTime(dp.subRegionInfoList, ops));
    ComplexSquareVersusModulusSquared(c);
  }

  /**
   A photon with zero weight changes nothing: its phasor and the phasor's
   square are both zero.
   */
  lemma TallyZeroWeightChangesNothing(t: ROfRhoAndOmegaTally, math: MathLib, dp: PhotonDataPoint, ops: seq<OpticalProperties>)
    requires WellFormed(t) && t.rho.Delta() != 0.0
    requires |dp.subRegionInfoList| <= |ops|
    requires dp.weight == 0.0
    ensures Tally(t, math, dp, ops) == t
  {
    var r := Tally(t, math, dp, ops);
    var ir := RhoBin(math, t.rho, dp);
    forall iw | 0 <= iw < t.omega.count
      ensures r.mean[ir][iw] == t.mean[ir][iw] && r.secondMoment[ir][iw] == t.secondMoment[ir][iw]
    {
      var c := Contribution(math, dp.weight, Frequency(t.omega, iw), TotalTime(dp.subRegionInfoList, ops));
      assert c == Zero;
      assert Mul(c, c) == Zero;
    }
    assert r.mean[ir] == t.mean[ir];
    assert r.secondMoment[ir] == t.secondMoment[ir];
  }

  /**
   The tally does not depend on the order photons arrive in: tallying a then b
   gives the same grids as tallying b then a.
   */
  lemma TallyOrderIrrelevant(
    t: ROfRhoAndOmegaTally, math: MathLib, a: PhotonDataPoint, b: PhotonDataPoint, ops: seq<OpticalProperties>)
    requires WellFormed(t) && t.rho.Delta() != 0.0
    requires |a.subRegionInfoList| <= |ops| && |b.subRegionInfoList| <= |ops|
    ensures Tally(Tally(t, math, a, ops), math, b, ops) == Tally(Tally(t, math, b, ops), math, a, ops)
  {
    var ab := Tally(Tally(t, math, a, ops), math, b, ops);
    var ba := Tally(Tally(t, math, b, ops), math, a, ops);
    forall i | 0 <= i < t.rho.count
      ensures ab.mean[i] == ba.mean[i] && ab.secondMoment[i] == ba.secondMoment[i]
    {
      forall iw | 0 <= iw < t.omega.count
        ensures ab.mean[i][iw] == ba.mean[i][iw] && ab.secondMoment[i][iw] == ba.secondMoment[i][iw]
      {
      }
    }
  }

  /**
   The divisor applied to row ir by Normalize: the area of the ir-th annulus
   (2 pi (ir + 1/2) drho^2) times the number of photons launched.
   */
  function NormalizationFactor(rho: DoubleRange, ir: int, numPhotons: int): real {
    2.0 * Pi * ((ir as real) + 0.5) * rho.Delta() * rho.Delta() * (numPhotons as real)
  }

  /** The annulus divisor is never zero for a real row, a non-zero spacing and a non-zero count. */
  lemma NormalizationFactorNonZero(rho: DoubleRange, ir: int, numPhotons: int)
    requires 0 <= ir && rho.Delta() != 0.0 && numPhotons != 0
    ensures NormalizationFactor(rho, ir, numPhotons) != 0.0
  {
    var d := rho.Delta();
    var a := 2.0 * Pi;
    var b := (ir as real) + 0.5;
    NonZeroProduct(a, b);
    NonZeroProduct(a * b, d);
    NonZeroProduct(a * b * d, d);
    NonZeroProduct(a * b * d * d, numPhotons as real);
  }

  /**
   Divide every mean entry of row ir by that row's annulus factor. The second
   moment is left untouched.
   */
  function Normalize(t: ROfRhoAndOmegaTally, numPhotons: int): (r: ROfRhoAndOmegaTally)
    requires WellFormed(t) && t.rho.Delta() != 0.0 && numPhotons != 0
    ensures WellFormed(r) && r.rho == t.rho && r.omega == t.omega
    ensures r.secondMoment == t.secondMoment
    ensures forall ir, iw :: 0 <= ir < t.rho.count && 0 <= iw < t.omega.count ==>
              Scale(NormalizationFactor(t.rho, ir, numPhotons), r.mean[ir][iw]) == t.mean[ir][iw]
  {
    var rows := seq(t.rho.count, ir requires 0 <= ir < t.rho.count =>
      NormalizationFactorNonZero(t.rho, ir, numPhotons);
      var f := NormalizationFactor(t.rho, ir, numPhotons);
      seq(t.omega.count, iw requires 0 <= iw < t.omega.count => DivReal(t.mean[ir][iw], f)));
    t.(mean := rows)
  }

  /** Normalizing an empty tally leaves every entry zero. */
  lemma NormalizeKeepsZero(rho: DoubleRange, omega: DoubleRange, numPhotons: int)
    requires rho.Delta() != 0.0 && numPhotons != 0
    ensures Normalize(Create(rho, omega), numPhotons) == Create(rho, omega)
  {
    var t := Create(rho, omega);
    var r := Normalize(t, numPhotons);
    forall ir, iw | 0 <= ir < rho.count && 0 <= iw < omega.count
      ensures r.mean[ir][iw] == Zero
    {
      var f := NormalizationFactor(rho, ir, numPhotons);
      NormalizationFactorNonZero(rho, ir, numPhotons);
      assert Scale(f, r.mean[ir][iw]) == Zero;
      ScaleToZero(f, r.mean[ir][iw]);
    }
    forall ir | 0 <= ir < rho.count
      ensures r.mean[ir] == t.mean[ir]
    {
    }
  }

  /** Scaling by a non-zero real gives zero only for zero. */
  lemma ScaleToZero(k: real, z: Complex)
    requires k != 0.0 && Scale(k, z) == Zero
    ensures z == Zero
  {
    assert z.re == (k * z.re) / k;
    assert z.im == (k * z.im) / k;
  }
}
