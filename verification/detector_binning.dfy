/**
 The axis-indexing rule every detector uses: a contiguous uniform axis that
 clamps out-of-range values to its first or last bin, a sparse axis of bin
 centres that reports "no bin" as -1, and the time-of-flight and radial
 distance helpers detectors apply alongside them.
 */
module DetectorBinning {
  import opened Numerics

  /** The speed of light in vacuum, in mm/ps; the proofs only use that it is positive. */
  const C: real := 0.299792458

  /** Value v lies in bin i of the uniform axis starting at binStart with spacing binSize. */
  predicate InUniformBin(value: real, i: int, binSize: real, binStart: real) {
    binStart + (i as real) * binSize <= value < binStart + ((i + 1) as real) * binSize
  }

  /** Value v lies within the covered extent [binStart, binStart + numberOfBins * binSize). */
  predicate InRange(value: real, numberOfBins: int, binSize: real, binStart: real) {
    binStart <= value < binStart + (numberOfBins as real) * binSize
  }

  /** Floor of d / b, scaled back: with b > 0 the floor k brackets d between k*b and (k+1)*b. */
  lemma FloorBracket(d: real, b: real)
    requires 0.0 < b
    ensures ((d / b).Floor as real) * b <= d < (((d / b).Floor + 1) as real) * b
  {
    var q := d / b;
    var k := q.Floor;
    assert q * b == d;
    assert q < (k + 1) as real;
    MulLt(q, (k + 1) as real, b);
    assert q * b < ((k + 1) as real) * b;
    assert d < ((k + 1) as real) * b;
    assert (k as real) <= q;
    MulLe(k as real, q, b);
    assert (k as real) * b <= q * b;
    assert (k as real) * b <= d;
  }

  /** Multiplying by a positive real keeps strict order, in both directions. */
  lemma MulPositiveStrict(a: real, c: real, b: real)
    requires 0.0 < b
    ensures a < c <==> a * b < c * b
  {
    if a < c {
      MulLt(a, c, b);
    } else {
      MulLe(c, a, b);
    }
  }

  /** Dividing by a positive real keeps order. */
  lemma DivPositiveMonotone(x: real, y: real, b: real)
    requires 0.0 < b && x <= y
    ensures x / b <= y / b
  {
    assert (x / b) * b == x && (y / b) * b == y;
    MulPositiveStrict(y / b, x / b, b);
  }

  /** A value at or above edge x and below edge y of a positively spaced axis has x < y. */
  lemma EdgeOrder(x: int, y: int, b: real, start: real, value: real)
    requires 0.0 < b
    requires start + (x as real) * b <= value < start + (y as real) * b
    ensures x < y
  {
    if y <= x {
      MulLe(y as real, x as real, b);
    }
  }

  /** What the unclamped floor index says about where value lies, for positive spacing. */
  lemma RawBinFacts(value: real, numberOfBins: int, binSize: real, binStart: real)
    requires binSize != 0.0
    ensures var raw := ((value - binStart) / binSize).Floor;
            0.0 < binSize ==>
              && InUniformBin(value, raw, binSize, binStart)
              && (value < binStart ==> raw < 0)
              && (binStart + (numberOfBins as real) * binSize <= value ==> numberOfBins <= raw)
              && (InRange(value, numberOfBins, binSize, binStart) ==> 0 <= raw < numberOfBins)
  {
    var raw := ((value - binStart) / binSize).Floor;
    if 0.0 < binSize {
      FloorIsHoldingBin(value, binSize, binStart);
      if value < binStart {
        EdgeOrder(raw, 0, binSize, binStart, value);
      }
      if binStart + (numberOfBins as real) * binSize <= value {
        EdgeOrder(numberOfBins, raw + 1, binSize, binStart, value);
      }
      if InRange(value, numberOfBins, binSize, binStart) {
        EdgeOrder(raw, numberOfBins, binSize, binStart, value);
        EdgeOrder(0, raw + 1, binSize, binStart, value);
      }
    }
  }

  /** The floor of the scaled offset names the bin holding the value. */
  lemma FloorIsHoldingBin(value: real, binSize: real, binStart: real)
    requires 0.0 < binSize
    ensures InUniformBin(value, ((value - binStart) / binSize).Floor, binSize, binStart)
  {
    FloorBracket(value - binStart, binSize);
  }

  /**
   Contiguous bins: the index of the uniform bin holding value, clamped to the
   last bin above the axis and to bin 0 below it.
   */
  function WhichBin(value: real, numberOfBins: int, binSize: real, binStart: real): (bin: int)
    requires binSize != 0.0
    ensures 1 <= numberOfBins ==> 0 <= bin < numberOfBins
    ensures 1 <= numberOfBins && 0.0 < binSize && value < binStart ==> bin == 0
    ensures 0.0 < binSize && binStart + (numberOfBins as real) * binSize <= value ==> bin == numberOfBins - 1
    ensures 0.0 < binSize && InRange(value, numberOfBins, binSize, binStart) ==>
              InUniformBin(value, bin, binSize, binStart)
  {
    var raw := ((value - binStart) / binSize).Floor;
    RawBinFacts(value, numberOfBins, binSize, binStart);
    Clamp(raw, numberOfBins)
  }

  /** The clamping step of WhichBin: above the last bin gives the last bin, below 0 gives 0. */
  function Clamp(raw: int, numberOfBins: int): int {
    if raw > numberOfBins - 1 then numberOfBins - 1
    else if raw < 0 then 0
    else raw
  }

  lemma ClampMonotone(r1: int, r2: int, numberOfBins: int)
    requires r1 <= r2 && 1 <= numberOfBins
    ensures Clamp(r1, numberOfBins) <= Clamp(r2, numberOfBins)
  {
  }

  /** No two bins of an axis with positive spacing hold the same value. */
  lemma {:induction false} UniformBinUnique(value: real, i: int, j: int, binSize: real, binStart: real)
    requires 0.0 < binSize
    requires InUniformBin(value, i, binSize, binStart) && InUniformBin(value, j, binSize, binStart)
    ensures i == j
  {
    EdgeOrder(i, j + 1, binSize, binStart, value);
    EdgeOrder(j, i + 1, binSize, binStart, value);
  }

  /** For an in-range value, WhichBin returns i exactly when bin i holds the value. */
  lemma WhichBinIsTheHoldingBin(value: real, numberOfBins: int, binSize: real, binStart: real, i: int)
    requires 0.0 < binSize && InRange(value, numberOfBins, binSize, binStart)
    ensures WhichBin(value, numberOfBins, binSize, binStart) == i <==> InUniformBin(value, i, binSize, binStart)
  {
    var bin := WhichBin(value, numberOfBins, binSize, binStart);
    if InUniformBin(value, i, binSize, binStart) {
      UniformBinUnique(value, bin, i, binSize, binStart);
    }
  }

  /**
   Contiguous WhichBin never decreases as the value grows, given at least one
   bin. (With no bins the clamps cross: values below the axis give 0 and values
   above it give -1.)
   */
  lemma WhichBinMonotone(v1: real, v2: real, numberOfBins: int, binSize: real, binStart: real)
    requires 0.0 < binSize && v1 <= v2 && 1 <= numberOfBins
    ensures WhichBin(v1, numberOfBins, binSize, binStart) <= WhichBin(v2, numberOfBins, binSize, binStart)
  {
    var q1, q2 := (v1 - binStart) / binSize, (v2 - binStart) / binSize;
    DivPositiveMonotone(v1 - binStart, v2 - binStart, binSize);
    assert (q1.Floor as real) <= q1 <= q2 < (q2.Floor as real) + 1.0;
    assert q1.Floor <= q2.Floor;
    ClampMonotone(q1.Floor, q2.Floor, numberOfBins);
  }

  /** Value lies strictly inside the sparse bin of width binSize centred at center. */
  predicate InSparseBin(value: real, binSize: real, center: real) {
    center - binSize / 2.0 < value < center + binSize / 2.0
  }

  /**
   Sparse bins: the first index whose (open) bin holds value, or -1 when no bin
   does. Bins may overlap and need not be evenly spaced.
   */
  method WhichBinSparse(value: real, binSize: real, binCenters: seq<real>) returns (bin: int)
    ensures -1 <= bin < |binCenters|
    ensures bin == -1 <==> forall i :: 0 <= i < |binCenters| ==> !InSparseBin(value, binSize, binCenters[i])
    ensures 0 <= bin ==> InSparseBin(value, binSize, binCenters[bin])
    ensures 0 <= bin ==> forall j :: 0 <= j < bin ==> !InSparseBin(value, binSize, binCenters[j])
    ensures 0 <= bin ==> value != binCenters[bin] - binSize / 2.0 && value != binCenters[bin] + binSize / 2.0
    ensures binSize <= 0.0 ==> bin == -1
  {
    var i := 0;
    while i < |binCenters|
      invariant 0 <= i <= |binCenters|
      invariant forall j :: 0 <= j < i ==> !InSparseBin(value, binSize, binCenters[j])
    {
      if value > binCenters[i] - binSize / 2.0 && value < binCenters[i] + binSize / 2.0 {
        return i;
      }
      i := i + 1;
    }
    return -1;
  }

  /**
   Time of flight along pathLength through a medium of refractive index n,
   pathLength / (C / n). With n = 0 the double quotient C / n is infinite and
   the delay is 0.
   */
  function GetTimeDelay(pathLength: real, n: real): (delay: real)
    ensures delay == pathLength * n / C
  {
    if n == 0.0 then 0.0 else pathLength / (C / n)
  }

  /** The time delay is linear in the path length; no path, no delay. */
  lemma TimeDelayLinear(p1: real, p2: real, k: real, n: real)
    ensures GetTimeDelay(0.0, n) == 0.0
    ensures GetTimeDelay(p1 + p2, n) == GetTimeDelay(p1, n) + GetTimeDelay(p2, n)
    ensures GetTimeDelay(k * p1, n) == k * GetTimeDelay(p1, n)
  {
    assert (p1 + p2) * n == p1 * n + p2 * n;
    assert (k * p1) * n == k * (p1 * n);
  }

  /** Radial distance of (x, y) from the z axis. */
  function GetRho(sqrt: real -> real, x: real, y: real): (rho: real)
    ensures IsSqrt(sqrt) ==> 0.0 <= rho && rho * rho == x * x + y * y
  {
    sqrt(x * x + y * y)
  }

  /** GetRho does not change under reflection through either axis or swapping x and y. */
  lemma GetRhoSymmetric(sqrt: real -> real, x: real, y: real)
    ensures GetRho(sqrt, -x, y) == GetRho(sqrt, x, y)
    ensures GetRho(sqrt, x, -y) == GetRho(sqrt, x, y)
    ensures GetRho(sqrt, y, x) == GetRho(sqrt, x, y)
  {
    assert (-x) * (-x) == x * x;
    assert (-y) * (-y) == y * y;
  }
}
