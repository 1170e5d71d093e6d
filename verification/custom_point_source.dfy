/**
 A point source that launches every photon from the origin heading along +z,
 deweighted by specular reflection when it starts on the tissue surface, and
 turned into a direction drawn from a cone about its orientation only when the
 polar-angle range is not degenerate. The random stream is an explicit state R
 and every draw is counted, so the rule "no draw for a true point source" is a
 statement about the counter.
 */
module PointSource {
  import opened Common

  datatype CustomPointSource = CustomPointSource(
    position: Position, orientation: Direction, thetaRange: DoubleRange, phiRange: DoubleRange)

  /** The input record a source is built from. */
  datatype CustomPointSourceInput = CustomPointSourceInput(
    pointLocation: Position, solidAngleAxis: Direction, thetaRange: DoubleRange, phiRange: DoubleRange)

  const Origin := Position(0.0, 0.0, 0.0)
  const PlusZ := Direction(0.0, 0.0, 1.0)

  function Create(position: Position, orientation: Direction, thetaRange: DoubleRange, phiRange: DoubleRange)
    : (s: CustomPointSource)
    ensures s.position == position && s.orientation == orientation
    ensures s.thetaRange == thetaRange && s.phiRange == phiRange
  {
    CustomPointSource(position, orientation, thetaRange, phiRange)
  }

  /** The default source: at the origin, pointing along +z, with single-point angle ranges. */
  function CreateDefault(): (s: CustomPointSource)
    ensures s.position == Origin && s.orientation == PlusZ
    ensures s.thetaRange == DoubleRange(0.0, 0.0, 1) && s.phiRange == DoubleRange(0.0, 0.0, 1)
    ensures s.thetaRange.Delta() == 0.0 && s.phiRange.Delta() == 0.0
  {
    Create(Origin, PlusZ, DoubleRange(0.0, 0.0, 1), DoubleRange(0.0, 0.0, 1))
  }

  /** A source built from its input record takes each field over unchanged. */
  function FromInput(input: CustomPointSourceInput): (s: CustomPointSource)
    ensures s.position == input.pointLocation && s.orientation == input.solidAngleAxis
    ensures s.thetaRange == input.thetaRange && s.phiRange == input.phiRange
  {
    Create(input.pointLocation, input.solidAngleAxis, input.thetaRange, input.phiRange)
  }

  /**
   What emission asks of the tissue and of code this model does not contain:
   - newPhoton: the photon constructor, giving the data point of a photon
     started at a position and direction with the initial weight;
   - onDomainBoundary: whether that photon sits on the tissue's outer surface;
   - regionIndices: the refractive index of each tissue region, in order;
   - specular: the specular reflectance between two refractive indices;
   - sampleDirection: the cone sampler, a direction drawn about an axis within
     polar and azimuthal ranges, consuming the random stream.
   */
  datatype Environment<!R> = Environment(
    newPhoton: (Position, Direction) -> PhotonDataPoint,
    onDomainBoundary: PhotonDataPoint -> bool,
    regionIndices: seq<real>,
    specular: (real, real) -> real,
    sampleDirection: (Direction, DoubleRange, DoubleRange, R) -> (Direction, R))

  /** An emitted photon, the random stream after emission, and how many draws were made. */
  datatype Emission<R> = Emission(photon: PhotonDataPoint, rng: R, draws: nat)

  const RegionIndexOutOfRange := "tissue has fewer than two regions"

  /** The photon constructor starts the data point at the position and direction it is given. */
  ghost predicate PlacesAsGiven(newPhoton: (Position, Direction) -> PhotonDataPoint) {
    forall p: Position, d: Direction :: newPhoton(p, d).position == p && newPhoton(p, d).direction == d
  }

  /** The photon as constructed, before deweighting or reorientation. */
  function Launched<R>(env: Environment<R>): PhotonDataPoint {
    env.newPhoton(Origin, PlusZ)
  }

  /** Whether the launch is deweighted: on the surface, between two regions of different index. */
  predicate Deweighted<R>(env: Environment<R>) {
    env.onDomainBoundary(Launched(env)) && 2 <= |env.regionIndices| && env.regionIndices[0] != env.regionIndices[1]
  }

  /**
   The next photon. Reading the first two regions' indices fails when the
   tissue has fewer than two regions, but only if the photon is on the surface
   (the surface test is evaluated first).
   */
  function GetNextPhoton<R>(s: CustomPointSource, env: Environment<R>, rng: R): (r: Result<Emission<R>, string>)
    ensures r.Failure? <==> env.onDomainBoundary(Launched(env)) && |env.regionIndices| < 2
    ensures r.Failure? ==> r.error == RegionIndexOutOfRange
    ensures r.Success? ==>
              var dp, dp0 := r.value.photon, Launched(env);
              && dp.position == dp0.position
              && (PlacesAsGiven(env.newPhoton) ==> dp.position == Origin)
              && dp.stateFlag == dp0.stateFlag && dp.subRegionInfoList == dp0.subRegionInfoList
              && dp.weight == (if Deweighted(env) then 1.0 - env.specular(env.regionIndices[0], env.regionIndices[1])
                               else dp0.weight)
    ensures r.Success? && s.thetaRange.Delta() == 0.0 ==>
              && r.value.draws == 0 && r.value.rng == rng
              && r.value.photon.direction == Launched(env).direction
              && (PlacesAsGiven(env.newPhoton) ==> r.value.photon.direction == PlusZ)
    ensures r.Success? && s.thetaRange.Delta() != 0.0 ==>
              && r.value.draws == 1
              && (r.value.photon.direction, r.value.rng) == env.sampleDirection(s.orientation, s.thetaRange, s.phiRange, rng)
  {
    var dp0 := Launched(env);
    if env.onDomainBoundary(dp0) && |env.regionIndices| < 2 then
      Failure(RegionIndexOutOfRange)
    else
      var dp1 :=
        if env.onDomainBoundary(dp0) && env.regionIndices[0] != env.regionIndices[1]
        then dp0.(weight := 1.0 - env.specular(env.regionIndices[0], env.regionIndices[1]))
        else dp0;
      if s.thetaRange.Delta() != 0.0 then
        var (d, rng') := env.sampleDirection(s.orientation, s.thetaRange, s.phiRange, rng);
        Success(Emission(dp1.(direction := d), rng', 1))
      else
        Success(Emission(dp1, rng, 0))
  }

  /**
   Where the source was configured to sit plays no part in emission: two
   sources differing only in position emit the same photon.
   */
  lemma EmissionIgnoresConfiguredPosition<R>(s: CustomPointSource, where: Position, env: Environment<R>, rng: R)
    ensures GetNextPhoton(s.(position := where), env, rng) == GetNextPhoton(s, env, rng)
  {
  }

  /** Without a surface start, or between regions of equal index, the constructed weight is kept. */
  lemma NoDeweightingOffSurfaceOrMatched<R>(s: CustomPointSource, env: Environment<R>, rng: R)
    requires !env.onDomainBoundary(Launched(env)) || (2 <= |env.regionIndices| && env.regionIndices[0] == env.regionIndices[1])
    ensures GetNextPhoton(s, env, rng).Success?
    ensures GetNextPhoton(s, env, rng).value.photon.weight == Launched(env).weight
  {
  }

  /** A batch of emitted photons, the stream after them, and the total number of draws. */
  datatype Batch<R> = Batch(photons: seq<PhotonDataPoint>, rng: R, draws: nat)

  /**
   Emit k photons in a row, threading the random stream through. For a true
   point source no draw is ever made: the stream is untouched and all k
   photons are the same; otherwise each photon costs exactly one draw.
   */
  function EmitMany<R>(s: CustomPointSource, env: Environment<R>, rng: R, k: nat): (r: Result<Batch<R>, string>)
    ensures r.Failure? <==> 0 < k && GetNextPhoton(s, env, rng).Failure?
    ensures r.Success? ==> |r.value.photons| == k
    ensures r.Success? ==> r.value.draws == if s.thetaRange.Delta() == 0.0 then 0 else k
    ensures r.Success? && s.thetaRange.Delta() == 0.0 ==>
              && r.value.rng == rng
              && forall i :: 0 <= i < k ==> r.value.photons[i] == GetNextPhoton(s, env, rng).value.photon
  {
    if k == 0 then Success(Batch([], rng, 0))
    else
      match GetNextPhoton(s, env, rng)
      case Failure(e) => Failure(e)
      case Success(first) =>
        match EmitMany(s, env, first.rng, k - 1)
        case Failure(e) => Failure(e)
        case Success(rest) => Success(Batch([first.photon] + rest.photons, rest.rng, first.draws + rest.draws))
  }
}
