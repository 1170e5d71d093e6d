/**
 Types the Monte Carlo core shares across its components: positions and
 directions, binning ranges, optical properties, photon state flags and the
 photon data point that detectors tally, plus the Option and Result wrappers
 used for error paths.
 */
module Common {

  datatype Option<+T> = None | Some(value: T)

  datatype Result<+T, +E> = Success(value: T) | Failure(error: E)

  datatype Position = Position(x: real, y: real, z: real)

  /** A direction of travel; its components are direction cosines. */
  datatype Direction = Direction(ux: real, uy: real, uz: real)

  /**
   A binning axis: Count points from Start to Stop. The spacing Delta is
   (Stop - Start) / (Count - 1), and 0 when there is at most one point.
   */
  datatype DoubleRange = DoubleRange(start: real, stop: real, count: nat) {
    function Delta(): real {
      if count <= 1 then 0.0 else (stop - start) / ((count - 1) as real)
    }
  }

  /** Absorption coefficient, scattering coefficient, anisotropy and refractive index. */
  datatype OpticalProperties = OpticalProperties(mua: real, mus: real, g: real, n: real)

  /**
   The photon state flags. The source keeps them in a bit-flag enumeration, so a
   photon's state is a SET of these names; Has is membership, Add is union and
   Remove is difference.
   */
  datatype PhotonStateType =
    | Alive
    | ExitedOutTop
    | ExitedOutBottom
    | Absorbed
    | KilledOverMaximumPathLength
    | KilledOverMaximumCollisions
    | KilledRussianRoulette
    | PseudoReflectedTissueBoundary
    | PseudoTransmittedTissueBoundary
    | PseudoGenericVolumeBoundary

  type StateFlags = set<PhotonStateType>

  /** Path length travelled and collisions made in one tissue region. */
  datatype SubRegionInfo = SubRegionInfo(pathLength: real, numberOfCollisions: nat)

  /** What a detector sees of a photon when it is tallied. */
  datatype PhotonDataPoint = PhotonDataPoint(
    position: Position,
    direction: Direction,
    weight: real,
    stateFlag: StateFlags,
    subRegionInfoList: seq<SubRegionInfo>)
}
