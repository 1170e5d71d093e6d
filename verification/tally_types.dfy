/**
 The tally (detector) types and the predicates that sort them into
 reflectance, transmittance, termination, perturbation (pMC) and history
 tallies. Every type not listed by a predicate falls to its default branch.
 */
module TallyTypes {

  /** The tally types the engine's detectors and I/O refer to. */
  datatype TallyType =
    | RDiffuse
    | ROfRho
    | ROfAngle
    | ROfRhoAndAngle
    | ROfRhoAndTime
    | ROfXAndY
    | ROfRhoAndOmega
    | TDiffuse
    | TOfRho
    | TOfAngle
    | TOfRhoAndAngle
    | ATotal
    | AOfRhoAndZ
    | FluenceOfRhoAndZ
    | FluenceOfRhoAndZAndTime
    | MomentumTransferOfRhoAndZ
    | pMCROfRho
    | pMCROfRhoAndTime
    | pMCMuaMusROfRho
    | pMCMuaMusROfRhoAndTime

  /** The reflectance tally types, listed. */
  const ReflectanceTypes: set<TallyType> := {
    RDiffuse, ROfRho, ROfAngle, ROfRhoAndAngle, ROfRhoAndTime, ROfXAndY, ROfRhoAndOmega,
    pMCROfRho, pMCROfRhoAndTime}

  /** The transmittance tally types, listed. */
  const TransmittanceTypes: set<TallyType> := {TDiffuse, TOfRho, TOfAngle, TOfRhoAndAngle}

  /** The perturbation Monte Carlo (pMC) tally types, listed. */
  const PerturbationTypes: set<TallyType> := {pMCROfRho, pMCROfRhoAndTime}

  /** The history tally types, listed. */
  const HistoryTypes: set<TallyType> := {FluenceOfRhoAndZ, FluenceOfRhoAndZAndTime, AOfRhoAndZ, ATotal, MomentumTransferOfRhoAndZ}

  predicate IsReflectanceTally(t: TallyType)
    ensures IsReflectanceTally(t) <==> t in ReflectanceTypes
  {
    match t
    case ROfRhoAndAngle => true
    case ROfRho => true
    case ROfAngle => true
    case ROfRhoAndOmega => true
    case ROfRhoAndTime => true
    case ROfXAndY => true
    case RDiffuse => true
    case pMCROfRhoAndTime => true
    case pMCROfRho => true
    case _ => false
  }

  predicate IsTransmittanceTally(t: TallyType)
    ensures IsTransmittanceTally(t) <==> t in TransmittanceTypes
  {
    match t
    case TOfRhoAndAngle => true
    case TOfRho => true
    case TOfAngle => true
    case TDiffuse => true
    case _ => false
  }

  /** A termination tally fires when the photon leaves through a surface. */
  predicate IsTerminationTally(t: TallyType)
    ensures IsTerminationTally(t) <==> t in ReflectanceTypes + TransmittanceTypes
  {
    IsTransmittanceTally(t) || IsReflectanceTally(t)
  }

  /** A perturbation Monte Carlo tally. */
  predicate IspMCTally(t: TallyType)
    ensures IspMCTally(t) <==> t in PerturbationTypes
  {
    match t
    case pMCROfRho => true
    case pMCROfRhoAndTime => true
    case _ => false
  }

  /** A history tally needs the photon's whole path and fires once at its death. */
  predicate IsHistoryTally(t: TallyType)
    ensures IsHistoryTally(t) <==> t in HistoryTypes
  {
    match t
    case FluenceOfRhoAndZ => true
    case FluenceOfRhoAndZAndTime => true
    case AOfRhoAndZ => true
    case ATotal => true
    case MomentumTransferOfRhoAndZ => true
    case _ => false
  }

  /** No tally type is both a reflectance and a transmittance tally. */
  lemma ReflectanceTransmittanceDisjoint(t: TallyType)
    ensures !(IsReflectanceTally(t) && IsTransmittanceTally(t))
  {
  }

  /** Every pMC tally is a reflectance tally and so a termination tally. */
  lemma PerturbationIsReflectance(t: TallyType)
    requires IspMCTally(t)
    ensures IsReflectanceTally(t) && IsTerminationTally(t)
  {
  }

  /** A history tally never fires at termination, and vice versa. */
  lemma HistoryIsNotTermination(t: TallyType)
    ensures IsHistoryTally(t) ==> !IsTerminationTally(t)
  {
  }

  /** The pMCMuaMus types fall to the default branch of every predicate. */
  lemma UnlistedTypesClassifyFalse(t: TallyType)
    requires t == pMCMuaMusROfRho || t == pMCMuaMusROfRhoAndTime
    ensures !IsReflectanceTally(t) && !IsTransmittanceTally(t) && !IsTerminationTally(t)
    ensures !IspMCTally(t) && !IsHistoryTally(t)
  {
  }

  /** Nine distinct types are listed as reflectance tallies. */
  lemma ReflectanceCount()
    ensures |ReflectanceTypes| == 9
  {
  }

  /** Four distinct types are listed as transmittance tallies. */
  lemma TransmittanceCount()
    ensures |TransmittanceTypes| == 4
  {
  }
}
