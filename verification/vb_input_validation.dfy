/**
 Validation of a generic-volume virtual boundary's input: every detector
 attached to such a boundary must be a volume tally. Whether a tally type is a
 volume tally, and whether a boundary type is the generic volume one, are
 decided outside this model and enter as predicates.
 */
module VolumeVbValidation {
  import opened TallyTypes

  /** The outcome of an input check: validity, the rule checked and a remark for the user. */
  datatype ValidationResult = ValidationResult(isValid: bool, validationRule: string, remarks: string)

  datatype DetectorInput = DetectorInput(tallyType: TallyType)

  /** A virtual boundary input; VB is the virtual boundary type enumeration. */
  datatype VirtualBoundaryInput<VB> = VirtualBoundaryInput(virtualBoundaryType: VB, detectorInputs: seq<DetectorInput>)

  const NotVolumeType := ValidationResult(
    false,
    "VolumeVirtualBoundaryInput: detector input is not a volume type",
    "Make sure IList<IDetectorInput> only contains volume type tallies")

  const InconsistentWithBoundaryType := ValidationResult(
    false,
    "VolumeVirtualBoundaryInput: detector input is not consistent with virtual boundary type",
    "Make sure virtual boundary type matches type of detector input")

  /** The result built with no remarks. */
  const Valid := ValidationResult(true, "detector inputs must match type of virtual boundary input", "")

  /** The checks of the foreach loop, from the i-th detector input on. */
  function ValidateFrom<VB>(
    vbInput: VirtualBoundaryInput<VB>, isVolumeTally: TallyType -> bool, isGenericVolume: VB -> bool, i: nat)
    : ValidationResult
    requires i <= |vbInput.detectorInputs|
    decreases |vbInput.detectorInputs| - i
  {
    if i == |vbInput.detectorInputs| then Valid
    else
      var t := vbInput.detectorInputs[i].tallyType;
      if !isVolumeTally(t) then NotVolumeType
      else if isGenericVolume(vbInput.virtualBoundaryType) && !isVolumeTally(t) then InconsistentWithBoundaryType
      else ValidateFrom(vbInput, isVolumeTally, isGenericVolume, i + 1)
  }

  /**
   From position i on, the checks pass exactly when every remaining input is a
   volume tally, and they fail only with the "not a volume type" result.
   */
  lemma {:induction false} ValidateFromCharacterized<VB>(
    vbInput: VirtualBoundaryInput<VB>, isVolumeTally: TallyType -> bool, isGenericVolume: VB -> bool, i: nat)
    requires i <= |vbInput.detectorInputs|
    ensures var r := ValidateFrom(vbInput, isVolumeTally, isGenericVolume, i);
            && (r.isValid <==>
                  forall j :: i <= j < |vbInput.detectorInputs| ==> isVolumeTally(vbInput.detectorInputs[j].tallyType))
            && (r == Valid || r == NotVolumeType)
    decreases |vbInput.detectorInputs| - i
  {
    if i < |vbInput.detectorInputs| {
      ValidateFromCharacterized(vbInput, isVolumeTally, isGenericVolume, i + 1);
    }
  }

  /**
   The input is valid exactly when every detector input is a volume tally
   (so an empty list is valid); a failure always carries the "not a volume
   type" rule, never the boundary-type consistency rule.
   */
  function ValidateInput<VB>(vbInput: VirtualBoundaryInput<VB>, isVolumeTally: TallyType -> bool, isGenericVolume: VB -> bool)
    : (r: ValidationResult)
    ensures r.isValid <==>
              forall j :: 0 <= j < |vbInput.detectorInputs| ==> isVolumeTally(vbInput.detectorInputs[j].tallyType)
    ensures r.isValid ==> r == Valid
    ensures !r.isValid ==> r == NotVolumeType
    ensures r != InconsistentWithBoundaryType
  {
    ValidateFromCharacterized(vbInput, isVolumeTally, isGenericVolume, 0);
    ValidateFrom(vbInput, isVolumeTally, isGenericVolume, 0)
  }

  /** With no detector inputs the check passes. */
  lemma EmptyInputIsValid<VB>(vbType: VB, isVolumeTally: TallyType -> bool, isGenericVolume: VB -> bool)
    ensures ValidateInput(VirtualBoundaryInput(vbType, []), isVolumeTally, isGenericVolume) == Valid
  {
  }

  /** The result depends only on the detector inputs, never on the boundary type or its classification. */
  lemma ResultIgnoresBoundaryType<VB>(
    a: VirtualBoundaryInput<VB>, b: VirtualBoundaryInput<VB>,
    isVolumeTally: TallyType -> bool, isGenericA: VB -> bool, isGenericB: VB -> bool)
    requires a.detectorInputs == b.detectorInputs
    ensures ValidateInput(a, isVolumeTally, isGenericA) == ValidateInput(b, isVolumeTally, isGenericB)
  {
  }

  /**
   The check stops at the first input that is not a volume tally: whatever
   follows it, the result is the "not a volume type" failure.
   */
  lemma FirstOffenderDecides<VB>(
    vbInput: VirtualBoundaryInput<VB>, isVolumeTally: TallyType -> bool, isGenericVolume: VB -> bool,
    rest: seq<DetectorInput>)
    requires exists j :: 0 <= j < |vbInput.detectorInputs| && !isVolumeTally(vbInput.detectorInputs[j].tallyType)
    ensures ValidateInput(vbInput.(detectorInputs := vbInput.detectorInputs + rest), isVolumeTally, isGenericVolume)
              == NotVolumeType
  {
    var j :| 0 <= j < |vbInput.detectorInputs| && !isVolumeTally(vbInput.detectorInputs[j].tallyType);
    var longer := vbInput.detectorInputs + rest;
    assert longer[j] == vbInput.detectorInputs[j];
  }
}
