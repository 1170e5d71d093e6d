/**
 The input describing a layered tissue with one embedded ellipsoid: its
 regions, the phase-function inputs they refer to by key, and the default
 configuration (a 100 mm slab between two semi-infinite ambient layers, with a
 0.5 mm sphere centred 1 mm deep).
 */
module EllipsoidTissueInput {
  import opened Common
  import opened Numerics

  /** A depth interval whose ends may be infinite. */
  datatype ZRange = ZRange(start: ExtReal, stop: ExtReal)

  datatype TissueRegion =
    | EllipsoidRegion(center: Position, dx: real, dy: real, dz: real, regionOP: OpticalProperties, phaseFunctionKey: string)
    | LayerRegion(zRange: ZRange, regionOP: OpticalProperties, phaseFunctionKey: string)

  /** The phase-function inputs a region key can name. */
  datatype PhaseFunctionInput =
    | HenyeyGreensteinPhaseFunctionInput
    | LookupTablePhaseFunctionInput
    | BidirectionalPhaseFunctionInput

  /** The tissue types; the enumerators other than this input's own stand together as Other. */
  datatype TissueType = SingleEllipsoid | Other(name: string)

  datatype SingleEllipsoidTissueInput = SingleEllipsoidTissueInput(
    ellipsoidRegion: TissueRegion,
    layerRegions: seq<TissueRegion>,
    regionPhaseFunctionInputs: map<string, PhaseFunctionInput>)

  /** Regions without phase-function inputs: the dictionary starts empty. */
  function Create(ellipsoidRegion: TissueRegion, layerRegions: seq<TissueRegion>): (t: SingleEllipsoidTissueInput)
    ensures t.ellipsoidRegion == ellipsoidRegion && t.layerRegions == layerRegions
    ensures |t.regionPhaseFunctionInputs| == 0
  {
    SingleEllipsoidTissueInput(ellipsoidRegion, layerRegions, map[])
  }

  /** Regions with the given phase-function inputs, stored as given. */
  function CreateWithPhaseFunctions(
    ellipsoidRegion: TissueRegion, layerRegions: seq<TissueRegion>, inputs: map<string, PhaseFunctionInput>)
    : (t: SingleEllipsoidTissueInput)
    ensures t.ellipsoidRegion == ellipsoidRegion && t.layerRegions == layerRegions
    ensures t.regionPhaseFunctionInputs == inputs
  {
    SingleEllipsoidTissueInput(ellipsoidRegion, layerRegions, inputs)
  }

  /** The tissue type never depends on the regions. */
  function GetTissueType(t: SingleEllipsoidTissueInput): (tt: TissueType)
    ensures tt == SingleEllipsoid
  {
    SingleEllipsoid
  }

  /** All regions: the layers in their order, then the ellipsoid. */
  function Regions(t: SingleEllipsoidTissueInput): (rs: seq<TissueRegion>)
    ensures |rs| == |t.layerRegions| + 1
    ensures rs[..|t.layerRegions|] == t.layerRegions
    ensures rs[|rs| - 1] == t.ellipsoidRegion
  {
    t.layerRegions + [t.ellipsoidRegion]
  }

  function SetEllipsoidRegion(t: SingleEllipsoidTissueInput, r: TissueRegion): (u: SingleEllipsoidTissueInput)
    ensures u.ellipsoidRegion == r
    ensures u.layerRegions == t.layerRegions && u.regionPhaseFunctionInputs == t.regionPhaseFunctionInputs
  {
    t.(ellipsoidRegion := r)
  }

  function SetLayerRegions(t: SingleEllipsoidTissueInput, layers: seq<TissueRegion>): (u: SingleEllipsoidTissueInput)
    ensures u.layerRegions == layers
    ensures u.ellipsoidRegion == t.ellipsoidRegion && u.regionPhaseFunctionInputs == t.regionPhaseFunctionInputs
  {
    t.(layerRegions := layers)
  }

  /**
   Regions is recomputed from the current fields: after either setter it
   reflects the new value and keeps the other part.
   */
  lemma RegionsFollowSetters(t: SingleEllipsoidTissueInput, r: TissueRegion, layers: seq<TissueRegion>)
    ensures Regions(SetEllipsoidRegion(t, r)) == Regions(t)[|t.layerRegions| := r]
    ensures Regions(SetLayerRegions(t, layers)) == layers + [t.ellipsoidRegion]
    ensures Regions(SetLayerRegions(SetEllipsoidRegion(t, r), layers)) == layers + [r]
  {
  }

  /** Add value under key unless the key is already present. */
  function AddIfAbsent(d: map<string, PhaseFunctionInput>, key: string, value: PhaseFunctionInput)
    : (r: map<string, PhaseFunctionInput>)
    ensures key in r
    ensures key in d ==> r == d
    ensures key !in d ==> r == d[key := value] && |r| == |d| + 1
  {
    if key in d then d else d[key := value]
  }

  const DefaultKey: string := "HenyeyGreensteinKey1"

  /** The ambient medium above and below the slab: no absorption, vanishing scattering, index 1. */
  const AmbientOP: OpticalProperties := OpticalProperties(0.0, 1e-10, 1.0, 1.0)

  const DefaultEllipsoid: TissueRegion :=
    EllipsoidRegion(Position(0.0, 0.0, 1.0), 0.5, 0.5, 0.5, OpticalProperties(0.05, 1.0, 0.8, 1.4), DefaultKey)

  const DefaultLayers: seq<TissueRegion> := [
    LayerRegion(ZRange(NegInf, Finite(0.0)), AmbientOP, DefaultKey),
    LayerRegion(ZRange(Finite(0.0), Finite(100.0)), OpticalProperties(0.01, 1.0, 0.8, 1.4), DefaultKey),
    LayerRegion(ZRange(Finite(100.0), PosInf), AmbientOP, DefaultKey)]

  /** The default input: the default regions, then a Henyey-Greenstein input for their key if missing. */
  function Default(): (t: SingleEllipsoidTissueInput)
    ensures t.ellipsoidRegion == DefaultEllipsoid && t.layerRegions == DefaultLayers
    ensures t.regionPhaseFunctionInputs == map[DefaultKey := HenyeyGreensteinPhaseFunctionInput]
  {
    var t := Create(DefaultEllipsoid, DefaultLayers);
    t.(regionPhaseFunctionInputs := AddIfAbsent(t.regionPhaseFunctionInputs, DefaultKey, HenyeyGreensteinPhaseFunctionInput))
  }

  /** Layer i begins where layer i - 1 ends. */
  predicate ContiguousAt(layers: seq<TissueRegion>, i: int)
    requires 1 <= i < |layers|
  {
    layers[i - 1].LayerRegion? && layers[i].LayerRegion? && layers[i - 1].zRange.stop == layers[i].zRange.start
  }

  /** Each layer ends where the next begins. */
  predicate LayersContiguous(layers: seq<TissueRegion>) {
    forall i :: 1 <= i < |layers| ==> ContiguousAt(layers, i)
  }

  /** Every region's phase-function key is present in the dictionary. */
  predicate KeysResolve(t: SingleEllipsoidTissueInput) {
    forall r :: r in Regions(t) ==> r.phaseFunctionKey in t.regionPhaseFunctionInputs
  }

  /**
   The default tissue has four regions; its layers are contiguous and cover
   all depths from minus to plus infinity; the ellipsoid is a sphere of radius
   0.5 centred at (0, 0, 1), inside the middle layer; every key resolves.
   */
  lemma DefaultTissueShape()
    ensures |Regions(Default())| == 4
    ensures LayersContiguous(Default().layerRegions)
    ensures Default().layerRegions[0].zRange.start == NegInf
    ensures Default().layerRegions[2].zRange.stop == PosInf
    ensures var e := Default().ellipsoidRegion;
            e.center == Position(0.0, 0.0, 1.0) && e.dx == e.dy == e.dz == 0.5
    ensures var e := Default().ellipsoidRegion;
            0.0 < e.center.z - e.dz && e.center.z + e.dz < 100.0
    ensures KeysResolve(Default())
    ensures GetTissueType(Default()) == SingleEllipsoid
  {
    var t := Default();
    assert ContiguousAt(t.layerRegions, 1) && ContiguousAt(t.layerRegions, 2);
    forall r | r in Regions(t)
      ensures r.phaseFunctionKey in t.regionPhaseFunctionInputs
    {
      assert r.phaseFunctionKey == DefaultKey;
    }
  }

  /** Adding under a key already present changes nothing; so the default's key is added at most once. */
  lemma AddIfAbsentIdempotent(d: map<string, PhaseFunctionInput>, key: string, value: PhaseFunctionInput)
    ensures AddIfAbsent(AddIfAbsent(d, key, value), key, value) == AddIfAbsent(d, key, value)
    ensures key in d ==> AddIfAbsent(d, key, value)[key] == d[key]
  {
  }
}
