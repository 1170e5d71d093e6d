# Monte Carlo photon-transport core, modelled in Dafny

This project models the core of the VTS Monte Carlo engine. The engine launches
photons into layered tissue, steps each one until it dies, and tallies
weighted contributions into detectors.

The model covers the following parts:

- **Binning.** The rule every detector uses to index an axis. Contiguous bins clamp to the first or last bin. Sparse bins report -1 when no bin holds the value. Alongside these are the time-of-flight and radial-distance helpers.
- **Tally-type classification.** The classification of tally types into reflectance, transmittance, termination, perturbation (pMC) and history tallies.
- **Two detectors.**
  - The scalar diffuse-transmittance detector.
  - The complex-valued R(ρ, ω) frequency-domain tally. It has a per-row phasor update and an annular normalization.
- **Input validation.** The validator of a generic-volume virtual boundary's detector inputs.
- **The simulation driver.**
  - The validation gate and construction order of the constructor.
  - The decision in `Move` between the tissue boundary and the closest virtual boundary.
  - The per-photon do/while and its dispatch to detectors, region crossing, absorption and scattering.
  - The photon loop, which tallies each photon's history once and normalizes all detectors once at the end.
- **Tissue and source.**
  - Region assembly and the default configuration of the single-ellipsoid tissue input.
  - The start state of the custom point source. It deweights by specular reflection and consumes the random stream only for a non-degenerate polar-angle range.

## Modelling choices

**State and collaborators**
- Every component is an immutable datatype, and every operation is a pure function of it. A tally or normalization returns the new detector.
- Code outside the model enters as function-typed parameters. This covers:
  - the photon stepper;
  - tissue geometry;
  - the virtual-boundary controller;
  - the photon constructor;
  - `Optics.Specular`;
  - the cone sampler of `SourceToolbox`;
  - `IsVolumeTally`;
  - the simulation input validator;
  - square root, cosine and sine.

**The driver**
- In `Simulation`, the driver's photon is a state-flag set plus an abstract remainder `K`. The engine's operations are the fields of an `Engine`.
- The per-photon do/while has no bound in the engine. The model gives it a step budget (`fuel`); `Live` answers `None` exactly when the photon is still alive after each of those steps (`LiveIsTheDoWhile`).
- A run is described by the sequence of outcome-dependent calls it makes (`Event`). Examples are termination tallies, region crossings, absorb, scatter, history tallies, status lines and the final normalization.
- The random stream is not modelled in the driver: the source's n-th photon is `nextPhoton(n)`.
- The photon loop takes a `ProgressRule`. `AsWritten` is the engine's progress check, which throws for 1 ≤ N ≤ 9; the loop then fails at photon 1 with `ProgressCheckThrew(1)`. `FlooredPeriod` is the corrected check (see Findings). From N = 10 on, both rules make the same calls.

**Numbers**
- Doubles are Dafny `real`s.
- The speed of light (0.299792458 mm/ps) and π are constants. The proofs use only that they are positive.
- Complex numbers are pairs of reals.
- A `DoubleRange`'s spacing is (stop − start)/(count − 1), and 0 when count ≤ 1. That class is not part of this model.
- Infinite depths in the tissue layers are an extended-real datatype.

**Normalization**
- Neither detector guards Normalize: normalizing twice divides twice (`TDiffuse.NormalizeTwiceDividesTwice`).
- `ROfRhoAndOmega.Normalize` leaves the second moment unscaled.

## Model

| member | source | states |
|---|---|---|
| DetectorBinning.WhichBin | src/Vts/MonteCarlo/Helpers/DetectorBinning.cs:18-28 | With at least one bin the index is in [0, numberOfBins − 1]. With positive spacing, a value below the axis gets bin 0, a value at or past its end gets the last bin, and an in-range value gets the bin whose half-open interval holds it. |
| DetectorBinning.WhichBinIsTheHoldingBin | src/Vts/MonteCarlo/Helpers/DetectorBinning.cs:20 | For an in-range value and positive spacing, WhichBin returns i exactly when bin i holds the value. |
| DetectorBinning.UniformBinUnique | src/Vts/MonteCarlo/Helpers/DetectorBinning.cs:20 | With positive spacing, no two uniform bins hold the same value. |
| DetectorBinning.WhichBinMonotone | src/Vts/MonteCarlo/Helpers/DetectorBinning.cs:20-27 | With positive spacing and at least one bin, the contiguous index never decreases as the value grows. |
| DetectorBinning.WhichBinSparse | src/Vts/MonteCarlo/Helpers/DetectorBinning.cs:37-45 | The result is -1 exactly when no open bin holds the value. Otherwise it is the lowest index whose open bin holds it. A value on a bin edge is never assigned to that bin. A non-positive bin size always gives -1. |
| DetectorBinning.GetTimeDelay | src/Vts/MonteCarlo/Helpers/DetectorBinning.cs:47-50 | The delay equals path length × refractive index / C. |
| DetectorBinning.TimeDelayLinear | src/Vts/MonteCarlo/Helpers/DetectorBinning.cs:47-50 | The delay is linear in the path length, and zero path length gives zero delay. |
| DetectorBinning.GetRho | src/Vts/MonteCarlo/Helpers/DetectorBinning.cs:52-55 | Given a true square root, ρ is non-negative and ρ² = x² + y². |
| DetectorBinning.GetRhoSymmetric | src/Vts/MonteCarlo/Helpers/DetectorBinning.cs:52-55 | ρ is unchanged by negating x, negating y, or swapping them. |
| TallyTypes.IsReflectanceTally | src/Vts/MonteCarlo/Detectors/TallyExtensionMethods.cs:9-26 | A type is a reflectance tally exactly when it is in the listed set of nine reflectance types. |
| TallyTypes.IsTransmittanceTally | src/Vts/MonteCarlo/Detectors/TallyExtensionMethods.cs:28-40 | A type is a transmittance tally exactly when it is in the listed set of four transmittance types. |
| TallyTypes.IsTerminationTally | src/Vts/MonteCarlo/Detectors/TallyExtensionMethods.cs:42-45 | A type is a termination tally exactly when it is a listed reflectance or transmittance type. |
| TallyTypes.IspMCTally | src/Vts/MonteCarlo/Detectors/TallyExtensionMethods.cs:47-57 | A type is a pMC tally exactly when it is pMCROfRho or pMCROfRhoAndTime. |
| TallyTypes.IsHistoryTally | src/Vts/MonteCarlo/Detectors/TallyExtensionMethods.cs:59-72 | A type is a history tally exactly when it is one of the five listed fluence, absorption and momentum-transfer types. |
| TallyTypes.ReflectanceTransmittanceDisjoint | src/Vts/MonteCarlo/Detectors/TallyExtensionMethods.cs:9-40 | No tally type is both a reflectance and a transmittance tally. |
| TallyTypes.PerturbationIsReflectance | src/Vts/MonteCarlo/Detectors/TallyExtensionMethods.cs:9-57 | Every pMC tally is a reflectance tally and hence a termination tally. |
| TallyTypes.HistoryIsNotTermination | src/Vts/MonteCarlo/Detectors/TallyExtensionMethods.cs:9-72 | No history tally is a termination tally. |
| TallyTypes.UnlistedTypesClassifyFalse | src/Vts/MonteCarlo/Detectors/TallyExtensionMethods.cs:23-24 | The pMCMuaMus types reach the default branch of every predicate and classify false. |
| TallyTypes.ReflectanceCount | src/Vts/MonteCarlo/Detectors/TallyExtensionMethods.cs:9-26 | The reflectance cases name nine distinct types. |
| TallyTypes.TransmittanceCount | src/Vts/MonteCarlo/Detectors/TallyExtensionMethods.cs:28-40 | The transmittance cases name four distinct types. |
| TDiffuse.Create | src/Vts/MonteCarlo/Detectors/TDiffuseDetector.cs:19-26 | A new detector has zero mean, zero second moment and zero count. Its type is TDiffuse and it has the given name and tracking flag. |
| TDiffuse.CreateDefault | src/Vts/MonteCarlo/Detectors/TDiffuseDetector.cs:30-33 | The default detector tracks the second moment and is named "TDiffuse". |
| TDiffuse.Tally | src/Vts/MonteCarlo/Detectors/TDiffuseDetector.cs:44-52 | The mean gains the weight and the count gains exactly 1. The second moment gains the squared weight only when tracking, and is otherwise unchanged. Name, type and flag are kept. |
| TDiffuse.Normalize | src/Vts/MonteCarlo/Detectors/TDiffuseDetector.cs:54-61 | The result's mean times N is the old mean. The second moment is divided only when tracking. Count, name and type are unchanged. |
| TDiffuse.ContainsPoint | src/Vts/MonteCarlo/Detectors/TDiffuseDetector.cs:63-66 | A photon counts exactly when ExitedOutBottom is among its flags. |
| TDiffuse.ContainsPointIgnoresOtherFlags | src/Vts/MonteCarlo/Detectors/TDiffuseDetector.cs:63-66 | A photon counts whenever ExitedOutBottom is among its flags, whatever else is there, and never otherwise. |
| TDiffuse.TallyAllAccumulates | src/Vts/MonteCarlo/Detectors/TDiffuseDetector.cs:44-52 | After any sequence of tallies, the mean grows by the sum of the weights and the count by their number. The second moment grows by the sum of squared weights when tracked. |
| TDiffuse.TallyAllNonNegative | src/Vts/MonteCarlo/Detectors/TDiffuseDetector.cs:44-52 | With non-negative weights both moments stay non-negative. |
| TDiffuse.NormalizeTwiceDividesTwice | src/Vts/MonteCarlo/Detectors/TDiffuseDetector.cs:54-61 | Normalizing twice divides the mean by N²; for a non-zero mean and N ≠ 1 the second call changes the detector. |
| TDiffuse.NormalizedMeanIsAverage | src/Vts/MonteCarlo/Detectors/TDiffuseDetector.cs:44-61 | Over a run, the normalized mean is the summed weight over N. |
| ROfRhoAndOmega.Create | src/Vts/MonteCarlo/TallyActions/ROfRhoAndOmegaTally.cs:22-28 | Both grids are rho.count × omega.count and all zero. |
| ROfRhoAndOmega.ContainsPoint | src/Vts/MonteCarlo/TallyActions/ROfRhoAndOmegaTally.cs:42-45 | A photon counts exactly when its flag set equals {ExitedOutTop}. |
| ROfRhoAndOmega.ContainsPointNeedsExactFlag | src/Vts/MonteCarlo/TallyActions/ROfRhoAndOmegaTally.cs:42-45 | A photon counts when ExitedOutTop is its only flag. Adding any other flag excludes it. |
| ROfRhoAndOmega.Contribution | src/Vts/MonteCarlo/TallyActions/ROfRhoAndOmegaTally.cs:60-61 | A zero-weight photon contributes zero. A phase with zero sine gives a real phasor, and one with zero cosine a purely imaginary phasor. |
| ROfRhoAndOmega.RhoBin | src/Vts/MonteCarlo/TallyActions/ROfRhoAndOmegaTally.cs:49 | The row chosen for a photon is always a row of the grid. |
| ROfRhoAndOmega.TotalTime | src/Vts/MonteCarlo/TallyActions/ROfRhoAndOmegaTally.cs:50-54 | The time of flight is the sum of the per-region time delays, pairing the i-th sub-region with the i-th region's index. |
| ROfRhoAndOmega.TotalTimeIsOpticalPathOverC | src/Vts/MonteCarlo/TallyActions/ROfRhoAndOmegaTally.cs:50-54 | The summed per-region time delay is the optical path length Σ pathLengthᵢ·nᵢ divided by C. |
| ROfRhoAndOmega.TotalTimeNonNegative | src/Vts/MonteCarlo/TallyActions/ROfRhoAndOmegaTally.cs:50-54 | With non-negative path lengths and indices, the time of flight is non-negative. |
| ROfRhoAndOmega.Tally | src/Vts/MonteCarlo/TallyActions/ROfRhoAndOmegaTally.cs:47-68 | Only the photon's rho row changes. There, column iw's mean gains w·(cos φ + i sin φ) at frequency (iw+1)·Δω, and its second moment gains that phasor's complex square. Every other row is unchanged and the grids keep their shape. |
| ROfRhoAndOmega.TallyZeroWeightChangesNothing | src/Vts/MonteCarlo/TallyActions/ROfRhoAndOmegaTally.cs:47-68 | A zero-weight photon leaves the tally unchanged. |
| ROfRhoAndOmega.TallyOrderIrrelevant | src/Vts/MonteCarlo/TallyActions/ROfRhoAndOmegaTally.cs:47-68 | Tallying two photons in either order gives the same tally. |
| Numerics.ComplexSquareVersusModulusSquared | src/Vts/MonteCarlo/TallyActions/ROfRhoAndOmegaTally.cs:62-66 | For every complex z: z·z equals \|z\|² when z is real, and differs from it when both parts of z are non-zero. |
| ROfRhoAndOmega.TallySecondMomentVersusModulusSquared | src/Vts/MonteCarlo/TallyActions/ROfRhoAndOmegaTally.cs:62-66 | For every photon and column, the second-moment entry after a tally equals the \|c\|² update when w·sin φ = 0. It differs from that update whenever w·cos φ and w·sin φ are both non-zero. |
| ROfRhoAndOmega.NormalizationFactorNonZero | src/Vts/MonteCarlo/TallyActions/ROfRhoAndOmegaTally.cs:76 | The annulus divisor 2π(ir + ½)·Δρ·Δρ·N is non-zero for a grid row, a non-zero spacing and N ≠ 0. |
| ROfRhoAndOmega.Normalize | src/Vts/MonteCarlo/TallyActions/ROfRhoAndOmegaTally.cs:70-79 | Each mean entry of row ir, times 2π(ir + ½)·Δρ·Δρ·N, gives back the old entry. The second moment is unchanged. |
| ROfRhoAndOmega.NormalizeKeepsZero | src/Vts/MonteCarlo/TallyActions/ROfRhoAndOmegaTally.cs:70-79 | Normalizing an empty tally leaves it empty. |
| VolumeVbValidation.ValidateFrom | src/Vts/MonteCarlo/DataStructuresValidation/VirtualBoundaryInputs/GenericVolumeVirtualBoundaryInputValidation.cs:20-41 | The foreach from the i-th input: the first non-volume input returns the "not a volume type" result, the boundary-type check follows it, and the loop's end returns the valid result. |
| VolumeVbValidation.ValidateFromCharacterized | src/Vts/MonteCarlo/DataStructuresValidation/VirtualBoundaryInputs/GenericVolumeVirtualBoundaryInputValidation.cs:20-37 | From any position on, the loop passes exactly when every remaining input is a volume tally. It fails only with the "not a volume type" result. |
| VolumeVbValidation.ValidateInput | src/Vts/MonteCarlo/DataStructuresValidation/VirtualBoundaryInputs/GenericVolumeVirtualBoundaryInputValidation.cs:18-42 | The input is valid exactly when every detector input is a volume tally. A failure is always the "not a volume type" result. The boundary-type consistency result is never returned. |
| VolumeVbValidation.EmptyInputIsValid | src/Vts/MonteCarlo/DataStructuresValidation/VirtualBoundaryInputs/GenericVolumeVirtualBoundaryInputValidation.cs:39-41 | With no detector inputs the result is the valid one. |
| VolumeVbValidation.ResultIgnoresBoundaryType | src/Vts/MonteCarlo/DataStructuresValidation/VirtualBoundaryInputs/GenericVolumeVirtualBoundaryInputValidation.cs:18-42 | The result does not depend on the virtual boundary type. |
| VolumeVbValidation.FirstOffenderDecides | src/Vts/MonteCarlo/DataStructuresValidation/VirtualBoundaryInputs/GenericVolumeVirtualBoundaryInputValidation.cs:20-28 | Once a non-volume input occurs, whatever follows it, the result is the "not a volume type" failure. |
| Simulation.Move | src/Vts/MonteCarlo/MonteCarloSimulation.cs:212-243 | If the tissue boundary is strictly closer, the photon moves there, no flag is added, and the result is Tissue or None by the move's hit. Otherwise, with no finite virtual boundary, Alive is removed, the photon is not moved, and the result is Virtual. Otherwise the photon moves to the virtual boundary, gains its state flag even without a hit, and the result is Virtual exactly on a hit. |
| Simulation.MoveHitCharacterized | src/Vts/MonteCarlo/MonteCarloSimulation.cs:212-243 | The hit, both ways: Tissue exactly when the tissue boundary is strictly closer and the move reaches it. Virtual exactly when it is not strictly closer and either no virtual boundary is finite or the move reaches the virtual one. None in the remaining cases. |
| Simulation.MoveTieGoesToVirtualBoundary | src/Vts/MonteCarlo/MonteCarloSimulation.cs:223-240 | At equal finite distances the virtual boundary wins. |
| Simulation.MoveWithNoBoundaryKills | src/Vts/MonteCarlo/MonteCarloSimulation.cs:231-235 | With both distances infinite, the photon loses Alive, is not moved, and the result is Virtual. |
| Simulation.Step | src/Vts/MonteCarlo/MonteCarloSimulation.cs:141-173 | Termination detectors are tallied exactly on a Virtual hit, and that tally is the step's only call. Region crossing happens exactly on a Tissue hit, as the only call. Absorb happens exactly on no hit. Scatter follows it exactly when the photon was not absorbed. |
| Simulation.Live | src/Vts/MonteCarlo/MonteCarloSimulation.cs:141-175 | A finished life ends without Alive, after at least one and at most fuel steps. |
| Simulation.LiveFinishedIsIterate | src/Vts/MonteCarlo/MonteCarloSimulation.cs:141-175 | A finished life's photon is the step applied `steps` times, and its calls are those steps' calls in order. The photon is still Alive after every earlier step, so the loop stepped it again. |
| Simulation.LiveUnfinishedStaysAlive | src/Vts/MonteCarlo/MonteCarloSimulation.cs:141-175 | A life that does not finish within the budget leaves the photon Alive after each of its budgeted steps. |
| Simulation.LiveIsTheDoWhile | src/Vts/MonteCarlo/MonteCarloSimulation.cs:141-175 | A life finishes within the budget exactly when some step among the first `fuel` removes Alive. It then stops at the first such step, holding the iterated photon and the iterated calls. |
| Simulation.LiveFuelMonotone | src/Vts/MonteCarlo/MonteCarloSimulation.cs:141-175 | More step budget never changes a life that already ended. |
| Simulation.LiveMakesOnlyStepCalls | src/Vts/MonteCarlo/MonteCarloSimulation.cs:141-175 | A life makes only step calls, between one and two per step. |
| Simulation.LiveStepsAtLeastOnce | src/Vts/MonteCarlo/MonteCarloSimulation.cs:141-175 | The body runs once before the loop condition is evaluated: a photon dead after one step lives exactly one step. |
| Simulation.ProgressDueAsWritten | src/Vts/MonteCarlo/MonteCarloSimulation.cs:133-137 | The check as written fails (division by zero) exactly when N < 10. |
| Simulation.ProgressCheckThrowsBelowTen | src/Vts/MonteCarlo/MonteCarloSimulation.cs:133-134 | For 1 ≤ N < 10 the first photon already hits the division by zero. |
| Simulation.ProgressDue | src/Vts/MonteCarlo/MonteCarloSimulation.cs:133-137 | The corrected check is total, and every photon reports when N < 10. |
| Simulation.ProgressDueAgreesWhereDefined | src/Vts/MonteCarlo/MonteCarloSimulation.cs:133-137 | Wherever the written check does not fail, it agrees with the corrected one. |
| Simulation.ProgressCheck | src/Vts/MonteCarlo/MonteCarloSimulation.cs:133-137 | Under either rule, the check fails only for the written rule with N < 10. Whenever it answers, it answers as the corrected check does. |
| Simulation.StatusReport | src/Vts/MonteCarlo/MonteCarloSimulation.cs:133-137 | Photon n reports its percentage done exactly when its report is due. The percentage is 100n/N, lies in 0..100, and is 100 exactly for the last photon. The report fails exactly when the written check throws. |
| Simulation.Percent | src/Vts/MonteCarlo/MonteCarloSimulation.cs:273 | The completed percentage is between 0 and 100. It is 100 exactly for the last photon. |
| Simulation.PhotonEvents | src/Vts/MonteCarlo/MonteCarloSimulation.cs:131-189 | Under the written rule with N < 10 no photon finishes. A finished photon's calls end with its history tally, of a photon no longer Alive. |
| Simulation.RunPrefixAgrees | src/Vts/MonteCarlo/MonteCarloSimulation.cs:131-196 | Two runs that make the same calls for photons 1 to k make the same calls over the whole prefix of length k. |
| Simulation.PhotonRunRulesAgreeFromTen | src/Vts/MonteCarlo/MonteCarloSimulation.cs:131-189 | For N ≥ 10 every photon makes the same calls under the written and the corrected progress check. |
| Simulation.RunPrefixRulesAgreeFromTen | src/Vts/MonteCarlo/MonteCarloSimulation.cs:131-196 | For N ≥ 10 every prefix of the run is the same under both progress rules. |
| Simulation.WrittenCheckStopsEveryPrefix | src/Vts/MonteCarlo/MonteCarloSimulation.cs:131-139 | Under the written check with 1 ≤ N ≤ 9, no prefix of one or more photons completes. |
| Simulation.RunPrefixFailureSticks | src/Vts/MonteCarlo/MonteCarloSimulation.cs:131-196 | Once a photon's life fails to finish, every longer run fails too. |
| Simulation.PhotonLoop | src/Vts/MonteCarlo/MonteCarloSimulation.cs:131-205 | The loop succeeds exactly when photons 1..N all finish. Its calls are theirs in order, followed by one NormalizeDetectors(N). A failure names the first photon that did not finish. |
| Simulation.ExecuteMCLoop | src/Vts/MonteCarlo/MonteCarloSimulation.cs:110-210 | A completed run's calls are those of photons 1 to N in order, followed by NormalizeDetectors(N). It normalizes exactly once and tallies exactly one history per photon launched. A failure names the first photon that did not finish, and says whether its progress check threw (exactly under the written rule with N < 10) or it outlived its step budget. Under the written rule, a run of 1 to 9 photons fails at photon 1 with the progress check. |
| Simulation.PhotonEventsTallyHistoryOnce | src/Vts/MonteCarlo/MonteCarloSimulation.cs:139-189 | One photon's calls contain exactly one history tally, of a photon no longer Alive, and no normalization. |
| Simulation.RunPrefixCounts | src/Vts/MonteCarlo/MonteCarloSimulation.cs:131-196 | If each photon's calls hold one history tally and no normalization, then photons 1 to k together hold k history tallies and no normalization. |
| Simulation.RunPrefixTalliesEachHistoryOnce | src/Vts/MonteCarlo/MonteCarloSimulation.cs:131-196 | After k photons there have been exactly k history tallies and no normalization. |
| Simulation.CompletedRunCounts | src/Vts/MonteCarlo/MonteCarloSimulation.cs:131-205 | A completed run has one normalization and N history tallies. |
| Simulation.ConstructionOrderBuildable | src/Vts/MonteCarlo/MonteCarloSimulation.cs:52-65 | Each of RNG, tissue, source, detectors, detector controller and virtual boundary controller is built after the parts it is built from. |
| Simulation.ComponentsHoldEveryPart | src/Vts/MonteCarlo/MonteCarloSimulation.cs:49-65 | The constructor builds the RNG, tissue, source, detectors, detector controller and virtual boundary controller always, and statistics exactly when tracked. |
| Simulation.ComponentsBuildable | src/Vts/MonteCarlo/MonteCarloSimulation.cs:49-65 | The build order holds every part other than statistics, and statistics exactly when tracked. With or without statistics first, every part's dependencies come earlier in the order. |
| Simulation.ErrorMessage | src/Vts/MonteCarlo/MonteCarloSimulation.cs:41 | The exception text starts with the rule. It is followed by "; " and the remarks exactly when the remarks are non-empty. |
| Simulation.Construct | src/Vts/MonteCarlo/MonteCarloSimulation.cs:30-66 | Construction fails exactly when validation fails, and then carries the validation message and builds nothing. Otherwise it copies N and the options, and builds every part: the RNG, tissue, source, detectors and both controllers always, statistics exactly when tracked. Each part is built after its dependencies. |
| Simulation.ConstructBuildsEachPartOnce | src/Vts/MonteCarlo/MonteCarloSimulation.cs:49-65 | A constructed simulation builds no part twice and always has a tissue. |
| EllipsoidTissueInput.Create | src/Vts/MonteCarlo/DataStructures/TissueInputs/SingleEllipsoidTissueInput.cs:32-39 | Stores both regions and starts with an empty phase-function dictionary. |
| EllipsoidTissueInput.CreateWithPhaseFunctions | src/Vts/MonteCarlo/DataStructures/TissueInputs/SingleEllipsoidTissueInput.cs:46-54 | Stores both regions and the given dictionary. |
| EllipsoidTissueInput.GetTissueType | src/Vts/MonteCarlo/DataStructures/TissueInputs/SingleEllipsoidTissueInput.cs:97 | The type is always SingleEllipsoid. |
| EllipsoidTissueInput.Regions | src/Vts/MonteCarlo/DataStructures/TissueInputs/SingleEllipsoidTissueInput.cs:102 | The regions are one longer than the layers. They begin with the layers in order and end with the ellipsoid. |
| EllipsoidTissueInput.SetEllipsoidRegion | src/Vts/MonteCarlo/DataStructures/TissueInputs/SingleEllipsoidTissueInput.cs:106 | Replaces the ellipsoid and keeps the layers and dictionary. |
| EllipsoidTissueInput.SetLayerRegions | src/Vts/MonteCarlo/DataStructures/TissueInputs/SingleEllipsoidTissueInput.cs:110 | Replaces the layers and keeps the ellipsoid and dictionary. |
| EllipsoidTissueInput.RegionsFollowSetters | src/Vts/MonteCarlo/DataStructures/TissueInputs/SingleEllipsoidTissueInput.cs:102-110 | The regions reflect either setter at once: the new ellipsoid last, or the new layers first. |
| EllipsoidTissueInput.AddIfAbsent | src/Vts/MonteCarlo/DataStructures/TissueInputs/SingleEllipsoidTissueInput.cs:86-87 | The key is present afterwards. An existing entry is kept unchanged. A missing key adds exactly one entry. |
| EllipsoidTissueInput.AddIfAbsentIdempotent | src/Vts/MonteCarlo/DataStructures/TissueInputs/SingleEllipsoidTissueInput.cs:86-87 | Adding the same key again changes nothing. |
| EllipsoidTissueInput.Default | src/Vts/MonteCarlo/DataStructures/TissueInputs/SingleEllipsoidTissueInput.cs:60-88 | The default has the ellipsoid and three layers as configured, and a dictionary holding only a Henyey-Greenstein input under "HenyeyGreensteinKey1". |
| EllipsoidTissueInput.DefaultTissueShape | src/Vts/MonteCarlo/DataStructures/TissueInputs/SingleEllipsoidTissueInput.cs:60-88 | The default has four regions. Its layers are contiguous from −∞ to +∞. The ellipsoid is a radius-0.5 sphere at (0, 0, 1) inside the middle layer. Every region's key resolves. |
| PointSource.Create | src/Vts/MonteCarlo/Sources/CustomPointSource.cs:20-29 | Stores position, orientation and both angle ranges. |
| PointSource.CreateDefault | src/Vts/MonteCarlo/Sources/CustomPointSource.cs:34-39 | The default source is at the origin, faces +z, and has single-point angle ranges, so its polar spacing is 0. |
| PointSource.FromInput | src/Vts/MonteCarlo/Sources/CustomPointSource.cs:46-52 | The input's location, axis and both ranges are copied unchanged. |
| PointSource.GetNextPhoton | src/Vts/MonteCarlo/Sources/CustomPointSource.cs:57-76 | Emission fails exactly when the photon starts on the surface and the tissue has fewer than two regions. The photon starts where the constructor puts the origin. Its weight becomes 1 − Specular(n₀, n₁) only on the surface between regions of different index. A zero polar spacing makes no draw and keeps +z. Otherwise exactly one draw sets the direction. |
| PointSource.EmissionIgnoresConfiguredPosition | src/Vts/MonteCarlo/Sources/CustomPointSource.cs:59-62 | The configured position plays no part in emission. |
| PointSource.NoDeweightingOffSurfaceOrMatched | src/Vts/MonteCarlo/Sources/CustomPointSource.cs:65-67 | Off the surface, or between regions of equal index, the constructed weight is kept. |
| PointSource.EmitMany | src/Vts/MonteCarlo/Sources/CustomPointSource.cs:69-73 | Emitting k photons makes k draws, or none for a zero polar spacing. In that case the stream is untouched and all k photons are identical. |

## Left out

- DetectorBinning.WhichBin: requires a non-zero bin size. With a zero size the double quotient is infinite or NaN, and the integer cast of its floor is platform-defined. The cast's 32-bit range is not modelled either.
- DetectorBinning.GetTimeDelay: doubles are reals. A zero index makes C/n infinite and the delay 0, which the model reproduces; a NaN is not modelled.
- TDiffuse.Normalize: requires N ≠ 0, because a division by zero yields an infinity or NaN. The 64-bit tally count is unbounded here.
- ROfRhoAndOmega.Tally: requires at least as many optical-property entries as sub-region records, where the source throws an index exception. It also requires a non-zero ρ spacing, for the same reason as WhichBin.
- ROfRhoAndOmega.RhoBin: requires a non-zero ρ spacing, for the same reason as WhichBin: with zero spacing the double quotient is infinite or NaN and the row index is platform-defined.
- ROfRhoAndOmega.TallySecondMomentVersusModulusSquared: the pure-imaginary phasor (w·cos φ = 0, w·sin φ ≠ 0) is not covered. There the second moment also differs from the \|c\|² update, since its real part gains −w²·sin²φ, but the lemma states the difference only when both parts are non-zero.
- Numerics.ComplexSquareVersusModulusSquared: the difference is stated for z with both parts non-zero. A purely imaginary z is not covered.
- ROfRhoAndOmega.Normalize: requires N ≠ 0 and a non-zero ρ spacing, for the reason given for TDiffuse.Normalize.
- ROfRhoAndOmega.Tally: cosine and sine are uninterpreted. The model does not state that the phasor has modulus w.
- Simulation.Live: the per-photon do/while is bounded by a step budget; a photon still alive after it is reported, not run on.
- Simulation.ExecuteMCLoop: the photon/collision database writers, statistics tracking, the final statistics file and console output are left out. These are file and console I/O. The status line is kept as an event.
- Simulation.Percent: the 64-bit product 100·n is unbounded here.
- Simulation.Construct: the factories for tissue, source, detectors and controllers are not modelled, only the order in which they are called and what each is built from. The simulation input validator is a parameter.
- VolumeVbValidation.ValidateInput: IsVolumeTally and IsGenericVolumeVirtualBoundary are not part of this model and enter as predicates.
- The two-argument ValidationResult constructor's default remarks value is not part of this model; the valid result is modelled with empty remarks.
- The TallyType, PhotonStateType and TissueType enumerations are not part of this model. They are modelled with the enumerators the modelled code refers to.
- PointSource.GetNextPhoton: the photon constructor, the surface test, Optics.Specular and the cone sampler are parameters. The absorption-weighting argument is folded into the constructor. The photon constructor also receives the random stream; the model assumes it draws nothing from it, so only the cone sampler advances the stream.
- PointSource.EmitMany: the draw count (k, or none for a zero polar spacing) rests on the same assumption that the photon constructor draws nothing from the random stream.
- DetectorIO, SimulationStatistics, the volumetric ellipsoidal source and the cylindrical fiber source are outside the modelled core. They are file I/O, counters with XML persistence, and thin wrappers over the random-number toolbox.

## Findings

| source | as written | input that shows it | evidently intended | confidence | as-written member | corrected member |
|---|---|---|---|---|---|---|
| src/Vts/MonteCarlo/MonteCarloSimulation.cs:133-134 | the progress check computes n % (N / 10), so for N < 10 the divisor is 0 and the first photon throws | N = 5, n = 1: 5 / 10 = 0, and 1 % 0 throws | report progress every max(1, N / 10) photons, so runs of fewer than ten photons work | not executed | Simulation.ProgressCheckThrowsBelowTen | Simulation.ProgressDueAgreesWhereDefined |
