# Cardinal's nekRS interface layer, modelled in Dafny

Cardinal couples the spectral-element CFD code nekRS to MOOSE. Its header
`include/base/NekInterface.h` declares the layer between the two codes. This layer
keeps per-rank registries of the nekRS faces and elements that take part in the
coupling. It computes receive layouts for the all-gathers that build those
registries. It validates requested boundary ids, manages the scratch space that holds
transferred heat flux and heat source, limits temperatures, and converts
non-dimensional nekRS values into dimensional ones. `include/base/CardinalEnums.h`
declares the closed enumerations that select mesh orders, fields and reductions.

The model follows the declarations, struct layouts and documentation comments of these
two headers; the implementations of the declared functions are outside these headers.
Each contract states what the
declarations and comments promise. The rank, the communicator size, nekRS's own arrays
and queries (`NboundaryID()`, the temperature array) and the result of MPI collectives
are all parameters.

Modules:

- `Wrappers` (`wrappers.dfy`): `Option`.
- `Sums` (`sums.dfy`): sums of integer sequences and lemmas about prefix sums.
- `CardinalEnums` (`cardinal_enums.dfy`): `NekOrderEnum`, `NekFieldEnum`, `NekWriteEnum`
  and `OperationEnum`, each with its values in declaration order.
- `Nekrs` (`nekrs.dfy`): `displacementAndCounts`, the scratch-space lifecycle with the
  flux and heat-source writers, and `limitTemperature`.
- `Mesh` (`mesh.dfy`): `boundaryCoupling`, `volumeCoupling`, their `processor_id` and
  the calls that fill them, plus `validBoundaryIDs`.
- `Solution` (`solution.dfy`): `characteristicScales`, `initializeDimensionalScales`,
  `referenceFlux`, `referenceSource`, `dimensionalize` and `unity`.

Representation choices:

- The registries' parallel `int *` arrays are sequences. In `boundaryCoupling` the
  `element`, `face` and `boundary_id` arrays have the same length and the same index, so
  they are one sequence of `BoundaryFace` records. Likewise `element`, `boundary` and
  `n_faces_on_boundary` in `volumeCoupling` are one sequence of `VolumeElement` records.
- The `process` array is described by its layout. Rank q's entries are a block of
  `counts[q]` positions that starts after the blocks of ranks 0..q-1 (`Owners`). This is
  the layout an all-gather with `displacementAndCounts` produces. It is also what the
  header's `offset` ("where this rank's data begins") requires.
- The derived scales `flux_ref` and `source_ref` are stored fields, as in the struct.
  The object invariant `Valid()` ties them to the scales they are derived from. As a
  result, `referenceFlux` and `referenceSource` always agree with the current scales.
- Doubles are `real`, and C `int` is the unbounded `int`.

Two readings of the header decide the shape of the model:

- `dimensionalize` on temperature multiplies by `dT_ref` only. NekInterface.h:810-812
  says the routine treats only the characteristic scale in the denominator, and that
  the remaining steps for temperature, such as the `T_ref` offset, happen elsewhere.
  Lemma `DimensionalizeIsScaling` proves that no offset is added. The header names
  only this temperature scale; the other fields' scales (`U_ref` for velocities,
  `rho_ref * U_ref^2` for pressure, 1 for the unit field) are the model's choice.
- The valid boundary ids are read as 1..`NboundaryID()`. The header documents the
  output `n_boundaries` as the maximum valid boundary id (NekInterface.h:602); the model
  takes that maximum to be `NboundaryID()`, the number of boundary ids in the mesh,
  with ids numbered from 1.

## Model

| member | source | states |
|---|---|---|
| Nekrs.DisplacementAndCounts | include/base/NekInterface.h:204-211 | the receive counts are `multiplier` times the unit-wise counts for every rank, and each rank's displacement is the sum of the counts of the ranks before it |
| Nekrs.GatherSpan | include/base/NekInterface.h:204-211 | the first displacement is 0, and the last rank's block ends at `multiplier` times the total of the unit-wise counts |
| Nekrs.GatherBlocksAdjacent | include/base/NekInterface.h:204-211 | every rank's block starts exactly where the previous rank's block ends |
| Nekrs.GatherBlocksDisjoint | include/base/NekInterface.h:204-211 | with non-negative counts and multiplier, the blocks of different ranks do not overlap and are in rank order |
| Nekrs.Scratch.ScratchAvailable | include/base/NekInterface.h:166-170 | true exactly when both scratch slots are allocated at full length, false when they are released |
| Nekrs.Scratch.InitializeScratch | include/base/NekInterface.h:172-173 | afterwards the scratch space is available, with both slots allocated |
| Nekrs.Scratch.FreeScratch | include/base/NekInterface.h:175-176 | afterwards the scratch space is no longer available |
| Nekrs.Scratch.WriteFlux | include/base/NekInterface.h:757-762 | needs allocated scratch space and an index in range; writes exactly one flux entry and leaves the heat-source slot unchanged |
| Nekrs.Scratch.WriteHeatSource | include/base/NekInterface.h:764-769 | needs allocated scratch space and an index in range; writes exactly one heat-source entry and leaves the flux slot unchanged |
| Nekrs.Limit | include/base/NekInterface.h:390-395 | the result lies in [min_T, max_T], a value already in range is unchanged, a value below min_T becomes min_T (when the bounds are ordered) and a value above max_T becomes max_T; an absent bound does not limit |
| Nekrs.LimitTemperature | include/base/NekInterface.h:390-395 | every temperature is replaced in place by its limited value, so values already in range are unchanged and, whenever min_T <= max_T, afterwards all lie in [min_T, max_T]; an absent bound does not limit |
| Mesh.BoundaryCoupling.Store | include/base/NekInterface.h:619-624 | afterwards the registry holds every rank's faces in rank order, and `counts` has one entry per rank; the counts sum to `total_n_faces`, this rank's count is `n_faces`, `offset` is the sum of the counts of lower ranks, and the returned N is the total |
| Mesh.BoundaryCoupling.ProcessorId | include/base/NekInterface.h:501-521 | for a face index in [0, total_n_faces), returns `process[e]`, which is the rank whose block of the all-rank arrays contains e |
| Mesh.BoundaryCoupling.OwnRange | include/base/NekInterface.h:501-514 | this rank's block [offset, offset + n_faces) fits within the total, and a face is owned by this rank exactly when it lies in that block |
| Mesh.VolumeCoupling.Store | include/base/NekInterface.h:635-639 | afterwards the registry holds every rank's elements in rank order; the counts have one entry per rank, sum to `total_n_elems`, and this rank's count is `n_elems`; the returned N is the total |
| Mesh.VolumeCoupling.ProcessorId | include/base/NekInterface.h:463-486 | for an element index in [0, total_n_elems), returns `process[e]`, which is the rank whose block contains e |
| Mesh.ValidBoundaryIds | include/base/NekInterface.h:592-605 | returns true exactly when every id lies in 1..n_boundaries, so an empty vector is valid; when false, `first_invalid_id` is the earliest invalid id in vector order, and when true it is left untouched; `n_boundaries` is reported back |
| Mesh.OwnersBlock | include/base/NekInterface.h:501-505 | every position of the `process` array lies inside the block of the rank it names |
| Mesh.OwnersAt | include/base/NekInterface.h:501-505 | the j-th position of rank q's block names rank q |
| Mesh.FlattenAt | include/base/NekInterface.h:492-514 | the j-th entry that rank q contributes lands at position (entries of lower ranks) + j of the gathered arrays |
| CardinalEnums.OrderValue | include/base/CardinalEnums.h:34-39 | `first` is 0 and `second` is 1, and decoding the value gives the order back |
| CardinalEnums.OrderFromValue | include/base/NekInterface.h:254-261 | an integer order argument denotes an order exactly when it is 0 (first) or 1 (second) |
| CardinalEnums.OrderFromValueInverse | include/base/NekInterface.h:254-261 | an integer that decodes to an order is that order's value, so decoding and encoding are inverse in both directions |
| CardinalEnums.FieldOrdinal | include/base/CardinalEnums.h:54-65 | every read field has its declaration position among the eight read fields |
| CardinalEnums.ReadFieldsClosed | include/base/CardinalEnums.h:54-65 | exactly eight read fields, all distinct, every value listed |
| CardinalEnums.WriteOrdinal | include/base/CardinalEnums.h:67-75 | every write field has its declaration position among the five write fields |
| CardinalEnums.WriteFieldsClosed | include/base/CardinalEnums.h:67-75 | exactly five write fields, all distinct |
| CardinalEnums.OperationOrdinal | include/base/CardinalEnums.h:80-85 | the operations are exactly `max` and `min`, in that order |
| Solution.CharacteristicScales.InitializeDimensionalScales | include/base/NekInterface.h:792-802 | the six given scales are stored, and the derived flux and source scales are brought up to date |
| Solution.CharacteristicScales.ReferenceFlux | include/base/NekInterface.h:818-822 | the reference heat flux is rho_ref * Cp_ref * U_ref * dT_ref |
| Solution.CharacteristicScales.ReferenceSource | include/base/NekInterface.h:824-828 | the reference heat source times L_ref is the reference heat flux, so for non-zero L_ref it is rho Cp U dT / L |
| Solution.CharacteristicScales.ReferenceScale | include/base/NekInterface.h:804-816 | each field's reference scale is strictly positive whenever the velocity, temperature-range and density scales are |
| Solution.CharacteristicScales.Dimensionalize | include/base/NekInterface.h:804-816 | multiplying by the reference scale maps zero to zero and, for positive scales, keeps the sign of the value |
| Solution.CharacteristicScales.Nondimensionalize | include/base/NekInterface.h:804-816 | the non-dimensional form f / f_ref, which dimensionalizes back to f |
| Solution.CharacteristicScales.DimensionalizeRoundTrip | include/base/NekInterface.h:804-816 | dimensionalizing and non-dimensionalizing are inverses whenever the reference scale is non-zero |
| Solution.CharacteristicScales.DimensionalizeIsScaling | include/base/NekInterface.h:804-816 | dimensionalizing is additive, and a temperature is multiplied by dT_ref with no T_ref offset |
| Solution.CharacteristicScales.DimensionalizeMonotone | include/base/NekInterface.h:804-816 | with positive scales, dimensionalizing preserves the order of values |
| Solution.UnitIntegrand | include/base/NekInterface.h:722-727 | the unit integrand is 1 at every GLL index |

## Left out

- Nekrs.DisplacementAndCounts: the counts are unbounded integers, so the model does not capture 32-bit `int` overflow of `multiplier * base_counts[r]` or of the running displacement. The model does not cover aliased arrays: it requires `base_counts`, `counts` and `displacement` to be three distinct arrays.
- Nekrs.Scratch.InitializeScratch: what the slots hold right after allocation is not stated. In the model the scratch slots are sequences that are replaced on allocation and dropped on release, not the host and device buffers themselves. The size of each slot (`slotLength`) is a parameter; reading it as nekRS's field offset is the model's choice, since the header does not give the size.
- Nekrs.LimitTemperature: a null `min_T` or `max_T` pointer is `None` (that side is not limited). Any pair of bounds is accepted; the promise that every value ends in [min_T, max_T] is stated only when `min_T <= max_T`, the only case in which that is a range. Any conversion of the bounds for non-dimensional temperature, and the copy of the limited temperature to the device, are not stated in the header and are not modelled.
- Solution.CharacteristicScales.InitializeDimensionalScales: requires a non-zero length scale, because `source_ref = flux_ref / L` with L = 0 produces an infinity in double precision, which `real` cannot represent. The model does not say what `A_ref`, `V_ref` and `nondimensional_T` hold afterwards, because the header does not say how they are set.
- Mesh.BoundaryCoupling.Store and Mesh.VolumeCoupling.Store: the scan of the nekRS mesh for coupling faces or elements, and the MPI exchange, are replaced by their result, the list of each rank's local records (`fragments`). The `boundary` entries of a volume element are one row per element, because the header does not state the stride of the flat `int *boundary` array.
- Solution readers `temperature`, `pressure`, `velocity_x/y/z`, `velocity` and the write targets `x/y/z_displacement`: they index nekRS's own solution and mesh arrays, whose implementations are outside these headers. Only `unity` and the scratch writers are modelled. `solutionPointer`'s function-pointer dispatch is replaced by the separate `NekFieldEnum` and `NekWriteEnum` types.
- Mesh.ValidBoundaryIds: the header does not say what `first_invalid_id` holds when every id is valid; the model's choice is to leave the caller's value unchanged (`firstInvalidIdIn`).
- MPI collectives, `commRank`/`commSize`, and the collective-call discipline: ranks are parameters, and the concurrency is not sequential logic.
- `interpolationMatrix`, `interpolateSurfaceFaceHex3D` and `initializeInterpolationMatrices`: floating-point GLL numerics whose storage layout the header does not state.
- `area`, `sideIntegral`, `volume`, `volumeIntegral`, `massFlowrate`, `sideMassFluxWeightedIntegral`, `heatFluxIntegral`, `fluxIntegral`, `sourceIntegral`, `normalizeFlux`, `normalizeHeatSource`, the `dimensionalize*Integral` helpers and the min/max reductions: floating-point quadrature over nekRS geometric factors with MPI reductions, whose implementations are outside these headers.
- `boundarySolution`, `volumeSolution`, `flux`, `writeVolumeSolution`, `faceVertices`, `volumeVertices`, `centroid`, `gllPoint`, `gradient`, `save_initial_mesh`, `copyScratchToDevice`, `copyDeformationToDevice`, `write_field_file`, `freeMesh`, `facesOnBoundary`, `VolumeElemProcessorID`, `BoundaryElemProcessorID`: solver data marshalling, device and file I/O, and wrappers over nekRS state whose implementations are outside these headers.
- nekRS state queries (`hasCHT`, `hasMovingMesh`, `endControl*`, `polynomialOrder`, `Nelements`, `NboundaryID`, `boundary_id`, `isHeatFluxBoundary`, `scalarFieldOffset`, `velocityFieldOffset` and the others): thin wrappers over nekRS objects whose results appear as parameters where needed.
- `referenceLength`, `referenceArea`, `characteristicLength`, `viscosity` and `Pr`: getters that return a stored scale (`L_ref` and `A_ref` are the fields `lRef` and `aRef` of `CharacteristicScales`) or a nekRS material property, with nothing to prove beyond the stored value.
- `buildOnly` and `static int build_only`: trivial global state.
- The `MooseEnum` factory functions and the unrelated enumerations in `CardinalEnums.h` (`BinnedVelocityComponentEnum`, tally, coupling, eigenvalue, channel and relaxation types): they are MOOSE and OpenMC configuration, not part of this layer.
