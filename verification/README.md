# Ketchup: a verified model

Ketchup is a CAD system. This project models the parts of it where correctness is
an argument rather than a look at the code, and proves what they are for:

- **The linear-static finite-element kernel.** Whenever a solve succeeds, the
  displacement is the only one that has every prescribed value and leaves no
  residual at any free degree of freedom of the original stiffness and forces, and
  the strict minimiser of potential energy; the force balance is exactly zero; the
  strain energies are non-negative and add up to half of u.K.u. A model is refused
  exactly for a defect it has or for a missing pivot of its own constrained system.
  The proof goes through validation, in-place assembly, in-place elimination of
  prescribed degrees of freedom, Gaussian elimination with partial pivoting and
  recovery. A mesh refined by any chain of edge cuts has the same material and load
  moments, so it passes the comparison between mesh levels, which refuses exactly
  the levels whose moments differ by more than its rounding. The material constants
  are those of Hooke's law; areas, volumes and moments obey base times height and the
  parallel-axis law.
- **The SketchUp exporter.** Welding and fans, splitting into exactly the
  edge-connected components, compaction, consistent winding (sound, and complete in
  its refusals), orientation that faces every convex surface outward, and the cached
  recursive walk over a possibly cyclic scene, whose package always passes the limits
  check.
- **The swept face guide**, which closes up under exactly one condition on the
  triangulation.
- **Drawn shapes.** The point-in-loop test and which points it puts inside; the loop's
  polygon and bounds; and the host search, which names exactly the parts that carry
  the shape and which way their faces look, whatever its bounding-box filter skips.
- **The signed validator host.** Injective encodings, and safety over every run of
  its operations.
- **The `.res` writer and the cfg evaluator**, with their round trip and soundness.

`f64` is modelled as `real`. `sqrt`, `hypot`, the trigonometric functions, SHA-256
and Ed25519 are function parameters, with the few facts used about them as
preconditions. Code that updates matrices, buffers or fields in place is modelled
by methods over arrays and by classes; each is proved against a specification
function or property that the theorems are about.

Where to start: `Solve.SolveModel`, `Constraints.EliminationSound`,
`DenseSolver.SolveDense`, `Elimination.RefusedNearlySingular`,
`Equilibrium.LeastPotential`, `Hooke.HookesLaw`, `Levels.SameMaterials`,
`Orientation.OrientConsistently`, `Volume.OrientPositive`,
`Convexity.ConvexFacesOutward`, `Shells.SplitConnectedShells`,
`ScenePackage.BuildPackage`, `FaceSweep.PrismClosed`, `LoopParity.ParityLaw`,
`LoopInside.InsideIsWithin`, `LoopOutline.FarFromLoop`, `HostFilter.FindHosts`,
`PackageEncoding.PayloadInjective`, `PackageHost.RevocationForcesNewer`,
`IconResources.IconResources`, `CfgSoundness.GatesExactly`.

## Where the code does not do what one might expect

- The validator accepts a Poisson ratio of exactly -1, where the elasticity formula
  divides by zero. `Pole.AcceptedAtThePole` gives an accepted model without a
  stiffness, and `Solve.ReadyExactly` proves that an accepted model has one exactly
  when no tetrahedron uses such a material.
- The solver refuses models that have a solution. A refused matrix is within the
  pivot threshold of a singular one (`Elimination.NearbySingular`), but need not be
  singular: `SoftTruss.SoftTrussRefused` gives accepted models, each with exactly one
  satisfying displacement, that are refused exactly when their stiffness does not
  exceed the relative pivot tolerance. `DenseSolver.SolveDense` states for every
  system exactly when, and `Solve.UnsolvableIsLoose` what it means for the structure.
- A gate on a predicate that contradicts itself through an option that occurs twice,
  such as `all(x, not(x))`, is not recognised. `CfgSoundness.ContradictionNotRecognised`
  shows it, and `CfgSoundness.GatesExactly` proves that the gate is exact when no
  option that production leaves open occurs twice.
- The sign of the volume decides once for a whole mesh. A mesh with everything on one
  side of each facet's plane need not face outward everywhere:
  `Convexity.PillowLooksBothWays` gives one, `Volume.OrientPositive` states exactly
  when it does, and `Convexity.ConvexFacesOutward` that it does when the facets are
  connected over edges that are not flat.
- The prism over a picked face is closed only if every edge of the triangulation is
  used once, or equally often in both directions (`FaceSweep.PrismClosed`);
  `FaceSweep.DoubledFaceStaysOpen` gives a face whose prism is open.

## Model

| member | source | states |
|---|---|---|
| `DenseSolver.SolveDense` | crates/ketchup-analysis/src/fea.rs:1094-1142 | success returns the one and only solution of the input system; it is refused exactly when elimination with partial pivoting of that system meets a column without an entry above the threshold; then the matrix is within the threshold of a singular one, and at tolerance zero the refusals are exactly the singular matrices |
| `DenseSolver.MaxAbsEntry` | crates/ketchup-analysis/src/fea.rs:1100-1106 | the largest magnitude of all entries, or one when that is larger |
| `DenseSolver.FindPivot` | crates/ketchup-analysis/src/fea.rs:1108-1115 | the last row of largest magnitude of its column at and below the diagonal |
| `DenseSolver.EliminateRow` | crates/ketchup-analysis/src/fea.rs:1123-1132 | a row minus its factor times the pivot row, right-hand side included, with an exact zero in the pivot column |
| `DenseSolver.EliminateBelow` | crates/ketchup-analysis/src/fea.rs:1123-1132 | the system is the cleared one: every lower row minus its multiple of the pivot row; the solution set and the reduced columns are kept |
| `DenseSolver.SwapEquivalent` | crates/ketchup-analysis/src/fea.rs:1119-1120 | swapping two rows of matrix and right-hand side keeps the solution set |
| `DenseSolver.RowAddEquivalent` | crates/ketchup-analysis/src/fea.rs:1126-1131 | subtracting a multiple of one row from another keeps the solution set, in both directions |
| `DenseSolver.BackSubstitute` | crates/ketchup-analysis/src/fea.rs:1134-1140 | the result solves the triangular system |
| `DenseSolver.TriangularUnique` | crates/ketchup-analysis/src/fea.rs:1134-1140 | a triangular system with non-zero diagonal has at most one solution |
| `Elimination.Pivot` | crates/ketchup-analysis/src/fea.rs:1108-1115 | the pivot row is the last of the largest |
| `Elimination.OpenReduced` | crates/ketchup-analysis/src/fea.rs:1107-1133 | while no column is blocked the eliminated columns are zero below a non-zero diagonal |
| `Elimination.RefusedNearlySingular` | crates/ketchup-analysis/src/fea.rs:1116-1118 | a refused matrix sends some vector with an entry one to at most the threshold in every row |
| `Elimination.NearbySingular` | crates/ketchup-analysis/src/fea.rs:1116-1118 | in other words, changing one column by at most the threshold makes it singular |
| `Elimination.ZeroThresholdExact` | crates/ketchup-analysis/src/fea.rs:1107-1133 | with a threshold of zero elimination is refused exactly on singular matrices |
| `Elimination.DiagonalRefused` | crates/ketchup-analysis/src/fea.rs:1107-1133 | elimination of a diagonal matrix is refused exactly when one of its diagonal entries does not exceed the threshold |
| `Constraints.CollectPrescribed` | crates/ketchup-analysis/src/fea.rs:689-696 | the map is that of inserting all prescribed axes in order; it holds the constraints' values and nothing else |
| `Constraints.LastConstraintWins` | crates/ketchup-analysis/src/fea.rs:689-696 | the last constraint on a degree of freedom decides its value |
| `Constraints.CollectedValues` | crates/ketchup-analysis/src/fea.rs:689-696 | when no two constraints disagree, every constraint's value is the collected one |
| `Constraints.EliminateDof` | crates/ketchup-analysis/src/fea.rs:703-711 | one degree of freedom eliminated in place: its column moved to the right-hand side, its row a scaled unit row, everything else untouched |
| `Constraints.EliminateStep` | crates/ketchup-analysis/src/fea.rs:703-711 | eliminating the next degree of freedom extends the closed form of what was eliminated so far |
| `Constraints.ConstrainedStep` | crates/ketchup-analysis/src/fea.rs:703-711 | eliminating the next degree of freedom gives the next closed form of the system |
| `Constraints.EliminateAll` | crates/ketchup-analysis/src/fea.rs:703-711 | after all eliminations, in map order, the system in place is the closed form (unit rows, cleared columns, their share moved to the right), and its solutions are exactly those of the constrained problem over the original one |
| `Constraints.EliminationSound` | crates/ketchup-analysis/src/fea.rs:703-711 | the solutions of the eliminated system are exactly the vectors with all prescribed values that meet every free equation of the original system |
| `Constraints.ApplyConstraints` | crates/ketchup-analysis/src/fea.rs:684-718 | the same for the whole operation, which refuses exactly when nothing is prescribed |
| `Constraints.EmptyExactly` | crates/ketchup-analysis/src/fea.rs:713-716 | nothing is collected exactly when no constraint prescribes an axis |
| `Mechanisms.RefusalIsMechanism` | crates/ketchup-analysis/src/fea.rs:684-718 | if the constrained system is refused, some displacement that respects the constraints and moves a free degree of freedom by one meets at most the threshold at every free one |
| `Mechanisms.MechanismIsRefused` | crates/ketchup-analysis/src/fea.rs:684-718 | if such a displacement meets no resistance at all, the system is refused at every tolerance |
| `Linalg.RegularDeterminant` | crates/ketchup-geometry/src/linalg.rs:360-371 | a matrix that is not reported singular has a non-zero determinant |
| `Linalg.AdjugateColumn` | crates/ketchup-geometry/src/linalg.rs:374-390 | the x column of the adjugate times the matrix is the determinant times the unit vector |
| `Linalg.AdjugateColumnY` | crates/ketchup-geometry/src/linalg.rs:374-390 | same for the y column |
| `Linalg.AdjugateColumnZ` | crates/ketchup-geometry/src/linalg.rs:374-390 | same for the z column |
| `Elements.GradientsSumToZero` | crates/ketchup-analysis/src/fea.rs:597-606 | the four shape gradients add up to zero |
| `Elements.AffineGradientRecovered` | crates/ketchup-analysis/src/fea.rs:583-606 | the gradients reproduce the gradient of every affine field from its four nodal values |
| `Elements.TrussEnergyIsForm` | crates/ketchup-analysis/src/fea.rs:608-627 | the strain energy of a truss is half the quadratic form of its assembled local stiffness |
| `Elements.TrussEnergyNonNegative` | crates/ketchup-analysis/src/fea.rs:720-772 | it is not negative for a positive modulus and area |
| `Elements.BuildStrainDisplacement` | crates/ketchup-analysis/src/fea.rs:1165-1180 | the loop writes exactly the strain-displacement entries |
| `Elements.StrainIsSymmetricGradient` | crates/ketchup-analysis/src/fea.rs:1165-1180 | the matrix maps nodal displacements to the symmetric displacement gradient |
| `Elements.PatchStrain` | crates/ketchup-analysis/src/fea.rs:1165-1180 | an affine displacement field gives its own constant strain, whatever the element's shape |
| `Elements.BuildElasticity` | crates/ketchup-analysis/src/fea.rs:1144-1163 | the loops build the isotropic matrix of the two moduli, which Hooke.HookesLaw identifies |
| `Elements.ElasticFormIs` | crates/ketchup-analysis/src/fea.rs:1144-1163 | the elasticity form is the first Lame parameter times the product of traces plus the shear terms |
| `Elements.ElasticFormSymmetric` | crates/ketchup-analysis/src/fea.rs:1144-1163 | the elasticity form is symmetric |
| `Elements.ModuliPositive` | crates/ketchup-analysis/src/fea.rs:1144-1163 | for a positive modulus and -1 < Poisson < 1/2 the shear and bulk moduli are positive |
| `Hooke.HookesLaw` | crates/ketchup-analysis/src/fea.rs:1144-1163 | the elasticity matrix of a Young's modulus and Poisson's ratio maps a strain to exactly the stress that Hooke's law gives it: the only one that stretches by 1/E along, shortens by ratio/E across and shears by 2(1+ratio)/E |
| `Hooke.PatchStress` | crates/ketchup-analysis/src/fea.rs:1144-1180 | on every accepted tetrahedron an affine displacement has the stress of Hooke's law for its symmetric gradient |
| `Hooke.UniaxialPatch` | crates/ketchup-analysis/src/fea.rs:1144-1180 | stretched by e along x and shortened by ratio times e across, every accepted tetrahedron carries the stress E times e along x and nothing else |
| `Hooke.AffineTetEnergy` | crates/ketchup-analysis/src/fea.rs:746-763 | under an affine displacement a tetrahedron stores half of stress times strain, by Hooke's law, times its volume |
| `Hooke.AffineTrussEnergy` | crates/ketchup-analysis/src/fea.rs:724-741 | under an affine displacement a truss stores half of modulus times squared stretch along its axis, times area and length |
| `Elements.ElasticFormNonNegative` | crates/ketchup-analysis/src/fea.rs:1144-1163 | the elastic energy density is not negative whenever those moduli are positive |
| `Assembly.PartEnergyIsForm` | crates/ketchup-analysis/src/fea.rs:720-772 | the reported energy of a truss or tetrahedron is half of u.K.u for its local stiffness |
| `Assembly.PartEnergyNonNegative` | crates/ketchup-analysis/src/fea.rs:720-772 | the energy of a physical element is not negative |
| `Assembly.PartSymmetric` | crates/ketchup-analysis/src/fea.rs:608-655 | local stiffness is symmetric |
| `Assembly.PartRigid` | crates/ketchup-analysis/src/fea.rs:608-655 | local stiffness does no work on any rigid motion, translations and infinitesimal rotations alike |
| `Assembly.ResolvedPhysical` | crates/ketchup-analysis/src/fea.rs:539-544 | a valid element resolves to a part with positive stiffness |
| `Assembly.StiffnessSymmetric` | crates/ketchup-analysis/src/fea.rs:244-255 | the assembled stiffness is symmetric for every mesh |
| `Assembly.StiffnessFormSymmetric` | crates/ketchup-analysis/src/fea.rs:244-255 | the assembled form is symmetric, which makes the potential energy quadratic |
| `Assembly.StiffnessRigid` | crates/ketchup-analysis/src/fea.rs:244-255 | the assembled stiffness does no work on any rigid motion of the mesh |
| `Assembly.EnergyIsForm` | crates/ketchup-analysis/src/fea.rs:291-294 | the sum of element energies equals half of u.K.u for the assembled stiffness |
| `Assembly.StiffnessSemidefinite` | crates/ketchup-analysis/src/fea.rs:244-255 | u.K.u is never negative |
| `Kernel.AssembleTruss` | crates/ketchup-analysis/src/fea.rs:608-627 | the loops scatter-add exactly the truss stiffness |
| `Kernel.TetEntry` | crates/ketchup-analysis/src/fea.rs:641-652 | the double sum over strain components is the entry of the congruent local stiffness |
| `Kernel.AssembleTetrahedron` | crates/ketchup-analysis/src/fea.rs:629-655 | the loops scatter-add exactly volume times B'DB |
| `Kernel.AssembleElement` | crates/ketchup-analysis/src/fea.rs:244-255 | one element of either kind adds its piece |
| `Kernel.AssembleStiffness` | crates/ketchup-analysis/src/fea.rs:241-255 | the in-place assembly yields the stiffness function that the theorems are about |
| `Loads.AssembleLoads` | crates/ketchup-analysis/src/fea.rs:657-682 | the in-place loop yields the nodal force vector of all loads |
| `Loads.CornersDoTheWork` | crates/ketchup-analysis/src/fea.rs:666-678 | a third of the traction at each corner does the work of the whole on the mean displacement |
| `Loads.ForcesToWork` | crates/ketchup-analysis/src/fea.rs:657-682 | for every displacement the work of the force vector is the work of the loads: a force on its node, a traction times its area on the mean displacement of its triangle |
| `Loads.VectorSum` | crates/ketchup-analysis/src/fea.rs:1227-1233 | the sum of a force vector per axis |
| `Loads.SumIsAxisSums` | crates/ketchup-analysis/src/fea.rs:313-325 | adding up nodal vectors adds up each axis |
| `Loads.TranslationSum` | crates/ketchup-analysis/src/fea.rs:1227-1233 | an axis sum is the work done on a unit translation |
| `Validation.Validate` | crates/ketchup-analysis/src/fea.rs:346-537 | accepts exactly the valid models; a refusal names a defect that is really there |
| `Validation.CheckHeader` | crates/ketchup-analysis/src/fea.rs:346-383 | schema, case id, emptiness, size limits, settings and node coordinates |
| `Validation.CheckMaterials` | crates/ketchup-analysis/src/fea.rs:384-398 | distinct ids and admissible moduli, or the matching error |
| `Validation.CheckElements` | crates/ketchup-analysis/src/fea.rs:400-476 | distinct ids and connectivity, nodes in range and distinct, non-degenerate, material present; counts every tetrahedron face |
| `Validation.CheckConstraints` | crates/ketchup-analysis/src/fea.rs:477-502 | some constraint, each naming a node and an axis, no two disagreeing |
| `Validation.CheckLoads` | crates/ketchup-analysis/src/fea.rs:503-536 | some load, in range, tractions only on boundary faces of non-negligible area |
| `Validation.DefectRefutes` | crates/ketchup-analysis/src/fea.rs:346-537 | no valid model has any of the named defects |
| `BoundaryFaces.LoadedFacesAreBoundary` | crates/ketchup-analysis/src/fea.rs:1182-1195 | in an accepted model every loaded triangle has its corners among the nodes of exactly one tetrahedron |
| `Solve.SolveModel` | crates/ketchup-analysis/src/fea.rs:238-344 | an accepted model (without a tetrahedron at the pole) is refused exactly when elimination of its own constrained system meets a column without a usable pivot, and then it has a motion with almost no resistance; otherwise the displacement is the only one with every prescribed value and zero residual at every free degree of freedom, the strict minimiser of potential energy, and the reports hold; for every model that is not accepted the error names a defect that is there |
| `Solve.SolveValid` | crates/ketchup-analysis/src/fea.rs:241-344 | the same after validation |
| `Solve.ReadyExactly` | crates/ketchup-analysis/src/fea.rs:389-391 | an accepted model has a stiffness over the reals exactly when no tetrahedron uses Poisson's ratio -1 |
| `Pole.AcceptedAtThePole` | crates/ketchup-analysis/src/fea.rs:389-391 | a concrete model that validation accepts and that has no stiffness |
| `Solve.UnsolvableIsLoose` | crates/ketchup-analysis/src/fea.rs:260-261 | a refused model has a motion that meets almost no resistance; a model with one that meets none is refused |
| `SoftTruss.SoftTrussRefused` | crates/ketchup-analysis/src/fea.rs:1107-1118 | a bar held but for one axial end is accepted and satisfied by exactly one displacement, and is refused exactly when its stiffness does not exceed the relative pivot tolerance |
| `Solve.SolutionMinimises` | crates/ketchup-analysis/src/fea.rs:260-261 | the displacement has strictly less potential energy than every other one with the prescribed values |
| `Solve.SatisfiesExactly` | crates/ketchup-analysis/src/fea.rs:256-265 | the constrained problem on the model is the constrained problem on the collected degrees of freedom |
| `Solve.PostProcess` | crates/ketchup-analysis/src/fea.rs:266-325 | reactions are the residual, the free residual and the force balance are exactly zero, energies are non-negative and sum to half the work of the loads, in their own terms, and of the reactions |
| `Solve.Recover` | crates/ketchup-analysis/src/fea.rs:266-279 | constrained degrees of freedom keep their residual as reaction, the maximum is taken over the others |
| `Solve.Energies` | crates/ketchup-analysis/src/fea.rs:288-294 | one energy per element, whose total is the energy that the theorems are about |
| `Equilibrium.ResidualWork` | crates/ketchup-analysis/src/fea.rs:266-270 | the work of the residual is that of the internal minus that of the applied forces |
| `Equilibrium.VirtualWork` | crates/ketchup-analysis/src/fea.rs:256-279 | the residual does no work on a change that respects the constraints |
| `Equilibrium.PotentialGap` | crates/ketchup-analysis/src/fea.rs:256-265 | another admissible displacement has more potential energy by half the form of the difference |
| `Equilibrium.LeastPotential` | crates/ketchup-analysis/src/fea.rs:256-265 | a unique solution is the strict minimiser of potential energy |
| `Solve.ResidualBalanced` | crates/ketchup-analysis/src/fea.rs:313-325 | reactions and applied forces balance over every rigid motion |
| `Solve.BalancedSums` | crates/ketchup-analysis/src/fea.rs:313-325 | in particular their sums cancel along each axis |
| `Moments.MeasureCut` | crates/ketchup-analysis/src/fea.rs:1243-1307 | a cut at a point of an edge divides length, area or volume in the proportion of the cut |
| `Moments.AreaSwaps` | crates/ketchup-analysis/src/fea.rs:1243-1245 | triangle area does not depend on the order of corners |
| `Moments.VolumeSwaps` | crates/ketchup-analysis/src/fea.rs:1268-1291 | tetrahedron volume does not depend on the order of vertices |
| `Moments.CutMoment` | crates/ketchup-analysis/src/fea.rs:1247-1307 | for a segment, triangle or tetrahedron cut at any point of any edge, the two pieces have together the measure, first and second moments of the whole |
| `Measures.HalfBaseTimesHeight` | crates/ketchup-analysis/src/fea.rs:1243-1245 | the area of a triangle is half of base times height |
| `Measures.ThirdBaseTimesHeight` | crates/ketchup-analysis/src/fea.rs:1268-1275 | the volume of a tetrahedron is a third of base times height |
| `Measures.MovedMoment` | crates/ketchup-analysis/src/fea.rs:1252-1307 | moving a segment, triangle or tetrahedron changes its first and second moments by the parallel-axis law |
| `Refinement.GeometricMoments.AddWeightedSegment` | crates/ketchup-analysis/src/fea.rs:1252-1267 | the fields become the old moments plus the weighted segment's |
| `Refinement.GeometricMoments.AddTriangle` | crates/ketchup-analysis/src/fea.rs:1292-1307 | the fields become the old moments plus the triangle's |
| `Refinement.GeometricMoments.AddTetrahedron` | crates/ketchup-analysis/src/fea.rs:1268-1291 | the fields become the old moments plus the tetrahedron's |
| `Refinement.CutCell` | crates/ketchup-analysis/src/fea.rs:1247-1307 | two halves of a cut cell carry its weighted moments |
| `Refinement.CutTotal` | crates/ketchup-analysis/src/fea.rs:546-569 | replacing a cell by its halves keeps the total of every key |
| `Refinement.MaterialDistribution` | crates/ketchup-analysis/src/fea.rs:546-569 | the map gives every used material the total moments of its elements |
| `Refinement.StepKeepsTotals` | crates/ketchup-analysis/src/fea.rs:546-569 | one step, a new node or one element or loaded triangle cut at a node on its edge, keeps the moments of every material |
| `Refinement.StepKeepsTractions` | crates/ketchup-analysis/src/fea.rs:798-825 | it keeps the moments of every traction and all nodal forces |
| `Refinement.ChainKeepsTotals` | crates/ketchup-analysis/src/fea.rs:546-569 | so does every chain of cuts |
| `Refinement.ChainKeepsTractions` | crates/ketchup-analysis/src/fea.rs:798-825 | so does every chain of cuts, for loads |
| `Refinement.RefinedLevelAccepted` | crates/ketchup-analysis/src/fea.rs:1331-1347 | a level refined by any chain of steps has the same totals and passes the material comparison |
| `Refinement.RefinedLoadsAccepted` | crates/ketchup-analysis/src/fea.rs:1309-1347 | its surface totals and nodal forces are the same and pass the load comparison |
| `Levels.LoadDefinition` | crates/ketchup-analysis/src/fea.rs:798-825 | all nodal forces by position, and under every traction in use the total moments of its triangles, each in its own accumulator |
| `Levels.SameGeometricMoments` | crates/ketchup-analysis/src/fea.rs:1331-1343 | true exactly when measure, first and second moments agree up to a relative 1e-9; Levels.SameMeans spells it out by entry |
| `Levels.SameMeans` | crates/ketchup-analysis/src/fea.rs:1331-1347 | false exactly when the measures, one of three first moments or one of nine second moments differ by more than 1e-9 of either magnitude and of one |
| `Levels.TrussMoment` | crates/ketchup-analysis/src/fea.rs:549-561 | a truss counts with its length times its area |
| `Levels.TetrahedronMoment` | crates/ketchup-analysis/src/fea.rs:562-566 | a tetrahedron counts with its volume |
| `Levels.AgreeExactly` | crates/ketchup-analysis/src/fea.rs:1035-1053 | the tallies of two levels agree exactly when no key is told apart: used on one side only, or with totals farther apart in the measure, a first or a second moment |
| `Levels.SameByKey` | crates/ketchup-analysis/src/fea.rs:1309-1318 | true exactly when both sides have as many keys and every key of one has the same moments on the other |
| `Levels.SameMaterials` | crates/ketchup-analysis/src/fea.rs:1035-1046 | true exactly when no material is told apart: in use in one level only, or with totals whose measure, first or second moments differ by more than the rounding; and true of every refinement |
| `Levels.SameLoads` | crates/ketchup-analysis/src/fea.rs:1047-1053 | true exactly when the nodal forces are the same and no traction is told apart by its surface totals; and true of every refinement |
| `Welding.Weld` | sdk/sketchup/ketchup_scene_exporter.rb:235-241 | every corner is stored at its position; positions already stored are found again |
| `Welding.FanTriangles` | sdk/sketchup/ketchup_scene_exporter.rb:242-246 | the fan of a polygon around its first corner; nothing below three corners |
| `Welding.TriangulateFaces` | sdk/sketchup/ketchup_scene_exporter.rb:222-250 | the triangles are, by position and in order, the fans of all polygons, over vertices no two of which coincide |
| `Welding.FanKeepsOutline` | sdk/sketchup/ketchup_scene_exporter.rb:244-246 | the net use of every directed edge by a fan is that of the polygon's outline |
| `Shells.CollectUsers` | sdk/sketchup/ketchup_scene_exporter.rb:253-258 | the triangles recorded under an edge are exactly those that have it |
| `Shells.BuildNeighbors` | sdk/sketchup/ketchup_scene_exporter.rb:259-265 | different triangles are adjacent exactly when they share an edge |
| `Shells.VisitNeighbors` | sdk/sketchup/ketchup_scene_exporter.rb:277-282 | every neighbour of the current triangle is visited and queued once |
| `Shells.Collect` | sdk/sketchup/ketchup_scene_exporter.rb:271-284 | one search collects each triangle connected to its start, once |
| `Shells.FindShells` | sdk/sketchup/ketchup_scene_exporter.rb:266-286 | the searches yield connected, closed, disjoint classes that cover all triangles |
| `Shells.ClassesAreComponents` | sdk/sketchup/ketchup_scene_exporter.rb:266-286 | such classes are exactly the connected components under edge sharing |
| `Shells.SplitConnectedShells` | sdk/sketchup/ketchup_scene_exporter.rb:252-287 | a partition of the triangles into exactly the connected components, ordered by smallest vertex |
| `Shells.MinVertexLeast` | sdk/sketchup/ketchup_scene_exporter.rb:286 | the shells are ordered by a corner of theirs that no other corner undercuts |
| `Shells.UsedVertices` | sdk/sketchup/ketchup_scene_exporter.rb:290 | the used vertices, each once, ascending |
| `Shells.CompactShell` | sdk/sketchup/ketchup_scene_exporter.rb:289-298 | every corner keeps its coordinates, every kept vertex is used, indices are in range |
| `Orientation.CollectOwners` | sdk/sketchup/ketchup_scene_exporter.rb:301-306 | the owners of every edge with their directions |
| `Orientation.OwnersAreUses` | sdk/sketchup/ketchup_scene_exporter.rb:301-306 | the owners of an edge count its uses in either direction |
| `Orientation.PairedIsManifold` | sdk/sketchup/ketchup_scene_exporter.rb:307-309 | without degenerate triangles, two owners for every edge is the two-manifold condition |
| `Orientation.PairedExactly` | sdk/sketchup/ketchup_scene_exporter.rb:307-309 | two owners for every edge means that every edge is used exactly twice, degenerate ones included |
| `Orientation.BuildAdjacency` | sdk/sketchup/ketchup_scene_exporter.rb:311-317 | the links are exactly those of the owner pairs |
| `Orientation.LinksSayOpposed` | sdk/sketchup/ketchup_scene_exporter.rb:311-317 | flips satisfy the links exactly when the two owners of every edge end up opposed |
| `Orientation.Visit` | sdk/sketchup/ketchup_scene_exporter.rb:325-333 | visiting a triangle either extends the region consistently or finds a contradiction |
| `Orientation.Explore` | sdk/sketchup/ketchup_scene_exporter.rb:318-335 | one search decides its whole region or finds a contradiction |
| `Orientation.Propagate` | sdk/sketchup/ketchup_scene_exporter.rb:318-335 | flips that satisfy every link, or a proof that none exist |
| `Orientation.ConflictRefutes` | sdk/sketchup/ketchup_scene_exporter.rb:330-332 | a conflict reached by propagation excludes every choice of flips |
| `Orientation.OpposedIsCoherent` | sdk/sketchup/ketchup_scene_exporter.rb:336-338 | opposed owners make the flipped mesh coherent |
| `Orientation.CoherentIsOpposed` | sdk/sketchup/ketchup_scene_exporter.rb:336-338 | and a coherent flipped mesh has opposed owners |
| `Orientation.OrientConsistently` | sdk/sketchup/ketchup_scene_exporter.rb:300-340 | on success every edge is traversed once in each direction and triangles were only kept or flipped; 'not closed' means that some edge is not used twice; without degenerate triangles that is not being a two-manifold, and 'contradictory' means closed but with no coherent choice of flips |
| `Mesh.AllFlippedCoherent` | sdk/sketchup/ketchup_scene_exporter.rb:351 | turning every triangle over keeps coherence |
| `Volume.OddSumVanishes` | sdk/sketchup/ketchup_scene_exporter.rb:342-350 | over a coherent mesh every antisymmetric quantity on directed edges sums to zero |
| `Volume.VolumeIgnoresOrigin` | sdk/sketchup/ketchup_scene_exporter.rb:342-350 | the six-fold volume of a coherent mesh does not depend on the coordinate origin |
| `Volume.VolumeIsDepth` | sdk/sketchup/ketchup_scene_exporter.rb:342-350 | the six-fold volume of a coherent mesh is how far any point whatever lies behind its triangles, summed in coordinates with cross and dot products |
| `Volume.OrientPositive` | sdk/sketchup/ketchup_scene_exporter.rb:342-352 | afterwards the volume is the magnitude of what it was, all triangles are turned or none, and on a coherent mesh no vertex lies in front of a triangle exactly when the triangles all looked one way before |
| `Convexity.ConvexFacesOutward` | sdk/sketchup/ketchup_scene_exporter.rb:342-352 | a coherent mesh of non-negative volume with everything on one side of each facet's plane, connected over edges that are not flat, has no vertex in front of a facet |
| `Convexity.TetrahedronConvex` | sdk/sketchup/ketchup_scene_exporter.rb:342-350 | the boundary of every tetrahedron that is not flat is such a mesh, and its six-fold volume is the determinant of its edges |
| `Convexity.PillowLooksBothWays` | sdk/sketchup/ketchup_scene_exporter.rb:342-352 | without the connection it fails: a tetrahedron with a doubled triangle in a facet is coherent, one-sided and of positive volume, and the doubled triangle looks both ways |
| `Solids.RenumberedOrientable` | sdk/sketchup/ketchup_scene_exporter.rb:289-298 | compacting changes neither the two-manifold property nor orientability |
| `Solids.RenumberedTwice` | sdk/sketchup/ketchup_scene_exporter.rb:289-298 | nor whether every edge is used twice |
| `Solids.BuildSolid` | sdk/sketchup/ketchup_scene_exporter.rb:190-193 | a built solid is coherent, in range, of non-negative volume, shows the shell's surface, and faces outward everywhere when its surface is convex; its vertices are distinct if the shell's are; 'not closed' is exact for every shell, 'contradictory' for shells without degenerate triangles |
| `Solids.CompactDistinct` | sdk/sketchup/ketchup_scene_exporter.rb:289-298 | compacting distinct vertices leaves distinct vertices |
| `SceneTree.NestedIsAcceptable` | sdk/sketchup/ketchup_scene_exporter.rb:123-124 | the depth-first nesting check is exactly: no chain of placements is longer than the limit or revisits a container |
| `SceneTree.ExpandGrows` | sdk/sketchup/ketchup_scene_exporter.rb:126-137 | definitions added later do not change an expansion that had all its own |
| `DefinitionIds.DecimalRoundTrip` | sdk/sketchup/ketchup_scene_exporter.rb:191 | reading decimal digits gives the number back |
| `DefinitionIds.IdsInjective` | sdk/sketchup/ketchup_scene_exporter.rb:191 | two solids have the same id only if they have the same container and number, whatever the key contains |
| `SceneExport.PutFresh` | sdk/sketchup/ketchup_scene_exporter.rb:211-216 | storing under a fresh id appends |
| `SceneExport.StockStep` | sdk/sketchup/ketchup_scene_exporter.rb:194-217 | adding a solid never overwrites a definition and keeps the running totals equal to the sums |
| `SceneExport.OneTooMany` | sdk/sketchup/ketchup_scene_exporter.rb:194-210 | the definitions so far and the refused solid are different solids of containers that the root reaches, over the named limit |
| `SceneExport.RefusedShell` | sdk/sketchup/ketchup_scene_exporter.rb:192-193 | a refused shell is a component of the triangles of a container that the root reaches, in which some edge is not used twice, or which has no coherent winding |
| `SceneExport.Exporter.constructor` | sdk/sketchup/ketchup_scene_exporter.rb:56-65 | an empty exporter meets the exporter's invariant |
| `SceneExport.Exporter.AddSolid` | sdk/sketchup/ketchup_scene_exporter.rb:190-218 | the next solid of a container is stored under its own id, within all limits; a refusal names a bad shell of a container that the root reaches, or different solids of such containers that together are over the limit |
| `SceneExport.Exporter.MeshContainer` | sdk/sketchup/ketchup_scene_exporter.rb:187-219 | the container's solids are its shells, and it is recorded as meshed once more |
| `SceneExport.Exporter.EnsureContainerMeshes` | sdk/sketchup/ketchup_scene_exporter.rb:174-220 | the ids of a container's solids; a cached container changes nothing, so each is triangulated at most once |
| `SceneExport.Exporter.PlaceOwn` | sdk/sketchup/ketchup_scene_exporter.rb:126-137 | one instance per solid of the container, within the instance limit |
| `SceneExport.Exporter.Walk` | sdk/sketchup/ketchup_scene_exporter.rb:122-172 | terminates on every scene, cyclic ones included; success appends exactly the naive expansion and means the nesting is acceptable; a nesting error means it is not, too many instances means that the expansion is longer than the limit, any other error is justified by solids of containers that the root reaches |
| `ScenePackage.TotalsPermuted` | sdk/sketchup/ketchup_scene_exporter.rb:76 | totals do not depend on the order of definitions |
| `ScenePackage.ValidatePackageLimits` | sdk/sketchup/ketchup_scene_exporter.rb:98-120 | accepts exactly the packages within every limit; a refusal names one that is exceeded |
| `ScenePackage.BuildPackage` | sdk/sketchup/ketchup_scene_exporter.rb:55-96 | the package is within every limit, its definitions are sound solids with distinct vertices traced to the faces' shells, its instances exist and are the scene's expansion; every refusal is justified by what the root reaches: its nesting, the length of its expansion, a bad shell, solids over a limit, or no solid at all |
| `ScenePackage.Export` | sdk/sketchup/ketchup_scene_exporter.rb:27-28 | the limits check never refuses a package that was built |
| `FaceSweep.PrismUses` | crates/ketchup-app/src/face_offset_preview.rs:438-457 | how often the prism runs along any directed edge, vertical ones included |
| `FaceSweep.WallsBalanced` | crates/ketchup-app/src/face_offset_preview.rs:451-457 | as many walls end at a vertex as start there |
| `FaceSweep.PrismClosed` | crates/ketchup-app/src/face_offset_preview.rs:433-457 | caps, reversed face and walls form a closed surface exactly when every edge is used once or equally often in both directions |
| `FaceSweep.ManifoldFaceCloses` | crates/ketchup-app/src/face_offset_preview.rs:433-457 | in particular when each edge is used once, or twice in opposite directions |
| `FaceSweep.DoubledFaceStaysOpen` | crates/ketchup-app/src/face_offset_preview.rs:447-457 | two triangles on the same side of an edge get no wall there, and the prism stays open |
| `FaceSweep.RecordedStep` | crates/ketchup-app/src/face_offset_preview.rs:439-444 | the edge map counts every use of every edge and keeps a direction that occurs |
| `FaceSweep.CollectFace` | crates/ketchup-app/src/face_offset_preview.rs:433-446 | raised caps and edge counts of the picked face |
| `FaceSweep.DragMesh` | crates/ketchup-app/src/face_offset_preview.rs:433-457 | the drawn caps and walls are the raised triangles and, in ascending order, the single-use edges in their own direction; they bound a closed prism under exactly that condition |
| `LoopTest.WithinLoop` | crates/ketchup-app/src/drawn_shape.rs:293-315 | true exactly when some side is within the tolerance or an odd number of sides cross to the right |
| `LoopTest.RotationInvariant` | crates/ketchup-app/src/drawn_shape.rs:293-315 | the same answer for every cyclic rotation |
| `LoopTest.ReversalInvariant` | crates/ketchup-app/src/drawn_shape.rs:293-315 | the same answer for the reversed polygon |
| `LoopTest.ReversedGap` | crates/ketchup-app/src/drawn_shape.rs:297-304 | the gap from a point to a side does not depend on the side's direction |
| `LoopTest.ReversedCrosses` | crates/ketchup-app/src/drawn_shape.rs:308-310 | nor does crossing |
| `LoopParity.ParityLaw` | crates/ketchup-app/src/drawn_shape.rs:293-315 | two points have the same crossing parity exactly when a segment between them, meeting sides only to pass them, passes an even number |
| `LoopInside.SameRegion` | crates/ketchup-app/src/drawn_shape.rs:293-315 | joined by a segment that meets no side, two points are both inside or both outside |
| `LoopInside.OtherRegion` | crates/ketchup-app/src/drawn_shape.rs:293-315 | passing one side and meeting no other changes that |
| `LoopInside.SeparatedIsOutside` | crates/ketchup-app/src/drawn_shape.rs:293-315 | a point that some line separates from the polygon is outside |
| `LoopInside.InsideIsWithin` | crates/ketchup-app/src/drawn_shape.rs:293-315 | a point strictly on the inner side of all sides of a convex polygon is recognised, whichever way it runs and at every tolerance |
| `LoopInside.OutsideIsNotWithin` | crates/ketchup-app/src/drawn_shape.rs:293-315 | a point strictly on the outer side of some side of a convex polygon is recognised only if a side is near |
| `LoopInside.NearExactly` | crates/ketchup-app/src/drawn_shape.rs:297-306 | a side is near exactly when some point of it is within the tolerance |
| `LoopReach.StraddlingEven` | crates/ketchup-app/src/drawn_shape.rs:308-312 | a closed polygon crosses any horizontal an even number of times |
| `LoopReach.FarIsOutside` | crates/ketchup-app/src/drawn_shape.rs:293-315 | a polygon in a box contains no point whose distance to every point of the box exceeds the tolerance, off a side or off a corner |
| `LoopReach.FarIsBeyond` | crates/ketchup-app/src/drawn_shape.rs:293-315 | a point beyond the box by more than the tolerance along one axis is farther than the tolerance from all of it |
| `LoopOutline.FindSteps` | crates/ketchup-app/src/drawn_shape.rs:266-268 | the least number of chords that reaches the wanted one, at most 1024 |
| `LoopOutline.LoopPolygon` | crates/ketchup-app/src/drawn_shape.rs:238-290 | the samples of all segments in order; none for a spline or fewer than three points |
| `LoopOutline.SamplesStart` | crates/ketchup-app/src/drawn_shape.rs:243-286 | the polygon passes through the start of every segment |
| `LoopOutline.SamplesInside` | crates/ketchup-app/src/drawn_shape.rs:269-286 | arc and Bezier samples stay in every box that holds the segment's bounding discs |
| `LoopCurves.SweepMeans` | crates/ketchup-app/src/drawn_shape.rs:253-264 | an arc turns the way it is drawn, by a whole turn when its end lies in the direction of its start and else by less than that, to its end |
| `LoopCurves.ChordsFit` | crates/ketchup-app/src/drawn_shape.rs:265-268 | each chord spans at most a 1024th of a turn, and no fewer chords would do |
| `LoopCurves.AnglesAdvance` | crates/ketchup-app/src/drawn_shape.rs:269-275 | the angles of the samples advance evenly from the start, by the sweep in all steps together |
| `LoopCurves.ArcReachesEnd` | crates/ketchup-app/src/drawn_shape.rs:253-275 | continued by one step, the samples of an arc reach its end |
| `LoopCurves.SamplesCasteljau` | crates/ketchup-app/src/drawn_shape.rs:276-285 | the samples of a Bezier curve are those of de Casteljau's construction |
| `LoopOutline.LoopBounds` | crates/ketchup-app/src/drawn_shape.rs:318-364 | the smallest box around every point and circle of the loop |
| `LoopCurves.DiscsAreDrawn` | crates/ketchup-app/src/drawn_shape.rs:331-361 | a segment bounds the loop by exactly the points it is drawn with, and an arc also by its circle |
| `LoopOutline.FarFromLoop` | crates/ketchup-app/src/drawn_shape.rs:238-364 | a flattened loop contains no point whose distance to every point of the loop's bounds exceeds the tolerance, off a side or off a corner |
| `HostFilter.PointInRange` | crates/ketchup-app/src/drawn_shape.rs:734-752 | a point in the bounds lies in the range of the eight corners along every axis |
| `HostFilter.SkippedTriangle` | crates/ketchup-app/src/drawn_shape.rs:728-785 | no triangle of a skipped host passes the plane and overlap test |
| `HostFilter.SkippedFinds` | crates/ketchup-app/src/drawn_shape.rs:728-785 | so the walk over its triangles would have found nothing |
| `HostFilter.IsMilledAway` | crates/ketchup-app/src/drawn_shape.rs:786-805 | every vertex lies in the prism that the shape would mill |
| `HostFilter.MilledAwayMeans` | crates/ketchup-app/src/drawn_shape.rs:786-805 | milled away means: at some depth between none and the full distance, within the tolerance, every vertex lies within the outline |
| `HostFilter.Examine` | crates/ketchup-app/src/drawn_shape.rs:728-808 | one host gives the same with the filter as without; HostFilter.ContributionMeans says what that is |
| `HostFilter.ContributionMeans` | crates/ketchup-app/src/drawn_shape.rs:753-808 | a host contributes one entry exactly when it carries the shape, and its facing times the normal of the first triangle under the shape along the drawing's normal is positive |
| `HostFilter.FindHosts` | crates/ketchup-app/src/drawn_shape.rs:696-809 | the list names, in order, exactly the other parts that have a triangle on the drawing plane under the shape and that it would not remove whole, each with 1 or -1 as the first such triangle looks along the drawing's normal or against it; pending exactly when evaluating and a solid is awaited |
| `Bytes.BigEndianRoundTrip` | crates/ketchup-analysis/src/validator_hosting.rs:614-616 | reading big-endian bytes gives the number back |
| `PackageEncoding.ItemUnique` | crates/ketchup-analysis/src/validator_hosting.rs:614-621 | a pushed number or field can be split off again, whatever follows |
| `PackageEncoding.ItemsUnique` | crates/ketchup-analysis/src/validator_hosting.rs:614-621 | so can lists of pushed values of the same kinds |
| `PackageEncoding.SigningPayload` | crates/ketchup-analysis/src/validator_hosting.rs:217-246 | the pushed bytes are the encoding of the manifest's values in order |
| `PackageEncoding.PayloadInjective` | crates/ketchup-analysis/src/validator_hosting.rs:217-246 | two manifests have the same payload exactly when they are equal |
| `DescriptorEncoding.SortForgets` | crates/ketchup-analysis/src/validator_hosting.rs:550-556 | sorting without repeats forgets exactly order and repetition |
| `DescriptorEncoding.ScopeList` | crates/ketchup-analysis/src/validator_hosting.rs:550-560 | the written scope list is the set of scopes |
| `DescriptorEncoding.EncodeDescriptor` | crates/ketchup-analysis/src/validator_hosting.rs:538-571 | the pushed bytes are the encoding of the descriptor's values, with sorted scopes, in order |
| `DescriptorEncoding.DescriptorBytesEqual` | crates/ketchup-analysis/src/validator_hosting.rs:538-571 | they are equal exactly when two descriptors agree up to the order and repetition of read scopes |
| `PackageHost.ValidatorPackageHost.constructor` | crates/ketchup-analysis/src/validator_hosting.rs:300-307 | nothing trusted, revoked, licensed or installed |
| `PackageHost.CheckManifest` | crates/ketchup-analysis/src/validator_hosting.rs:97-150 | accepts exactly the manifests with identifiers, digests, host names and numbers in their formats and limits |
| `PackageHost.ValidatorPackageHost.TrustPublisher` | crates/ketchup-analysis/src/validator_hosting.rs:310-325 | the new state is that of the trust operation, refusals included |
| `PackageHost.ValidatorPackageHost.RevokePublisherNamed` | crates/ketchup-analysis/src/validator_hosting.rs:327-329 | the new state is that of the revocation |
| `PackageHost.ValidatorPackageHost.RevokeReleaseOf` | crates/ketchup-analysis/src/validator_hosting.rs:331-333 | the new state is that of the revocation |
| `PackageHost.ValidatorPackageHost.SetLicenseState` | crates/ketchup-analysis/src/validator_hosting.rs:335-337 | the new state is that of the licence change |
| `PackageHost.ValidatorPackageHost.VerifyPackage` | crates/ketchup-analysis/src/validator_hosting.rs:442-473 | the first failing check, in order, with the payload built byte by byte |
| `PackageHost.ValidatorPackageHost.InstallPackage` | crates/ketchup-analysis/src/validator_hosting.rs:339-359 | the new state is that of the installation; a refusal changes nothing |
| `PackageHost.ValidatorPackageHost.ResolvePackage` | crates/ketchup-analysis/src/validator_hosting.rs:369-391 | the answer of the resolution; the state is unchanged |
| `PackageHost.SameDigest` | crates/ketchup-analysis/src/validator_hosting.rs:593-595 | two digests are equal in lower case exactly when all their hexadecimal digits are |
| `PackageHost.RefusalChangesNothing` | crates/ketchup-analysis/src/validator_hosting.rs:309-391 | no refused operation and no resolution changes the state |
| `PackageHost.RunAuthentic` | crates/ketchup-analysis/src/validator_hosting.rs:339-359 | over every run each entry sits under its own name with a valid manifest and a matching artifact digest |
| `PackageHost.RunAdvances` | crates/ketchup-analysis/src/validator_hosting.rs:309-391 | over every run revoked releases stay and each package is kept or replaced by a newer release |
| `PackageHost.ResolveExact` | crates/ketchup-analysis/src/validator_hosting.rs:369-391 | a package resolves exactly when trust, revocation, digest, signature and licence allow it now |
| `PackageHost.InstalledStaysIntact` | crates/ketchup-analysis/src/validator_hosting.rs:369-391 | an installed package is never refused for its manifest or artifact |
| `PackageHost.ResolvesNeverDecrease` | crates/ketchup-analysis/src/validator_hosting.rs:309-391 | over every run the releases that a package resolves to never decrease, and an equal release is the same package |
| `PackageHost.RevokedNeverResolves` | crates/ketchup-analysis/src/validator_hosting.rs:309-391 | a revoked release never resolves again |
| `PackageHost.RevocationForcesNewer` | crates/ketchup-analysis/src/validator_hosting.rs:309-391 | after a resolved release is revoked only newer ones resolve |
| `PackageHost.PublisherStaysRevoked` | crates/ketchup-analysis/src/validator_hosting.rs:310-329 | a revoked publisher stays revoked until it is trusted again |
| `PackageHost.RevokedPublisherBlocked` | crates/ketchup-analysis/src/validator_hosting.rs:442-473 | meanwhile none of its packages resolves or installs |
| `ResourceFile.RoundTrip16` | crates/ketchup-viewer/windows_icon.rs:38-43 | a little-endian 16-bit number reads back |
| `ResourceFile.RoundTrip32` | crates/ketchup-viewer/windows_icon.rs:45-50 | a little-endian 32-bit number reads back |
| `ResourceFile.PushResource` | crates/ketchup-viewer/windows_icon.rs:53-68 | appends exactly one entry and keeps the output four-aligned |
| `ResourceFile.EncodeAligned` | crates/ketchup-viewer/windows_icon.rs:67 | every entry starts and ends on a four-byte boundary |
| `ResourceFile.EntryRoundTrip` | crates/ketchup-viewer/windows_icon.rs:53-68 | an entry followed by anything decodes to itself and its length |
| `ResourceFile.FileRoundTrip` | crates/ketchup-viewer/windows_icon.rs:53-68 | decoding a file entry by entry gives its entries back when no size saturates |
| `IconResources.DirectoryRoundTrip` | crates/ketchup-viewer/windows_icon.rs:81-98 | the group directory reads back with its headers, lengths and ids |
| `IconResources.PushImage` | crates/ketchup-viewer/windows_icon.rs:85-98 | succeeds exactly when the directory entry is complete and the image lies in the file; appends its entry and its line |
| `IconResources.OutputDescribes` | crates/ketchup-viewer/windows_icon.rs:71-102 | the written file decodes to the empty entry, every image in order under ids 1..count and the directory of exactly those; no size saturates |
| `IconResources.IconResources` | crates/ketchup-viewer/windows_icon.rs:71-102 | succeeds exactly on valid icon files, with an output that decodes so; a refusal names the fault |
| `CfgEvaluator.Parser.Parse` | scripts/check_test_hooks.py:36-54 | the cursor parser computes the value by position and leaves the cursor behind the predicate |
| `CfgEvaluator.ProductionValue` | scripts/check_test_hooks.py:30-58 | the parsed value, or unknown when the tokens run out |
| `CfgSoundness.ParsesPredicate` | scripts/check_test_hooks.py:36-54 | on every well-formed nested predicate, trailing commas included, the parser consumes exactly its tokens and yields its three-valued value |
| `CfgSoundness.EvalSound` | scripts/check_test_hooks.py:40-54 | a definite value is the truth in every production build |
| `CfgSoundness.GatedNeverCompiled` | scripts/check_test_hooks.py:61-63 | a gated hook is in no production build |
| `CfgSoundness.SomeBuild` | scripts/check_test_hooks.py:40-54 | a value that is not definite leaves both outcomes possible when no open option occurs twice |
| `CfgSoundness.GatesExactly` | scripts/check_test_hooks.py:61-63 | on such predicates the gate holds exactly when no production build compiles the hook |
| `CfgSoundness.ContradictionNotRecognised` | scripts/check_test_hooks.py:61-63 | the condition is needed: for every open option x, all(x, not(x)) is in no build and yet is no gate |

## Left out

- SolveModel: says nothing about the result for an accepted model with a tetrahedron whose material has a Poisson ratio of exactly -1, because the elasticity formula divides by zero there and the stiffness has no value over the reals (`Solve.ReadyExactly` proves that this is the only exception).
- BuildPackage: does not fix the order in which definitions and instances are listed; the sort is a parameter that permutes.
- SplitConnectedShells: adjacency is collected edge by edge in an arbitrary order, because the result is sorted by the code and does not depend on it.
- OrientConsistently: that 'contradictory' is raised only when no choice of flips is coherent is stated for triangles with three distinct vertices; everything else for all.
- Floating-point rounding, NaN, infinities and signed zero, and with them the error for a non-finite solution.
- Von Mises stress, yield utilisation, the small-deformation evidence, the characteristic length and the model digest of a solution; the convergence study beyond the comparison of materials and loads; the comparison of constraint supports and bounds between levels.
- Nodal forces of two levels are compared as collections, where the source sorts both lists first; tractions are compared as vectors, where the source compares their bits.
- Duplicate elements are recognised by kind and set of nodes, which for distinct nodes is the source's sorted node list.
- Names, materials, textures and metadata counts of the exporter, its file writing and its 32 MiB limit; SketchUp's entities appear as faces and children in the order the exporter sorts them, and a container key stands for one container.
- The normalisation of coordinates before welding: points are welded by equal position.
- In the host search, finding the evaluated solid and inverting the occurrence transform are inputs; the tool prism, boolean features and program text that follow are not modelled.
- Painting of the swept face guide and the evaluation that replaces it; the face's triangles, vertices and offset are inputs.
- The validator host's binding to an invocation and its reports; messages inside errors.
- Reading and writing files around the icon resources; offsets are added without a 32-bit address limit.
- Splitting attribute text into tokens by regular expression, and the scan of source files for hooks.
- Sorting and removing repeated names is one insertion sort that skips repeats, where the source sorts and then removes adjacent ones.
- User interface, document model, exact geometry, program evaluation, fuzz targets and release scripts.
