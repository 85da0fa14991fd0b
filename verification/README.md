# Verified numerics of an ice-sheet model

A Dafny model of the numerical core of the Ice Sheet System Model: the loops that fill element matrices and load
vectors, the recurrences behind the elastic Green's functions, and the mesh-wide state updates for hydrology, level sets,
basal enthalpy and ice geometry. Loops and in-place updates are methods on arrays and classes; each is proved equal to
a specification function, and the properties below are lemmas about those functions, for every mesh, number of
quadrature points, order of elements, number of ranks or length of run unless a row says otherwise.

`IssmDouble` is `real`. A quadrature point is given by its weight, Jacobian, basis values and derivatives; the basis is
assumed to sum to 1 and its derivatives to 0. Sines, cosines, square roots and powers are given values constrained by the
algebra they satisfy (`cos^2 + sin^2 = 1`, `2 sin^2(a/2) = 1 - cos a`, `norm^2 = b.b`, `speed^2 = vx^2 + vy^2`).

`dafny verify dfyconfig.toml` checks the project.

## Files

- `LinearAlgebra`, `RealFacts`, `Quadrature`, `Assembly`: matrices in memory as bilinear forms, `TripleMultiply`,
  assembly by degrees of freedom, and the weak form of an assembled system.
- `Legendre`, `LegendrePolynomial`, `GreenTables`, `GreenTableBounds`, `GreenTableMeaning`, `EsaTables`: Legendre
  recurrences and the tables G, U, H, split over ranks and gathered.
- `SiaMesh`, `SiaElement`, `SiaSystem`, `SiaSolution`, `SiaFlow`: shallow-ice velocities on an extruded mesh of prisms.
- `BalanceGradient`, `BalanceCosts`, `BalanceRules`, `BalanceSamples`: the balance-thickness cost functions, the gradient
  that is coded for them, and how far it is the gradient of the cost that is computed.
- `Smoothing`, `SmoothingLaws`; `FreeSurface`, `FreeSurfaceLaws`, `FreeSurfaceStabilisation`, `FreeSurfaceBalance`;
  `Masstransport`, `MasstransportLaws`, `MasstransportBalance`, `MasstransportUniform`: weak forms assembled by
  quadrature loops.
- `IceGeometry`: thickness, base and surface after a thickness solution.
- `EplMask`, `EplDomain`, `EplGrowth`, `EplRuns`, `EplOrder`; `DualHydrology`, `DualHydrologyLaws`,
  `DualHydrologyExchange`, `DualHydrologyBalance`: the two-layer hydrology: activation of the efficient layer as a state
  machine, and the coupled equations.
- `LevelsetGeometry`, `LevelsetTriangle`, `LevelsetZeroLine`, `LevelsetReinit`, `LevelsetDistances`, `LevelsetResult`,
  `LevelsetFar`: reinitialisation of the level set.
- `EnthalpyChart`, `EnthalpyMelting`, `EnthalpyBudget`, `EnthalpyConstraints`, `EnthalpyConstraintLaws`: basal melting and
  constraints.

## Where the code and its intent part

- `BalanceSamples`: the gradient is summed with quadrature order 4
  (`trunk/src/c/analyses/BalancethicknessAnalysis.cpp:525`), all five cost functions with order 2
  (`trunk/src/c/classes/FemModel.cpp:835` and its four siblings). `BalanceRules.GradientIsExact` and
  `ExactEverywhereIff` say exactly when the gradient is that of the cost, `LinearInputsExact` gives inputs for which it
  is, `VaryingCoefficientMisses` a triangle for which it is not, and `StationaryIsMinimal` what a vanishing gradient then
  says about the cost.
- `Masstransport`: under streamline upwinding in two dimensions, the CG loop does not clear the off-diagonals of its
  scratch matrix `D`, so each point inherits them from the previous one
  (`trunk/src/c/analyses/MasstransportAnalysis.cpp:299-341`). `CGForm` states exactly what is computed,
  `UpwindMissesDesign` gives a triangle where it differs from mass + dt * (divergence + advection + stabilisation),
  `TotalMassIff` and `UpwindMeetsDesignIff` say when it does not, and `RightTotalCanMiss` separates the two. The
  free-surface loops clear `D` and meet their design.
- `IceGeometry`: in incremental mode the sea level is added at every step
  (`trunk/src/c/analyses/MasstransportAnalysis.cpp:697-698`). `IncrementsFloatIff` says when a run nevertheless ends in
  hydrostatic balance, `IncrementsCanSink` gives one that does not.
- `LevelsetResult`: far vertices are recognised by the values 1 and -1
  (`trunk/src/c/analyses/LevelsetAnalysis.cpp:595-598`, marked FIXME), which a distance of exactly 1 also matches.
  `KeptIff` is the exact condition, `UnitDistanceLost` an example. Markers on a side of the zero line where no cut
  triangle has a vertex become 0: `SignsKept` is the exact condition, `UnseenSideLost` an example.
- `EnthalpyConstraintLaws`: basal flags are sampled at `indices[i]` but written to `nodes[i]`
  (`trunk/src/c/analyses/EnthalpyAnalysis.cpp:1280-1311`, read back at lines 277-285). These differ for quadratic
  elements: `QuadraticMeetsDesignIff` is the exact condition, `EdgeNodeReleased` an example. `MeetsDesignIff` covers any
  elements; for linear ones `LinearMeetsDesign` holds.
- `EplOrder`: where an open node is thin, two elements can disagree about it and the one processed last decides:
  `OrderIndependence` is the exact condition, `OrderCanMatter` an example.
- `GreenTables`: `Pn_p` is the derivative in x = cos(theta), not in theta as the comment at
  `trunk/src/c/analyses/SealevelriseAnalysis.cpp:119` says.
- `SiaElement`: the sliding velocity uses the slope and thickness left by the last quadrature point of the segment
  (`trunk/src/c/analyses/StressbalanceSIAAnalysis.cpp:470-509`).
- `LevelsetTriangle`: `GetLevelsetIntersection` promises counter-clockwise indices, but the rotated index it computes is
  not used; vertices are listed in ascending order on each side (`trunk/src/c/classes/Elements/Tria.cpp:1302-1329`).
  `CounterClockwiseIff` is the exact condition, `ClockwiseTriangle` an example.

## Model

| member | source | states |
|---|---|---|
| `LinearAlgebra.TripleMultiply` | trunk/src/c/shared/Matrix/MatrixUtils.cpp:20-87 | K gains A'DB for square D and K of any size, symmetric D or not, entry by entry |
| `LinearAlgebra.FormTriple` | trunk/src/c/shared/Matrix/MatrixUtils.cpp:72-82 | y'(K + A'DB)x = y'Kx + (Ay).D(Bx): what the triple product means for test fields |
| `LinearAlgebra.AddToGlobal` | trunk/src/c/classes/matrix/ElementMatrix.cpp:328-359 | entries of an element whose degrees of freedom are all free are added at the global ones, repeated ones included |
| `LinearAlgebra.FormAdded` | trunk/src/c/classes/matrix/ElementMatrix.cpp:328-359 | assembly adds the element's form of the fields gathered on its degrees of freedom |
| `LinearAlgebra.AddVectorToGlobal` | trunk/src/c/classes/matrix/ElementVector.cpp:155-176 | loads of an element whose degrees of freedom are all free are added at the global ones |
| `LinearAlgebra.DotVectorAdded` | trunk/src/c/classes/matrix/ElementVector.cpp:155-176 | assembly adds the element load's work on the gathered test field |
| `Assembly.StiffnessForm` | trunk/src/c/classes/matrix/ElementMatrix.cpp:328-359 | the form of an assembled mesh is the sum of the element forms |
| `Assembly.SolutionTested` | trunk/src/c/classes/matrix/ElementMatrix.cpp:328-359 | a solution of the assembled system satisfies its weak form for every test field |
| `Assembly.TestedSolution` | trunk/src/c/classes/matrix/ElementMatrix.cpp:328-359 | a field satisfying the weak form for all unit test fields solves the assembled system |
| `Legendre.EnergyBound` | trunk/src/c/analyses/SealevelriseAnalysis.cpp:112-133 | Pn^2 - 2x Pn Pn1 + Pn1^2 stays below its start value 1 - x^2, for every degree and x |
| `Legendre.EnergyDrop` | trunk/src/c/analyses/SealevelriseAnalysis.cpp:129-129 | one step of the recurrence lowers that quantity by (2n-1)/n^2 (x Pn1 - Pn2)^2 |
| `Legendre.ValueBound` | trunk/src/c/analyses/SealevelriseAnalysis.cpp:120-133 | every Pn left by the rolling recurrence is at most 1 in size on [-1,1] |
| `Legendre.DerivativeIdentities` | trunk/src/c/analyses/SealevelriseAnalysis.cpp:120-133 | P'n = n P(n-1) + x P'(n-1) and x P'n - P'(n-1) = n Pn, for every degree and x |
| `Legendre.DerivativeBound` | trunk/src/c/analyses/SealevelriseAnalysis.cpp:120-133 | every Pn_p is at most n(n+1)/2 in size on [-1,1] |
| `Legendre.DerivativeAtOne` | trunk/src/c/analyses/SealevelriseAnalysis.cpp:120-133 | P'n(1) = n(n+1)/2: the bound is reached |
| `LegendrePolynomial.PolynomialValue` | trunk/src/c/analyses/SealevelriseAnalysis.cpp:120-133 | the recurrence evaluates a polynomial of degree n, whose coefficients are built independently, at every x |
| `LegendrePolynomial.DerivativeValue` | trunk/src/c/analyses/SealevelriseAnalysis.cpp:120-133 | Pn_p is the value of the formal derivative of that polynomial |
| `LegendrePolynomial.LegendreEquation` | trunk/src/c/analyses/SealevelriseAnalysis.cpp:120-133 | (1-x^2) P'' - 2x P' + n(n+1) P = 0 for the computed polynomial |
| `LegendrePolynomial.OnlyLegendre` | trunk/src/c/analyses/SealevelriseAnalysis.cpp:120-133 | among the polynomials of degree at most n, exactly the computed one solves that equation with value 1 at 1 |
| `GreenTables.NextLegendre` | trunk/src/c/analyses/SealevelriseAnalysis.cpp:119-131 | one round of the rolling variables, which are not read before they are set |
| `GreenTables.FillRow` | trunk/src/c/analyses/SealevelriseAnalysis.cpp:103-138 | a row of G, U and H is the asymptotic term plus the sum over degrees, whatever Pn1, Pn2, Pn_p1, Pn_p2 start as |
| `GreenTables.FillLocal` | trunk/src/c/analyses/SealevelriseAnalysis.cpp:103-139 | a rank's rows land at offset lower_row |
| `GreenTables.OwnershipBoundaries` | trunk/src/c/toolkits/mpi/commops/GetOwnershipBoundariesFromRange.cpp:33-43 | the boundaries are the numbers of rows on all earlier ranks |
| `GreenTables.DetermineLocalSize` | trunk/src/c/toolkits/mpi/commops/DetermineLocalSize.cpp:35-50 | equal shares, the remainder going one each to the first ranks |
| `GreenTables.SharesPartition` | trunk/src/c/toolkits/mpi/commops/DetermineLocalSize.cpp:35-50 | the shares cover every row once and differ by at most one row |
| `GreenTables.Gatherv` | trunk/src/c/analyses/SealevelriseAnalysis.cpp:151-154 | a rank's rows replace exactly the rows it owns |
| `GreenTables.UpdateParameters` | trunk/src/c/analyses/SealevelriseAnalysis.cpp:97-166 | for any contiguous partition over any number of ranks the tables are the single-rank ones, with row 0 a copy of row 1, whatever the division by zero gave |
| `GreenTables.RegularEntries` | trunk/src/c/analyses/SealevelriseAnalysis.cpp:107-109 | away from the zero angle no entry depends on the division by zero |
| `GreenTableBounds.EntryMeaning` | trunk/src/c/analyses/SealevelriseAnalysis.cpp:107-137 | an entry is the plain sum over degrees plus the last Love number times the part of the series 1/(2 sin(a/2)) beyond the last degree |
| `GreenTableBounds.TruncationFree` | trunk/src/c/analyses/SealevelriseAnalysis.cpp:107-136 | once the Love numbers have reached their last value, G and U do not depend on where the sum is cut |
| `GreenTableBounds.EntryBounds` | trunk/src/c/analyses/SealevelriseAnalysis.cpp:103-139 | G, U and H of every regular row are bounded by the Love numbers alone: the asymptote over 2 sin(a/2) plus the spreads, and the sum of the sizes of l_n n(n+1)/2 |
| `GreenTableMeaning.HorizontalMeaning` | trunk/src/c/analyses/SealevelriseAnalysis.cpp:137-137 | H is sin(alpha) times the derivative, at cos(alpha), of the polynomial that sums l_n Pn; it vanishes where the sine does |
| `GreenTableMeaning.PotentialValue` | trunk/src/c/analyses/SealevelriseAnalysis.cpp:119-137 | that polynomial has the value of the sum of l_n Pn at every x |
| `EsaTables.FillRow` | trunk/src/c/analyses/EsaAnalysis.cpp:78-115 | a row of the ESA tables, whatever the rolling variables start as |
| `EsaTables.UpdateParameters` | trunk/src/c/analyses/EsaAnalysis.cpp:71-141 | the ESA tables are the U and H tables of the sea-level core, for any partition over ranks |
| `SiaMesh.CountConnectivity` | trunk/src/c/modules/ModelProcessorx/CreateNumberNodeToElementConnectivity.cpp:45-52 | the connectivity of a node counts the prisms around it: its triangles, twice on interior levels |
| `SiaElement.CreateKMatrix3D` | trunk/src/c/analyses/StressbalanceSIAAnalysis.cpp:249-292 | the element matrix for base, surface, single-layer and interior prisms |
| `SiaElement.CreatePVector3D` | trunk/src/c/analyses/StressbalanceSIAAnalysis.cpp:436-512 | the element load: shear integrals at the upper vertices, sliding at the lower ones of basal prisms |
| `SiaElement.ShareTerm` | trunk/src/c/analyses/StressbalanceSIAAnalysis.cpp:461-468 | adding shares point by point is sharing the integral |
| `SiaSystem.Assemble` | trunk/src/c/analyses/StressbalanceSIAAnalysis.cpp:232-297 | assembly over all layers and triangles, skipping prisms without ice |
| `SiaSystem.ShareIsWeight` | trunk/src/c/analyses/StressbalanceSIAAnalysis.cpp:250-292 | the 1/connectivity and 2/connectivity weights all come to 1/(triangles around the column) |
| `SiaSystem.ElementRow` | trunk/src/c/analyses/StressbalanceSIAAnalysis.cpp:263-291 | an element row is a share of the velocity at the base and of the jump along the segment above |
| `SiaSystem.AssembledRow` | trunk/src/c/analyses/StressbalanceSIAAnalysis.cpp:249-292 | an assembled row is the number of icy triangles around the column times the weighted jump |
| `SiaSystem.AssembledLoad` | trunk/src/c/analyses/StressbalanceSIAAnalysis.cpp:436-512 | an assembled load is the weighted sum of the drives of the icy triangles around the column |
| `SiaSystem.EquationMeaning` | trunk/src/c/analyses/StressbalanceSIAAnalysis.cpp:249-292 | each assembled equation holds exactly when the velocity jumps by the mean drive, for any icy subset of triangles |
| `SiaSystem.ColumnSolution` | trunk/src/c/analyses/StressbalanceSIAAnalysis.cpp:249-292 | the equations of a column up to any level hold exactly when the velocities are the running sums of the mean drives |
| `SiaSolution.SystemSolvedIff` | trunk/src/c/analyses/StressbalanceSIAAnalysis.cpp:232-297 | K x = p holds for the whole mesh exactly when every icy column carries its running sums; rows of ice-free columns are 0 = 0 |
| `SiaSolution.SystemSolution` | trunk/src/c/analyses/StressbalanceSIAAnalysis.cpp:232-297 | a solution of the whole system, for every mesh, number of layers and icy subset of triangles |
| `SiaFlow.FlowsDownSlope` | trunk/src/c/analyses/StressbalanceSIAAnalysis.cpp:436-512 | in any solution, over a uniform surface slope every icy velocity is parallel to the slope, and points down it where the shear does |
| `SiaFlow.EvenJump` | trunk/src/c/analyses/StressbalanceSIAAnalysis.cpp:458-509 | in any solution, where segments are even the velocity jumps by shear times length times slope, and slides at -1.58e-10 rho g H times the slope at the base |
| `BalanceGradient.AddResponse` | trunk/src/c/analyses/BalancethicknessAnalysis.cpp:542-583 | one response at one point adds its gradient to ge; an unknown response is an error |
| `BalanceGradient.ElementGradient` | trunk/src/c/analyses/BalancethicknessAnalysis.cpp:525-586 | the point and response loops leave the summed gradients in ge |
| `BalanceGradient.GradientJ` | trunk/src/c/analyses/BalancethicknessAnalysis.cpp:482-597 | the mesh gradient, skipping elements without ice; fails exactly on an unknown response in an icy element |
| `BalanceGradient.PointExpansion` | trunk/src/c/analyses/BalancethicknessAnalysis.cpp:542-580 | each of the five integrands expands exactly to second order with the coded gradient |
| `BalanceGradient.SameRuleExpansion` | trunk/src/c/analyses/BalancethicknessAnalysis.cpp:525-586 | if both were summed with one rule, J(h+d) = J(h) - ge.d + Q(d)/2 for any responses, elements and points |
| `BalanceRules.GradientIsExact` | trunk/src/c/analyses/BalancethicknessAnalysis.cpp:525-525 | with order 4 for the gradient and order 2 for the costs, the assembled vector is the negative gradient of J at h exactly when both rules assemble the same one there |
| `BalanceRules.ExactEverywhereIff` | trunk/src/c/analyses/BalancethicknessAnalysis.cpp:525-525 | it is exact for every thickness exactly when the two rules agree on the moments of coefficient x basis x basis and coefficient x data x basis |
| `BalanceSamples.LinearInputsExact` | trunk/src/c/analyses/BalancethicknessAnalysis.cpp:525-586 | constant coefficients, linear fields and, for costs along or across the flow, a constant direction meet that condition, for rules that integrate products of two basis functions alike |
| `BalanceSamples.SecondMoments` | trunk/src/c/shared/Numerics/GaussPoints.cpp:117-153 | the tabulated rules of order 2 and 4 do so up to the digits of the tables |
| `BalanceSamples.VaryingCoefficientMisses` | trunk/src/c/shared/Numerics/GaussPoints.cpp:117-153 | a triangle under the tabulated rules whose coefficient varies linearly: the gradient is off by more than 0.003 |
| `BalanceCosts.CostIsSquare` | trunk/src/c/analyses/BalancethicknessAnalysis.cpp:542-580 | every cost but the gradient one is half the coefficient times the square of a residual, for the balance response that of the flux divergence |
| `BalanceCosts.CostVanishesIff` | trunk/src/c/analyses/BalancethicknessAnalysis.cpp:542-580 | with a positive coefficient, the cost vanishes exactly where the field has what its response asks: the observed thickness, no gradient, no gradient along or across the flow, a balanced flux |
| `BalanceCosts.GradientVanishes` | trunk/src/c/analyses/BalancethicknessAnalysis.cpp:542-580 | where the field has what the response asks, the coded gradient is zero in every direction |
| `BalanceCosts.AlongAndAcross` | trunk/src/c/analyses/BalancethicknessAnalysis.cpp:550-574 | along and across costs add up to the gradient cost times (speed / (speed + 1e-9))^2 |
| `BalanceGradient.GramNonnegative` | trunk/src/c/classes/FemModel.cpp:811-868 | Q is non-negative for non-negative weights |
| `BalanceRules.MinimalIff` | trunk/src/c/classes/FemModel.cpp:835-857 | h is a cheapest thickness exactly when the gradient by the cost functions' own rule vanishes there |
| `BalanceRules.StationaryIsMinimal` | trunk/src/c/analyses/BalancethicknessAnalysis.cpp:525-586 | where the assembled gradient vanishes, h is a cheapest thickness exactly when that gradient is exact at h |
| `Smoothing.CreateKMatrix` | trunk/src/c/analyses/SmoothAnalysis.cpp:76-94 | the stiffness loops, entry by entry |
| `Smoothing.CreatePVector` | trunk/src/c/analyses/SmoothAnalysis.cpp:158-199 | the load loop, with driving stresses along the flow where it is fast |
| `Smoothing.Assemble` | trunk/src/c/analyses/SmoothAnalysis.cpp:46-206 | the assembled smoothing system |
| `Smoothing.SystemForm` | trunk/src/c/analyses/SmoothAnalysis.cpp:86-92 | form and work of the assembled system are sums of value and gradient products over all points |
| `SmoothingLaws.StiffnessSymmetric` | trunk/src/c/analyses/SmoothAnalysis.cpp:86-92 | the assembled matrix is symmetric |
| `SmoothingLaws.MeshEnergy` | trunk/src/c/analyses/SmoothAnalysis.cpp:86-92 | x'Kx is the sum of weight Jdet ((x)^2 + (l H)^2 (grad x)^2), with both parts non-negative |
| `SmoothingLaws.SmoothingConserves` | trunk/src/c/analyses/SmoothAnalysis.cpp:76-199 | every solution has the integral of the input, for every mesh and multiplier |
| `SmoothingLaws.SmoothingContracts` | trunk/src/c/analyses/SmoothAnalysis.cpp:76-199 | no solution is larger than its input in the mean square, and its gradient is bounded by it |
| `SmoothingLaws.ConstantsAreSmooth` | trunk/src/c/analyses/SmoothAnalysis.cpp:76-199 | a constant input is its own smoothing |
| `SmoothingLaws.PlaneIsSmooth` | trunk/src/c/analyses/SmoothAnalysis.cpp:186-193 | the smoothed slopes of a plane surface are its slopes |
| `SmoothingLaws.DrivingStress` | trunk/src/c/analyses/SmoothAnalysis.cpp:165-184 | above 15 m/yr the two stress components point against the flow with the size rho g H sqrt(slope^2 + 1e-10); below they follow the slope |
| `FreeSurface.SetAdvection` | trunk/src/c/analyses/FreeSurfaceTopAnalysis.cpp:183-186 | D is cleared and holds the advection factors |
| `FreeSurface.SetDiffusion` | trunk/src/c/analyses/FreeSurfaceTopAnalysis.cpp:193-218 | D for streamline upwinding and artificial diffusion |
| `FreeSurface.CreateKMatrix` | trunk/src/c/analyses/FreeSurfaceTopAnalysis.cpp:164-227 | the stiffness loop with its overwritten scratch matrix |
| `FreeSurface.CreatePVector` | trunk/src/c/analyses/FreeSurfaceBaseAnalysis.cpp:281-297 | the load loop; the top surface differs in its source terms only |
| `FreeSurface.Assemble` | trunk/src/c/analyses/FreeSurfaceTopAnalysis.cpp:115-309 | the assembled free-surface system, at the top or the base |
| `FreeSurfaceLaws.StiffnessForm` | trunk/src/c/analyses/FreeSurfaceTopAnalysis.cpp:165-227 | the loop computes exactly mass + dt advection + dt S, for any number of points |
| `FreeSurfaceLaws.DiffusionForm` | trunk/src/c/analyses/FreeSurfaceBaseAnalysis.cpp:184-218 | the scaled diffusion matrix acts as upwinding along the flow or diffusion in each direction |
| `FreeSurfaceStabilisation.AssembledParts` | trunk/src/c/analyses/FreeSurfaceTopAnalysis.cpp:165-227 | the assembled matrix is mass + dt advection + dt S, each summed over all points of all elements |
| `FreeSurfaceStabilisation.StabilisationSymmetric` | trunk/src/c/analyses/FreeSurfaceTopAnalysis.cpp:193-226 | the assembled S is symmetric |
| `FreeSurfaceStabilisation.StabilisationNonnegative` | trunk/src/c/analyses/FreeSurfaceTopAnalysis.cpp:193-226 | the assembled S is positive semidefinite for both stabilisations |
| `FreeSurfaceStabilisation.StabilisationIgnoresConstants` | trunk/src/c/analyses/FreeSurfaceTopAnalysis.cpp:170-226 | rows and columns of the assembled S sum to zero, and the rows of advection do |
| `FreeSurfaceStabilisation.StabilisationAdds` | trunk/src/c/analyses/FreeSurfaceTopAnalysis.cpp:193-226 | stabilising never lowers the energy of a field |
| `FreeSurfaceStabilisation.UpwindSize` | trunk/src/c/analyses/FreeSurfaceTopAnalysis.cpp:193-206 | 2 (speed + 1e-8) times the upwinding term is h times the product of the derivatives along the flow |
| `FreeSurfaceStabilisation.ArtificialSize` | trunk/src/c/analyses/FreeSurfaceTopAnalysis.cpp:207-218 | artificial diffusion is h/2 times the size of the average velocity component, direction by direction |
| `FreeSurfaceBalance.VolumeBalance` | trunk/src/c/analyses/FreeSurfaceTopAnalysis.cpp:115-309 | for any solution, new volume + transport = old volume + sources, whatever the stabilisation |
| `FreeSurfaceBalance.LevelRises` | trunk/src/c/analyses/FreeSurfaceBaseAnalysis.cpp:107-297 | a level surface under an even source solves the system risen by dt times the source, whatever flow and stabilisation |
| `Masstransport.AddPointCG` | trunk/src/c/analyses/MasstransportAnalysis.cpp:277-360 | one point of CG, starting from the off-diagonal it finds in D and leaving its own |
| `Masstransport.CreateKMatrixCG` | trunk/src/c/analyses/MasstransportAnalysis.cpp:276-361 | the CG loop with its carried scratch matrix; an unknown stabilisation is an error |
| `Masstransport.CreateKMatrixDG` | trunk/src/c/analyses/MasstransportAnalysis.cpp:401-430 | the DG loop |
| `Masstransport.CreateFctKMatrix` | trunk/src/c/analyses/MasstransportAnalysis.cpp:753-773 | the FCT loop |
| `Masstransport.CreatePVector` | trunk/src/c/analyses/MasstransportAnalysis.cpp:491-508 | the load loop, with grounded or floating melt by the sign of phi |
| `Masstransport.AssembleCG` | trunk/src/c/analyses/MasstransportAnalysis.cpp:233-371 | the assembled CG system |
| `MasstransportLaws.CGForm` | trunk/src/c/analyses/MasstransportAnalysis.cpp:277-361 | the CG loop computes mass + dt (divergence + advection + S) plus what the inherited off-diagonals add, for any number of points |
| `MasstransportLaws.TotalMassIff` | trunk/src/c/analyses/MasstransportAnalysis.cpp:303-359 | the element's total mass matches the intended form exactly when the inherited off-diagonals cancel |
| `MasstransportLaws.CGMeetsDesign` | trunk/src/c/analyses/MasstransportAnalysis.cpp:303-359 | without streamline upwinding, or in one dimension, the loop meets the intended form for all fields |
| `MasstransportLaws.UpwindMeetsDesignIff` | trunk/src/c/analyses/MasstransportAnalysis.cpp:335-359 | where the basis vectors at the points are independent, the loop meets the intended form for all fields exactly when vx vy = 0 at every point but the last |
| `MasstransportLaws.ThreePointsIndependent` | trunk/src/c/shared/Numerics/GaussPoints.cpp:117-124 | the three-point rule of a triangle has independent basis vectors |
| `MasstransportLaws.UpwindMissesDesign` | trunk/src/c/analyses/MasstransportAnalysis.cpp:335-359 | a triangle under the three-point rule, in a uniform flow, where it does not |
| `MasstransportLaws.RightTotalCanMiss` | trunk/src/c/analyses/MasstransportAnalysis.cpp:335-359 | a flow that turns between the points: the element's total mass is right and the loop still misses its design |
| `MasstransportLaws.DGForm` | trunk/src/c/analyses/MasstransportAnalysis.cpp:409-428 | DG is mass minus the transpose of CG advection |
| `MasstransportLaws.DGConserves` | trunk/src/c/analyses/MasstransportAnalysis.cpp:417-428 | the columns of DG advection sum to zero: element mass is conserved |
| `MasstransportLaws.FCTForm` | trunk/src/c/analyses/MasstransportAnalysis.cpp:761-771 | FCT is minus the advection of a unit step, and its rows sum to zero |
| `MasstransportBalance.IceBalance` | trunk/src/c/analyses/MasstransportAnalysis.cpp:233-516 | for any CG solution: new volume + div(v h) + stale terms = old volume + dt (mass balance - melt) |
| `MasstransportBalance.IceConserved` | trunk/src/c/analyses/MasstransportAnalysis.cpp:233-516 | without streamline upwinding there are no stale terms |
| `MasstransportUniform.UniformThickens` | trunk/src/c/analyses/MasstransportAnalysis.cpp:233-516 | without streamline upwinding, an even slab in a flow of even divergence, under an even supply less the melt that phi selects, stays even: (1 + dt div) times the new thickness is the old one plus dt times the supply |
| `IceGeometry.NewThickness` | trunk/src/c/analyses/MasstransportAnalysis.cpp:663-680 | solved thickness clamped at the minimum, and its change |
| `IceGeometry.NewGeometry` | trunk/src/c/analyses/MasstransportAnalysis.cpp:686-703 | base and surface of grounded and floating nodes; an unknown adjustment at a floating node is an error |
| `IceGeometry.Geometry.InputUpdateFromSolution` | trunk/src/c/analyses/MasstransportAnalysis.cpp:660-709 | the update of the stored geometry; on error nothing is stored |
| `IceGeometry.RunKeepsGeometry` | trunk/src/c/analyses/MasstransportAnalysis.cpp:663-703 | after any run surface - base = thickness exactly if it held before or some step was not incremental; thickness stays above the minimum; published changes telescope |
| `IceGeometry.GroundedRests` | trunk/src/c/analyses/MasstransportAnalysis.cpp:663-691 | however long ice with phi > 0 is updated, its base rests, its surface is base plus thickness, and the thickness is the larger of the last solution and the minimum |
| `IceGeometry.AbsoluteFloats` | trunk/src/c/analyses/MasstransportAnalysis.cpp:692-695 | absolute adjustment leaves floating ice in hydrostatic balance about the current sea level |
| `IceGeometry.IncrementsFloatIff` | trunk/src/c/analyses/MasstransportAnalysis.cpp:696-699 | an incremental run ends in balance about the current sea level exactly when the initial float level and all earlier sea levels cancel |
| `IceGeometry.IncrementFloatsIff` | trunk/src/c/analyses/MasstransportAnalysis.cpp:696-699 | one increment keeps a balance exactly when it was about level zero |
| `IceGeometry.IncrementsCanSink` | trunk/src/c/analyses/MasstransportAnalysis.cpp:696-699 | a balanced shelf that one increment puts out of balance |
| `EplMask.GetMask` | trunk/src/c/analyses/HydrologyDCEfficientAnalysis.cpp:660-708 | the masks, flags and thicknesses that one element leaves, pushes to other nodes included |
| `EplDomain.GetActive` | trunk/src/c/analyses/HydrologyDCEfficientAnalysis.cpp:796-812 | nodes of elements with an open node, or active, are marked |
| `EplDomain.Domain.ElementizeMask` | trunk/src/c/analyses/HydrologyDCInefficientAnalysis.cpp:636-654 | an element is active exactly if a node of it is open |
| `EplDomain.Domain.ApplyLock` | trunk/src/c/classes/FemModel.cpp:2722-2732 | counters follow flags, and a node past the lock keeps its previous mask |
| `EplDomain.Domain.UpdateDomain` | trunk/src/c/classes/FemModel.cpp:2696-2786 | one pass: masks, counters, active elements and nodes, and thicknesses |
| `EplDomain.PassBinary` | trunk/src/c/classes/FemModel.cpp:2718-2732 | masks stay 0 or 1 |
| `EplRuns.ChangeIsFlagged` | trunk/src/c/analyses/HydrologyDCEfficientAnalysis.cpp:665-707 | a node whose mask changes had its flag raised and is not locked |
| `EplRuns.QuietPass` | trunk/src/c/analyses/HydrologyDCEfficientAnalysis.cpp:665-707 | a pass without flags is a fixpoint |
| `EplRuns.ActivationIsClosure` | trunk/src/c/analyses/HydrologyDCEfficientAnalysis.cpp:796-812 | active nodes are those sharing an element with an open node |
| `EplRuns.GrowthIsLocal` | trunk/src/c/analyses/HydrologyDCEfficientAnalysis.cpp:687-707 | the domain grows only next to itself or from a residual |
| `EplGrowth.FlaggedIff` | trunk/src/c/analyses/HydrologyDCEfficientAnalysis.cpp:665-707 | a closed node is flagged exactly if an element around it sees a positive residual, or is active and has another node at its maximum head while none is lower in sediment head; the counter rises by one then |
| `EplGrowth.OpensIff` | trunk/src/c/analyses/HydrologyDCEfficientAnalysis.cpp:665-707 | a closed node opens exactly if it is so reached and the flip counter is within the lock |
| `EplGrowth.OpenNodeFate` | trunk/src/c/analyses/HydrologyDCEfficientAnalysis.cpp:676-684 | an unlocked open node closes, flagged, where every element sees it too thin and none overflows onto it, and stays open, unflagged, where every element sees it thick enough |
| `EplGrowth.OpenedNodeFate` | trunk/src/c/analyses/HydrologyDCEfficientAnalysis.cpp:676-689 | a node that has opened starts the next pass from the initial thickness: it stays open if that reaches the collapse thickness, and is otherwise flagged and closed unless locked or overflowed onto |
| `EplGrowth.LastingPersists` | trunk/src/c/analyses/HydrologyDCEfficientAnalysis.cpp:676-689 | a node that is open keeps its thickness from pass to pass: where it lasts once it lasts again |
| `EplRuns.LockTerminates` | trunk/src/c/classes/FemModel.cpp:2722-2732 | at most nodes x lock passes of a run change any mask, whatever the inputs do |
| `EplRuns.LockedForever` | trunk/src/c/classes/FemModel.cpp:2722-2732 | a locked node stays locked and frozen |
| `EplRuns.ChangesBelowCounter` | trunk/src/c/classes/FemModel.cpp:2722-2732 | a node changes at most as often as it was counted, and never past the lock |
| `EplRuns.GrowsWithoutCollapse` | trunk/src/c/analyses/HydrologyDCEfficientAnalysis.cpp:669-707 | without collapse open nodes stay open unflagged, and exactly the flagged ones open |
| `EplRuns.FlaggedOnce` | trunk/src/c/analyses/HydrologyDCEfficientAnalysis.cpp:669-707 | without collapse a node is flagged at most once over a run |
| `EplRuns.ConvergesWithoutCollapse` | trunk/src/c/analyses/HydrologyDCEfficientAnalysis.cpp:669-707 | without collapse at most one pass per initially closed node raises a flag |
| `EplOrder.OrderIndependence` | trunk/src/c/analyses/HydrologyDCEfficientAnalysis.cpp:665-707 | the mask at a node is the same under every permutation of the elements exactly when the node was closed, or the elements around it agree on: thin there, and no later node pushes it |
| `EplOrder.OrderFreeWithoutCollapse` | trunk/src/c/analyses/HydrologyDCEfficientAnalysis.cpp:665-707 | without collapse no mask depends on the order |
| `EplOrder.LastElementDecides` | trunk/src/c/analyses/HydrologyDCEfficientAnalysis.cpp:665-707 | otherwise the element processed last decides |
| `EplOrder.OrderCanMatter` | trunk/src/c/analyses/HydrologyDCEfficientAnalysis.cpp:669-707 | two triangles sharing a thin node that one of them pushes open: their order decides the mask |
| `EplOrder.StepOrderFree` | trunk/src/c/classes/FemModel.cpp:2696-2786 | an order-free pass over reordered elements gives the same masks, counters and activity |
| `EplOrder.RunOrderFree` | trunk/src/c/classes/FemModel.cpp:2696-2786 | a run of order-free passes is the same run under every order of the elements |
| `DualHydrology.CreateKMatrix` | trunk/src/c/analyses/HydrologyDCInefficientAnalysis.cpp:223-264 | the stiffness loop of either layer (the other is HydrologyDCEfficientAnalysis.cpp lines 233-269); an unknown transfer method fails exactly where it is asked for |
| `DualHydrology.CreatePVector` | trunk/src/c/analyses/HydrologyDCInefficientAnalysis.cpp:330-378 | the load loop of either layer, melt, memory, transfer and overflow shares |
| `DualHydrology.AddShares` | trunk/src/c/analyses/HydrologyDCEfficientAnalysis.cpp:368-375 | residuals divided by connectivity are added at the vertices |
| `DualHydrologyLaws.StiffnessForm` | trunk/src/c/analyses/HydrologyDCEfficientAnalysis.cpp:233-269 | the loop computes diffusion + storage + transfer, for any number of points |
| `DualHydrologyLaws.LoadWork` | trunk/src/c/analyses/HydrologyDCEfficientAnalysis.cpp:329-375 | the load works as melt + memory + transfer + shares |
| `DualHydrologyLaws.CoupledBalance` | trunk/src/c/analyses/HydrologyDCInefficientAnalysis.cpp:242-376 | the two layers' residuals add up to diffusion, storage, one melt load and the overflow shares: the load enters exactly one layer and nothing of the transfer is left |
| `DualHydrologyLaws.TransferCancels` | trunk/src/c/analyses/HydrologyDCEfficientAnalysis.cpp:452-498 | node by node, in an active element the sum of the residuals is the same for every transfer method and leakage |
| `DualHydrologyExchange.LayerLaw` | trunk/src/c/analyses/HydrologyDCInefficientAnalysis.cpp:599-606 | one layer's residual: flow and storage, minus the melt and overflow it takes, plus leakage dt (head - other head) where the layers exchange, under transfer method 1; under method 0 nothing is exchanged |
| `DualHydrologyExchange.RaisedHeadGives` | trunk/src/c/analyses/HydrologyDCEfficientAnalysis.cpp:459-491 | raising the other head by c lowers the residual of this layer by leakage dt c per unit of area: the higher layer gives water |
| `DualHydrologyBalance.Assemble` | trunk/src/c/analyses/HydrologyDCInefficientAnalysis.cpp:178-385 | a layer's system over the mesh; inactive elements add nothing to the efficient layer |
| `DualHydrologyBalance.WaterBalance` | trunk/src/c/analyses/HydrologyDCInefficientAnalysis.cpp:242-376 | for heads solving both layers, the change of stored water is melt plus overflow, for any activation |
| `DualHydrologyBalance.HandedShare` | trunk/src/c/analyses/HydrologyDCEfficientAnalysis.cpp:368-375 | a node hands over its overflow in the proportion of active elements around it |
| `DualHydrologyBalance.OverflowWholeIff` | trunk/src/c/analyses/HydrologyDCEfficientAnalysis.cpp:368-375 | the whole overflow arrives exactly when every element around the node is active, or it is zero |
| `LevelsetGeometry.DistanceIsLeast` | trunk/src/c/analyses/LevelsetAnalysis.cpp:510-533 | the returned distance is the minimum over all points of the line, and is reached |
| `LevelsetTriangle.GetLevelsetIntersection` | trunk/src/c/classes/Elements/Tria.cpp:1286-1362 | icy vertices first, and the fractions at which the two cut edges cross the level |
| `LevelsetTriangle.CounterClockwiseIff` | trunk/src/c/classes/Elements/Tria.cpp:1286-1336 | the vertices come out counter-clockwise, as promised, exactly when vertex 1 is not alone on its side of the level |
| `LevelsetTriangle.ClockwiseTriangle` | trunk/src/c/classes/Elements/Tria.cpp:1286-1336 | a triangle listed clockwise |
| `LevelsetZeroLine.LevelAtFraction` | trunk/src/c/classes/Elements/Tria.cpp:1339-1347 | between an icy and a dry vertex the linear level set takes the level, whatever it is, at the fraction computed, in [0,1) |
| `LevelsetTriangle.ZeroLevelsetCoordinates` | trunk/src/c/classes/Elements/Tria.cpp:3446-3494 | the two zero points, along edges or at vertices |
| `LevelsetZeroLine.ZeroPoints` | trunk/src/c/classes/Elements/Tria.cpp:3446-3494 | a cut triangle yields two distinct points where the linear interpolant is zero, so the distance is always defined |
| `LevelsetZeroLine.CutIff` | trunk/src/c/classes/Elements/Tria.cpp:2064-2081 | with ice in it, a triangle is called cut exactly when two zero points are found |
| `LevelsetZeroLine.DistancesFollow` | trunk/src/c/analyses/LevelsetAnalysis.cpp:633-648 | the signed distances of a cut triangle are proportional to its level set: no zero moves, no sign flips |
| `LevelsetReinit.SignedDistances` | trunk/src/c/analyses/LevelsetAnalysis.cpp:628-648 | the signed distances of the three vertices |
| `LevelsetReinit.SetDistanceToZeroLevelsetElement` | trunk/src/c/analyses/LevelsetAnalysis.cpp:650-655 | the smaller distance is kept at each vertex, anything replacing not-a-number |
| `LevelsetReinit.InsertDistances` | trunk/src/c/analyses/LevelsetAnalysis.cpp:575-590 | the second loop, with the running extremes |
| `LevelsetReinit.SetDistanceOnIntersectedElements` | trunk/src/c/analyses/LevelsetAnalysis.cpp:554-604 | all three loops, vertex by vertex |
| `LevelsetDistances.NearDistances` | trunk/src/c/analyses/LevelsetAnalysis.cpp:567-590 | after the second loop each vertex of a cut triangle holds its old sign times the least distance reported by the cut triangles around it; none is left not-a-number; others keep their level set |
| `LevelsetDistances.DistancesOrderFree` | trunk/src/c/analyses/LevelsetAnalysis.cpp:575-590 | those values do not depend on the order or repetition of the triangles |
| `LevelsetResult.NearestPoint` | trunk/src/c/analyses/LevelsetAnalysis.cpp:567-590 | the value is at most the distance to any point of the zero line of any cut triangle around the vertex |
| `LevelsetResult.ExtremesCover` | trunk/src/c/analyses/LevelsetAnalysis.cpp:581-588 | dmaxp and dmaxm, taken while distances shrink, bound every final distance of their sign |
| `LevelsetResult.FarBeyondNear` | trunk/src/c/analyses/LevelsetAnalysis.cpp:592-599 | markers outside the cut triangles end at least three times as far as any vertex of a cut triangle on their side was, and no nearer than it ends: only vertices at distance 1 are moved too |
| `LevelsetFar.FarValue` | trunk/src/c/analyses/LevelsetAnalysis.cpp:576-599 | a marker ends at exactly three times the farthest distance of its side that the second loop left on the way |
| `LevelsetFar.FarthestUnique` | trunk/src/c/analyses/LevelsetAnalysis.cpp:581-588 | there is only one such distance |
| `LevelsetResult.KeptIff` | trunk/src/c/analyses/LevelsetAnalysis.cpp:592-599 | a vertex of a cut triangle keeps its distance exactly when it is not 1 or -1 |
| `LevelsetResult.UnitDistanceLost` | trunk/src/c/analyses/LevelsetAnalysis.cpp:592-599 | a triangle whose vertex is at distance 1 and loses it |
| `LevelsetResult.ExtremesSeen` | trunk/src/c/analyses/LevelsetAnalysis.cpp:581-588 | an extreme leaves zero exactly when some cut triangle has a vertex on its side |
| `LevelsetResult.SignsKept` | trunk/src/c/analyses/LevelsetAnalysis.cpp:554-604 | no vertex changes sides, and its sign is kept exactly unless it is a marker and no cut triangle has a vertex on its side |
| `LevelsetResult.UnseenSideLost` | trunk/src/c/analyses/LevelsetAnalysis.cpp:592-599 | a zero line along an edge: the marker beyond it becomes 0 |
| `EnthalpyChart.GetThermalBasalCondition` | trunk/src/c/analyses/EnthalpyAnalysis.cpp:1430-1459 | the five states, two of them cold; state 2 occurs in steady state only, state 1 only over water |
| `EnthalpyChart.PinsMeans` | trunk/src/c/analyses/EnthalpyAnalysis.cpp:1291-1388 | which bases are pinned: wet cold ones, and temperate ones without a temperate layer above or in steady state |
| `EnthalpyMelting.MeltRates` | trunk/src/c/analyses/EnthalpyAnalysis.cpp:375-417 | the melt rate of every segment from its state and heat fluxes; none at cold dry bases |
| `EnthalpyMelting.OverfreezeMeans` | trunk/src/c/analyses/EnthalpyAnalysis.cpp:424-425 | when freeze-on is limited, lambda is in [0,1) and pays exactly for the water there is |
| `EnthalpyMelting.UpdateNode` | trunk/src/c/analyses/EnthalpyAnalysis.cpp:423-443 | the update of one node; water stays non-negative |
| `EnthalpyMelting.Base.ComputeBasalMeltingrate` | trunk/src/c/analyses/EnthalpyAnalysis.cpp:305-450 | all segments are updated from the state before the call, other nodes are untouched |
| `EnthalpyMelting.WaterBalance` | trunk/src/c/analyses/EnthalpyAnalysis.cpp:423-443 | rho_ice dt (reported rate) = rho_water (change of the water column), and ice is cooled only where water runs out |
| `EnthalpyMelting.EnergyBalance` | trunk/src/c/analyses/EnthalpyAnalysis.cpp:424-433 | dt L rho_ice m = L rho_ice (water change) + yts (enthalpy change), and the ice is never warmed |
| `EnthalpyMelting.RunMelts` | trunk/src/c/analyses/EnthalpyAnalysis.cpp:419-444 | over any run the reported melt telescopes to the change of the water column |
| `EnthalpyMelting.RunHeats` | trunk/src/c/analyses/EnthalpyAnalysis.cpp:419-444 | over any run all the heat of the melt rates is found in water or in cooling |
| `EnthalpyBudget.HeatBudget` | trunk/src/c/analyses/EnthalpyAnalysis.cpp:375-433 | water gained and warmth lost in a transient step take exactly the heat of conduction, friction and geothermal flux: along the enthalpy gradient, or through a temperate layer where base and node above are not frozen; cold dry bases are left alone |
| `EnthalpyBudget.SteadyRate` | trunk/src/c/analyses/EnthalpyAnalysis.cpp:375-443 | in steady state the reported rate takes up that heat, and water and enthalpy stay |
| `EnthalpyBudget.ColdIff` | trunk/src/c/analyses/EnthalpyAnalysis.cpp:1579-1592 | ice without water is cold exactly if its temperature plus beta times pressure is below the melting point |
| `EnthalpyConstraints.GetBasalConstraints` | trunk/src/c/analyses/EnthalpyAnalysis.cpp:1253-1397 | the flags one element writes, in steady state and in transients |
| `EnthalpyConstraints.ApplyBasalConstraints` | trunk/src/c/analyses/EnthalpyAnalysis.cpp:252-297 | active base nodes are pinned or released by their flag |
| `EnthalpyConstraints.UpdateBasalConstraints` | trunk/src/c/analyses/EnthalpyAnalysis.cpp:1593-1621 | both passes; nothing when constraints are not dynamic |
| `EnthalpyConstraintLaws.FlagAfterIs` | trunk/src/c/analyses/EnthalpyAnalysis.cpp:1600-1604 | agreeing writers determine the flag of a node, unwritten nodes keep 0 |
| `EnthalpyConstraintLaws.OutcomeByFlag` | trunk/src/c/analyses/EnthalpyAnalysis.cpp:276-292 | active base nodes follow their flag, all others are left alone |
| `EnthalpyConstraintLaws.MeetsDesignIff` | trunk/src/c/analyses/EnthalpyAnalysis.cpp:1593-1621 | where all flags written to a base node come from samples based there, it ends as the chart asks exactly when the chart does not pin it or some flag is written to it |
| `EnthalpyConstraintLaws.LinearMeetsDesign` | trunk/src/c/analyses/EnthalpyAnalysis.cpp:1593-1621 | with linear elements an active base node ends pinned at its melting point exactly when a grounded icy base element puts it in a pinning state, else free |
| `EnthalpyConstraintLaws.QuadraticMeetsDesignIff` | trunk/src/c/analyses/EnthalpyAnalysis.cpp:1280-1311 | with quadratic prisms: exactly when the chart does not pin it or it is a vertex, not only an edge node, of a grounded icy base element |
| `EnthalpyConstraintLaws.OrderFree` | trunk/src/c/analyses/EnthalpyAnalysis.cpp:1593-1621 | the order and repetition of the elements do not matter where flags come from samples based at the node, quadratic elements included |
| `EnthalpyConstraintLaws.UnwrittenIsReleased` | trunk/src/c/analyses/EnthalpyAnalysis.cpp:1280-1311 | a base node that no flag is written to is released; the design is met there exactly when the chart does not pin it |
| `EnthalpyConstraintLaws.EdgeNodeReleased` | trunk/src/c/analyses/EnthalpyAnalysis.cpp:1352-1386 | a quadratic prism with a cold wet base whose edge node is released |

## Left out

- Floating point: rounding, overflow and NaN/Inf checks of solution vectors; NaN is modelled only in level-set reinitialisation, where it carries meaning.
- Linear solvers and boundary conditions of the assembled systems: solutions are any vectors that satisfy the equations.
- LinearAlgebra.TripleMultiply: does not model a rectangular D, a transposed D or B, an untransposed first factor or overwriting of K, which the modelled callers never ask for.
- LinearAlgebra.AddToGlobal: does not model constrained degrees of freedom, whose rows the source drops and whose columns it moves to another matrix.
- LinearAlgebra.AddVectorToGlobal: does not model constrained degrees of freedom, whose entries the source drops.
- MPI transport: ranks run one after another and gathering copies rows; level-set and mask vectors are those of one rank.
- Model processing, enum dispatch, input storage and interpolation: nodal and point values are parameters.
- `CreateKMatrix2D` and `CreatePVector2D` of the shallow-ice analysis: diagonal entries 1/connectivity with the same cancellation as in three dimensions.
- The sliding laws other than the one selected in the source, and the powers in the shear factor, which is a given value.
- The 3-D prism level set and `SpawnBasalElement`/`SpawnTopElement`: element loops start from the two-dimensional element.
- The digits of the tabulated quadrature rules, which sum to 1 only up to rounding: laws that need it assume a partition of unity.
- Numerical fluxes of discontinuous Galerkin and the flux-corrected solver: only the element matrices are modelled.
- The penalty that bounds the sediment head, the storing and transmissivity coefficients, and the thickness evolution of the efficient layer.
- Drainage of the water fraction, the enthalpy solver, heat-flux input interpolation and the steady-state water column, which the source computes and discards.
- Frozen nodes, where changing a basal constraint stops the source with an error.
- The third coordinate of level-set points, which the distance ignores.
