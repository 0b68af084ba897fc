# GooseFEM Quad4 quadrature, DOF numbering and vector conversions in Dafny

This project models four parts of the GooseFEM finite-element library and proves properties about each:

- **Planar Quad4 quadrature** (`Quad4Rules`, `ElementQuad4`).
  - The Gauss and Nodal integration rules.
  - The constructor's choice of integration scheme, including its error case.
  - The bilinear shape functions and their local gradients.
  - The per-point Jacobian, the global gradients `dNx = Jinv · dNxi` and the point volumes `w · det J`. These are kept in the class `Quadrature` and rebuilt by `UpdateX`.
  - The field operators: `dV`, the displacement gradient, its transpose and its symmetric part, the mass-type matrix, the internal-force vector, and the dispatch on tensor storage size.
- **Axisymmetric Quad4 quadrature** (`AxisymmetricOperators`, `ElementQuad4Axisymmetric`).
  - The class `QuadratureAxisymmetric` with its sparse 3-d `B` operator and the ring volume `w · det J · 2π · r`.
  - Operators that write into caller-supplied buffers. These are Dafny multi-dimensional arrays, zero-filled and then accumulated in loops, as in the C++.
  - The value-returning overloads, which allocate a buffer and call the in-place operator.
- **DOF-numbering helpers** (`Mesh`).
  - `dofs`, `Renumber`, `renumber`, `Reorder`, `coordination` and `elem2node`.
  - The element types and the selection of a default element type.
- **Vector conversions** (`Vector`, `VectorPeriodic`).
  - `asDofs`, `asElement` and `assembleDofs` as pure functions over a connectivity and a DOF table, with general gather/sum lemmas.
  - The 2×2 periodic Quad4 mesh from the vector tests, on which the tests' round-trip and zero-sum results are proved.

**Modelling conventions**

- Field values are exact `real`s; indices are `nat`s.
- A C++ `assert` on a caller's input becomes a `requires`. A `throw` becomes an `Err` of the `Result` type in `Wrappers`.
- `1/√3` is a constant `G`, and π is a constant `PI`. Both are positive; their values are otherwise not needed.
- The 2×2 determinant and inverse are the closed forms. They are used under the requirement `det J ≠ 0`, because the code divides without guarding.
- The point volume uses the signed determinant, exactly as the code computes it, not its absolute value.
- A full planar tensor is stored row-major as `[xx, xy, yx, yy]`. A symmetric one is stored as `[xx, xy, yy]`.
- The axisymmetric B operator is indexed `(r, θ, z) = (0, 1, 2)`. The radius is coordinate 1 of the planar position, and the axial coordinate is coordinate 0.

## Model

| member | source | states |
|---|---|---|
| Quad4Rules.GaussRule | src/GooseFEM/ElementQuad4.cpp:26-62 | the Gauss rule has 4 points of 2 coordinates each and every weight is 1 |
| Quad4Rules.NodalRule | src/GooseFEM/ElementQuad4.cpp:74-110 | the Nodal rule has 4 points of 2 coordinates each and every weight is 1 |
| Quad4Rules.GaussIsScaledNodal | src/GooseFEM/ElementQuad4.cpp:40-43 | the Gauss points are the Nodal corners (±1, ±1) scaled by g = 1/√3, in the same node order |
| Quad4Rules.PartitionOfUnity | src/GooseFEM/ElementQuad4.cpp:168-174 | at every local point the four shape functions sum to 1 |
| Quad4Rules.LocalGradientColumnsSumToZero | src/GooseFEM/ElementQuad4.cpp:177-183 | at every local point each column of the local gradient table sums to 0 |
| Quad4Rules.LocalGradientIsDerivative | src/GooseFEM/ElementQuad4.cpp:177-183 | the local gradient table is the exact derivative of the bilinear shape functions: a step t along local axis i changes N(m) by exactly t · dNxi(m,i) |
| Quad4Rules.NodalShapeIsKronecker | src/GooseFEM/ElementQuad4.cpp:168-174 | at Nodal point k, N(m) is 1 when m == k and 0 otherwise |
| Quad4Rules.RulesIntegrateShapeFunctions | src/GooseFEM/ElementQuad4.cpp:26-110 | under both the Gauss and the Nodal rule each shape function integrates to 1 (a quarter of the reference area 4) |
| Quad4Rules.InvIsInverse | src/GooseFEM/ElementQuad4.cpp:285-286 | when det J ≠ 0 the closed-form inverse is a two-sided inverse of J, and det(Jinv) · det(J) = 1 |
| Quad4Rules.GlobalGradientEntries | src/GooseFEM/ElementQuad4.cpp:290-294 | dNx(m,i) = Σ_j Jinv(i,j) · dNxi(m,j) for every node m |
| Quad4Rules.GlobalGradientColumnsSumToZero | src/GooseFEM/ElementQuad4.cpp:290-294 | for any Jinv, each column of the global gradients sums to 0 over the nodes |
| Quad4Rules.GradientContractionX | src/GooseFEM/ElementQuad4.cpp:290-294 | contracting column 0 of dNx with any nodal field equals row 0 of Jinv applied to the contractions of the local gradients |
| Quad4Rules.GradientContractionY | src/GooseFEM/ElementQuad4.cpp:290-294 | the same for column 1 of dNx and row 1 of Jinv |
| Quad4Rules.ComputedGradientIsConsistent | src/GooseFEM/ElementQuad4.cpp:279-294 | when det J ≠ 0, the computed gradients reproduce the positions: Σ_m dNx(m,i) · x(m,j) = δij, and each column of dNx sums to 0 |
| Quad4Rules.AffineExactness | src/GooseFEM/ElementQuad4.cpp:279-294 | gradients consistent with the positions differentiate every affine field u = a · x + c exactly: Σ_m dNx(m,i) · u(m,j) = a(j,i) |
| ElementQuad4.SizeZero | src/GooseFEM/ElementQuad4.cpp:133 | a coordinate table has size 0 exactly when all of its rows are empty |
| ElementQuad4.SelectRule | src/GooseFEM/ElementQuad4.cpp:133-148 | the result is Ok exactly when the weights and the coordinates are both empty or both non-empty; both empty gives the 4-point Gauss rule; both given gives the input rule; otherwise the error carries the source's message |
| ElementQuad4.Quadrature.New | src/GooseFEM/ElementQuad4.cpp:120-187 | fails exactly when the scheme selection fails, with its message; otherwise it returns a fresh, valid object on the given positions using the selected rule |
| ElementQuad4.Quadrature.FromRule | src/GooseFEM/ElementQuad4.cpp:150-186 | the new object holds the positions and the rule, its shape-function tables belong to the rule, and its gradients and volumes belong to the positions |
| ElementQuad4.Quadrature.ComputeDN | src/GooseFEM/ElementQuad4.cpp:254-304 | afterwards the stored gradients and volumes are the global gradients and point volumes of the current positions |
| ElementQuad4.Quadrature.UpdateX | src/GooseFEM/ElementQuad4.cpp:236-250 | after the update the object holds the new positions, and its gradients and volumes are those a fresh object with the same rule would compute on them |
| ElementQuad4.GradientFieldColumnsSumToZero | src/GooseFEM/ElementQuad4.cpp:290-294 | for every element and point, each column of the stored global gradients sums to 0 |
| ElementQuad4.GradientFieldIsConsistent | src/GooseFEM/ElementQuad4.cpp:279-300 | for every element and point, the stored gradients reproduce that element's positions (δij) |
| ElementQuad4.Quadrature.DV | src/GooseFEM/ElementQuad4.cpp:191-204 | with ncomp = 0 the result is the point volumes unchanged; otherwise every one of the ncomp components at (e,k) equals vol(e,k) |
| ElementQuad4.Quadrature.GradNVector | src/GooseFEM/ElementQuad4.cpp:309-353 | at every element and point the stored tensor is gradu(i,j) = Σ_m dNx(m,i) · u(m,j), in full storage |
| ElementQuad4.Quadrature.GradNVectorT | src/GooseFEM/ElementQuad4.cpp:358-402 | at every element and point the stored tensor is the transpose of gradu |
| ElementQuad4.Quadrature.SymGradNVector | src/GooseFEM/ElementQuad4.cpp:407-459 | at every element and point the stored tensor is the symmetric part of gradu, in the requested storage |
| ElementQuad4.SymPartProperties | src/GooseFEM/ElementQuad4.cpp:445-450 | the symmetric part is symmetric and equals its own transpose; each entry is the average of gradu and its transpose; it leaves a tensor unchanged exactly when that tensor is symmetric; a tensor and its transpose have the same symmetric part |
| ElementQuad4.GradientOfAffineField | src/GooseFEM/ElementQuad4.cpp:341-344 | with consistent gradients, the computed gradient of an affine displacement a · x + c is exactly the transpose of a |
| ElementQuad4.RigidMotionIsStrainFree | src/GooseFEM/ElementQuad4.cpp:440-450 | with consistent gradients, an infinitesimal rigid rotation plus a translation has zero symmetric gradient |
| ElementQuad4.StoreLoadRoundTrip | src/GooseFEM/ElementQuad4.cpp:347 | storing and loading a tensor are inverse bijections; symmetric storage loses nothing exactly for symmetric tensors, and always loads a symmetric tensor |
| ElementQuad4.PointGradient | src/GooseFEM/ElementQuad4.cpp:279-300 | the per-point step yields the global gradients Jinv · dNxi and the volume w · det J |
| ElementQuad4.JacobianAt | src/GooseFEM/ElementQuad4.cpp:279-282 | the unrolled sums give J(i,j) = Σ_m dNxi(m,i) · x(m,j) |
| ElementQuad4.ApplyInverse | src/GooseFEM/ElementQuad4.cpp:290-294 | the loop over nodes yields the global gradient table for the given Jinv |
| ElementQuad4.ElementGradients | src/GooseFEM/ElementQuad4.cpp:272-301 | the loop over the points of one element yields that element's gradient and volume tables |
| ElementQuad4.PointGradu | src/GooseFEM/ElementQuad4.cpp:341-344 | the unrolled entries are the displacement gradient at one point |
| ElementQuad4.PointGraduT | src/GooseFEM/ElementQuad4.cpp:390-393 | the unrolled entries are the transposed displacement gradient at one point |
| ElementQuad4.PointSymGradu | src/GooseFEM/ElementQuad4.cpp:440-450 | the unrolled entries are the symmetric part of the displacement gradient at one point |
| ElementQuad4.ElementGradu | src/GooseFEM/ElementQuad4.cpp:334-348 | the loop over the points of one element stores the gradient at every point |
| ElementQuad4.ElementGraduT | src/GooseFEM/ElementQuad4.cpp:383-397 | the loop over the points of one element stores the transposed gradient at every point |
| ElementQuad4.ElementSymGradu | src/GooseFEM/ElementQuad4.cpp:433-454 | the loop over the points of one element stores the symmetric gradient at every point |
| ElementQuad4.Quadrature.IntNScalarNTdV | src/GooseFEM/ElementQuad4.cpp:463-513 | every element matrix is 8×8; entries coupling different components are 0; entry (2m+i, 2n+i) is Σ_k N(k,m) · ρ(e,k) · N(k,n) · vol(e,k) for both components i |
| ElementQuad4.ElementMass | src/GooseFEM/ElementQuad4.cpp:499-504 | the accumulation over points and node pairs yields that block-diagonal matrix for one element |
| ElementQuad4.MassSumSymmetric | src/GooseFEM/ElementQuad4.cpp:501-502 | the node-pair block is symmetric in the two nodes |
| ElementQuad4.MassEntrySymmetric | src/GooseFEM/ElementQuad4.cpp:499-504 | the whole element mass matrix is symmetric |
| ElementQuad4.MassRowSumIsLumped | src/GooseFEM/ElementQuad4.cpp:499-504 | when the shape functions sum to 1 at every point, each row of the block sums to the lumped mass Σ_k N(k,a) · ρ(k) · vol(k) |
| ElementQuad4.Quadrature.IntGradNDotTensor2DVStored | src/GooseFEM/ElementQuad4.cpp:518-567 | for the given storage, the nodal forces are f(m,j) = Σ_k Σ_i dNx(m,i) · σ(i,j) · vol |
| ElementQuad4.ElementForce | src/GooseFEM/ElementQuad4.cpp:541-562 | the accumulation over points and nodes yields those forces for one element |
| ElementQuad4.ForceEquilibrium | src/GooseFEM/ElementQuad4.cpp:554-558 | when the gradient columns sum to 0 at every point, the nodal forces of an element sum to 0 in each direction |
| ElementQuad4.ForceAdditive | src/GooseFEM/ElementQuad4.cpp:554-558 | the force of a sum of stress fields is the sum of their forces |
| ElementQuad4.ForceOfZeroStress | src/GooseFEM/ElementQuad4.cpp:554-558 | a zero stress field gives zero nodal forces |
| ElementQuad4.Quadrature.IntGradNDotTensor2DV | src/GooseFEM/ElementQuad4.cpp:592-607 | with ncomp the last extent of qtensor, 4 components are read as a full tensor and 3 as a symmetric one; any other count is the error with the source's message |
| ElementQuad4.Quadrature.IntGradNDotTensor2sDV | src/GooseFEM/ElementQuad4.cpp:611-614 | the forces of a stress field in symmetric storage |
| AxisymmetricOperators.NodeBSparsity | include/GooseFEM/ElementQuad4Axisymmetric.hpp:176-183 | the B entries of a node hold exactly the five written values, and every other entry is 0 |
| AxisymmetricOperators.WrittenIndices | include/GooseFEM/ElementQuad4Axisymmetric.hpp:176-183 | an index triple (i,j,k) is among the five written ones exactly when its flattened position is |
| AxisymmetricOperators.GradientOperatorsRelated | include/GooseFEM/ElementQuad4Axisymmetric.hpp:225-229 | the gradient, its transpose and its symmetric part vanish off the pattern (0,0),(1,1),(2,2),(0,2),(2,0); the transpose swaps (i,j); the symmetric part is symmetric, is the average of the two, and has the gradient's diagonal |
| AxisymmetricOperators.PointGradientEntries | include/GooseFEM/ElementQuad4Axisymmetric.hpp:225-229 | with the corrected B: g(r,r) = ∂u_r/∂r, g(r,z) = ∂u_z/∂r, g(z,r) = ∂u_r/∂z, g(z,z) = ∂u_z/∂z, and g(θ,θ) = u_r(q)/r_q |
| AxisymmetricOperators.PointGradientEntriesAsWritten | include/GooseFEM/ElementQuad4Axisymmetric.hpp:178-182 | with B as written, g(r,r) contracts u_r with ∂/∂z and g(z,z) contracts u_z with ∂/∂r |
| AxisymmetricOperators.RadialExpansionIsExact | include/GooseFEM/ElementQuad4Axisymmetric.hpp:172-183 | the uniform radial expansion u_r = r, u_z = 0 has gradient diag(1, 1, 0) at every point |
| AxisymmetricOperators.RadialExpansionAsWritten | include/GooseFEM/ElementQuad4Axisymmetric.hpp:178 | with B as written, the same expansion gets g(r,r) = 0 instead of 1 |
| AxisymmetricOperators.AffineGradientIsExact | include/GooseFEM/ElementQuad4Axisymmetric.hpp:176-183 | every affine field is differentiated exactly in the (r, z) block, and the hoop entry is u_r(q)/r_q |
| AxisymmetricOperators.AxialTranslationIsStrainFree | include/GooseFEM/ElementQuad4Axisymmetric.hpp:176-183 | a translation along the axis has zero gradient |
| AxisymmetricOperators.RadialTranslationStretchesRings | include/GooseFEM/ElementQuad4Axisymmetric.hpp:180 | a radial translation by c has only the hoop strain c/r_q |
| AxisymmetricOperators.AxiForceComponents | include/GooseFEM/ElementQuad4Axisymmetric.hpp:398-399 | f(m,0) depends only on σ(2,2) and σ(0,2); f(m,1) depends only on σ(0,0), σ(1,1) and σ(2,0) |
| AxisymmetricOperators.AxiForceAdditive | include/GooseFEM/ElementQuad4Axisymmetric.hpp:396-400 | the force is additive in the stress |
| AxisymmetricOperators.AxiForceOfZeroStress | include/GooseFEM/ElementQuad4Axisymmetric.hpp:396-400 | a zero stress gives a zero force |
| AxisymmetricOperators.VirtualWork | include/GooseFEM/ElementQuad4Axisymmetric.hpp:394-399 | the work Σ_m f(m)·u(m) of one point's forces equals σ : gradu · vol, so the force is conjugate to the gradient |
| AxisymmetricOperators.PointStiffnessSymmetric | include/GooseFEM/ElementQuad4Axisymmetric.hpp:440-474 | for a major-symmetric C, the point stiffness entry for (m,i),(n,j) equals the one for (n,j),(m,i) |
| AxisymmetricOperators.RadialBlockSymmetric | include/GooseFEM/ElementQuad4Axisymmetric.hpp:446-474 | the radial-radial node blocks are symmetric for a major-symmetric C |
| AxisymmetricOperators.AxialBlockSymmetric | include/GooseFEM/ElementQuad4Axisymmetric.hpp:458-468 | the axial-axial node blocks are symmetric for a major-symmetric C |
| AxisymmetricOperators.MixedBlocksTransposed | include/GooseFEM/ElementQuad4Axisymmetric.hpp:446-468 | for a major-symmetric C, the radial-axial block of (m,n) equals the axial-radial block of (n,m) |
| AxisymmetricOperators.PointStiffnessMatrixSymmetric | include/GooseFEM/ElementQuad4Axisymmetric.hpp:440-474 | the 8×8 point stiffness is symmetric for a major-symmetric C |
| AxisymmetricOperators.RadialStiffnessIsForceOfLinearStress | include/GooseFEM/ElementQuad4Axisymmetric.hpp:446-474 | applying the radial rows of the point stiffness to u gives the radial force of the linear stress C : gradu |
| AxisymmetricOperators.AxialStiffnessIsForceOfLinearStress | include/GooseFEM/ElementQuad4Axisymmetric.hpp:458-468 | applying the axial rows of the point stiffness to u gives the axial force of the linear stress C : gradu |
| AxisymmetricOperators.PointMatrixIsForceOfLinearStress | include/GooseFEM/ElementQuad4Axisymmetric.hpp:440-474 | each row of the point stiffness matrix applied to u gives the matching force component of C : gradu |
| AxisymmetricOperators.ElementStiffnessSymmetric | include/GooseFEM/ElementQuad4Axisymmetric.hpp:407-479 | the element stiffness is symmetric when every point's C is major-symmetric |
| AxisymmetricOperators.ElementStiffnessIsForceOfLinearStress | include/GooseFEM/ElementQuad4Axisymmetric.hpp:407-479 | K · u equals the internal force of the point stresses C(q) : gradu(q), so the stiffness is the derivative of the force operator |
| AxisymmetricOperators.PointStiffnessAdditive | include/GooseFEM/ElementQuad4Axisymmetric.hpp:446-474 | the point stiffness is additive in C |
| AxisymmetricOperators.PointStiffnessOfZeroC | include/GooseFEM/ElementQuad4Axisymmetric.hpp:446-474 | a zero C gives a zero point stiffness |
| AxisymmetricOperators.ElementStiffnessAdditive | include/GooseFEM/ElementQuad4Axisymmetric.hpp:421-477 | the element stiffness is linear in the C field |
| AxisymmetricOperators.ElementStiffnessOfZeroC | include/GooseFEM/ElementQuad4Axisymmetric.hpp:421-477 | a zero C field gives a zero element stiffness |
| ElementQuad4Axisymmetric.AxiVolumeIsSweptPlanarVolume | include/GooseFEM/ElementQuad4Axisymmetric.hpp:186 | each ring volume is the planar volume w · det J times 2π · r_q |
| ElementQuad4Axisymmetric.StoredOperatorIsConsistent | include/GooseFEM/ElementQuad4Axisymmetric.hpp:160-183 | every stored B is built from global gradients that reproduce the element's positions |
| ElementQuad4Axisymmetric.StoredOperatorIsExactForAffineFields | include/GooseFEM/ElementQuad4Axisymmetric.hpp:176-183 | every stored B, the corrected operator of the first finding, differentiates affine fields exactly |
| ElementQuad4Axisymmetric.StoredOperatorRadialExpansion | include/GooseFEM/ElementQuad4Axisymmetric.hpp:172-183 | every stored B, the corrected operator of the first finding, gives the uniform radial expansion the gradient diag(1, 1, 0) |
| ElementQuad4Axisymmetric.WrittenOperatorLosesRadialStrain | include/GooseFEM/ElementQuad4Axisymmetric.hpp:172-183 | at every element and point, the code's own B built from the stored gradients gives the uniform radial expansion g(r,r) = 0, while the stored B gives 1 |
| ElementQuad4Axisymmetric.QuadratureAxisymmetric.constructor | include/GooseFEM/ElementQuad4Axisymmetric.hpp:27-76 | the new object holds the positions and the rule, with nip = \|w\|; its tables, B and volumes belong to them |
| ElementQuad4Axisymmetric.QuadratureAxisymmetric.Gauss | include/GooseFEM/ElementQuad4Axisymmetric.hpp:22-23 | the one-argument constructor uses the 4-point Gauss rule |
| ElementQuad4Axisymmetric.QuadratureAxisymmetric.ComputeDN | include/GooseFEM/ElementQuad4Axisymmetric.hpp:136-190 | afterwards B and the ring volumes belong to the current positions |
| ElementQuad4Axisymmetric.QuadratureAxisymmetric.UpdateX | include/GooseFEM/ElementQuad4Axisymmetric.hpp:120-132 | after the update the object holds the new positions, with B and ring volumes recomputed from them |
| ElementQuad4Axisymmetric.ShapeFunctions | include/GooseFEM/ElementQuad4Axisymmetric.hpp:51-57 | the loop over points fills the shape-function table of the rule |
| ElementQuad4Axisymmetric.LocalGradients | include/GooseFEM/ElementQuad4Axisymmetric.hpp:60-72 | the loop over points fills the local-gradient table of the rule |
| ElementQuad4Axisymmetric.ElementOperatorsAt | include/GooseFEM/ElementQuad4Axisymmetric.hpp:154-187 | the loop over the points of one element yields its B operators and ring volumes |
| ElementQuad4Axisymmetric.PointOperatorAt | include/GooseFEM/ElementQuad4Axisymmetric.hpp:161-186 | one point's Jacobian, radius, B and volume |
| ElementQuad4Axisymmetric.NodeOperatorAt | include/GooseFEM/ElementQuad4Axisymmetric.hpp:178-182 | one node's five B entries in the corrected placement of the first finding: ∂/∂r (row 1 of Jinv · dNxi) in the r slots and ∂/∂z (row 0) in the z slots; the code itself puts row 0 in (r,r,r) and row 1 in (z,z,z) |
| ElementQuad4Axisymmetric.QuadratureAxisymmetric.DV | include/GooseFEM/ElementQuad4Axisymmetric.hpp:90-99 | qscalar(e,q) = vol(e,q) |
| ElementQuad4Axisymmetric.QuadratureAxisymmetric.DVTensor | include/GooseFEM/ElementQuad4Axisymmetric.hpp:103-116 | qtensor(e,q,i,j) = vol(e,q) for every (i,j), on a buffer whose second extent is nip |
| ElementQuad4Axisymmetric.QTensorGuardIsSound | include/GooseFEM/ElementQuad4Axisymmetric.hpp:103-116 | the corrected shape assertion admits exactly the buffer [nelem, nip, 3, 3], and on it every write of the loops is in bounds |
| ElementQuad4Axisymmetric.QTensorGuardAsWrittenAdmitsOverrun | include/GooseFEM/ElementQuad4Axisymmetric.hpp:106 | the assertion as written accepts a [1, 4, 3, 3] buffer with nip = 9, on which the loops write out of bounds |
| ElementQuad4Axisymmetric.QTensorGuardAsWrittenRejectsExactBuffer | include/GooseFEM/ElementQuad4Axisymmetric.hpp:106 | the assertion as written rejects the exactly sized buffer when nip = 1, which the corrected assertion accepts |
| ElementQuad4Axisymmetric.QTensorGuardsAgreeForFourPoints | include/GooseFEM/ElementQuad4Axisymmetric.hpp:106 | with the default nip = 4 = nne the two assertions coincide |
| ElementQuad4Axisymmetric.FillZero4 | include/GooseFEM/ElementQuad4Axisymmetric.hpp:206 | every entry of the buffer is 0 |
| ElementQuad4Axisymmetric.WritePattern | include/GooseFEM/ElementQuad4Axisymmetric.hpp:225-229 | writing the five pattern entries over a zeroed point block leaves that block equal to the tensor and every other block unchanged |
| ElementQuad4Axisymmetric.AxiPointGradu | include/GooseFEM/ElementQuad4Axisymmetric.hpp:225-229 | the unrolled entries are the axisymmetric gradient at one point |
| ElementQuad4Axisymmetric.AxiPointGraduT | include/GooseFEM/ElementQuad4Axisymmetric.hpp:267-271 | the unrolled entries are the transposed gradient at one point |
| ElementQuad4Axisymmetric.AxiPointSymGradu | include/GooseFEM/ElementQuad4Axisymmetric.hpp:311-316 | the unrolled entries are the symmetric gradient at one point |
| ElementQuad4Axisymmetric.QuadratureAxisymmetric.GradNVector | include/GooseFEM/ElementQuad4Axisymmetric.hpp:194-232 | every (e,q) block of the buffer is the axisymmetric gradient of the element's displacements |
| ElementQuad4Axisymmetric.QuadratureAxisymmetric.GradNVectorT | include/GooseFEM/ElementQuad4Axisymmetric.hpp:236-274 | every (e,q) block is the transposed gradient |
| ElementQuad4Axisymmetric.QuadratureAxisymmetric.SymGradNVector | include/GooseFEM/ElementQuad4Axisymmetric.hpp:279-319 | every (e,q) block is the symmetric gradient |
| ElementQuad4Axisymmetric.FillZero3 | include/GooseFEM/ElementQuad4Axisymmetric.hpp:333 | every entry of the buffer is 0 |
| ElementQuad4Axisymmetric.AccumulateMass | include/GooseFEM/ElementQuad4Axisymmetric.hpp:343-358 | one element's matrix becomes the block-diagonal mass matrix of the planar element, and the other elements are untouched |
| ElementQuad4Axisymmetric.AddPointMass | include/GooseFEM/ElementQuad4Axisymmetric.hpp:352-357 | one point adds N(m) · ρ · N(n) · vol to every same-component entry and nothing elsewhere |
| ElementQuad4Axisymmetric.AddNodeRowMass | include/GooseFEM/ElementQuad4Axisymmetric.hpp:353-356 | one node row of that point contribution |
| ElementQuad4Axisymmetric.AddNodePairMass | include/GooseFEM/ElementQuad4Axisymmetric.hpp:354-355 | one node pair adds to its two same-component entries only |
| ElementQuad4Axisymmetric.QuadratureAxisymmetric.IntNScalarNTdV | include/GooseFEM/ElementQuad4Axisymmetric.hpp:323-360 | every element matrix is the planar mass matrix built with the ring volumes: components are not coupled, and entry (2m+i, 2n+i) is Σ_q N(q,m) · ρ(e,q) · N(q,n) · vol(e,q) |
| ElementQuad4Axisymmetric.AccumulateForce | include/GooseFEM/ElementQuad4Axisymmetric.hpp:383-401 | one element's force block becomes the sum of its point forces, and the other elements are untouched |
| ElementQuad4Axisymmetric.AddPointForce | include/GooseFEM/ElementQuad4Axisymmetric.hpp:396-400 | one point adds its force term to every node of the element |
| ElementQuad4Axisymmetric.AddNodeForce | include/GooseFEM/ElementQuad4Axisymmetric.hpp:398-399 | one node gets its axial and radial force terms, nothing else changes |
| ElementQuad4Axisymmetric.QuadratureAxisymmetric.IntGradNDotTensor2DV | include/GooseFEM/ElementQuad4Axisymmetric.hpp:364-403 | every element's force block is the sum over points of the B-contracted stress times the ring volume |
| ElementQuad4Axisymmetric.AccumulateStiffness | include/GooseFEM/ElementQuad4Axisymmetric.hpp:429-477 | one element's matrix becomes the sum of its point stiffness matrices, and the other elements are untouched |
| ElementQuad4Axisymmetric.StiffnessSumIsMatSum | include/GooseFEM/ElementQuad4Axisymmetric.hpp:432-477 | the running entry sum of the accumulation equals the entry of the summed point stiffness matrices |
| ElementQuad4Axisymmetric.AddPointStiffness | include/GooseFEM/ElementQuad4Axisymmetric.hpp:442-476 | one point adds its B · C · B · vol stiffness to every entry of the element matrix |
| ElementQuad4Axisymmetric.NodePairStiffness | include/GooseFEM/ElementQuad4Axisymmetric.hpp:446-474 | one node pair adds its 2×2 block and nothing else changes |
| ElementQuad4Axisymmetric.AddRadialRow | include/GooseFEM/ElementQuad4Axisymmetric.hpp:446-474 | the groups of B(m,0,0,0), B(m,1,1,0) and B(m,2,0,0) add exactly the radial-row entries K(2m+1, 2n+1) and K(2m+1, 2n) of the point stiffness, and nothing else changes |
| ElementQuad4Axisymmetric.AddAxialRow | include/GooseFEM/ElementQuad4Axisymmetric.hpp:458-468 | the groups of B(m,2,2,2) and B(m,0,2,2) add exactly the axial-row entries K(2m, 2n+1) and K(2m, 2n) of the point stiffness, and nothing else changes |
| ElementQuad4Axisymmetric.AddRowProducts | include/GooseFEM/ElementQuad4Axisymmetric.hpp:446-450 | one group of five products adds to the radial and axial columns of node n in one row |
| ElementQuad4Axisymmetric.QuadratureAxisymmetric.IntGradNDotTensor4DotGradNTdV | include/GooseFEM/ElementQuad4Axisymmetric.hpp:407-479 | every element matrix is the sum over points of the point stiffness matrices B · C · B · vol |
| ElementQuad4Axisymmetric.QuadratureAxisymmetric.NewDV | include/GooseFEM/ElementQuad4Axisymmetric.hpp:483-490 | a fresh [nelem, nip] array of the ring volumes |
| ElementQuad4Axisymmetric.QuadratureAxisymmetric.NewDVTensor | include/GooseFEM/ElementQuad4Axisymmetric.hpp:494-501 | a fresh [nelem, nip, 3, 3] array filled with the ring volumes |
| ElementQuad4Axisymmetric.QuadratureAxisymmetric.NewGradNVector | include/GooseFEM/ElementQuad4Axisymmetric.hpp:505-512 | a fresh array of the gradients |
| ElementQuad4Axisymmetric.QuadratureAxisymmetric.NewGradNVectorT | include/GooseFEM/ElementQuad4Axisymmetric.hpp:516-523 | a fresh array of the transposed gradients |
| ElementQuad4Axisymmetric.QuadratureAxisymmetric.NewSymGradNVector | include/GooseFEM/ElementQuad4Axisymmetric.hpp:527-534 | a fresh array of the symmetric gradients |
| ElementQuad4Axisymmetric.QuadratureAxisymmetric.NewIntNScalarNTdV | include/GooseFEM/ElementQuad4Axisymmetric.hpp:538-546 | a fresh array of the element mass matrices |
| ElementQuad4Axisymmetric.QuadratureAxisymmetric.NewIntGradNDotTensor2DV | include/GooseFEM/ElementQuad4Axisymmetric.hpp:550-558 | a fresh array of the element force vectors |
| ElementQuad4Axisymmetric.QuadratureAxisymmetric.NewIntGradNDotTensor4DotGradNTdV | include/GooseFEM/ElementQuad4Axisymmetric.hpp:562-570 | a fresh array of the element stiffness matrices |
| Mesh.DefaultElementType | include/GooseFEM/Mesh.h:24-26 | the type chosen has the connectivity's nodes per element and the coordinates' dimension; the result is an error exactly when no type has that shape |
| Mesh.DefaultElementTypeRoundTrip | include/GooseFEM/Mesh.h:17-20 | each element type is recovered from its own dimension and node count: Quad4 is 2-d with 4 nodes, Hex8 is 3-d with 8, Tri3 is 2-d with 3 |
| Mesh.Dofs | include/GooseFEM/Mesh.h:147-148 | an nnode × ndim table in which component i of node n gets n · ndim + i; Mesh.DofsAreDistinct and Mesh.DofsCover state that these numbers are exactly 0 .. nnode · ndim − 1, each once |
| Mesh.DofsAreDistinct | include/GooseFEM/Mesh.h:147-148 | every DOF number is below nnode · ndim, and two entries are equal exactly when they are the same (node, component) |
| Mesh.DofsCover | include/GooseFEM/Mesh.h:147-148 | every number in [0, nnode · ndim) is the DOF of some (node, component) |
| Mesh.RenumberOf | include/GooseFEM/Mesh.h:102 | the lookup table built from a list has one entry per value up to the list's largest, so it can be applied to the list |
| Mesh.Renumbering.Apply | include/GooseFEM/Mesh.h:107-113 | every entry of the list is replaced by its entry in the lookup table: renumbered(i) = index()(list(i)) |
| Mesh.Renumbering.Get | include/GooseFEM/Mesh.h:104-105 | the renumbered DOF table is apply applied to every row |
| Mesh.RenumberEntry | include/GooseFEM/Mesh.h:96 | each value maps to its position among the sorted distinct values |
| Mesh.RenumberPreservesOrder | include/GooseFEM/Mesh.h:96 | the new numbers order two values exactly as the old ones do, and equal new numbers mean equal old values |
| Mesh.RenumberIsCompact | include/GooseFEM/Mesh.h:96 | the new numbers are exactly 0 .. k-1, where k is the number of distinct values |
| Mesh.RenumberExample | include/GooseFEM/Mesh.h:96 | [0, 3, 4, 2] is renumbered to [0, 2, 3, 1] |
| Mesh.RenumberDofs | include/GooseFEM/Mesh.h:150-151 | a table of the DOF table's shape, each entry replaced by Renumber of the table's own flattened entries; Mesh.RenumberDofsProperties states that the result is compact and keeps order and equality |
| Mesh.RenumberDofsProperties | include/GooseFEM/Mesh.h:150-151 | every renumbered DOF is below the number of distinct DOFs, and two renumbered entries are equal, or ordered, exactly as the original entries are |
| Mesh.ReorderOf | include/GooseFEM/Mesh.h:119-141 | a lookup table covering every listed value, in which each listed value gets its last position in the lists concatenated in order and each unlisted value gets 0; Mesh.ReorderPlacesListsInOrder and Mesh.ReorderTwoLists state the consecutive ranges this yields |
| Mesh.ReorderPlacesListsInOrder | include/GooseFEM/Mesh.h:119-141 | after reordering disjoint lists, list k becomes the consecutive range starting after all earlier lists |
| Mesh.ReorderTwoLists | include/GooseFEM/Mesh.h:121-124 | Reorder({iiu, iip}) maps iiu to range(nnu) and iip to range(nnp) + nnu |
| Mesh.Coordination | include/GooseFEM/Mesh.h:153-154 | one count per node up to the largest node number, the number of connectivity slots holding that node; Mesh.CoordinationCountsElements states that this is the number of elements containing the node |
| Mesh.CoordinationCountsElements | include/GooseFEM/Mesh.h:153-154 | when no element lists a node twice, coordination(n) is the number of elements containing node n |
| Mesh.Elem2Node | include/GooseFEM/Mesh.h:156-159 | one list per node up to the largest node number, the elements holding that node in element order, each once per slot it gives the node; Mesh.Elem2NodeProperties states membership both ways, ascending order and length equal to the coordination |
| Mesh.Elem2NodeProperties | include/GooseFEM/Mesh.h:156-159 | e is in elem2node(n) exactly when n is in conn[e]; the list is ascending; its length is the coordination of n |
| Vector.ScatterAgreeing | develop/Vector.cpp:34 | writing entries that all agree with one DOF field yields that field on every written DOF and the base value elsewhere |
| Vector.VectorDef.AsDofs | develop/Vector.cpp:34 | a vector of ndof values, got by writing nodevec(m,i) to DOF dofs(m,i) for every node and component in turn, starting from zeros; Vector.VectorDef.AsDofsOfNodalField states the DOF values this gives for a periodic-consistent field |
| Vector.VectorDef.AsDofsOfNodalField | develop/Vector.cpp:34-47 | when the nodes sharing a DOF carry the same value, asDofs gives V(dofs(n,i)) = v(n,i) for every node and component (which partner is read does not matter), and a DOF no node uses is 0 |
| Vector.VectorDef.AsElement | develop/Vector.cpp:76 | a nelem × nne × ndim field, with entry (e,m,i) the DOF value u(dofs(conn(e,m),i)); Vector.VectorDef.AsElementIsElementField and Vector.VectorDef.AsDofsOfAsElement state what it keeps |
| Vector.VectorDef.AsElementIsElementField | develop/Vector.cpp:76 | asElement copies each DOF value to every element node that carries it |
| Vector.VectorDef.AsDofsElement | develop/Vector.cpp:76 | a vector of ndof values, got by writing elemvec(e,m,i) to DOF dofs(conn(e,m),i) for every element, node and component in turn, starting from zeros; Vector.VectorDef.AsDofsOfAsElement states that it inverts asElement on every used DOF |
| Vector.VectorDef.AsDofsOfAsElement | develop/Vector.cpp:76-89 | gathering the element vector asElement(u) back to DOFs returns u at every DOF some element uses, and 0 at every other DOF |
| Vector.VectorDef.AsElementNode | develop/Vector.cpp:158 | a nelem × nne × ndim field, with block (e,m) the nodal value of node conn(e,m); Vector.VectorDef.AsElementOfAsDofs states that it equals asElement(asDofs(v)) for a periodic nodal field |
| Vector.VectorDef.AsElementOfAsDofs | develop/Vector.cpp:76 | asElement(asDofs(v)) equals the element gather of v for a periodic nodal field |
| Vector.VectorDef.AssembleDofs | develop/Vector.cpp:117 | a vector of ndof values, in which DOF d holds the sum of every nodevec(m,i) with dofs(m,i) = d; Vector.VectorDef.AssembleDofsIsNodeSum states this sum over the nodes |
| Vector.VectorDef.AssembleDofsIsNodeSum | develop/Vector.cpp:117 | assembleDofs over the first k nodes gives DOF d the sum of those nodes' components numbered d |
| Vector.VectorDef.AssembleDofsElement | develop/Vector.cpp:158 | a vector of ndof values, in which DOF d holds the sum of every elemvec(e,m,i) with dofs(conn(e,m),i) = d; Vector.VectorDef.AssembleElementCopies states what it gives for the element copies of a nodal field |
| Vector.VectorDef.AssembleElementCopies | develop/Vector.cpp:158 | assembling the element copies of a nodal field f gives DOF d the node shares of f, each counted once for every slot of the connectivity the node fills |
| VectorPeriodic.PeriodicVectorIsValid | develop/Vector.cpp:14-17 | the 2×2 periodic Quad4 mesh has 4 elements of 4 nodes, 9 nodes in 2-d and 8 DOFs |
| VectorPeriodic.VelocityIsPeriodic | develop/Vector.cpp:23-31 | the test's velocity field gives equal values to periodic partners |
| VectorPeriodic.AsDofsOfVelocity | develop/Vector.cpp:34-47 | asDofs of the velocity has 8 entries: those of nodes 0, 1, 3 and 4 |
| VectorPeriodic.RoundTripOfVelocity | develop/Vector.cpp:76-89 | asDofs(asElement(asDofs(v))) has the same 8 entries |
| VectorPeriodic.ForceShares | develop/Vector.cpp:106-114 | the test's force field cancels within every group of periodic partners |
| VectorPeriodic.AssembledForceVanishes | develop/Vector.cpp:117-130 | assembleDofs(f) has 8 entries, all 0 |
| VectorPeriodic.AssembledForceVanishesAt | develop/Vector.cpp:121-130 | each entry of assembleDofs(f) is 0 |
| VectorPeriodic.PeriodicCoordination | develop/Vector.cpp:158 | on the 2×2 mesh the nodes appear in 1, 2, 1, 2, 4, 2, 1, 2, 1 elements |
| VectorPeriodic.AssembledElementForceVanishes | develop/Vector.cpp:158-171 | assembleDofs(asElement(f)) has 8 entries, all 0 |
| VectorPeriodic.AssembledElementForceVanishesAt | develop/Vector.cpp:162-171 | each entry of assembleDofs(asElement(f)) is 0 |

## Left out

- Floating point: all arithmetic is exact `real`, so rounding is not modelled. The constants `1/√3` and π are abstract positive reals.
- OpenMP parallel loops are modelled sequentially. Each element writes its own slot, so the order does not matter.
- Inputs the code divides by are required to be non-zero: `det J ≠ 0` in both elements, and the radius `r_q ≠ 0` in the axisymmetric one. The code guards against neither.
- The C++ `assert`s on shapes and ranks become `requires` clauses. A release build compiles them out; the model does not cover calls that violate them.
- The `nelem`, `nne`, `ndim` and `nip` accessors are fields of the classes or functions of the vector definition; they are not separate members.
- The planar element's state is kept in `seq` fields, and its operators return new sequences, as the C++ returns new arrays. The axisymmetric element also keeps its state (`x`, `N`, `dNxi`, `B`, `vol`) in `seq` fields; only the buffers its operators fill are arrays. The xtensor and cppmat view machinery (`setMap`, `item`, `setCopy`, `xt::adapt`) becomes plain indexing.
- ElementQuad4.Quadrature.GradNVector and ElementQuad4.Quadrature.GradNVectorT: only full-tensor storage is modelled. That is what the wrappers at lines 571-580 of `src/GooseFEM/ElementQuad4.cpp` use. A symmetric-storage instance of these templates would drop the (1,0) entry of a general gradient, and nothing calls one.
- ElementQuad4Axisymmetric.PointOperator: builds the corrected B of the first finding rather than the placement of lines 178 and 182 of `include/GooseFEM/ElementQuad4Axisymmetric.hpp`; every member whose contract mentions the stored B inherits this.
- ElementQuad4Axisymmetric.OperatorField: collects the corrected B of the first finding at every element and point, rather than the placement of lines 178 and 182 of `include/GooseFEM/ElementQuad4Axisymmetric.hpp`; every member whose contract mentions the stored B inherits this.
- ElementQuad4Axisymmetric.QuadratureAxisymmetric.Valid: ties the stored B to the corrected operator of the first finding rather than to the placement of lines 178 and 182 of `include/GooseFEM/ElementQuad4Axisymmetric.hpp`; every member whose contract mentions the stored B inherits this.
- ElementQuad4Axisymmetric.StoredOperatorIsConsistent: uses the corrected B of the first finding (∂N/∂r in (r,r,r), ∂N/∂z in (z,z,z)), not the placement the code writes at lines 178 and 182 of `include/GooseFEM/ElementQuad4Axisymmetric.hpp`. The code's own operator is AxisymmetricOperators.PointBAsWritten, and ElementQuad4Axisymmetric.WrittenOperatorLosesRadialStrain compares the two on the stored gradients.
- ElementQuad4Axisymmetric.StoredOperatorIsExactForAffineFields: uses the corrected B of the first finding (∂N/∂r in (r,r,r), ∂N/∂z in (z,z,z)), not the placement the code writes at lines 178 and 182 of `include/GooseFEM/ElementQuad4Axisymmetric.hpp`. The code's own operator is AxisymmetricOperators.PointBAsWritten, and ElementQuad4Axisymmetric.WrittenOperatorLosesRadialStrain compares the two on the stored gradients.
- ElementQuad4Axisymmetric.StoredOperatorRadialExpansion: uses the corrected B of the first finding (∂N/∂r in (r,r,r), ∂N/∂z in (z,z,z)), not the placement the code writes at lines 178 and 182 of `include/GooseFEM/ElementQuad4Axisymmetric.hpp`. The code's own operator is AxisymmetricOperators.PointBAsWritten, and ElementQuad4Axisymmetric.WrittenOperatorLosesRadialStrain compares the two on the stored gradients.
- ElementQuad4Axisymmetric.QuadratureAxisymmetric.constructor: uses the corrected B of the first finding (∂N/∂r in (r,r,r), ∂N/∂z in (z,z,z)), not the placement the code writes at lines 178 and 182 of `include/GooseFEM/ElementQuad4Axisymmetric.hpp`. The code's own operator is AxisymmetricOperators.PointBAsWritten, and ElementQuad4Axisymmetric.WrittenOperatorLosesRadialStrain compares the two on the stored gradients.
- ElementQuad4Axisymmetric.QuadratureAxisymmetric.Gauss: uses the corrected B of the first finding (∂N/∂r in (r,r,r), ∂N/∂z in (z,z,z)), not the placement the code writes at lines 178 and 182 of `include/GooseFEM/ElementQuad4Axisymmetric.hpp`. The code's own operator is AxisymmetricOperators.PointBAsWritten, and ElementQuad4Axisymmetric.WrittenOperatorLosesRadialStrain compares the two on the stored gradients.
- ElementQuad4Axisymmetric.QuadratureAxisymmetric.ComputeDN: uses the corrected B of the first finding (∂N/∂r in (r,r,r), ∂N/∂z in (z,z,z)), not the placement the code writes at lines 178 and 182 of `include/GooseFEM/ElementQuad4Axisymmetric.hpp`. The code's own operator is AxisymmetricOperators.PointBAsWritten, and ElementQuad4Axisymmetric.WrittenOperatorLosesRadialStrain compares the two on the stored gradients.
- ElementQuad4Axisymmetric.QuadratureAxisymmetric.UpdateX: uses the corrected B of the first finding (∂N/∂r in (r,r,r), ∂N/∂z in (z,z,z)), not the placement the code writes at lines 178 and 182 of `include/GooseFEM/ElementQuad4Axisymmetric.hpp`. The code's own operator is AxisymmetricOperators.PointBAsWritten, and ElementQuad4Axisymmetric.WrittenOperatorLosesRadialStrain compares the two on the stored gradients.
- ElementQuad4Axisymmetric.ElementOperatorsAt: uses the corrected B of the first finding (∂N/∂r in (r,r,r), ∂N/∂z in (z,z,z)), not the placement the code writes at lines 178 and 182 of `include/GooseFEM/ElementQuad4Axisymmetric.hpp`. The code's own operator is AxisymmetricOperators.PointBAsWritten, and ElementQuad4Axisymmetric.WrittenOperatorLosesRadialStrain compares the two on the stored gradients.
- ElementQuad4Axisymmetric.PointOperatorAt: uses the corrected B of the first finding (∂N/∂r in (r,r,r), ∂N/∂z in (z,z,z)), not the placement the code writes at lines 178 and 182 of `include/GooseFEM/ElementQuad4Axisymmetric.hpp`. The code's own operator is AxisymmetricOperators.PointBAsWritten, and ElementQuad4Axisymmetric.WrittenOperatorLosesRadialStrain compares the two on the stored gradients.
- ElementQuad4Axisymmetric.NodeOperatorAt: uses the corrected B of the first finding (∂N/∂r in (r,r,r), ∂N/∂z in (z,z,z)), not the placement the code writes at lines 178 and 182 of `include/GooseFEM/ElementQuad4Axisymmetric.hpp`. The code's own operator is AxisymmetricOperators.PointBAsWritten, and ElementQuad4Axisymmetric.WrittenOperatorLosesRadialStrain compares the two on the stored gradients.
- ElementQuad4Axisymmetric.QuadratureAxisymmetric.DVTensor: requires the corrected buffer assertion of the second finding (extent 1 equals nip), not the code's comparison with nne. For nip ≠ 4 it therefore excludes a [nelem, 4, 3, 3] buffer that the code's assertion accepts.
- ElementQuad4Axisymmetric.QuadratureAxisymmetric.GradNVector: requires the corrected buffer assertion of the second finding (extent 1 equals nip), not the code's comparison with nne. For nip ≠ 4 it therefore excludes a [nelem, 4, 3, 3] buffer that the code's assertion accepts.
- ElementQuad4Axisymmetric.QuadratureAxisymmetric.GradNVectorT: requires the corrected buffer assertion of the second finding (extent 1 equals nip), not the code's comparison with nne. For nip ≠ 4 it therefore excludes a [nelem, 4, 3, 3] buffer that the code's assertion accepts.
- ElementQuad4Axisymmetric.QuadratureAxisymmetric.SymGradNVector: requires the corrected buffer assertion of the second finding (extent 1 equals nip), not the code's comparison with nne. For nip ≠ 4 it therefore excludes a [nelem, 4, 3, 3] buffer that the code's assertion accepts.
- ElementQuad4Axisymmetric.QuadratureAxisymmetric.NewDVTensor: requires the corrected buffer assertion of the second finding (extent 1 equals nip), not the code's comparison with nne. It also succeeds for nip ≠ 4, where the code's assertion on a freshly allocated [nelem, nip, 3, 3] buffer fails.
- ElementQuad4Axisymmetric.QuadratureAxisymmetric.NewGradNVector: requires the corrected buffer assertion of the second finding (extent 1 equals nip), not the code's comparison with nne. It also succeeds for nip ≠ 4, where the code's assertion on a freshly allocated [nelem, nip, 3, 3] buffer fails.
- ElementQuad4Axisymmetric.QuadratureAxisymmetric.NewGradNVectorT: requires the corrected buffer assertion of the second finding (extent 1 equals nip), not the code's comparison with nne. It also succeeds for nip ≠ 4, where the code's assertion on a freshly allocated [nelem, nip, 3, 3] buffer fails.
- ElementQuad4Axisymmetric.QuadratureAxisymmetric.NewSymGradNVector: requires the corrected buffer assertion of the second finding (extent 1 equals nip), not the code's comparison with nne. It also succeeds for nip ≠ 4, where the code's assertion on a freshly allocated [nelem, nip, 3, 3] buffer fails.
- Mesh.DefaultElementType: the shapes `coor.shape(1)` and `conn.shape(1)` are passed instead of the arrays. The body of `defaultElementType` is not part of this model; the choice follows the enum comments.
- Mesh: only the declarations of `dofs`, `Renumber`, `renumber`, `Reorder`, `coordination` and `elem2node` are available. Their contracts follow the header's comments, with these choices:
  - the constructors build the lookup table from the sorted distinct values;
  - entries of the lookup table for values that do not occur are 0;
  - `elem2node` lists are always built in ascending order, so the `sorted` flag has no effect.
- Mesh stitching and geometry helpers (`ManualStitch`, `Stitch`, `overlapping`, `edgesize`, `centers`, `elemmap2nodemap`): they match coordinates within floating-point tolerances.
- Vector.VectorDef.AsDofs: DOFs that no node writes are 0. The C++ leaves them unspecified; every DOF is written when each DOF has a node.
- The rest of the `Vector` API (`asNode`, `assembleNode`, the partitioned and tied variants) is not part of this model; the conversions modelled are the three the vector test file uses.
- The mesh generator `Mesh::Quad4::Regular(2,2)` is not part of this model. Its connectivity and periodic DOF table are written out in `VectorPeriodic`.
- The example drivers and Python bindings of the repository are not part of this model.

## Findings

| source | as written | input that shows it | evidently intended | confidence | as-written member | corrected member |
|---|---|---|---|---|---|---|
| include/GooseFEM/ElementQuad4Axisymmetric.hpp:178-182 | `B(m,0,0,0)` (r,r,r) is set from row 0 of `Jinv · dNxi`, i.e. ∂N/∂z, and `B(m,2,2,2)` (z,z,z) from row 1, i.e. ∂N/∂r; the in-line comments say `dNdx(m,1)` and `dNdx(m,0)` | any element with `det J ≠ 0` and `r_q ≠ 0`, displaced by the uniform radial expansion u_r = r, u_z = 0: the computed radial strain g(r,r) is 0 instead of 1 | (r,r,r) takes ∂N/∂r (row 1) and (z,z,z) takes ∂N/∂z (row 0), as the comments say and as the radius `r_q = Σ N(m) · x(m,1)` implies | not executed | AxisymmetricOperators.PointBAsWritten, AxisymmetricOperators.RadialExpansionAsWritten, AxisymmetricOperators.PointGradientEntriesAsWritten, ElementQuad4Axisymmetric.WrittenOperatorLosesRadialStrain | AxisymmetricOperators.PointB, AxisymmetricOperators.RadialExpansionIsExact, AxisymmetricOperators.PointGradientEntries, ElementQuad4Axisymmetric.StoredOperatorIsConsistent, ElementQuad4Axisymmetric.StoredOperatorIsExactForAffineFields, ElementQuad4Axisymmetric.StoredOperatorRadialExpansion, ElementQuad4Axisymmetric.QuadratureAxisymmetric.constructor, ElementQuad4Axisymmetric.QuadratureAxisymmetric.Gauss, ElementQuad4Axisymmetric.QuadratureAxisymmetric.ComputeDN, ElementQuad4Axisymmetric.QuadratureAxisymmetric.UpdateX, ElementQuad4Axisymmetric.ElementOperatorsAt, ElementQuad4Axisymmetric.PointOperatorAt, ElementQuad4Axisymmetric.NodeOperatorAt |
| include/GooseFEM/ElementQuad4Axisymmetric.hpp:106 | the qtensor shape assertion compares extent 1 with `nne`, then the loop runs `q` up to `nip` (the same assertion is at lines 201, 243 and 286) | `nelem = 1`, `nip = 9` and a buffer of shape [1, 4, 3, 3]: the assertion passes and the loop writes past extent 1; with `nip = 1` the exactly sized buffer [1, 1, 3, 3] is rejected | extent 1 is compared with `nip`, as every other assertion on a per-point array does (line 93) | not executed | ElementQuad4Axisymmetric.QTensorGuardAsWritten, ElementQuad4Axisymmetric.QTensorGuardAsWrittenAdmitsOverrun, ElementQuad4Axisymmetric.QTensorGuardAsWrittenRejectsExactBuffer | ElementQuad4Axisymmetric.QTensorGuard, ElementQuad4Axisymmetric.QTensorGuardIsSound, ElementQuad4Axisymmetric.QuadratureAxisymmetric.DVTensor, ElementQuad4Axisymmetric.QuadratureAxisymmetric.GradNVector, ElementQuad4Axisymmetric.QuadratureAxisymmetric.GradNVectorT, ElementQuad4Axisymmetric.QuadratureAxisymmetric.SymGradNVector, ElementQuad4Axisymmetric.QuadratureAxisymmetric.NewDVTensor, ElementQuad4Axisymmetric.QuadratureAxisymmetric.NewGradNVector, ElementQuad4Axisymmetric.QuadratureAxisymmetric.NewGradNVectorT, ElementQuad4Axisymmetric.QuadratureAxisymmetric.NewSymGradNVector |
