/**
 * The Quad4 quadrature object: nodal positions of every element, an
 * integration rule, the shape functions and their local gradients at the
 * integration points, and, per element and point, the global gradients and
 * the integration volume. The field operators read that state and build new
 * integration-point or element-local fields.
 *
 * Arrays of the library are nested sequences here:
 *   x, elemvec   nelem x nne x ndim        (nne = 4, ndim = 2)
 *   N            nip x nne
 *   dNxi         nip x nne x ndim
 *   dNx          nelem x nip x nne x ndim
 *   vol, qscalar nelem x nip
 *   qtensor      nelem x nip x ncomp       (ncomp = 4 full, 3 symmetric)
 *   elemmat      nelem x (nne*ndim) x (nne*ndim)
 */
module ElementQuad4 {
  import opened Wrappers
  import opened Quad4Rules

  // ------------------------------------------------------------ shapes

  /** nelem x nne x ndim element-local nodal vectors. */
  predicate IsElemVec(x: seq<seq<seq<real>>>, nelem: nat)
  {
    |x| == nelem && forall e :: 0 <= e < nelem ==> IsMatrix(x[e], NNE, NDIM)
  }

  /** nelem x nip integration-point scalars. */
  predicate IsQScalar(q: seq<seq<real>>, nelem: nat, nip: nat)
  {
    |q| == nelem && forall e :: 0 <= e < nelem ==> |q[e]| == nip
  }

  /** nelem x nip x ncomp integration-point tensors. */
  predicate IsQTensor(q: seq<seq<seq<real>>>, nelem: nat, nip: nat, ncomp: nat)
  {
    |q| == nelem && forall e :: 0 <= e < nelem ==> IsMatrix(q[e], nip, ncomp)
  }

  /** A table of local gradients, one nne x ndim matrix per integration point. */
  predicate IsGradTable(d: seq<seq<seq<real>>>)
  {
    forall k :: 0 <= k < |d| ==> IsMatrix(d[k], NNE, NDIM)
  }

  /** Number of stored entries of a matrix (its rows need not be equally long). */
  function Size(a: seq<seq<real>>): nat
  {
    if |a| == 0 then 0 else Size(a[..|a| - 1]) + |a[|a| - 1]|
  }

  /** A matrix is empty exactly when none of its rows holds an entry. */
  lemma {:induction false} SizeZero(a: seq<seq<real>>)
    ensures Size(a) == 0 <==> forall k :: 0 <= k < |a| ==> |a[k]| == 0
  {
    if |a| > 0 {
      var b := a[..|a| - 1];
      SizeZero(b);
      assert forall k :: 0 <= k < |b| ==> b[k] == a[k];
    }
  }

  // ------------------------------------------------- integration scheme

  const RuleError: string := "Input integration point coordinates and weights"

  /** The constructor's choice of integration scheme: no coordinates and no
      weights select the Gauss rule; both given are used as they are; one
      without the other is an error. */
  function SelectRule(xi: seq<seq<real>>, w: seq<real>): (r: Result<Rule, string>)
    ensures r.Ok? <==> ((|w| == 0) <==> (Size(xi) == 0))
    ensures r.Ok? && |w| == 0 ==> r.value == GaussRule() && |r.value.w| == 4
    ensures r.Ok? && |w| > 0 ==> r.value == Rule(xi, w)
    ensures r.Err? ==> r.error == RuleError
  {
    if |w| == 0 && Size(xi) == 0 then Ok(GaussRule())
    else if |w| > 0 && Size(xi) > 0 then Ok(Rule(xi, w))
    else Err(RuleError)
  }

  // ------------------------------------------- tables of the rule's points

  /** Shape functions N(k,m) at every integration point k. */
  function ShapeTable(xi: seq<seq<real>>): (n: seq<seq<real>>)
    requires IsMatrix(xi, |xi|, NDIM)
    ensures IsMatrix(n, |xi|, NNE)
  {
    seq(|xi|, k requires 0 <= k < |xi| => ShapeN(xi[k]))
  }

  /** Local gradients dNxi(k,m,i) at every integration point k. */
  function LocalGradientTable(xi: seq<seq<real>>): (d: seq<seq<seq<real>>>)
    requires IsMatrix(xi, |xi|, NDIM)
    ensures |d| == |xi| && IsGradTable(d)
  {
    seq(|xi|, k requires 0 <= k < |xi| => ShapeDNxi(xi[k]))
  }

  /** One element has a non-singular Jacobian at every integration point. */
  predicate RegularAt(dNxi: seq<seq<seq<real>>>, xe: seq<seq<real>>)
    requires IsGradTable(dNxi) && IsMatrix(xe, NNE, NDIM)
  {
    forall k :: 0 <= k < |dNxi| ==> Det(Jacobian(dNxi[k], xe)) != 0.0
  }

  /** Every element has a non-singular Jacobian at every integration point. */
  predicate Regular(x: seq<seq<seq<real>>>, dNxi: seq<seq<seq<real>>>)
    requires IsElemVec(x, |x|) && IsGradTable(dNxi)
  {
    forall e :: 0 <= e < |x| ==> RegularAt(dNxi, x[e])
  }

  /** dNx(k) = Jinv(k) * dNxi(k) at every integration point of one element. */
  function ElementGradientField(dNxi: seq<seq<seq<real>>>, xe: seq<seq<real>>): (g: seq<seq<seq<real>>>)
    requires IsGradTable(dNxi) && IsMatrix(xe, NNE, NDIM) && RegularAt(dNxi, xe)
    ensures |g| == |dNxi| && IsGradTable(g)
  {
    seq(|dNxi|, k requires 0 <= k < |dNxi| => GlobalGradient(dNxi[k], Inv(Jacobian(dNxi[k], xe))))
  }

  /** vol(k) = w(k) * det J(k) (the signed determinant) for one element. */
  function ElementVolumes(dNxi: seq<seq<seq<real>>>, xe: seq<seq<real>>, w: seq<real>): (v: seq<real>)
    requires IsGradTable(dNxi) && IsMatrix(xe, NNE, NDIM) && |w| == |dNxi|
    ensures |v| == |w|
  {
    seq(|w|, k requires 0 <= k < |w| => w[k] * Det(Jacobian(dNxi[k], xe)))
  }

  /** dNx(e,k) = Jinv(e,k) * dNxi(k), per element and integration point. */
  function GradientField(x: seq<seq<seq<real>>>, dNxi: seq<seq<seq<real>>>): (g: seq<seq<seq<seq<real>>>>)
    requires IsElemVec(x, |x|) && IsGradTable(dNxi) && Regular(x, dNxi)
    ensures |g| == |x| && forall e :: 0 <= e < |x| ==> |g[e]| == |dNxi| && IsGradTable(g[e])
  {
    seq(|x|, e requires 0 <= e < |x| => ElementGradientField(dNxi, x[e]))
  }

  /** vol(e,k) = w(k) * det J(e,k), per element and integration point. */
  function VolumeField(x: seq<seq<seq<real>>>, dNxi: seq<seq<seq<real>>>, w: seq<real>): (v: seq<seq<real>>)
    requires IsElemVec(x, |x|) && IsGradTable(dNxi) && |w| == |dNxi|
    ensures IsQScalar(v, |x|, |w|)
  {
    seq(|x|, e requires 0 <= e < |x| => ElementVolumes(dNxi, x[e], w))
  }

  /** At every point of every element the global gradients sum to 0 over the
      nodes: the gradient of a constant field vanishes. */
  lemma GradientFieldColumnsSumToZero(x: seq<seq<seq<real>>>, xi: seq<seq<real>>, e: nat, k: nat, i: nat)
    requires IsElemVec(x, |x|) && IsMatrix(xi, |xi|, NDIM)
    requires Regular(x, LocalGradientTable(xi))
    requires e < |x| && k < |xi| && i < NDIM
    ensures ColumnSum(GradientField(x, LocalGradientTable(xi))[e][k], i) == 0.0
  {
    assert LocalGradientTable(xi)[k] == ShapeDNxi(xi[k]);
    LocalGradientColumnsSumToZero(xi[k], 0);
    LocalGradientColumnsSumToZero(xi[k], 1);
    GlobalGradientColumnsSumToZero(ShapeDNxi(xi[k]), Inv(Jacobian(ShapeDNxi(xi[k]), x[e])), i);
  }

  // ------------------------------------------------ integration-point tensors

  /** The dyadic product gradu(i,j) = sum_m dNx(m,i) * u(m,j) at one point. */
  function Gradient(dNx: seq<seq<real>>, ue: seq<seq<real>>): Tensor2
    requires IsMatrix(dNx, NNE, NDIM) && IsMatrix(ue, NNE, NDIM)
  {
    Tensor2(Dot(dNx, 0, ue, 0), Dot(dNx, 0, ue, 1),
            Dot(dNx, 1, ue, 0), Dot(dNx, 1, ue, 1))
  }

  function Transpose(t: Tensor2): Tensor2
  {
    Tensor2(t.xx, t.yx, t.xy, t.yy)
  }

  predicate IsSymmetric(t: Tensor2)
  {
    t.xy == t.yx
  }

  /** The symmetric part, built as the code does: the off-diagonal entry is the
      average of the two, and (1,0) is copied from (0,1). */
  function SymPart(t: Tensor2): Tensor2
  {
    var s := 0.5 * (t.xy + t.yx);
    Tensor2(t.xx, s, s, t.yy)
  }

  /** The symmetric part is symmetric, is the average of the tensor and its
      transpose, and leaves a symmetric tensor as it is. */
  lemma SymPartProperties(t: Tensor2)
    ensures IsSymmetric(SymPart(t)) && Transpose(SymPart(t)) == SymPart(t)
    ensures forall i, j :: 0 <= i < 2 && 0 <= j < 2 ==>
      Component(SymPart(t), i, j) == 0.5 * (Component(t, i, j) + Component(Transpose(t), i, j))
    ensures SymPart(t) == t <==> IsSymmetric(t)
    ensures SymPart(Transpose(t)) == SymPart(t)
  {
  }

  /** The gradients stored for every element and point are consistent with
      that element's positions. */
  lemma GradientFieldIsConsistent(x: seq<seq<seq<real>>>, xi: seq<seq<real>>, e: nat, k: nat)
    requires IsElemVec(x, |x|) && IsMatrix(xi, |xi|, NDIM)
    requires Regular(x, LocalGradientTable(xi))
    requires e < |x| && k < |xi|
    ensures Consistent(GradientField(x, LocalGradientTable(xi))[e][k], x[e])
  {
    assert LocalGradientTable(xi)[k] == ShapeDNxi(xi[k]);
    LocalGradientColumnsSumToZero(xi[k], 0);
    LocalGradientColumnsSumToZero(xi[k], 1);
    ComputedGradientIsConsistent(ShapeDNxi(xi[k]), x[e]);
  }

  /** The gradient operator is exact for affine fields: for u(m) = A x(m) + c,
      gradu = A^T, for every consistent gradient table. */
  lemma GradientOfAffineField(d: seq<seq<real>>, xe: seq<seq<real>>, a: Tensor2, c0: real, c1: real)
    requires IsMatrix(d, NNE, NDIM) && IsMatrix(xe, NNE, NDIM) && Consistent(d, xe)
    ensures Gradient(d, AffineField(xe, a, c0, c1)) == Transpose(a)
  {
    AffineExactness(d, xe, a, c0, c1, 0, 0);
    AffineExactness(d, xe, a, c0, c1, 0, 1);
    AffineExactness(d, xe, a, c0, c1, 1, 0);
    AffineExactness(d, xe, a, c0, c1, 1, 1);
  }

  /** A rigid motion (an infinitesimal rotation omega plus a translation c)
      produces no strain: its symmetric gradient vanishes. */
  lemma RigidMotionIsStrainFree(d: seq<seq<real>>, xe: seq<seq<real>>, omega: real, c0: real, c1: real)
    requires IsMatrix(d, NNE, NDIM) && IsMatrix(xe, NNE, NDIM) && Consistent(d, xe)
    ensures SymPart(Gradient(d, AffineField(xe, Tensor2(0.0, -omega, omega, 0.0), c0, c1)))
      == Tensor2(0.0, 0.0, 0.0, 0.0)
  {
    GradientOfAffineField(d, xe, Tensor2(0.0, -omega, omega, 0.0), c0, c1);
  }

  // ------------------------------------------------------- tensor storage

  /** The storage of an integration-point tensor: all four components
      (0,0), (0,1), (1,0), (1,1), or the three independent ones of a symmetric
      tensor, (0,0), (0,1), (1,1). */
  datatype Storage = Full | Symmetric

  function Ncomp(s: Storage): nat
  {
    if s == Full then NDIM * NDIM else (NDIM + 1) * NDIM / 2
  }

  function Store(t: Tensor2, s: Storage): (v: seq<real>)
    ensures |v| == Ncomp(s)
  {
    if s == Full then [t.xx, t.xy, t.yx, t.yy] else [t.xx, t.xy, t.yy]
  }

  /** Reading a stored tensor back: symmetric storage answers (1,0) with (0,1). */
  function Load(v: seq<real>, s: Storage): Tensor2
    requires |v| == Ncomp(s)
  {
    if s == Full then Tensor2(v[0], v[1], v[2], v[3]) else Tensor2(v[0], v[1], v[1], v[2])
  }

  /** Storing and loading are inverse: every tensor survives full storage, a
      symmetric one survives symmetric storage, and every stored vector is
      reproduced. */
  lemma StoreLoadRoundTrip(t: Tensor2, v: seq<real>, s: Storage)
    requires |v| == Ncomp(s)
    ensures (s == Full || IsSymmetric(t)) ==> Load(Store(t, s), s) == t
    ensures Store(Load(v, s), s) == v
    ensures s == Symmetric ==> IsSymmetric(Load(v, s))
  {
  }

  // ------------------------------------------------------ mass-type matrix

  /** sum over the first k points of N(q,a) * rho(q) * N(q,b) * vol(q). */
  function MassSum(n: seq<seq<real>>, rho: seq<real>, vol: seq<real>, a: nat, b: nat, k: nat): real
    requires k <= |n| && k <= |rho| && k <= |vol| && a < NNE && b < NNE
    requires IsMatrix(n, |n|, NNE)
  {
    if k == 0 then 0.0
    else MassSum(n, rho, vol, a, b, k - 1) + n[k - 1][a] * rho[k - 1] * n[k - 1][b] * vol[k - 1]
  }

  /** Entry (r, c) of the element matrix after k points: components are never
      coupled, and both components carry the same block. */
  function MassEntry(n: seq<seq<real>>, rho: seq<real>, vol: seq<real>, r: nat, c: nat, k: nat): real
    requires k <= |n| && k <= |rho| && k <= |vol| && r < NNE * NDIM && c < NNE * NDIM
    requires IsMatrix(n, |n|, NNE)
  {
    if r % NDIM == c % NDIM then MassSum(n, rho, vol, r / NDIM, c / NDIM, k) else 0.0
  }

  /** The mass-type block is symmetric in the two nodes. */
  lemma {:induction false} MassSumSymmetric(n: seq<seq<real>>, rho: seq<real>, vol: seq<real>,
                                            a: nat, b: nat, k: nat)
    requires k <= |n| && k <= |rho| && k <= |vol| && a < NNE && b < NNE
    requires IsMatrix(n, |n|, NNE)
    ensures MassSum(n, rho, vol, a, b, k) == MassSum(n, rho, vol, b, a, k)
  {
    if k > 0 {
      MassSumSymmetric(n, rho, vol, a, b, k - 1);
      var q := k - 1;
      assert n[q][a] * rho[q] * n[q][b] * vol[q] == n[q][b] * rho[q] * n[q][a] * vol[q];
    }
  }

  /** The whole element matrix is symmetric. */
  lemma MassEntrySymmetric(n: seq<seq<real>>, rho: seq<real>, vol: seq<real>, r: nat, c: nat, k: nat)
    requires k <= |n| && k <= |rho| && k <= |vol| && r < NNE * NDIM && c < NNE * NDIM
    requires IsMatrix(n, |n|, NNE)
    ensures MassEntry(n, rho, vol, r, c, k) == MassEntry(n, rho, vol, c, r, k)
  {
    MassSumSymmetric(n, rho, vol, r / NDIM, c / NDIM, k);
  }

  /** sum over the first k points of N(q,a) * rho(q) * vol(q). */
  function LumpedSum(n: seq<seq<real>>, rho: seq<real>, vol: seq<real>, a: nat, k: nat): real
    requires k <= |n| && k <= |rho| && k <= |vol| && a < NNE
    requires IsMatrix(n, |n|, NNE)
  {
    if k == 0 then 0.0 else LumpedSum(n, rho, vol, a, k - 1) + n[k - 1][a] * rho[k - 1] * vol[k - 1]
  }

  /** Row sums: when the shape functions form a partition of unity at every
      point, summing a row of the block over the nodes gives the lumped
      (diagonal) mass sum_q N(q,a) * rho(q) * vol(q). */
  lemma {:induction false} MassRowSumIsLumped(n: seq<seq<real>>, rho: seq<real>, vol: seq<real>,
                                              a: nat, k: nat)
    requires k <= |n| && k <= |rho| && k <= |vol| && a < NNE
    requires IsMatrix(n, |n|, NNE) && forall q :: 0 <= q < k ==> Total(n[q]) == 1.0
    ensures MassSum(n, rho, vol, a, 0, k) + MassSum(n, rho, vol, a, 1, k)
          + MassSum(n, rho, vol, a, 2, k) + MassSum(n, rho, vol, a, 3, k)
         == LumpedSum(n, rho, vol, a, k)
  {
    if k > 0 {
      MassRowSumIsLumped(n, rho, vol, a, k - 1);
      var q := k - 1;
      RowSumStep(n[q][a] * rho[q], vol[q], n[q][0], n[q][1], n[q][2], n[q][3]);
    }
  }

  /** One point of MassRowSumIsLumped over plain reals. */
  lemma RowSumStep(c: real, v: real, n0: real, n1: real, n2: real, n3: real)
    requires n0 + n1 + n2 + n3 == 1.0
    ensures c * n0 * v + c * n1 * v + c * n2 * v + c * n3 * v == c * v
  {
    assert c * n0 * v + c * n1 * v + c * n2 * v + c * n3 * v == c * v * (n0 + n1 + n2 + n3);
  }

  // ------------------------------------------------------------ force vector

  /** Every row of qe holds one tensor in storage s. */
  predicate IsStored(qe: seq<seq<real>>, s: Storage)
  {
    forall q :: 0 <= q < |qe| ==> |qe[q]| == Ncomp(s)
  }

  /** Contribution (dNx(m,0) * sig(0,j) + dNx(m,1) * sig(1,j)) * vol of one point. */
  function ForceTerm(g: seq<seq<real>>, sig: Tensor2, vol: real, m: nat, j: nat): real
    requires IsMatrix(g, NNE, NDIM) && m < NNE && j < NDIM
  {
    (g[m][0] * Component(sig, 0, j) + g[m][1] * Component(sig, 1, j)) * vol
  }

  /** f(m,j) after the first k points of one element, for stored tensors qe. */
  function ForceSum(g: seq<seq<seq<real>>>, qe: seq<seq<real>>, s: Storage, vol: seq<real>,
                    m: nat, j: nat, k: nat): real
    requires k <= |g| && k <= |qe| && k <= |vol| && IsGradTable(g)
    requires IsStored(qe, s)
    requires m < NNE && j < NDIM
  {
    if k == 0 then 0.0
    else ForceSum(g, qe, s, vol, m, j, k - 1) + ForceTerm(g[k - 1], Load(qe[k - 1], s), vol[k - 1], m, j)
  }

  /** The element force vectors for all elements. */
  function Forces(dNx: seq<seq<seq<seq<real>>>>, q: seq<seq<seq<real>>>, s: Storage,
                  vol: seq<seq<real>>, nip: nat): (f: seq<seq<seq<real>>>)
    requires |dNx| == |q| && IsQScalar(vol, |q|, nip) && IsQTensor(q, |q|, nip, Ncomp(s))
    requires forall e :: 0 <= e < |q| ==> |dNx[e]| == nip && IsGradTable(dNx[e])
    ensures IsElemVec(f, |q|)
  {
    seq(|q|, e requires 0 <= e < |q| =>
      seq(NNE, m requires 0 <= m < NNE =>
        seq(NDIM, j requires 0 <= j < NDIM => ForceSum(dNx[e], q[e], s, vol[e], m, j, nip))))
  }

  /** Element equilibrium: when the gradients of every point sum to 0 over the
      nodes, so does each component of the force vector, whatever the stress. */
  lemma {:induction false} ForceEquilibrium(g: seq<seq<seq<real>>>, qe: seq<seq<real>>, s: Storage,
                                            vol: seq<real>, j: nat, k: nat)
    requires k <= |g| && k <= |qe| && k <= |vol| && IsGradTable(g) && j < NDIM
    requires IsStored(qe, s)
    requires forall q :: 0 <= q < k ==> ColumnSum(g[q], 0) == 0.0 && ColumnSum(g[q], 1) == 0.0
    ensures ForceSum(g, qe, s, vol, 0, j, k) + ForceSum(g, qe, s, vol, 1, j, k)
          + ForceSum(g, qe, s, vol, 2, j, k) + ForceSum(g, qe, s, vol, 3, j, k) == 0.0
  {
    if k > 0 {
      var q := k - 1;
      ForceEquilibrium(g, qe, s, vol, j, q);
      var d := g[q];
      var sig := Load(qe[q], s);
      var s0 := Component(sig, 0, j);
      var s1 := Component(sig, 1, j);
      ColumnSumExpanded(d, 0);
      ColumnSumExpanded(d, 1);
      assert ForceTerm(d, sig, vol[q], 0, j) + ForceTerm(d, sig, vol[q], 1, j)
           + ForceTerm(d, sig, vol[q], 2, j) + ForceTerm(d, sig, vol[q], 3, j)
          == (s0 * ColumnSum(d, 0) + s1 * ColumnSum(d, 1)) * vol[q];
    }
  }

  /** The force vector is additive in the stress: for qc = qa + qb
      (component by component), f(qc) = f(qa) + f(qb). */
  lemma {:induction false} ForceAdditive(g: seq<seq<seq<real>>>, qa: seq<seq<real>>, qb: seq<seq<real>>,
                                         qc: seq<seq<real>>, s: Storage, vol: seq<real>, m: nat, j: nat, k: nat)
    requires k <= |g| && k <= |qa| && k <= |qb| && k <= |qc| && k <= |vol| && IsGradTable(g)
    requires IsStored(qa, s) && IsStored(qb, s) && IsStored(qc, s)
    requires forall q, c :: 0 <= q < k && 0 <= c < Ncomp(s) ==> qc[q][c] == qa[q][c] + qb[q][c]
    requires m < NNE && j < NDIM
    ensures ForceSum(g, qc, s, vol, m, j, k) == ForceSum(g, qa, s, vol, m, j, k) + ForceSum(g, qb, s, vol, m, j, k)
  {
    if k > 0 {
      var q := k - 1;
      ForceAdditive(g, qa, qb, qc, s, vol, m, j, q);
      var sa, sb, sc := Load(qa[q], s), Load(qb[q], s), Load(qc[q], s);
      assert IsMatrix(g[q], NNE, NDIM);
      var g0, g1, v := g[q][m][0], g[q][m][1], vol[q];
      assert Component(sc, 0, j) == Component(sa, 0, j) + Component(sb, 0, j);
      assert Component(sc, 1, j) == Component(sa, 1, j) + Component(sb, 1, j);
      PointSumDistributes(g0, g1, v, Component(sa, 0, j), Component(sa, 1, j),
                          Component(sb, 0, j), Component(sb, 1, j));
    }
  }

  /** A zero stress field gives a zero force vector. */
  lemma {:induction false} ForceOfZeroStress(g: seq<seq<seq<real>>>, qe: seq<seq<real>>, s: Storage,
                                             vol: seq<real>, m: nat, j: nat, k: nat)
    requires k <= |g| && k <= |qe| && k <= |vol| && IsGradTable(g) && IsStored(qe, s)
    requires forall q, c :: 0 <= q < k && 0 <= c < Ncomp(s) ==> qe[q][c] == 0.0
    requires m < NNE && j < NDIM
    ensures ForceSum(g, qe, s, vol, m, j, k) == 0.0
  {
    if k > 0 {
      ForceOfZeroStress(g, qe, s, vol, m, j, k - 1);
      assert Component(Load(qe[k - 1], s), 0, j) == 0.0 && Component(Load(qe[k - 1], s), 1, j) == 0.0;
    }
  }

  /** Arithmetic step: one point's term for a sum of stresses. */
  lemma PointSumDistributes(g0: real, g1: real, v: real, a0: real, a1: real, b0: real, b1: real)
    ensures (g0 * (a0 + b0) + g1 * (a1 + b1)) * v == (g0 * a0 + g1 * a1) * v + (g0 * b0 + g1 * b1) * v
  {
  }

  // ------------------------------------------------------------- the object

  /** The output of dV: the volumes themselves, or one copy per component. */
  datatype VolumeOut = Scalars(scalars: seq<seq<real>>) | Tensors(tensors: seq<seq<seq<real>>>)

  const DispatchError: string := "assert: qtensor.shape(2) == 4 or qtensor.shape(2) == 3"

  class Quadrature {
    var x: seq<seq<seq<real>>>
    var xi: seq<seq<real>>
    var w: seq<real>
    var nelem: nat
    var nip: nat
    var N: seq<seq<real>>
    var dNxi: seq<seq<seq<real>>>
    var dNx: seq<seq<seq<seq<real>>>>
    var vol: seq<seq<real>>

    /** The positions and the rule are well shaped and the per-point tables
        belong to the rule. */
    ghost predicate RuleValid()
      reads this
    {
      IsElemVec(x, nelem) && RuleShaped(Rule(xi, w)) && nip == |w|
      && N == ShapeTable(xi) && dNxi == LocalGradientTable(xi)
    }

    /** In addition, the per-element gradients and volumes belong to x. */
    ghost predicate Valid()
      reads this
    {
      RuleValid() && Regular(x, dNxi)
      && dNx == GradientField(x, dNxi) && vol == VolumeField(x, dNxi, w)
    }

    /** Construction from positions and an already chosen rule. */
    constructor FromRule(x0: seq<seq<seq<real>>>, r: Rule)
      requires IsElemVec(x0, |x0|) && RuleShaped(r)
      requires Regular(x0, LocalGradientTable(r.xi))
      ensures Valid()
      ensures x == x0 && xi == r.xi && w == r.w && nelem == |x0| && nip == |r.w|
    {
      x := x0;
      xi := r.xi;
      w := r.w;
      nelem := |x0|;
      nip := |r.w|;
      var p := r.xi;
      // shape functions
      var n: seq<seq<real>> := [];
      var k := 0;
      while k < |r.w|
        invariant 0 <= k <= |r.w|
        invariant n == ShapeTable(p)[..k]
      {
        n := n + [[0.25 * (1.0 - p[k][0]) * (1.0 - p[k][1]),
                   0.25 * (1.0 + p[k][0]) * (1.0 - p[k][1]),
                   0.25 * (1.0 + p[k][0]) * (1.0 + p[k][1]),
                   0.25 * (1.0 - p[k][0]) * (1.0 + p[k][1])]];
        k := k + 1;
      }
      // shape function gradients in local coordinates
      var d: seq<seq<seq<real>>> := [];
      k := 0;
      while k < |r.w|
        invariant 0 <= k <= |r.w|
        invariant d == LocalGradientTable(p)[..k]
      {
        d := d + [[[-0.25 * (1.0 - p[k][1]), -0.25 * (1.0 - p[k][0])],
                   [ 0.25 * (1.0 - p[k][1]), -0.25 * (1.0 + p[k][0])],
                   [ 0.25 * (1.0 + p[k][1]),  0.25 * (1.0 + p[k][0])],
                   [-0.25 * (1.0 + p[k][1]),  0.25 * (1.0 - p[k][0])]]];
        k := k + 1;
      }
      assert n == ShapeTable(p);
      assert d == LocalGradientTable(p);
      N := n;
      dNxi := d;
      dNx := [];
      vol := [];
      new;
      ComputeDN();
    }

    /** Construction with the scheme chosen from the input: the Gauss rule
        when neither coordinates nor weights are given, the given rule when
        both are, and the error otherwise. */
    static method New(x0: seq<seq<seq<real>>>, xi0: seq<seq<real>>, w0: seq<real>)
      returns (res: Result<Quadrature, string>)
      requires IsElemVec(x0, |x0|)
      requires SelectRule(xi0, w0).Ok? ==> RuleShaped(SelectRule(xi0, w0).value)
      requires SelectRule(xi0, w0).Ok? ==> Regular(x0, LocalGradientTable(SelectRule(xi0, w0).value.xi))
      ensures res.Err? <==> SelectRule(xi0, w0).Err?
      ensures res.Err? ==> res.error == RuleError
      ensures res.Ok? ==> fresh(res.value) && res.value.Valid() && res.value.x == x0
      ensures res.Ok? ==> Rule(res.value.xi, res.value.w) == SelectRule(xi0, w0).value
    {
      var r := SelectRule(xi0, w0);
      if r.Err? {
        return Err(r.error);
      }
      var q := new Quadrature.FromRule(x0, r.value);
      return Ok(q);
    }

    /** Recompute the global gradients and volumes from the current positions. */
    method ComputeDN()
      requires RuleValid() && Regular(x, dNxi)
      modifies this`dNx, this`vol
      ensures Valid()
    {
      var xs, ds, ws := x, dNxi, w;
      ghost var gf := GradientField(xs, ds);
      ghost var vf := VolumeField(xs, ds, ws);
      var g: seq<seq<seq<seq<real>>>> := [];
      var v: seq<seq<real>> := [];
      var e := 0;
      while e < nelem
        invariant 0 <= e <= nelem && g == gf[..e] && v == vf[..e]
      {
        var ge, ve := ElementGradients(ds, xs[e], ws);
        g := g + [ge];
        v := v + [ve];
        e := e + 1;
      }
      assert g == gf && v == vf;
      dNx := g;
      vol := v;
    }

    /** Replace the nodal positions (same shape) and recompute what depends on
        them; the result is what a new object on x0 with the same rule holds. */
    method UpdateX(x0: seq<seq<seq<real>>>)
      requires Valid() && IsElemVec(x0, nelem) && Regular(x0, dNxi)
      modifies this`x, this`dNx, this`vol
      ensures Valid() && x == x0
      ensures dNx == GradientField(x0, LocalGradientTable(xi))
      ensures vol == VolumeField(x0, LocalGradientTable(xi), w)
    {
      x := x0;
      ComputeDN();
    }

    /** dV(0) is the volume field itself; dV(ncomp) repeats each volume for
        every one of ncomp tensor components. */
    method DV(ncomp: nat) returns (out: VolumeOut)
      requires Valid()
      ensures ncomp == 0 ==> out == Scalars(vol)
      ensures ncomp > 0 ==> out.Tensors? && IsQTensor(out.tensors, nelem, nip, ncomp)
      ensures ncomp > 0 ==> forall e, k, i :: 0 <= e < nelem && 0 <= k < nip && 0 <= i < ncomp ==>
        out.tensors[e][k][i] == vol[e][k]
    {
      if ncomp == 0 {
        return Scalars(vol);
      }
      var t: seq<seq<seq<real>>> := [];
      var e := 0;
      while e < nelem
        invariant 0 <= e <= nelem && |t| == e
        invariant forall e' :: 0 <= e' < e ==> IsMatrix(t[e'], nip, ncomp)
        invariant forall e', k, i :: 0 <= e' < e && 0 <= k < nip && 0 <= i < ncomp ==> t[e'][k][i] == vol[e'][k]
      {
        var te: seq<seq<real>> := [];
        var k := 0;
        while k < nip
          invariant 0 <= k <= nip && |te| == k
          invariant forall k' :: 0 <= k' < k ==> |te[k']| == ncomp
          invariant forall k', i :: 0 <= k' < k && 0 <= i < ncomp ==> te[k'][i] == vol[e][k']
        {
          var tk: seq<real> := [];
          var i := 0;
          while i < ncomp
            invariant 0 <= i <= ncomp && |tk| == i
            invariant forall i' :: 0 <= i' < i ==> tk[i'] == vol[e][k]
          {
            tk := tk + [vol[e][k]];
            i := i + 1;
          }
          te := te + [tk];
          k := k + 1;
        }
        t := t + [te];
        e := e + 1;
      }
      return Tensors(t);
    }

    /** gradN_vector: qtensor(e,k) = gradu(i,j) = sum_m dNx(m,i) * u(m,j),
        in full storage. */
    method GradNVector(u: seq<seq<seq<real>>>) returns (q: seq<seq<seq<real>>>)
      requires Valid() && IsElemVec(u, nelem)
      ensures IsQTensor(q, nelem, nip, 4)
      ensures forall e, k :: 0 <= e < nelem && 0 <= k < nip ==>
        q[e][k] == Store(Gradient(dNx[e][k], u[e]), Full)
    {
      q := [];
      var e := 0;
      while e < nelem
        invariant 0 <= e <= nelem && |q| == e
        invariant forall e' :: 0 <= e' < e ==> |q[e']| == nip
        invariant forall e', k :: 0 <= e' < e && 0 <= k < nip ==> q[e'][k] == Store(Gradient(dNx[e'][k], u[e']), Full)
      {
        var qe := ElementGradu(dNx[e], u[e]);
        q := q + [qe];
        e := e + 1;
      }
    }

    /** gradN_vector_T: the transpose, gradu(j,i) = sum_m dNx(m,i) * u(m,j). */
    method GradNVectorT(u: seq<seq<seq<real>>>) returns (q: seq<seq<seq<real>>>)
      requires Valid() && IsElemVec(u, nelem)
      ensures IsQTensor(q, nelem, nip, 4)
      ensures forall e, k :: 0 <= e < nelem && 0 <= k < nip ==>
        q[e][k] == Store(Transpose(Gradient(dNx[e][k], u[e])), Full)
    {
      q := [];
      var e := 0;
      while e < nelem
        invariant 0 <= e <= nelem && |q| == e
        invariant forall e' :: 0 <= e' < e ==> |q[e']| == nip
        invariant forall e', k :: 0 <= e' < e && 0 <= k < nip ==>
          q[e'][k] == Store(Transpose(Gradient(dNx[e'][k], u[e'])), Full)
      {
        var qe := ElementGraduT(dNx[e], u[e]);
        q := q + [qe];
        e := e + 1;
      }
    }

    /** symGradN_vector: the symmetric part of gradN_vector, in storage s (the
        library's default is symmetric storage). */
    method SymGradNVector(u: seq<seq<seq<real>>>, s: Storage) returns (q: seq<seq<seq<real>>>)
      requires Valid() && IsElemVec(u, nelem)
      ensures IsQTensor(q, nelem, nip, Ncomp(s))
      ensures forall e, k :: 0 <= e < nelem && 0 <= k < nip ==>
        q[e][k] == Store(SymPart(Gradient(dNx[e][k], u[e])), s)
    {
      q := [];
      var e := 0;
      while e < nelem
        invariant 0 <= e <= nelem && |q| == e
        invariant forall e' :: 0 <= e' < e ==> |q[e']| == nip
        invariant forall e', k :: 0 <= e' < e && 0 <= k < nip ==>
          q[e'][k] == Store(SymPart(Gradient(dNx[e'][k], u[e'])), s)
      {
        var qe := ElementSymGradu(dNx[e], u[e], s);
        q := q + [qe];
        e := e + 1;
      }
    }

    /** int_N_scalar_NT_dV: per element, M(2m+i, 2n+i) = sum_k N(k,m) rho(e,k)
        N(k,n) vol(e,k) for both components i, and 0 between components. */
    method IntNScalarNTdV(qscalar: seq<seq<real>>) returns (M: seq<seq<seq<real>>>)
      requires Valid() && IsQScalar(qscalar, nelem, nip)
      ensures |M| == nelem
      ensures forall e :: 0 <= e < nelem ==>
        IsMatrix(M[e], NNE * NDIM, NNE * NDIM) &&
        (forall r, c :: 0 <= r < NNE * NDIM && 0 <= c < NNE * NDIM ==>
           M[e][r][c] == MassEntry(N, qscalar[e], vol[e], r, c, nip))
    {
      M := [];
      var e := 0;
      while e < nelem
        invariant 0 <= e <= nelem && |M| == e
        invariant forall e' :: 0 <= e' < e ==>
          IsMatrix(M[e'], NNE * NDIM, NNE * NDIM) &&
          (forall r, c :: 0 <= r < NNE * NDIM && 0 <= c < NNE * NDIM ==>
             M[e'][r][c] == MassEntry(N, qscalar[e'], vol[e'], r, c, nip))
      {
        var Me := ElementMass(N, qscalar[e], vol[e], nip);
        M := M + [Me];
        e := e + 1;
      }
    }

    /** int_gradN_dot_tensor2_dV for tensors in storage s:
        f(m,j) = sum_k (dNx(m,0) sig(0,j) + dNx(m,1) sig(1,j)) vol. */
    method IntGradNDotTensor2DVStored(qtensor: seq<seq<seq<real>>>, s: Storage)
      returns (f: seq<seq<seq<real>>>)
      requires Valid() && IsQTensor(qtensor, nelem, nip, Ncomp(s))
      ensures f == Forces(dNx, qtensor, s, vol, nip)
    {
      f := [];
      var e := 0;
      while e < nelem
        invariant 0 <= e <= nelem
        invariant f == Forces(dNx, qtensor, s, vol, nip)[..e]
      {
        var fe := ElementForce(dNx[e], qtensor[e], s, vol[e], nip);
        ghost var fs := Forces(dNx, qtensor, s, vol, nip);
        forall m | 0 <= m < NNE
          ensures fe[m] == fs[e][m]
        {
          assert |fe[m]| == NDIM == |fs[e][m]|;
        }
        assert fe == fs[e];
        f := f + [fe];
        e := e + 1;
      }
    }

    /** int_gradN_dot_tensor2_dV: the storage follows from the number of
        stored components, the last extent `ncomp` of the buffer; any other
        number is an error. */
    method IntGradNDotTensor2DV(qtensor: seq<seq<seq<real>>>, ncomp: nat)
      returns (res: Result<seq<seq<seq<real>>>, string>)
      requires Valid() && IsQTensor(qtensor, nelem, nip, ncomp)
      ensures ncomp == 4 ==> res == Ok(Forces(dNx, qtensor, Full, vol, nip))
      ensures ncomp == 3 ==> res == Ok(Forces(dNx, qtensor, Symmetric, vol, nip))
      ensures ncomp != 4 && ncomp != 3 ==> res == Err(DispatchError)
    {
      if ncomp == NDIM * NDIM {
        var f := IntGradNDotTensor2DVStored(qtensor, Full);
        return Ok(f);
      } else if ncomp == (NDIM + 1) * NDIM / 2 {
        var f := IntGradNDotTensor2DVStored(qtensor, Symmetric);
        return Ok(f);
      }
      return Err(DispatchError);
    }

    /** int_gradN_dot_tensor2s_dV: the same integral for symmetric storage. */
    method IntGradNDotTensor2sDV(qtensor: seq<seq<seq<real>>>) returns (f: seq<seq<seq<real>>>)
      requires Valid() && IsQTensor(qtensor, nelem, nip, 3)
      ensures f == Forces(dNx, qtensor, Symmetric, vol, nip)
    {
      f := IntGradNDotTensor2DVStored(qtensor, Symmetric);
    }
  }

  /** One element of compute_dN: the global gradients and the volumes at
      every integration point. */
  method ElementGradients(ds: seq<seq<seq<real>>>, xe: seq<seq<real>>, ws: seq<real>)
    returns (ge: seq<seq<seq<real>>>, ve: seq<real>)
    requires IsGradTable(ds) && |ws| == |ds| && IsMatrix(xe, NNE, NDIM) && RegularAt(ds, xe)
    ensures ge == ElementGradientField(ds, xe) && ve == ElementVolumes(ds, xe, ws)
  {
    ge, ve := [], [];
    var k := 0;
    while k < |ds|
      invariant 0 <= k <= |ds|
      invariant ge == ElementGradientField(ds, xe)[..k] && ve == ElementVolumes(ds, xe, ws)[..k]
    {
      var gk, vk := PointGradient(ds[k], xe, ws[k]);
      assert gk == ElementGradientField(ds, xe)[k] && vk == ElementVolumes(ds, xe, ws)[k];
      ge := ge + [gk];
      ve := ve + [vk];
      k := k + 1;
    }
  }

  /** One element of gradN_vector, point by point. */
  method ElementGradu(ge: seq<seq<seq<real>>>, ue: seq<seq<real>>) returns (qe: seq<seq<real>>)
    requires IsGradTable(ge) && IsMatrix(ue, NNE, NDIM)
    ensures |qe| == |ge|
    ensures forall k :: 0 <= k < |ge| ==> qe[k] == Store(Gradient(ge[k], ue), Full)
  {
    qe := [];
    var k := 0;
    while k < |ge|
      invariant 0 <= k <= |ge| && |qe| == k
      invariant forall k' :: 0 <= k' < k ==> qe[k'] == Store(Gradient(ge[k'], ue), Full)
    {
      var gradu := PointGradu(ge[k], ue);
      qe := qe + [Store(gradu, Full)];
      k := k + 1;
    }
  }

  /** One element of gradN_vector_T, point by point. */
  method ElementGraduT(ge: seq<seq<seq<real>>>, ue: seq<seq<real>>) returns (qe: seq<seq<real>>)
    requires IsGradTable(ge) && IsMatrix(ue, NNE, NDIM)
    ensures |qe| == |ge|
    ensures forall k :: 0 <= k < |ge| ==> qe[k] == Store(Transpose(Gradient(ge[k], ue)), Full)
  {
    qe := [];
    var k := 0;
    while k < |ge|
      invariant 0 <= k <= |ge| && |qe| == k
      invariant forall k' :: 0 <= k' < k ==> qe[k'] == Store(Transpose(Gradient(ge[k'], ue)), Full)
    {
      var gradu := PointGraduT(ge[k], ue);
      qe := qe + [Store(gradu, Full)];
      k := k + 1;
    }
  }

  /** One element of symGradN_vector, point by point, in storage s. */
  method ElementSymGradu(ge: seq<seq<seq<real>>>, ue: seq<seq<real>>, s: Storage) returns (qe: seq<seq<real>>)
    requires IsGradTable(ge) && IsMatrix(ue, NNE, NDIM)
    ensures |qe| == |ge|
    ensures forall k :: 0 <= k < |ge| ==> qe[k] == Store(SymPart(Gradient(ge[k], ue)), s)
  {
    qe := [];
    var k := 0;
    while k < |ge|
      invariant 0 <= k <= |ge| && |qe| == k
      invariant forall k' :: 0 <= k' < k ==> qe[k'] == Store(SymPart(Gradient(ge[k'], ue)), s)
    {
      var eps := PointSymGradu(ge[k], ue);
      qe := qe + [Store(eps, s)];
      k := k + 1;
    }
  }

  /** One element at one point of compute_dN: the Jacobian, its determinant,
      the global gradients Jinv * dNxi and the volume w * det J. */
  method PointGradient(d: seq<seq<real>>, xe: seq<seq<real>>, wk: real) returns (gk: seq<seq<real>>, vk: real)
    requires IsMatrix(d, NNE, NDIM) && IsMatrix(xe, NNE, NDIM) && Det(Jacobian(d, xe)) != 0.0
    ensures gk == GlobalGradient(d, Inv(Jacobian(d, xe)))
    ensures vk == wk * Det(Jacobian(d, xe))
  {
    var J := JacobianAt(d, xe);
    var Jdet := Det(J);
    var Jinv := Inv(J);
    gk := ApplyInverse(d, Jinv);
    vk := wk * Jdet;
  }

  /** dNx(m,i) = sum_j Jinv(i,j) * dNxi(m,j), node by node. */
  method ApplyInverse(d: seq<seq<real>>, Jinv: Tensor2) returns (gk: seq<seq<real>>)
    requires IsMatrix(d, NNE, NDIM)
    ensures gk == GlobalGradient(d, Jinv)
  {
    gk := [];
    var m := 0;
    while m < NNE
      invariant 0 <= m <= NNE && |gk| == m
      invariant forall m' :: 0 <= m' < m ==> gk[m'] == GlobalGradient(d, Jinv)[m']
    {
      var row := [Jinv.xx * d[m][0] + Jinv.xy * d[m][1], Jinv.yx * d[m][0] + Jinv.yy * d[m][1]];
      assert row[0] == GradientRow(d[m], Jinv)[0] && row[1] == GradientRow(d[m], Jinv)[1];
      gk := gk + [row];
      m := m + 1;
    }
  }

  /** The Jacobian J(i,j) = sum_m dNxi(m,i) * xe(m,j), with the sums written out. */
  method JacobianAt(d: seq<seq<real>>, xe: seq<seq<real>>) returns (J: Tensor2)
    requires IsMatrix(d, NNE, NDIM) && IsMatrix(xe, NNE, NDIM)
    ensures J == Jacobian(d, xe)
  {
    J := Tensor2(
      d[0][0] * xe[0][0] + d[1][0] * xe[1][0] + d[2][0] * xe[2][0] + d[3][0] * xe[3][0],
      d[0][0] * xe[0][1] + d[1][0] * xe[1][1] + d[2][0] * xe[2][1] + d[3][0] * xe[3][1],
      d[0][1] * xe[0][0] + d[1][1] * xe[1][0] + d[2][1] * xe[2][0] + d[3][1] * xe[3][0],
      d[0][1] * xe[0][1] + d[1][1] * xe[1][1] + d[2][1] * xe[2][1] + d[3][1] * xe[3][1]);
    DotExpanded(d, 0, xe, 0);
    DotExpanded(d, 0, xe, 1);
    DotExpanded(d, 1, xe, 0);
    DotExpanded(d, 1, xe, 1);
  }

  /** One point of gradN_vector: gradu(i,j) = sum_m dNx(m,i) * u(m,j), with
      the sums written out. */
  method PointGradu(g: seq<seq<real>>, ue: seq<seq<real>>) returns (gradu: Tensor2)
    requires IsMatrix(g, NNE, NDIM) && IsMatrix(ue, NNE, NDIM)
    ensures gradu == Gradient(g, ue)
  {
    gradu := Tensor2(
      g[0][0] * ue[0][0] + g[1][0] * ue[1][0] + g[2][0] * ue[2][0] + g[3][0] * ue[3][0],
      g[0][0] * ue[0][1] + g[1][0] * ue[1][1] + g[2][0] * ue[2][1] + g[3][0] * ue[3][1],
      g[0][1] * ue[0][0] + g[1][1] * ue[1][0] + g[2][1] * ue[2][0] + g[3][1] * ue[3][0],
      g[0][1] * ue[0][1] + g[1][1] * ue[1][1] + g[2][1] * ue[2][1] + g[3][1] * ue[3][1]);
    DotExpanded(g, 0, ue, 0);
    DotExpanded(g, 0, ue, 1);
    DotExpanded(g, 1, ue, 0);
    DotExpanded(g, 1, ue, 1);
  }

  /** One point of gradN_vector_T: the same sums stored at the transposed
      positions, gradu(j,i) = sum_m dNx(m,i) * u(m,j). */
  method PointGraduT(g: seq<seq<real>>, ue: seq<seq<real>>) returns (gradu: Tensor2)
    requires IsMatrix(g, NNE, NDIM) && IsMatrix(ue, NNE, NDIM)
    ensures gradu == Transpose(Gradient(g, ue))
  {
    var g00 := g[0][0] * ue[0][0] + g[1][0] * ue[1][0] + g[2][0] * ue[2][0] + g[3][0] * ue[3][0];
    var g10 := g[0][0] * ue[0][1] + g[1][0] * ue[1][1] + g[2][0] * ue[2][1] + g[3][0] * ue[3][1];
    var g01 := g[0][1] * ue[0][0] + g[1][1] * ue[1][0] + g[2][1] * ue[2][0] + g[3][1] * ue[3][0];
    var g11 := g[0][1] * ue[0][1] + g[1][1] * ue[1][1] + g[2][1] * ue[2][1] + g[3][1] * ue[3][1];
    DotExpanded(g, 0, ue, 0);
    DotExpanded(g, 0, ue, 1);
    DotExpanded(g, 1, ue, 0);
    DotExpanded(g, 1, ue, 1);
    gradu := Tensor2(g00, g01, g10, g11);
  }

  /** One point of symGradN_vector: the dyadic product, then
      eps(0,1) = eps(1,0) = (gradu(0,1) + gradu(1,0)) / 2. */
  method PointSymGradu(g: seq<seq<real>>, ue: seq<seq<real>>) returns (eps: Tensor2)
    requires IsMatrix(g, NNE, NDIM) && IsMatrix(ue, NNE, NDIM)
    ensures eps == SymPart(Gradient(g, ue))
  {
    var gradu := PointGradu(g, ue);
    var e01 := 0.5 * (gradu.xy + gradu.yx);
    eps := Tensor2(gradu.xx, e01, e01, gradu.yy);
  }

  /** One element of int_N_scalar_NT_dV: M starts at zero and, point by
      point and node pair by node pair, receives N(m) rho N(n) vol in both
      diagonal component positions. */
  method ElementMass(n: seq<seq<real>>, rho: seq<real>, vol: seq<real>, nip: nat)
    returns (M: seq<seq<real>>)
    requires |n| == nip && |rho| == nip && |vol| == nip
    requires IsMatrix(n, nip, NNE)
    ensures IsMatrix(M, NNE * NDIM, NNE * NDIM)
    ensures forall r, c :: 0 <= r < NNE * NDIM && 0 <= c < NNE * NDIM ==>
      M[r][c] == MassEntry(n, rho, vol, r, c, nip)
  {
    M := seq(NNE * NDIM, _ => seq(NNE * NDIM, _ => 0.0));
    var k := 0;
    while k < nip
      invariant 0 <= k <= nip && IsMatrix(M, NNE * NDIM, NNE * NDIM)
      invariant forall r, c :: 0 <= r < NNE * NDIM && 0 <= c < NNE * NDIM ==>
        M[r][c] == MassEntry(n, rho, vol, r, c, k)
    {
      var a := 0;
      while a < NNE
        invariant 0 <= a <= NNE && IsMatrix(M, NNE * NDIM, NNE * NDIM)
        invariant forall r, c :: 0 <= r < NNE * NDIM && 0 <= c < NNE * NDIM ==>
          M[r][c] == MassEntry(n, rho, vol, r, c, if r / NDIM < a then k + 1 else k)
      {
        var b := 0;
        while b < NNE
          invariant 0 <= b <= NNE && IsMatrix(M, NNE * NDIM, NNE * NDIM)
          invariant forall r, c :: 0 <= r < NNE * NDIM && 0 <= c < NNE * NDIM ==>
            M[r][c] == MassEntry(n, rho, vol, r, c,
                                 if r / NDIM < a || (r / NDIM == a && c / NDIM < b) then k + 1 else k)
        {
          var t := n[k][a] * rho[k] * n[k][b] * vol[k];
          M := M[NDIM * a := M[NDIM * a][NDIM * b := M[NDIM * a][NDIM * b] + t]];
          M := M[NDIM * a + 1 := M[NDIM * a + 1][NDIM * b + 1 := M[NDIM * a + 1][NDIM * b + 1] + t]];
          b := b + 1;
        }
        a := a + 1;
      }
      k := k + 1;
    }
  }

  /** One element of int_gradN_dot_tensor2_dV: f starts at zero and receives
      the contribution of every point, node by node. */
  method ElementForce(g: seq<seq<seq<real>>>, qe: seq<seq<real>>, s: Storage, vol: seq<real>, nip: nat)
    returns (f: seq<seq<real>>)
    requires |g| == nip && IsGradTable(g) && IsMatrix(qe, nip, Ncomp(s)) && |vol| == nip
    ensures IsMatrix(f, NNE, NDIM)
    ensures forall m, j :: 0 <= m < NNE && 0 <= j < NDIM ==> f[m][j] == ForceSum(g, qe, s, vol, m, j, nip)
  {
    f := seq(NNE, _ => seq(NDIM, _ => 0.0));
    var k := 0;
    while k < nip
      invariant 0 <= k <= nip && IsMatrix(f, NNE, NDIM)
      invariant forall m, j :: 0 <= m < NNE && 0 <= j < NDIM ==> f[m][j] == ForceSum(g, qe, s, vol, m, j, k)
    {
      var d := g[k];
      var sig := Load(qe[k], s);
      var v := vol[k];
      var m := 0;
      while m < NNE
        invariant 0 <= m <= NNE && IsMatrix(f, NNE, NDIM)
        invariant forall m', j :: 0 <= m' < NNE && 0 <= j < NDIM ==>
          f[m'][j] == ForceSum(g, qe, s, vol, m', j, if m' < m then k + 1 else k)
      {
        var row := [f[m][0] + (d[m][0] * sig.xx + d[m][1] * sig.yx) * v,
                    f[m][1] + (d[m][0] * sig.xy + d[m][1] * sig.yy) * v];
        assert row[0] == ForceSum(g, qe, s, vol, m, 0, k + 1);
        assert row[1] == ForceSum(g, qe, s, vol, m, 1, k + 1);
        f := f[m := row];
        m := m + 1;
      }
      k := k + 1;
    }
  }
}
