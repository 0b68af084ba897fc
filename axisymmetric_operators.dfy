/**
 * The operators of the axisymmetric Quad4 element at one integration point.
 *
 * The element lives in the (z, r) half plane: component 0 of a nodal vector
 * is the axial coordinate z, component 1 the radius r. Integration-point
 * tensors are 3x3 in cylindrical components, indexed r = 0, theta = 1, z = 2.
 * The map from tensor index to nodal component is perm(0) = 1, perm(2) = 0.
 *
 * The operator B(m, i, j, k) of node m is a dense 3x3x3 array (27 entries,
 * flat index 9i + 3j + k) of which only five entries are ever written:
 *   B(m,0,0,0) = dN(m)/dr,  B(m,0,2,2) = dN(m)/dr,  B(m,1,1,0) = N(m)/r,
 *   B(m,2,0,0) = dN(m)/dz,  B(m,2,2,2) = dN(m)/dz.
 */
module AxisymmetricOperators {
  import opened Quad4Rules

  /** Dimension of the cylindrical tensors. */
  const TDIM: nat := 3

  /** pi; Dafny has no transcendental constants, so only its sign is known. */
  const PI: PositiveReal

  /** Number of entries B(m, i, j, k) per node. */
  const NB: nat := 27

  function BIndex(i: nat, j: nat, k: nat): (t: nat)
    requires i < TDIM && j < TDIM && k < TDIM
    ensures t < NB
  {
    9 * i + 3 * j + k
  }

  /** Flat positions of the five written entries of B(m, ., ., .):
      (0,0,0), (0,2,2), (1,1,0), (2,0,0) and (2,2,2). */
  const RRR: nat := 0
  const RZZ: nat := 8
  const TTR: nat := 12
  const ZRR: nat := 18
  const ZZZ: nat := 26

  /** The entries of B that compute_dN writes; every other entry stays 0. */
  predicate Written(i: nat, j: nat, k: nat)
  {
    (i == 0 && j == 0 && k == 0) || (i == 0 && j == 2 && k == 2) || (i == 1 && j == 1 && k == 0)
    || (i == 2 && j == 0 && k == 0) || (i == 2 && j == 2 && k == 2)
  }

  /** The tensor entries the operators write: the diagonal and (0,2), (2,0). */
  predicate OnPattern(i: nat, j: nat)
  {
    i == j || (i == 0 && j == 2) || (i == 2 && j == 0)
  }

  function Zeros(n: nat): (z: seq<real>)
    ensures |z| == n && forall i :: 0 <= i < n ==> z[i] == 0.0
  {
    seq(n, _ => 0.0)
  }

  // ------------------------------------------------------------ B operator

  /** One node's B: zero-filled, then the five entries (r,r,r), (r,z,z),
      (theta,theta,r), (z,r,r) and (z,z,z) set to the given values. */
  function NodeB(rrr: real, rzz: real, ttr: real, zrr: real, zzz: real): (b: seq<real>)
    ensures |b| == NB
  {
    Zeros(NB)[RRR := rrr][RZZ := rzz][TTR := ttr]
             [ZRR := zrr][ZZZ := zzz]
  }

  /** NodeB holds the five values at their places and 0 everywhere else. */
  lemma NodeBSparsity(rrr: real, rzz: real, ttr: real, zrr: real, zzz: real)
    ensures var b := NodeB(rrr, rzz, ttr, zrr, zzz);
      b[RRR] == rrr && b[RZZ] == rzz && b[TTR] == ttr
      && b[ZRR] == zrr && b[ZZZ] == zzz
    ensures forall t :: 0 <= t < NB && !WrittenIndex(t) ==> NodeB(rrr, rzz, ttr, zrr, zzz)[t] == 0.0
  {
  }

  /** The five flat positions of the written entries. */
  predicate WrittenIndex(t: nat)
  {
    t == RRR || t == RZZ || t == TTR || t == ZRR || t == ZZZ
  }

  /** The flat positions are those of the triples Written names. */
  lemma WrittenIndices()
    ensures forall i, j, k :: 0 <= i < TDIM && 0 <= j < TDIM && 0 <= k < TDIM ==>
      (Written(i, j, k) <==> WrittenIndex(BIndex(i, j, k)))
  {
  }

  /** The radius at a point, sum_m N(m) * x(m,1); the same sum interpolates
      the radial component of any nodal vector. */
  function Radius(n: seq<real>, xe: seq<seq<real>>): real
    requires |n| == NNE && IsMatrix(xe, NNE, NDIM)
  {
    n[0] * xe[0][1] + n[1] * xe[1][1] + n[2] * xe[2][1] + n[3] * xe[3][1]
  }

  /** The hoop entry B(m,1,1,0) = N(m) / r. */
  function Hoop(rq: real, nm: real): real
    requires rq != 0.0
  {
    1.0 / rq * nm
  }

  /** B of the four nodes at one point, from the global gradients dNx
      (dNx(m,0) = dN/dz, dNx(m,1) = dN/dr), the shape functions and the radius:
      (r,r,r) and (r,z,z) hold dN/dr, (z,r,r) and (z,z,z) hold dN/dz. */
  function PointB(dNx: seq<seq<real>>, n: seq<real>, rq: real): (b: seq<seq<real>>)
    requires IsMatrix(dNx, NNE, NDIM) && |n| == NNE && rq != 0.0
    ensures IsMatrix(b, NNE, NB)
  {
    seq(NNE, m requires 0 <= m < NNE => NodeB(dNx[m][1], dNx[m][1], Hoop(rq, n[m]), dNx[m][0], dNx[m][0]))
  }

  /** B as the code writes it: (r,r,r) receives row 0 of Jinv * dNxi (dN/dz)
      and (z,z,z) row 1 (dN/dr), the other way round from the entries' own
      comments and from PointB. */
  function PointBAsWritten(dNx: seq<seq<real>>, n: seq<real>, rq: real): (b: seq<seq<real>>)
    requires IsMatrix(dNx, NNE, NDIM) && |n| == NNE && rq != 0.0
    ensures IsMatrix(b, NNE, NB)
  {
    seq(NNE, m requires 0 <= m < NNE => NodeB(dNx[m][0], dNx[m][1], Hoop(rq, n[m]), dNx[m][0], dNx[m][1]))
  }

  // ------------------------------------------------------- 3x3 tensors

  /** A cylindrical 3x3 tensor; field names give (row, column), r = 0,
      theta (t) = 1, z = 2. */
  datatype Tensor3 = Tensor3(rr: real, rt: real, rz: real,
                             tr: real, tt: real, tz: real,
                             zr: real, zt: real, zz: real)

  function At(t: Tensor3, i: nat, j: nat): real
    requires i < TDIM && j < TDIM
  {
    if i == 0 then (if j == 0 then t.rr else if j == 1 then t.rt else t.rz)
    else if i == 1 then (if j == 0 then t.tr else if j == 1 then t.tt else t.tz)
    else (if j == 0 then t.zr else if j == 1 then t.zt else t.zz)
  }

  function ZeroTensor3(): Tensor3
  {
    Tensor3(0.0, 0.0, 0.0, 0.0, 0.0, 0.0, 0.0, 0.0, 0.0)
  }

  // ------------------------------------------------- gradient operators

  /** sum over the first k nodes of B(m, t) * u(m, c). */
  function BSumUpTo(b: seq<seq<real>>, t: nat, ue: seq<seq<real>>, c: nat, k: nat): real
    requires IsMatrix(b, NNE, NB) && t < NB && IsMatrix(ue, NNE, NDIM) && c < NDIM && k <= NNE
  {
    if k == 0 then 0.0 else BSumUpTo(b, t, ue, c, k - 1) + b[k - 1][t] * ue[k - 1][c]
  }

  function BSum(b: seq<seq<real>>, t: nat, ue: seq<seq<real>>, c: nat): real
    requires IsMatrix(b, NNE, NB) && t < NB && IsMatrix(ue, NNE, NDIM) && c < NDIM
  {
    BSumUpTo(b, t, ue, c, NNE)
  }

  lemma BSumExpanded(b: seq<seq<real>>, t: nat, ue: seq<seq<real>>, c: nat)
    requires IsMatrix(b, NNE, NB) && t < NB && IsMatrix(ue, NNE, NDIM) && c < NDIM
    ensures BSum(b, t, ue, c) == b[0][t] * ue[0][c] + b[1][t] * ue[1][c] + b[2][t] * ue[2][c] + b[3][t] * ue[3][c]
  {
    assert BSumUpTo(b, t, ue, c, 1) == b[0][t] * ue[0][c];
    assert BSumUpTo(b, t, ue, c, 2) == BSumUpTo(b, t, ue, c, 1) + b[1][t] * ue[1][c];
    assert BSumUpTo(b, t, ue, c, 3) == BSumUpTo(b, t, ue, c, 2) + b[2][t] * ue[2][c];
  }

  /** gradN_vector at one point: gradu(i,j) = sum_m B(m,i,j,k) * u(m,perm(k))
      over the written entries of B; all other components are 0. */
  function AxiGradient(b: seq<seq<real>>, ue: seq<seq<real>>): Tensor3
    requires IsMatrix(b, NNE, NB) && IsMatrix(ue, NNE, NDIM)
  {
    Tensor3(BSum(b, RRR, ue, 1), 0.0, BSum(b, RZZ, ue, 0),
            0.0, BSum(b, TTR, ue, 1), 0.0,
            BSum(b, ZRR, ue, 1), 0.0, BSum(b, ZZZ, ue, 0))
  }

  /** gradN_vector_T at one point: the same sums, with the (0,2) sum stored
      at (2,0) and the (2,0) sum at (0,2). */
  function AxiGradientT(b: seq<seq<real>>, ue: seq<seq<real>>): Tensor3
    requires IsMatrix(b, NNE, NB) && IsMatrix(ue, NNE, NDIM)
  {
    Tensor3(BSum(b, RRR, ue, 1), 0.0, BSum(b, ZRR, ue, 1),
            0.0, BSum(b, TTR, ue, 1), 0.0,
            BSum(b, RZZ, ue, 0), 0.0, BSum(b, ZZZ, ue, 0))
  }

  /** symGradN_vector at one point: the diagonal sums, and half the sum of
      the two off-diagonal sums at both (2,0) and (0,2). */
  function AxiSymGradient(b: seq<seq<real>>, ue: seq<seq<real>>): Tensor3
    requires IsMatrix(b, NNE, NB) && IsMatrix(ue, NNE, NDIM)
  {
    var s := (BSum(b, RZZ, ue, 0) + BSum(b, ZRR, ue, 1)) * 0.5;
    Tensor3(BSum(b, RRR, ue, 1), 0.0, s,
            0.0, BSum(b, TTR, ue, 1), 0.0,
            s, 0.0, BSum(b, ZZZ, ue, 0))
  }

  /** The three gradient operators: only the pattern entries can be nonzero,
      gradN_vector_T is the transpose of gradN_vector, and symGradN_vector is
      symmetric, agrees with both on the diagonal and is their average. */
  lemma GradientOperatorsRelated(b: seq<seq<real>>, ue: seq<seq<real>>)
    requires IsMatrix(b, NNE, NB) && IsMatrix(ue, NNE, NDIM)
    ensures forall i, j :: 0 <= i < TDIM && 0 <= j < TDIM && !OnPattern(i, j) ==>
      At(AxiGradient(b, ue), i, j) == 0.0 && At(AxiGradientT(b, ue), i, j) == 0.0
      && At(AxiSymGradient(b, ue), i, j) == 0.0
    ensures forall i, j :: 0 <= i < TDIM && 0 <= j < TDIM ==>
      At(AxiGradientT(b, ue), i, j) == At(AxiGradient(b, ue), j, i)
    ensures forall i, j :: 0 <= i < TDIM && 0 <= j < TDIM ==>
      At(AxiSymGradient(b, ue), i, j) == At(AxiSymGradient(b, ue), j, i)
    ensures forall i, j :: 0 <= i < TDIM && 0 <= j < TDIM ==>
      At(AxiSymGradient(b, ue), i, j) == 0.5 * (At(AxiGradient(b, ue), i, j) + At(AxiGradientT(b, ue), i, j))
    ensures forall i :: 0 <= i < TDIM ==> At(AxiSymGradient(b, ue), i, i) == At(AxiGradient(b, ue), i, i)
  {
  }

  // ------------------------------------------- exactness of corrected B

  /** A column of B equal to a column of another matrix contracts alike. */
  lemma {:induction false} BSumOfColumn(b: seq<seq<real>>, t: nat, a: seq<seq<real>>, i: nat,
                                        ue: seq<seq<real>>, c: nat, k: nat)
    requires IsMatrix(b, NNE, NB) && t < NB && IsMatrix(a, NNE, NDIM) && i < NDIM
    requires IsMatrix(ue, NNE, NDIM) && c < NDIM && k <= NNE
    requires forall m :: 0 <= m < NNE ==> b[m][t] == a[m][i]
    ensures BSumUpTo(b, t, ue, c, k) == DotUpTo(a, i, ue, c, k)
  {
    if k > 0 {
      BSumOfColumn(b, t, a, i, ue, c, k - 1);
      assert b[k - 1][t] == a[k - 1][i];
    }
  }

  /** The hoop column N(m)/rq contracts to the interpolated radial
      component divided by the radius. */
  lemma HoopSum(b: seq<seq<real>>, t: nat, n: seq<real>, rq: real, ue: seq<seq<real>>)
    requires IsMatrix(b, NNE, NB) && t < NB && |n| == NNE && rq != 0.0 && IsMatrix(ue, NNE, NDIM)
    requires forall m :: 0 <= m < NNE ==> b[m][t] == Hoop(rq, n[m])
    ensures BSum(b, t, ue, 1) == Radius(n, ue) / rq
  {
    BSumExpanded(b, t, ue, 1);
    assert b[0][t] == 1.0 / rq * n[0] && b[1][t] == 1.0 / rq * n[1];
    assert b[2][t] == 1.0 / rq * n[2] && b[3][t] == 1.0 / rq * n[3];
    ScaledSum(1.0 / rq, rq, n[0], n[1], n[2], n[3], ue[0][1], ue[1][1], ue[2][1], ue[3][1]);
  }

  /** sum_m (s * n(m)) * u(m) = (sum_m n(m) * u(m)) / rq when s = 1/rq. */
  lemma ScaledSum(s: real, rq: real, n0: real, n1: real, n2: real, n3: real,
                  u0: real, u1: real, u2: real, u3: real)
    requires rq != 0.0 && s == 1.0 / rq
    ensures (s * n0) * u0 + (s * n1) * u1 + (s * n2) * u2 + (s * n3) * u3
         == (n0 * u0 + n1 * u1 + n2 * u2 + n3 * u3) / rq
  {
    assert (s * n0) * u0 + (s * n1) * u1 + (s * n2) * u2 + (s * n3) * u3
        == s * (n0 * u0 + n1 * u1 + n2 * u2 + n3 * u3);
  }

  /** With PointB, gradN_vector is the cylindrical displacement gradient:
      gradu(r,r) = du_r/dr, gradu(r,z) = du_z/dr, gradu(z,r) = du_r/dz,
      gradu(z,z) = du_z/dz and gradu(theta,theta) = u_r/r. */
  lemma PointGradientEntries(d: seq<seq<real>>, n: seq<real>, rq: real, ue: seq<seq<real>>)
    requires IsMatrix(d, NNE, NDIM) && |n| == NNE && rq != 0.0 && IsMatrix(ue, NNE, NDIM)
    ensures var g := AxiGradient(PointB(d, n, rq), ue);
      g.rr == Dot(d, 1, ue, 1) && g.rz == Dot(d, 1, ue, 0) && g.zr == Dot(d, 0, ue, 1)
      && g.zz == Dot(d, 0, ue, 0) && g.tt == Radius(n, ue) / rq
  {
    var b := PointB(d, n, rq);
    BSumOfColumn(b, RRR, d, 1, ue, 1, NNE);
    BSumOfColumn(b, RZZ, d, 1, ue, 0, NNE);
    BSumOfColumn(b, ZRR, d, 0, ue, 1, NNE);
    BSumOfColumn(b, ZZZ, d, 0, ue, 0, NNE);
    HoopSum(b, TTR, n, rq, ue);
  }

  /** The same entries for the B the code writes: (r,r) and (z,z) contract
      dN/dz and dN/dr the wrong way round. */
  lemma PointGradientEntriesAsWritten(d: seq<seq<real>>, n: seq<real>, rq: real, ue: seq<seq<real>>)
    requires IsMatrix(d, NNE, NDIM) && |n| == NNE && rq != 0.0 && IsMatrix(ue, NNE, NDIM)
    ensures var g := AxiGradient(PointBAsWritten(d, n, rq), ue);
      g.rr == Dot(d, 0, ue, 1) && g.rz == Dot(d, 1, ue, 0) && g.zr == Dot(d, 0, ue, 1)
      && g.zz == Dot(d, 1, ue, 0) && g.tt == Radius(n, ue) / rq
  {
    var b := PointBAsWritten(d, n, rq);
    BSumOfColumn(b, RRR, d, 0, ue, 1, NNE);
    BSumOfColumn(b, RZZ, d, 1, ue, 0, NNE);
    BSumOfColumn(b, ZRR, d, 0, ue, 1, NNE);
    BSumOfColumn(b, ZZZ, d, 1, ue, 0, NNE);
    HoopSum(b, TTR, n, rq, ue);
  }

  /** The uniform radial expansion u_z = 0, u_r = r of the element's nodes. */
  function RadialExpansion(xe: seq<seq<real>>): (u: seq<seq<real>>)
    requires IsMatrix(xe, NNE, NDIM)
    ensures IsMatrix(u, NNE, NDIM)
  {
    AffineField(xe, Tensor2(0.0, 0.0, 0.0, 1.0), 0.0, 0.0)
  }

  /** For consistent gradients (they reproduce the nodal coordinates) and
      shape functions that interpolate the radius, PointB is exact for the
      uniform radial expansion: its strain is eps_rr = eps_tt = 1, all other
      components 0. */
  lemma RadialExpansionIsExact(d: seq<seq<real>>, xe: seq<seq<real>>, n: seq<real>)
    requires IsMatrix(d, NNE, NDIM) && IsMatrix(xe, NNE, NDIM) && |n| == NNE
    requires Consistent(d, xe) && Radius(n, xe) != 0.0
    ensures AxiGradient(PointB(d, n, Radius(n, xe)), RadialExpansion(xe))
         == Tensor3(1.0, 0.0, 0.0, 0.0, 1.0, 0.0, 0.0, 0.0, 0.0)
  {
    var u := RadialExpansion(xe);
    var a := Tensor2(0.0, 0.0, 0.0, 1.0);
    PointGradientEntries(d, n, Radius(n, xe), u);
    AffineExactness(d, xe, a, 0.0, 0.0, 1, 1);
    AffineExactness(d, xe, a, 0.0, 0.0, 1, 0);
    AffineExactness(d, xe, a, 0.0, 0.0, 0, 1);
    AffineExactness(d, xe, a, 0.0, 0.0, 0, 0);
    AffineFieldEntries(xe, a, 0.0, 0.0);
    assert Radius(n, u) == Radius(n, xe);
  }

  /** The B the code writes gives eps_rr = 0 for the same expansion. */
  lemma RadialExpansionAsWritten(d: seq<seq<real>>, xe: seq<seq<real>>, n: seq<real>)
    requires IsMatrix(d, NNE, NDIM) && IsMatrix(xe, NNE, NDIM) && |n| == NNE
    requires Consistent(d, xe) && Radius(n, xe) != 0.0
    ensures AxiGradient(PointBAsWritten(d, n, Radius(n, xe)), RadialExpansion(xe)).rr == 0.0
  {
    PointGradientEntriesAsWritten(d, n, Radius(n, xe), RadialExpansion(xe));
    AffineExactness(d, xe, Tensor2(0.0, 0.0, 0.0, 1.0), 0.0, 0.0, 0, 1);
  }

  /** For consistent gradients PointB reproduces every affine displacement
      u_z = a.xx z + a.xy r + c0, u_r = a.yx z + a.yy r + c1 exactly:
      du_r/dr = a.yy, du_z/dr = a.xy, du_r/dz = a.yx, du_z/dz = a.xx. */
  lemma AffineGradientIsExact(d: seq<seq<real>>, xe: seq<seq<real>>, n: seq<real>, rq: real,
                              a: Tensor2, c0: real, c1: real)
    requires IsMatrix(d, NNE, NDIM) && IsMatrix(xe, NNE, NDIM) && |n| == NNE && rq != 0.0
    requires Consistent(d, xe)
    ensures var g := AxiGradient(PointB(d, n, rq), AffineField(xe, a, c0, c1));
      g.rr == a.yy && g.rz == a.xy && g.zr == a.yx && g.zz == a.xx
      && g.tt == Radius(n, AffineField(xe, a, c0, c1)) / rq
  {
    PointGradientEntries(d, n, rq, AffineField(xe, a, c0, c1));
    AffineExactness(d, xe, a, c0, c1, 1, 1);
    AffineExactness(d, xe, a, c0, c1, 1, 0);
    AffineExactness(d, xe, a, c0, c1, 0, 1);
    AffineExactness(d, xe, a, c0, c1, 0, 0);
  }

  /** An axial translation u = (c, 0) is strain free. */
  lemma AxialTranslationIsStrainFree(d: seq<seq<real>>, xe: seq<seq<real>>, n: seq<real>, rq: real, c: real)
    requires IsMatrix(d, NNE, NDIM) && IsMatrix(xe, NNE, NDIM) && |n| == NNE && rq != 0.0
    requires Consistent(d, xe)
    ensures AxiGradient(PointB(d, n, rq), AffineField(xe, Tensor2(0.0, 0.0, 0.0, 0.0), c, 0.0)) == ZeroTensor3()
  {
    var u := AffineField(xe, Tensor2(0.0, 0.0, 0.0, 0.0), c, 0.0);
    AffineGradientIsExact(d, xe, n, rq, Tensor2(0.0, 0.0, 0.0, 0.0), c, 0.0);
    AffineFieldEntries(xe, Tensor2(0.0, 0.0, 0.0, 0.0), c, 0.0);
    assert u[0][1] == 0.0 && u[1][1] == 0.0 && u[2][1] == 0.0 && u[3][1] == 0.0;
    assert Radius(n, u) == 0.0;
  }

  /** A radial translation u = (0, c) is not strain free: it stretches every
      ring, eps_tt = c / r, and leaves all other components 0. */
  lemma RadialTranslationStretchesRings(d: seq<seq<real>>, xe: seq<seq<real>>, n: seq<real>, rq: real, c: real)
    requires IsMatrix(d, NNE, NDIM) && IsMatrix(xe, NNE, NDIM) && |n| == NNE && rq != 0.0
    requires Consistent(d, xe) && Total(n) == 1.0
    ensures AxiGradient(PointB(d, n, rq), AffineField(xe, Tensor2(0.0, 0.0, 0.0, 0.0), 0.0, c))
         == Tensor3(0.0, 0.0, 0.0, 0.0, c / rq, 0.0, 0.0, 0.0, 0.0)
  {
    var u := AffineField(xe, Tensor2(0.0, 0.0, 0.0, 0.0), 0.0, c);
    AffineGradientIsExact(d, xe, n, rq, Tensor2(0.0, 0.0, 0.0, 0.0), 0.0, c);
    AffineFieldEntries(xe, Tensor2(0.0, 0.0, 0.0, 0.0), 0.0, c);
    assert u[0][1] == c && u[1][1] == c && u[2][1] == c && u[3][1] == c;
    assert Radius(n, u) == c * Total(n);
  }

  // ---------------------------------------------------------- force vector

  /** One point's contribution to f(m,c) (c = 0 axial, 1 radial):
      f(m,0) += (B(m,2,2,2) sig(2,2) + B(m,0,2,2) sig(0,2)) vol,
      f(m,1) += (B(m,0,0,0) sig(0,0) + B(m,1,1,0) sig(1,1) + B(m,2,0,0) sig(2,0)) vol. */
  function AxiForceTerm(b: seq<seq<real>>, sig: Tensor3, v: real, m: nat, c: nat): real
    requires IsMatrix(b, NNE, NB) && m < NNE && c < NDIM
  {
    if c == 0 then (b[m][ZZZ] * sig.zz + b[m][RZZ] * sig.rz) * v
    else (b[m][RRR] * sig.rr + b[m][TTR] * sig.tt + b[m][ZRR] * sig.zr) * v
  }

  predicate IsBField(bs: seq<seq<seq<real>>>)
  {
    forall q :: 0 <= q < |bs| ==> IsMatrix(bs[q], NNE, NB)
  }

  /** f(m,c) of one element after its first k points. */
  function AxiForceSum(bs: seq<seq<seq<real>>>, sigs: seq<Tensor3>, vols: seq<real>, m: nat, c: nat, k: nat): real
    requires IsBField(bs) && k <= |bs| && k <= |sigs| && k <= |vols| && m < NNE && c < NDIM
  {
    if k == 0 then 0.0
    else AxiForceSum(bs, sigs, vols, m, c, k - 1) + AxiForceTerm(bs[k - 1], sigs[k - 1], vols[k - 1], m, c)
  }

  /** The axial force reads only sig(2,2) and sig(0,2); the radial force only
      sig(0,0), sig(1,1) and sig(2,0). */
  lemma {:induction false} AxiForceComponents(bs: seq<seq<seq<real>>>, sa: seq<Tensor3>, sb: seq<Tensor3>,
                                             vols: seq<real>, m: nat, k: nat)
    requires IsBField(bs) && k <= |bs| && k <= |sa| && k <= |sb| && k <= |vols| && m < NNE
    ensures (forall q :: 0 <= q < k ==> sa[q].zz == sb[q].zz && sa[q].rz == sb[q].rz) ==>
      AxiForceSum(bs, sa, vols, m, 0, k) == AxiForceSum(bs, sb, vols, m, 0, k)
    ensures (forall q :: 0 <= q < k ==> sa[q].rr == sb[q].rr && sa[q].tt == sb[q].tt && sa[q].zr == sb[q].zr) ==>
      AxiForceSum(bs, sa, vols, m, 1, k) == AxiForceSum(bs, sb, vols, m, 1, k)
  {
    if k > 0 {
      AxiForceComponents(bs, sa, sb, vols, m, k - 1);
    }
  }

  function AddTensor3(s: Tensor3, t: Tensor3): Tensor3
  {
    Tensor3(s.rr + t.rr, s.rt + t.rt, s.rz + t.rz, s.tr + t.tr, s.tt + t.tt, s.tz + t.tz,
            s.zr + t.zr, s.zt + t.zt, s.zz + t.zz)
  }

  /** The force is additive in the stress. */
  lemma {:induction false} AxiForceAdditive(bs: seq<seq<seq<real>>>, sa: seq<Tensor3>, sb: seq<Tensor3>,
                                           sc: seq<Tensor3>, vols: seq<real>, m: nat, c: nat, k: nat)
    requires IsBField(bs) && k <= |bs| && k <= |sa| && k <= |sb| && k <= |sc| && k <= |vols|
    requires m < NNE && c < NDIM
    requires forall q :: 0 <= q < k ==> sc[q] == AddTensor3(sa[q], sb[q])
    ensures AxiForceSum(bs, sc, vols, m, c, k) == AxiForceSum(bs, sa, vols, m, c, k) + AxiForceSum(bs, sb, vols, m, c, k)
  {
    if k > 0 {
      var q := k - 1;
      AxiForceAdditive(bs, sa, sb, sc, vols, m, c, q);
      assert sc[q] == AddTensor3(sa[q], sb[q]);
      var b := bs[q];
      ForceTermAdditive(b[m][ZZZ], b[m][RZZ], b[m][RRR],
                        b[m][TTR], b[m][ZRR], vols[q], sa[q], sb[q]);
    }
  }

  /** One point of AxiForceAdditive over plain reals. */
  lemma ForceTermAdditive(b222: real, b022: real, b000: real, b110: real, b200: real, v: real, s: Tensor3, t: Tensor3)
    ensures (b222 * (s.zz + t.zz) + b022 * (s.rz + t.rz)) * v
         == (b222 * s.zz + b022 * s.rz) * v + (b222 * t.zz + b022 * t.rz) * v
    ensures (b000 * (s.rr + t.rr) + b110 * (s.tt + t.tt) + b200 * (s.zr + t.zr)) * v
         == (b000 * s.rr + b110 * s.tt + b200 * s.zr) * v + (b000 * t.rr + b110 * t.tt + b200 * t.zr) * v
  {
  }

  /** A zero stress gives a zero force. */
  lemma {:induction false} AxiForceOfZeroStress(bs: seq<seq<seq<real>>>, sigs: seq<Tensor3>, vols: seq<real>,
                                               m: nat, c: nat, k: nat)
    requires IsBField(bs) && k <= |bs| && k <= |sigs| && k <= |vols| && m < NNE && c < NDIM
    requires forall q :: 0 <= q < k ==> sigs[q] == ZeroTensor3()
    ensures AxiForceSum(bs, sigs, vols, m, c, k) == 0.0
  {
    if k > 0 {
      AxiForceOfZeroStress(bs, sigs, vols, m, c, k - 1);
      assert sigs[k - 1] == ZeroTensor3();
    }
  }

  /** The pattern part of the double contraction sig : gradu. */
  function Contract(sig: Tensor3, g: Tensor3): real
  {
    sig.rr * g.rr + sig.tt * g.tt + sig.zz * g.zz + sig.rz * g.rz + sig.zr * g.zr
  }

  /** Work of one point's force terms against a nodal vector. */
  function PointWork(b: seq<seq<real>>, sig: Tensor3, v: real, ue: seq<seq<real>>): real
    requires IsMatrix(b, NNE, NB) && IsMatrix(ue, NNE, NDIM)
  {
    AxiForceTerm(b, sig, v, 0, 0) * ue[0][0] + AxiForceTerm(b, sig, v, 0, 1) * ue[0][1]
    + AxiForceTerm(b, sig, v, 1, 0) * ue[1][0] + AxiForceTerm(b, sig, v, 1, 1) * ue[1][1]
    + AxiForceTerm(b, sig, v, 2, 0) * ue[2][0] + AxiForceTerm(b, sig, v, 2, 1) * ue[2][1]
    + AxiForceTerm(b, sig, v, 3, 0) * ue[3][0] + AxiForceTerm(b, sig, v, 3, 1) * ue[3][1]
  }

  /** Virtual work: the force operator is the adjoint of the gradient
      operator at every point, sum_{m,c} f(m,c) u(m,c) = (sig : gradu) vol. */
  lemma VirtualWork(b: seq<seq<real>>, sig: Tensor3, v: real, ue: seq<seq<real>>)
    requires IsMatrix(b, NNE, NB) && IsMatrix(ue, NNE, NDIM)
    ensures PointWork(b, sig, v, ue) == Contract(sig, AxiGradient(b, ue)) * v
  {
    NodeWork(b, sig, v, ue, 0);
    NodeWork(b, sig, v, ue, 1);
    NodeWork(b, sig, v, ue, 2);
    NodeWork(b, sig, v, ue, 3);
    BSumExpanded(b, RRR, ue, 1);
    BSumExpanded(b, TTR, ue, 1);
    BSumExpanded(b, ZRR, ue, 1);
    BSumExpanded(b, ZZZ, ue, 0);
    BSumExpanded(b, RZZ, ue, 0);
    WorkSum(sig, v, b, ue);
  }

  /** One node's part of the virtual work. */
  lemma NodeWork(b: seq<seq<real>>, sig: Tensor3, v: real, ue: seq<seq<real>>, m: nat)
    requires IsMatrix(b, NNE, NB) && IsMatrix(ue, NNE, NDIM) && m < NNE
    ensures AxiForceTerm(b, sig, v, m, 0) * ue[m][0] + AxiForceTerm(b, sig, v, m, 1) * ue[m][1]
         == NodeTotal(b[m], sig, v, ue[m])
  {
  }

  /** Summing the nodes' parts of the virtual work. */
  lemma WorkSum(sig: Tensor3, v: real, b: seq<seq<real>>, ue: seq<seq<real>>)
    requires IsMatrix(b, NNE, NB) && IsMatrix(ue, NNE, NDIM)
    ensures
      var rr := b[0][RRR] * ue[0][1] + b[1][RRR] * ue[1][1]
              + b[2][RRR] * ue[2][1] + b[3][RRR] * ue[3][1];
      var tt := b[0][TTR] * ue[0][1] + b[1][TTR] * ue[1][1]
              + b[2][TTR] * ue[2][1] + b[3][TTR] * ue[3][1];
      var zz := b[0][ZZZ] * ue[0][0] + b[1][ZZZ] * ue[1][0]
              + b[2][ZZZ] * ue[2][0] + b[3][ZZZ] * ue[3][0];
      var rz := b[0][RZZ] * ue[0][0] + b[1][RZZ] * ue[1][0]
              + b[2][RZZ] * ue[2][0] + b[3][RZZ] * ue[3][0];
      var zr := b[0][ZRR] * ue[0][1] + b[1][ZRR] * ue[1][1]
              + b[2][ZRR] * ue[2][1] + b[3][ZRR] * ue[3][1];
      (sig.rr * rr + sig.tt * tt + sig.zz * zz + sig.rz * rz + sig.zr * zr) * v
      == NodeTotal(b[0], sig, v, ue[0]) + NodeTotal(b[1], sig, v, ue[1])
       + NodeTotal(b[2], sig, v, ue[2]) + NodeTotal(b[3], sig, v, ue[3])
  {
  }

  function NodeTotal(bm: seq<real>, sig: Tensor3, v: real, um: seq<real>): real
    requires |bm| == NB && |um| == NDIM
  {
    (sig.rr * (bm[RRR] * um[1]) + sig.tt * (bm[TTR] * um[1])
     + sig.zz * (bm[ZZZ] * um[0]) + sig.rz * (bm[RZZ] * um[0])
     + sig.zr * (bm[ZRR] * um[1])) * v
  }

  // ------------------------------------------------------- stiffness matrix

  /** A fourth-order cylindrical tensor C(a, b, d, e), as nested sequences. */
  predicate IsTensor4(c: seq<seq<seq<seq<real>>>>)
  {
    |c| == TDIM && forall a :: 0 <= a < TDIM ==>
      |c[a]| == TDIM && forall b :: 0 <= b < TDIM ==>
        |c[a][b]| == TDIM && forall d :: 0 <= d < TDIM ==> |c[a][b][d]| == TDIM
  }

  /** The stress sig(a,b) = sum_{d,e} C(a,b,d,e) * gradu(e,d). */
  function StressAt(c: seq<seq<seq<seq<real>>>>, g: Tensor3, a: nat, b: nat): real
    requires IsTensor4(c) && a < TDIM && b < TDIM
  {
    var cab := c[a][b];
    cab[0][0] * g.rr + cab[0][1] * g.tr + cab[0][2] * g.zr
    + cab[1][0] * g.rt + cab[1][1] * g.tt + cab[1][2] * g.zt
    + cab[2][0] * g.rz + cab[2][1] * g.tz + cab[2][2] * g.zz
  }

  function Stress(c: seq<seq<seq<seq<real>>>>, g: Tensor3): Tensor3
    requires IsTensor4(c)
  {
    Tensor3(StressAt(c, g, 0, 0), StressAt(c, g, 0, 1), StressAt(c, g, 0, 2),
            StressAt(c, g, 1, 0), StressAt(c, g, 1, 1), StressAt(c, g, 1, 2),
            StressAt(c, g, 2, 0), StressAt(c, g, 2, 1), StressAt(c, g, 2, 2))
  }


  /** Row entry B(m, a, b, k) (flat position p) times C(a,b,d,e) times the
      radial column entries B(n,0,0,0), B(n,1,1,0), B(n,2,0,0), times vol. */
  function RowR(bq: seq<seq<real>>, c: seq<seq<seq<seq<real>>>>, v: real,
                m: nat, p: nat, a: nat, b: nat, n: nat): real
    requires IsMatrix(bq, NNE, NB) && IsTensor4(c) && m < NNE && p < NB && a < TDIM && b < TDIM && n < NNE
  {
    var cab := c[a][b];
    bq[m][p] * cab[0][0] * bq[n][RRR] * v + bq[m][p] * cab[1][1] * bq[n][TTR] * v
    + bq[m][p] * cab[0][2] * bq[n][ZRR] * v
  }

  /** The same with the axial column entries B(n,2,2,2), B(n,0,2,2). */
  function RowZ(bq: seq<seq<real>>, c: seq<seq<seq<seq<real>>>>, v: real,
                m: nat, p: nat, a: nat, b: nat, n: nat): real
    requires IsMatrix(bq, NNE, NB) && IsTensor4(c) && m < NNE && p < NB && a < TDIM && b < TDIM && n < NNE
  {
    var cab := c[a][b];
    bq[m][p] * cab[2][2] * bq[n][ZZZ] * v + bq[m][p] * cab[2][0] * bq[n][RZZ] * v
  }

  /** The four blocks of one point's K for nodes m, n: radial rows come from
      B(m,0,0,0), B(m,1,1,0), B(m,2,0,0), axial rows from B(m,2,2,2),
      B(m,0,2,2); radial and axial columns likewise. */
  function KRR(bq: seq<seq<real>>, c: seq<seq<seq<seq<real>>>>, v: real, m: nat, n: nat): real
    requires IsMatrix(bq, NNE, NB) && IsTensor4(c) && m < NNE && n < NNE
  {
    RowR(bq, c, v, m, RRR, 0, 0, n) + RowR(bq, c, v, m, TTR, 1, 1, n) + RowR(bq, c, v, m, ZRR, 2, 0, n)
  }

  function KRZ(bq: seq<seq<real>>, c: seq<seq<seq<seq<real>>>>, v: real, m: nat, n: nat): real
    requires IsMatrix(bq, NNE, NB) && IsTensor4(c) && m < NNE && n < NNE
  {
    RowZ(bq, c, v, m, RRR, 0, 0, n) + RowZ(bq, c, v, m, TTR, 1, 1, n) + RowZ(bq, c, v, m, ZRR, 2, 0, n)
  }

  function KZR(bq: seq<seq<real>>, c: seq<seq<seq<seq<real>>>>, v: real, m: nat, n: nat): real
    requires IsMatrix(bq, NNE, NB) && IsTensor4(c) && m < NNE && n < NNE
  {
    RowR(bq, c, v, m, ZZZ, 2, 2, n) + RowR(bq, c, v, m, RZZ, 0, 2, n)
  }

  function KZZ(bq: seq<seq<real>>, c: seq<seq<seq<seq<real>>>>, v: real, m: nat, n: nat): real
    requires IsMatrix(bq, NNE, NB) && IsTensor4(c) && m < NNE && n < NNE
  {
    RowZ(bq, c, v, m, ZZZ, 2, 2, n) + RowZ(bq, c, v, m, RZZ, 0, 2, n)
  }

  /** One point's contribution to K(m*2+i, n*2+j) (component 0 axial, 1 radial). */
  function PointStiffness(bq: seq<seq<real>>, c: seq<seq<seq<seq<real>>>>, v: real,
                          m: nat, i: nat, n: nat, j: nat): real
    requires IsMatrix(bq, NNE, NB) && IsTensor4(c) && m < NNE && i < NDIM && n < NNE && j < NDIM
  {
    if i == 1 then (if j == 1 then KRR(bq, c, v, m, n) else KRZ(bq, c, v, m, n))
    else (if j == 1 then KZR(bq, c, v, m, n) else KZZ(bq, c, v, m, n))
  }

  /** Node n's part of sig(a,b) for sig = C : gradu. */
  function NodeStress(bq: seq<seq<real>>, c: seq<seq<seq<seq<real>>>>, a: nat, b: nat,
                      ue: seq<seq<real>>, n: nat): real
    requires IsMatrix(bq, NNE, NB) && IsTensor4(c) && a < TDIM && b < TDIM
    requires IsMatrix(ue, NNE, NDIM) && n < NNE
  {
    var cab := c[a][b];
    cab[0][0] * (bq[n][RRR] * ue[n][1]) + cab[1][1] * (bq[n][TTR] * ue[n][1])
    + cab[0][2] * (bq[n][ZRR] * ue[n][1]) + cab[2][2] * (bq[n][ZZZ] * ue[n][0])
    + cab[2][0] * (bq[n][RZZ] * ue[n][0])
  }

  /** Applying one row's columns of node n to that node's displacement. */
  lemma NodeRow(bq: seq<seq<real>>, c: seq<seq<seq<seq<real>>>>, v: real,
                m: nat, p: nat, a: nat, b: nat, ue: seq<seq<real>>, n: nat)
    requires IsMatrix(bq, NNE, NB) && IsTensor4(c) && m < NNE && p < NB && a < TDIM && b < TDIM
    requires IsMatrix(ue, NNE, NDIM) && n < NNE
    ensures RowZ(bq, c, v, m, p, a, b, n) * ue[n][0] + RowR(bq, c, v, m, p, a, b, n) * ue[n][1]
         == bq[m][p] * NodeStress(bq, c, a, b, ue, n) * v
  {
  }

  /** The nodes' parts add up to the stress of the point's gradient. */
  lemma StressSum(bq: seq<seq<real>>, c: seq<seq<seq<seq<real>>>>, a: nat, b: nat, ue: seq<seq<real>>)
    requires IsMatrix(bq, NNE, NB) && IsTensor4(c) && a < TDIM && b < TDIM && IsMatrix(ue, NNE, NDIM)
    ensures NodeStress(bq, c, a, b, ue, 0) + NodeStress(bq, c, a, b, ue, 1)
          + NodeStress(bq, c, a, b, ue, 2) + NodeStress(bq, c, a, b, ue, 3)
         == StressAt(c, AxiGradient(bq, ue), a, b)
  {
    BSumExpanded(bq, RRR, ue, 1);
    BSumExpanded(bq, TTR, ue, 1);
    BSumExpanded(bq, ZRR, ue, 1);
    BSumExpanded(bq, ZZZ, ue, 0);
    BSumExpanded(bq, RZZ, ue, 0);
  }

  /** p q0 v + p q1 v + p q2 v + p q3 v = p (q0 + q1 + q2 + q3) v. */
  lemma FactorSum(p: real, v: real, q0: real, q1: real, q2: real, q3: real)
    ensures p * q0 * v + p * q1 * v + p * q2 * v + p * q3 * v == p * (q0 + q1 + q2 + q3) * v
  {
  }

  /** One row applied to a nodal vector. */
  function RowApplied(bq: seq<seq<real>>, c: seq<seq<seq<seq<real>>>>, v: real, ue: seq<seq<real>>,
                      m: nat, p: nat, a: nat, b: nat): real
    requires IsMatrix(bq, NNE, NB) && IsTensor4(c) && IsMatrix(ue, NNE, NDIM) && m < NNE && p < NB
    requires a < TDIM && b < TDIM
  {
    RowZ(bq, c, v, m, p, a, b, 0) * ue[0][0] + RowR(bq, c, v, m, p, a, b, 0) * ue[0][1]
    + RowZ(bq, c, v, m, p, a, b, 1) * ue[1][0] + RowR(bq, c, v, m, p, a, b, 1) * ue[1][1]
    + RowZ(bq, c, v, m, p, a, b, 2) * ue[2][0] + RowR(bq, c, v, m, p, a, b, 2) * ue[2][1]
    + RowZ(bq, c, v, m, p, a, b, 3) * ue[3][0] + RowR(bq, c, v, m, p, a, b, 3) * ue[3][1]
  }

  /** A row applied to a nodal vector is B(m,a,b,k) sig(a,b) vol for the
      stress sig = C : gradu of that vector. */
  lemma RowAppliedIsStress(bq: seq<seq<real>>, c: seq<seq<seq<seq<real>>>>, v: real,
                           m: nat, p: nat, a: nat, b: nat, ue: seq<seq<real>>)
    requires IsMatrix(bq, NNE, NB) && IsTensor4(c) && m < NNE && p < NB && a < TDIM && b < TDIM
    requires IsMatrix(ue, NNE, NDIM)
    ensures RowApplied(bq, c, v, ue, m, p, a, b) == bq[m][p] * StressAt(c, AxiGradient(bq, ue), a, b) * v
  {
    NodeRow(bq, c, v, m, p, a, b, ue, 0);
    NodeRow(bq, c, v, m, p, a, b, ue, 1);
    NodeRow(bq, c, v, m, p, a, b, ue, 2);
    NodeRow(bq, c, v, m, p, a, b, ue, 3);
    FactorSum(bq[m][p], v, NodeStress(bq, c, a, b, ue, 0), NodeStress(bq, c, a, b, ue, 1),
              NodeStress(bq, c, a, b, ue, 2), NodeStress(bq, c, a, b, ue, 3));
    StressSum(bq, c, a, b, ue);
  }

  /** sum_{n,j} K_q(m*2+i, n*2+j) * u(n,j) for one point. */
  function PointStiffnessApplied(bq: seq<seq<real>>, c: seq<seq<seq<seq<real>>>>, v: real,
                                 ue: seq<seq<real>>, m: nat, i: nat): real
    requires IsMatrix(bq, NNE, NB) && IsTensor4(c) && IsMatrix(ue, NNE, NDIM) && m < NNE && i < NDIM
  {
    PointStiffness(bq, c, v, m, i, 0, 0) * ue[0][0] + PointStiffness(bq, c, v, m, i, 0, 1) * ue[0][1]
    + PointStiffness(bq, c, v, m, i, 1, 0) * ue[1][0] + PointStiffness(bq, c, v, m, i, 1, 1) * ue[1][1]
    + PointStiffness(bq, c, v, m, i, 2, 0) * ue[2][0] + PointStiffness(bq, c, v, m, i, 2, 1) * ue[2][1]
    + PointStiffness(bq, c, v, m, i, 3, 0) * ue[3][0] + PointStiffness(bq, c, v, m, i, 3, 1) * ue[3][1]
  }

  /** The stiffness is the derivative of the internal force for the linear
      stress sig = C : gradu: at every point and for every nodal vector u,
      the radial rows of K_q u equal the radial force of that stress... */
  lemma RadialStiffnessIsForceOfLinearStress(bq: seq<seq<real>>, c: seq<seq<seq<seq<real>>>>, v: real,
                                             ue: seq<seq<real>>, m: nat)
    requires IsMatrix(bq, NNE, NB) && IsTensor4(c) && IsMatrix(ue, NNE, NDIM) && m < NNE
    ensures PointStiffnessApplied(bq, c, v, ue, m, 1) == AxiForceTerm(bq, Stress(c, AxiGradient(bq, ue)), v, m, 1)
  {
    RadialRowsApplied(bq, c, v, ue, m);
    RowAppliedIsStress(bq, c, v, m, RRR, 0, 0, ue);
    RowAppliedIsStress(bq, c, v, m, TTR, 1, 1, ue);
    RowAppliedIsStress(bq, c, v, m, ZRR, 2, 0, ue);
  }

  /** ...and its axial rows the axial force. */
  lemma AxialStiffnessIsForceOfLinearStress(bq: seq<seq<real>>, c: seq<seq<seq<seq<real>>>>, v: real,
                                            ue: seq<seq<real>>, m: nat)
    requires IsMatrix(bq, NNE, NB) && IsTensor4(c) && IsMatrix(ue, NNE, NDIM) && m < NNE
    ensures PointStiffnessApplied(bq, c, v, ue, m, 0) == AxiForceTerm(bq, Stress(c, AxiGradient(bq, ue)), v, m, 0)
  {
    AxialRowsApplied(bq, c, v, ue, m);
    RowAppliedIsStress(bq, c, v, m, ZZZ, 2, 2, ue);
    RowAppliedIsStress(bq, c, v, m, RZZ, 0, 2, ue);
  }

  /** Radial rows: the applied sum of the three row blocks. */
  lemma RadialRowsApplied(bq: seq<seq<real>>, c: seq<seq<seq<seq<real>>>>, v: real, ue: seq<seq<real>>, m: nat)
    requires IsMatrix(bq, NNE, NB) && IsTensor4(c) && IsMatrix(ue, NNE, NDIM) && m < NNE
    ensures PointStiffnessApplied(bq, c, v, ue, m, 1)
         == RowApplied(bq, c, v, ue, m, RRR, 0, 0) + RowApplied(bq, c, v, ue, m, TTR, 1, 1)
          + RowApplied(bq, c, v, ue, m, ZRR, 2, 0)
  {
  }

  /** Axial rows: the same with two row blocks. */
  lemma AxialRowsApplied(bq: seq<seq<real>>, c: seq<seq<seq<seq<real>>>>, v: real, ue: seq<seq<real>>, m: nat)
    requires IsMatrix(bq, NNE, NB) && IsTensor4(c) && IsMatrix(ue, NNE, NDIM) && m < NNE
    ensures PointStiffnessApplied(bq, c, v, ue, m, 0)
         == RowApplied(bq, c, v, ue, m, ZZZ, 2, 2) + RowApplied(bq, c, v, ue, m, RZZ, 0, 2)
  {
  }

  /** The symmetry of C under (a,b,d,e) -> (e,d,b,a) that makes K symmetric
      (implied by the major and minor symmetries of an elasticity tensor). */
  predicate MajorSymmetric(c: seq<seq<seq<seq<real>>>>)
    requires IsTensor4(c)
  {
    forall a, b, d, e :: 0 <= a < TDIM && 0 <= b < TDIM && 0 <= d < TDIM && 0 <= e < TDIM ==>
      c[a][b][d][e] == c[e][d][b][a]
  }

  /** For such a C, one point's K is symmetric: K(m*2+i, n*2+j) = K(n*2+j, m*2+i). */
  lemma PointStiffnessSymmetric(bq: seq<seq<real>>, c: seq<seq<seq<seq<real>>>>, v: real,
                                m: nat, i: nat, n: nat, j: nat)
    requires IsMatrix(bq, NNE, NB) && IsTensor4(c) && MajorSymmetric(c)
    requires m < NNE && i < NDIM && n < NNE && j < NDIM
    ensures PointStiffness(bq, c, v, m, i, n, j) == PointStiffness(bq, c, v, n, j, m, i)
  {
    if i == 1 && j == 1 {
      RadialBlockSymmetric(bq, c, v, m, n);
    } else if i == 0 && j == 0 {
      AxialBlockSymmetric(bq, c, v, m, n);
    } else if i == 1 {
      MixedBlocksTransposed(bq, c, v, m, n);
    } else {
      MixedBlocksTransposed(bq, c, v, n, m);
    }
  }

  lemma RadialBlockSymmetric(bq: seq<seq<real>>, c: seq<seq<seq<seq<real>>>>, v: real, m: nat, n: nat)
    requires IsMatrix(bq, NNE, NB) && IsTensor4(c) && MajorSymmetric(c) && m < NNE && n < NNE
    ensures KRR(bq, c, v, m, n) == KRR(bq, c, v, n, m)
  {
    assert c[0][0][1][1] == c[1][1][0][0] && c[0][0][0][2] == c[2][0][0][0] && c[1][1][0][2] == c[2][0][1][1];
  }

  lemma AxialBlockSymmetric(bq: seq<seq<real>>, c: seq<seq<seq<seq<real>>>>, v: real, m: nat, n: nat)
    requires IsTensor4(c) && IsMatrix(bq, NNE, NB) && MajorSymmetric(c) && m < NNE && n < NNE
    ensures KZZ(bq, c, v, m, n) == KZZ(bq, c, v, n, m)
  {
    assert c[2][2][2][0] == c[0][2][2][2];
  }

  lemma MixedBlocksTransposed(bq: seq<seq<real>>, c: seq<seq<seq<seq<real>>>>, v: real, m: nat, n: nat)
    requires IsMatrix(bq, NNE, NB) && IsTensor4(c) && MajorSymmetric(c) && m < NNE && n < NNE
    ensures KRZ(bq, c, v, m, n) == KZR(bq, c, v, n, m)
  {
    assert c[0][0][2][2] == c[2][2][0][0] && c[0][0][2][0] == c[0][2][0][0];
    assert c[1][1][2][2] == c[2][2][1][1] && c[1][1][2][0] == c[0][2][1][1];
    assert c[2][0][2][2] == c[2][2][0][2] && c[2][0][2][0] == c[0][2][0][2];
  }

  // ---------------------------------------------- point and element matrices

  /** Rows and columns of an element matrix: NNE * NDIM degrees of freedom. */
  const NDOF: nat := 8

  predicate IsElemMat(k: seq<seq<real>>)
  {
    IsMatrix(k, NDOF, NDOF)
  }

  /** One point's K as an 8 x 8 matrix, row m*2+i, column n*2+j. */
  function PointStiffnessMatrix(bq: seq<seq<real>>, c: seq<seq<seq<seq<real>>>>, v: real): (k: seq<seq<real>>)
    requires IsMatrix(bq, NNE, NB) && IsTensor4(c)
    ensures IsElemMat(k)
  {
    seq(NDOF, r requires 0 <= r < NDOF =>
      seq(NDOF, s requires 0 <= s < NDOF => PointStiffness(bq, c, v, r / NDIM, r % NDIM, s / NDIM, s % NDIM)))
  }

  /** sum over the first s degrees of freedom t = n*2+j of row(t) * u(n,j). */
  function RowApply(row: seq<real>, ue: seq<seq<real>>, s: nat): real
    requires |row| == NDOF && IsMatrix(ue, NNE, NDIM) && s <= NDOF
  {
    if s == 0 then 0.0 else RowApply(row, ue, s - 1) + row[s - 1] * ue[(s - 1) / NDIM][(s - 1) % NDIM]
  }

  /** Row r of K applied to a nodal vector: sum_{n,j} K(r, n*2+j) * u(n,j). */
  function MatrixApplied(k: seq<seq<real>>, ue: seq<seq<real>>, r: nat): real
    requires IsElemMat(k) && IsMatrix(ue, NNE, NDIM) && r < NDOF
  {
    RowApply(k[r], ue, NDOF)
  }

  lemma RowApplyExpanded(row: seq<real>, ue: seq<seq<real>>)
    requires |row| == NDOF && IsMatrix(ue, NNE, NDIM)
    ensures RowApply(row, ue, NDOF)
         == row[0] * ue[0][0] + row[1] * ue[0][1] + row[2] * ue[1][0] + row[3] * ue[1][1]
          + row[4] * ue[2][0] + row[5] * ue[2][1] + row[6] * ue[3][0] + row[7] * ue[3][1]
  {
    assert RowApply(row, ue, 1) == row[0] * ue[0][0];
    assert RowApply(row, ue, 2) == RowApply(row, ue, 1) + row[1] * ue[0][1];
    assert RowApply(row, ue, 3) == RowApply(row, ue, 2) + row[2] * ue[1][0];
    assert RowApply(row, ue, 4) == RowApply(row, ue, 3) + row[3] * ue[1][1];
    assert RowApply(row, ue, 5) == RowApply(row, ue, 4) + row[4] * ue[2][0];
    assert RowApply(row, ue, 6) == RowApply(row, ue, 5) + row[5] * ue[2][1];
    assert RowApply(row, ue, 7) == RowApply(row, ue, 6) + row[6] * ue[3][0];
  }

  /** (a + b) . u = a . u + b . u. */
  lemma {:induction false} RowApplyAdditive(now: seq<real>, a: seq<real>, b: seq<real>, ue: seq<seq<real>>, s: nat)
    requires |now| == NDOF && |a| == NDOF && |b| == NDOF && IsMatrix(ue, NNE, NDIM) && s <= NDOF
    requires forall t :: 0 <= t < NDOF ==> now[t] == a[t] + b[t]
    ensures RowApply(now, ue, s) == RowApply(a, ue, s) + RowApply(b, ue, s)
  {
    if s > 0 {
      RowApplyAdditive(now, a, b, ue, s - 1);
      var t := s - 1;
      assert now[t] == a[t] + b[t];
      Distribute1(a[t], b[t], ue[t / NDIM][t % NDIM]);
    }
  }

  /** A zero row applied to anything is zero. */
  lemma {:induction false} RowApplyZero(row: seq<real>, ue: seq<seq<real>>, s: nat)
    requires |row| == NDOF && IsMatrix(ue, NNE, NDIM) && s <= NDOF
    requires forall t :: 0 <= t < NDOF ==> row[t] == 0.0
    ensures RowApply(row, ue, s) == 0.0
  {
    if s > 0 {
      RowApplyZero(row, ue, s - 1);
    }
  }

  lemma Distribute1(a: real, b: real, u: real)
    ensures (a + b) * u == a * u + b * u
  {
  }

  /** For a C with that symmetry, one point's matrix is symmetric. */
  lemma PointStiffnessMatrixSymmetric(bq: seq<seq<real>>, c: seq<seq<seq<seq<real>>>>, v: real, r: nat, s: nat)
    requires IsMatrix(bq, NNE, NB) && IsTensor4(c) && MajorSymmetric(c) && r < NDOF && s < NDOF
    ensures PointStiffnessMatrix(bq, c, v)[r][s] == PointStiffnessMatrix(bq, c, v)[s][r]
  {
    PointStiffnessSymmetric(bq, c, v, r / NDIM, r % NDIM, s / NDIM, s % NDIM);
  }

  /** One point's matrix applied to any nodal vector u is the force of the
      linear stress C : gradu at that point. */
  lemma PointMatrixIsForceOfLinearStress(bq: seq<seq<real>>, c: seq<seq<seq<seq<real>>>>, v: real,
                                          ue: seq<seq<real>>, m: nat, i: nat)
    requires IsMatrix(bq, NNE, NB) && IsTensor4(c) && IsMatrix(ue, NNE, NDIM) && m < NNE && i < NDIM
    ensures MatrixApplied(PointStiffnessMatrix(bq, c, v), ue, m * NDIM + i)
         == AxiForceTerm(bq, Stress(c, AxiGradient(bq, ue)), v, m, i)
  {
    var k := PointStiffnessMatrix(bq, c, v);
    var r := m * NDIM + i;
    assert r / NDIM == m && r % NDIM == i;
    RowApplyExpanded(k[r], ue);
    assert MatrixApplied(k, ue, r) == PointStiffnessApplied(bq, c, v, ue, m, i);
    if i == 1 {
      RadialStiffnessIsForceOfLinearStress(bq, c, v, ue, m);
    } else {
      AxialStiffnessIsForceOfLinearStress(bq, c, v, ue, m);
    }
  }

  predicate IsMatField(ks: seq<seq<seq<real>>>)
  {
    forall q :: 0 <= q < |ks| ==> IsElemMat(ks[q])
  }

  /** Entry (r, s) of the sum of the first k point matrices. */
  function MatSum(ks: seq<seq<seq<real>>>, r: nat, s: nat, k: nat): real
    requires IsMatField(ks) && k <= |ks| && r < NDOF && s < NDOF
  {
    if k == 0 then 0.0 else MatSum(ks, r, s, k - 1) + ks[k - 1][r][s]
  }

  /** The sum of the first k point matrices. */
  function ElementMatrix(ks: seq<seq<seq<real>>>, k: nat): (mat: seq<seq<real>>)
    requires IsMatField(ks) && k <= |ks|
    ensures IsElemMat(mat)
  {
    seq(NDOF, r requires 0 <= r < NDOF => seq(NDOF, s requires 0 <= s < NDOF => MatSum(ks, r, s, k)))
  }

  /** A sum of symmetric matrices is symmetric. */
  lemma {:induction false} MatSumSymmetric(ks: seq<seq<seq<real>>>, r: nat, s: nat, k: nat)
    requires IsMatField(ks) && k <= |ks| && r < NDOF && s < NDOF
    requires forall q, a, b :: 0 <= q < k && 0 <= a < NDOF && 0 <= b < NDOF ==> ks[q][a][b] == ks[q][b][a]
    ensures MatSum(ks, r, s, k) == MatSum(ks, s, r, k)
  {
    if k > 0 {
      MatSumSymmetric(ks, r, s, k - 1);
      assert ks[k - 1][r][s] == ks[k - 1][s][r];
    }
  }

  /** The point matrices of one element. */
  function PointMatrices(bs: seq<seq<seq<real>>>, cs: seq<seq<seq<seq<seq<real>>>>>, vols: seq<real>): (ks: seq<seq<seq<real>>>)
    requires IsBField(bs) && IsCField(cs) && |cs| == |bs| && |vols| == |bs|
    ensures |ks| == |bs| && IsMatField(ks)
  {
    seq(|bs|, q requires 0 <= q < |bs| => PointStiffnessMatrix(bs[q], cs[q], vols[q]))
  }

  predicate IsCField(cs: seq<seq<seq<seq<seq<real>>>>>)
  {
    forall q :: 0 <= q < |cs| ==> IsTensor4(cs[q])
  }

  /** The element's K is symmetric when C has the symmetry at every point. */
  lemma ElementStiffnessSymmetric(bs: seq<seq<seq<real>>>, cs: seq<seq<seq<seq<seq<real>>>>>, vols: seq<real>,
                                  r: nat, s: nat)
    requires IsBField(bs) && IsCField(cs) && |cs| == |bs| && |vols| == |bs| && r < NDOF && s < NDOF
    requires forall q :: 0 <= q < |cs| ==> MajorSymmetric(cs[q])
    ensures var k := ElementMatrix(PointMatrices(bs, cs, vols), |bs|); k[r][s] == k[s][r]
  {
    var ks := PointMatrices(bs, cs, vols);
    forall q, a, b | 0 <= q < |bs| && 0 <= a < NDOF && 0 <= b < NDOF
      ensures ks[q][a][b] == ks[q][b][a]
    {
      PointStiffnessMatrixSymmetric(bs[q], cs[q], vols[q], a, b);
    }
    MatSumSymmetric(ks, r, s, |bs|);
  }

  /** sum over the first k points of the point matrices applied to u. */
  function AppliedSum(ks: seq<seq<seq<real>>>, ue: seq<seq<real>>, r: nat, k: nat): real
    requires IsMatField(ks) && k <= |ks| && IsMatrix(ue, NNE, NDIM) && r < NDOF
  {
    if k == 0 then 0.0 else AppliedSum(ks, ue, r, k - 1) + MatrixApplied(ks[k - 1], ue, r)
  }

  /** Applying the summed matrix is summing the applied point matrices. */
  lemma {:induction false} ElementMatrixApplied(ks: seq<seq<seq<real>>>, ue: seq<seq<real>>, r: nat, k: nat)
    requires IsMatField(ks) && k <= |ks| && IsMatrix(ue, NNE, NDIM) && r < NDOF
    ensures MatrixApplied(ElementMatrix(ks, k), ue, r) == AppliedSum(ks, ue, r, k)
  {
    if k > 0 {
      ElementMatrixApplied(ks, ue, r, k - 1);
      var prev := ElementMatrix(ks, k - 1);
      var now := ElementMatrix(ks, k);
      var pt := ks[k - 1];
      assert forall s :: 0 <= s < NDOF ==> now[r][s] == prev[r][s] + pt[r][s];
      RowApplyAdditive(now[r], prev[r], pt[r], ue, NDOF);
      assert MatrixApplied(now, ue, r) == MatrixApplied(prev, ue, r) + MatrixApplied(pt, ue, r);
    } else {
      RowApplyZero(ElementMatrix(ks, 0)[r], ue, NDOF);
    }
  }

  /** The stresses sig_q = C_q : gradu_q of one element's points. */
  function LinearStresses(bs: seq<seq<seq<real>>>, cs: seq<seq<seq<seq<seq<real>>>>>, ue: seq<seq<real>>): (s: seq<Tensor3>)
    requires IsBField(bs) && IsCField(cs) && |cs| == |bs| && IsMatrix(ue, NNE, NDIM)
    ensures |s| == |bs|
  {
    seq(|bs|, q requires 0 <= q < |bs| => Stress(cs[q], AxiGradient(bs[q], ue)))
  }

  /** Summed over points, applied point matrices that each give the force of
      their point's stress give the force of the element's stresses. */
  lemma {:induction false} AppliedSumIsForce(ks: seq<seq<seq<real>>>, bs: seq<seq<seq<real>>>, sigs: seq<Tensor3>,
                                            vols: seq<real>, ue: seq<seq<real>>, m: nat, i: nat, k: nat)
    requires IsMatField(ks) && IsBField(bs) && |ks| == |bs| && |sigs| == |bs| && |vols| == |bs| && k <= |bs|
    requires IsMatrix(ue, NNE, NDIM) && m < NNE && i < NDIM
    requires forall q :: 0 <= q < k ==>
               MatrixApplied(ks[q], ue, m * NDIM + i) == AxiForceTerm(bs[q], sigs[q], vols[q], m, i)
    ensures AppliedSum(ks, ue, m * NDIM + i, k) == AxiForceSum(bs, sigs, vols, m, i, k)
  {
    if k > 0 {
      AppliedSumIsForce(ks, bs, sigs, vols, ue, m, i, k - 1);
      assert MatrixApplied(ks[k - 1], ue, m * NDIM + i) == AxiForceTerm(bs[k - 1], sigs[k - 1], vols[k - 1], m, i);
    }
  }

  /** The element's K applied to any nodal vector u is the internal force of
      the stresses C : gradu at its points: K is the tangent of that force. */
  lemma ElementStiffnessIsForceOfLinearStress(bs: seq<seq<seq<real>>>, cs: seq<seq<seq<seq<seq<real>>>>>,
                                              vols: seq<real>, ue: seq<seq<real>>, m: nat, i: nat)
    requires IsBField(bs) && IsCField(cs) && |cs| == |bs| && |vols| == |bs|
    requires IsMatrix(ue, NNE, NDIM) && m < NNE && i < NDIM
    ensures MatrixApplied(ElementMatrix(PointMatrices(bs, cs, vols), |bs|), ue, m * NDIM + i)
         == AxiForceSum(bs, LinearStresses(bs, cs, ue), vols, m, i, |bs|)
  {
    var ks := PointMatrices(bs, cs, vols);
    var sigs := LinearStresses(bs, cs, ue);
    forall q | 0 <= q < |bs|
      ensures MatrixApplied(ks[q], ue, m * NDIM + i) == AxiForceTerm(bs[q], sigs[q], vols[q], m, i)
    {
      PointMatrixIsForceOfLinearStress(bs[q], cs[q], vols[q], ue, m, i);
    }
    ElementMatrixApplied(ks, ue, m * NDIM + i, |bs|);
    AppliedSumIsForce(ks, bs, sigs, vols, ue, m, i, |bs|);
  }

  // ------------------------------------------------ linearity of K in C

  predicate IsZeroTensor4(c: seq<seq<seq<seq<real>>>>)
    requires IsTensor4(c)
  {
    forall a, b, d, e :: 0 <= a < TDIM && 0 <= b < TDIM && 0 <= d < TDIM && 0 <= e < TDIM ==> c[a][b][d][e] == 0.0
  }

  /** The entrywise sum of two tangents. */
  function AddTensor4(c1: seq<seq<seq<seq<real>>>>, c2: seq<seq<seq<seq<real>>>>): (c: seq<seq<seq<seq<real>>>>)
    requires IsTensor4(c1) && IsTensor4(c2)
    ensures IsTensor4(c)
  {
    seq(TDIM, a requires 0 <= a < TDIM =>
      seq(TDIM, b requires 0 <= b < TDIM =>
        seq(TDIM, d requires 0 <= d < TDIM =>
          seq(TDIM, e requires 0 <= e < TDIM => c1[a][b][d][e] + c2[a][b][d][e]))))
  }

  /** A zero tangent gives a zero point matrix. */
  lemma PointStiffnessOfZeroC(bq: seq<seq<real>>, c: seq<seq<seq<seq<real>>>>, v: real,
                              m: nat, i: nat, n: nat, j: nat)
    requires IsMatrix(bq, NNE, NB) && IsTensor4(c) && IsZeroTensor4(c)
    requires m < NNE && i < NDIM && n < NNE && j < NDIM
    ensures PointStiffness(bq, c, v, m, i, n, j) == 0.0
  {
    assert c[0][0][0][0] == 0.0 && c[0][0][1][1] == 0.0 && c[0][0][0][2] == 0.0;
    assert c[1][1][0][0] == 0.0 && c[1][1][1][1] == 0.0 && c[1][1][0][2] == 0.0;
    assert c[2][0][0][0] == 0.0 && c[2][0][1][1] == 0.0 && c[2][0][0][2] == 0.0;
    assert c[2][2][0][0] == 0.0 && c[2][2][1][1] == 0.0 && c[2][2][0][2] == 0.0;
    assert c[0][2][0][0] == 0.0 && c[0][2][1][1] == 0.0 && c[0][2][0][2] == 0.0;
    assert c[0][0][2][2] == 0.0 && c[0][0][2][0] == 0.0 && c[1][1][2][2] == 0.0 && c[1][1][2][0] == 0.0;
    assert c[2][0][2][2] == 0.0 && c[2][0][2][0] == 0.0 && c[2][2][2][2] == 0.0 && c[2][2][2][0] == 0.0;
    assert c[0][2][2][2] == 0.0 && c[0][2][2][0] == 0.0;
  }

  /** One product of a row is additive in its C factor. */
  lemma ProductAdditive(x: real, c1: real, c2: real, y: real, v: real)
    ensures x * (c1 + c2) * y * v == x * c1 * y * v + x * c2 * y * v
  {
  }

  lemma RowsAdditive(bq: seq<seq<real>>, c1: seq<seq<seq<seq<real>>>>, c2: seq<seq<seq<seq<real>>>>, v: real,
                     m: nat, p: nat, a: nat, b: nat, n: nat)
    requires IsMatrix(bq, NNE, NB) && IsTensor4(c1) && IsTensor4(c2)
    requires m < NNE && p < NB && a < TDIM && b < TDIM && n < NNE
    ensures RowR(bq, AddTensor4(c1, c2), v, m, p, a, b, n) == RowR(bq, c1, v, m, p, a, b, n) + RowR(bq, c2, v, m, p, a, b, n)
    ensures RowZ(bq, AddTensor4(c1, c2), v, m, p, a, b, n) == RowZ(bq, c1, v, m, p, a, b, n) + RowZ(bq, c2, v, m, p, a, b, n)
  {
    var c := AddTensor4(c1, c2);
    assert c[a][b][0][0] == c1[a][b][0][0] + c2[a][b][0][0];
    assert c[a][b][1][1] == c1[a][b][1][1] + c2[a][b][1][1];
    assert c[a][b][0][2] == c1[a][b][0][2] + c2[a][b][0][2];
    assert c[a][b][2][2] == c1[a][b][2][2] + c2[a][b][2][2];
    assert c[a][b][2][0] == c1[a][b][2][0] + c2[a][b][2][0];
    ProductAdditive(bq[m][p], c1[a][b][0][0], c2[a][b][0][0], bq[n][RRR], v);
    ProductAdditive(bq[m][p], c1[a][b][1][1], c2[a][b][1][1], bq[n][TTR], v);
    ProductAdditive(bq[m][p], c1[a][b][0][2], c2[a][b][0][2], bq[n][ZRR], v);
    ProductAdditive(bq[m][p], c1[a][b][2][2], c2[a][b][2][2], bq[n][ZZZ], v);
    ProductAdditive(bq[m][p], c1[a][b][2][0], c2[a][b][2][0], bq[n][RZZ], v);
  }

  /** A point matrix is additive in the tangent. */
  lemma PointStiffnessAdditive(bq: seq<seq<real>>, c1: seq<seq<seq<seq<real>>>>, c2: seq<seq<seq<seq<real>>>>, v: real,
                               m: nat, i: nat, n: nat, j: nat)
    requires IsMatrix(bq, NNE, NB) && IsTensor4(c1) && IsTensor4(c2)
    requires m < NNE && i < NDIM && n < NNE && j < NDIM
    ensures PointStiffness(bq, AddTensor4(c1, c2), v, m, i, n, j)
         == PointStiffness(bq, c1, v, m, i, n, j) + PointStiffness(bq, c2, v, m, i, n, j)
  {
    RowsAdditive(bq, c1, c2, v, m, RRR, 0, 0, n);
    RowsAdditive(bq, c1, c2, v, m, TTR, 1, 1, n);
    RowsAdditive(bq, c1, c2, v, m, ZRR, 2, 0, n);
    RowsAdditive(bq, c1, c2, v, m, ZZZ, 2, 2, n);
    RowsAdditive(bq, c1, c2, v, m, RZZ, 0, 2, n);
  }

  /** Point tangents summed point by point. */
  function AddCFields(ca: seq<seq<seq<seq<seq<real>>>>>, cb: seq<seq<seq<seq<seq<real>>>>>)
    : (cs: seq<seq<seq<seq<seq<real>>>>>)
    requires IsCField(ca) && IsCField(cb) && |ca| == |cb|
    ensures |cs| == |ca| && IsCField(cs)
  {
    seq(|ca|, q requires 0 <= q < |ca| => AddTensor4(ca[q], cb[q]))
  }

  /** Sums of matrices whose entries add add. */
  lemma {:induction false} MatSumAdditive(ks: seq<seq<seq<real>>>, ka: seq<seq<seq<real>>>, kb: seq<seq<seq<real>>>,
                                         r: nat, s: nat, k: nat)
    requires IsMatField(ks) && IsMatField(ka) && IsMatField(kb) && k <= |ks| && k <= |ka| && k <= |kb|
    requires r < NDOF && s < NDOF
    requires forall q :: 0 <= q < k ==> ks[q][r][s] == ka[q][r][s] + kb[q][r][s]
    ensures MatSum(ks, r, s, k) == MatSum(ka, r, s, k) + MatSum(kb, r, s, k)
  {
    if k > 0 {
      MatSumAdditive(ks, ka, kb, r, s, k - 1);
    }
  }

  /** A sum of matrices with a zero entry has that entry zero. */
  lemma {:induction false} MatSumOfZero(ks: seq<seq<seq<real>>>, r: nat, s: nat, k: nat)
    requires IsMatField(ks) && k <= |ks| && r < NDOF && s < NDOF
    requires forall q :: 0 <= q < k ==> ks[q][r][s] == 0.0
    ensures MatSum(ks, r, s, k) == 0.0
  {
    if k > 0 {
      MatSumOfZero(ks, r, s, k - 1);
    }
  }

  /** int_gradN_dot_tensor4_dot_gradNT_dV is linear in the tangent: the
      element matrix of C1 + C2 is the sum of the two element matrices. */
  lemma ElementStiffnessAdditive(bs: seq<seq<seq<real>>>, ca: seq<seq<seq<seq<seq<real>>>>>,
                                 cb: seq<seq<seq<seq<seq<real>>>>>, vols: seq<real>, r: nat, s: nat)
    requires IsBField(bs) && IsCField(ca) && IsCField(cb) && |ca| == |bs| && |cb| == |bs| && |vols| == |bs|
    requires r < NDOF && s < NDOF
    ensures ElementMatrix(PointMatrices(bs, AddCFields(ca, cb), vols), |bs|)[r][s]
         == ElementMatrix(PointMatrices(bs, ca, vols), |bs|)[r][s] + ElementMatrix(PointMatrices(bs, cb, vols), |bs|)[r][s]
  {
    var ks, ka, kb := PointMatrices(bs, AddCFields(ca, cb), vols), PointMatrices(bs, ca, vols), PointMatrices(bs, cb, vols);
    forall q | 0 <= q < |bs|
      ensures ks[q][r][s] == ka[q][r][s] + kb[q][r][s]
    {
      PointStiffnessAdditive(bs[q], ca[q], cb[q], vols[q], r / NDIM, r % NDIM, s / NDIM, s % NDIM);
    }
    MatSumAdditive(ks, ka, kb, r, s, |bs|);
  }

  /** A zero tangent at every point gives a zero element matrix. */
  lemma ElementStiffnessOfZeroC(bs: seq<seq<seq<real>>>, cs: seq<seq<seq<seq<seq<real>>>>>, vols: seq<real>,
                                r: nat, s: nat)
    requires IsBField(bs) && IsCField(cs) && |cs| == |bs| && |vols| == |bs| && r < NDOF && s < NDOF
    requires forall q :: 0 <= q < |cs| ==> IsZeroTensor4(cs[q])
    ensures ElementMatrix(PointMatrices(bs, cs, vols), |bs|)[r][s] == 0.0
  {
    var ks := PointMatrices(bs, cs, vols);
    forall q | 0 <= q < |bs|
      ensures ks[q][r][s] == 0.0
    {
      PointStiffnessOfZeroC(bs[q], cs[q], vols[q], r / NDIM, r % NDIM, s / NDIM, s % NDIM);
    }
    MatSumOfZero(ks, r, s, |bs|);
  }
}
