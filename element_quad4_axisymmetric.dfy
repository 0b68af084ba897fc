/**
 * The axisymmetric Quad4 quadrature object. It holds the same rule, shape
 * functions and local gradients as the planar object; per element and point
 * it keeps the operator B of every node and the volume
 * w * det J * 2 pi r of the ring swept by the point. Its operators write into
 * arrays the caller supplies: each output is first filled with zeros and
 * then written (gradients) or accumulated into (integrals).
 *
 * Shapes:
 *   x, elemvec (input)     nelem x nne x ndim      nested sequences
 *   B                      nelem x nip x nne x 27  nested sequences
 *   vol, qscalar (input)   nelem x nip             nested sequences
 *   qtensor (input)        nelem x nip             Tensor3 values
 *   C (input)              nelem x nip x 3x3x3x3   nested sequences
 *   qscalar (output)       array2 nelem x nip
 *   qtensor (output)       array4 nelem x nip x 3 x 3
 *   elemvec (output)       array3 nelem x nne x ndim
 *   elemmat (output)       array3 nelem x (nne*ndim) x (nne*ndim)
 */
module ElementQuad4Axisymmetric {
  import opened Quad4Rules
  import opened ElementQuad4
  import opened AxisymmetricOperators

  // ------------------------------------------------ state of one element

  /** compute_dN divides by det J and by the radius: both must be nonzero at
      every point of the element. */
  predicate AxiRegularAt(dNxi: seq<seq<seq<real>>>, n: seq<seq<real>>, xe: seq<seq<real>>)
    requires IsGradTable(dNxi) && IsMatrix(n, |dNxi|, NNE) && IsMatrix(xe, NNE, NDIM)
  {
    forall q :: 0 <= q < |dNxi| ==> Det(Jacobian(dNxi[q], xe)) != 0.0 && Radius(n[q], xe) != 0.0
  }

  predicate AxiRegular(x: seq<seq<seq<real>>>, dNxi: seq<seq<seq<real>>>, n: seq<seq<real>>)
    requires IsElemVec(x, |x|) && IsGradTable(dNxi) && IsMatrix(n, |dNxi|, NNE)
  {
    forall e :: 0 <= e < |x| ==> AxiRegularAt(dNxi, n, x[e])
  }

  /** B at one point: PointB of the global gradients Jinv * dNxi, the shape
      functions and the radius sum_m N(m) x(m,1). */
  function PointOperator(d: seq<seq<real>>, nq: seq<real>, xe: seq<seq<real>>): (bq: seq<seq<real>>)
    requires IsMatrix(d, NNE, NDIM) && |nq| == NNE && IsMatrix(xe, NNE, NDIM)
    requires Det(Jacobian(d, xe)) != 0.0 && Radius(nq, xe) != 0.0
    ensures IsMatrix(bq, NNE, NB)
  {
    PointB(GlobalGradient(d, Inv(Jacobian(d, xe))), nq, Radius(nq, xe))
  }

  /** The volume of one point: w * det J * 2 * pi * r (the signed determinant). */
  function PointVolume(d: seq<seq<real>>, nq: seq<real>, xe: seq<seq<real>>, wq: real): real
    requires IsMatrix(d, NNE, NDIM) && |nq| == NNE && IsMatrix(xe, NNE, NDIM)
  {
    wq * Det(Jacobian(d, xe)) * 2.0 * PI * Radius(nq, xe)
  }

  /** B at every point of one element. */
  function ElementOperators(dNxi: seq<seq<seq<real>>>, n: seq<seq<real>>, xe: seq<seq<real>>)
    : (bs: seq<seq<seq<real>>>)
    requires IsGradTable(dNxi) && IsMatrix(n, |dNxi|, NNE) && IsMatrix(xe, NNE, NDIM)
    requires AxiRegularAt(dNxi, n, xe)
    ensures |bs| == |dNxi| && IsBField(bs)
  {
    seq(|dNxi|, q requires 0 <= q < |dNxi| => PointOperator(dNxi[q], n[q], xe))
  }

  /** The volumes of one element. */
  function ElementAxiVolumes(dNxi: seq<seq<seq<real>>>, n: seq<seq<real>>, xe: seq<seq<real>>, w: seq<real>)
    : (v: seq<real>)
    requires IsGradTable(dNxi) && IsMatrix(n, |dNxi|, NNE) && IsMatrix(xe, NNE, NDIM) && |w| == |dNxi|
    ensures |v| == |w|
  {
    seq(|w|, q requires 0 <= q < |w| => PointVolume(dNxi[q], n[q], xe, w[q]))
  }

  /** B per element and point. */
  function OperatorField(x: seq<seq<seq<real>>>, dNxi: seq<seq<seq<real>>>, n: seq<seq<real>>)
    : (b: seq<seq<seq<seq<real>>>>)
    requires IsElemVec(x, |x|) && IsGradTable(dNxi) && IsMatrix(n, |dNxi|, NNE) && AxiRegular(x, dNxi, n)
    ensures |b| == |x| && forall e :: 0 <= e < |x| ==> |b[e]| == |dNxi| && IsBField(b[e])
  {
    seq(|x|, e requires 0 <= e < |x| => ElementOperators(dNxi, n, x[e]))
  }

  /** Volumes per element and point. */
  function AxiVolumeField(x: seq<seq<seq<real>>>, dNxi: seq<seq<seq<real>>>, n: seq<seq<real>>, w: seq<real>)
    : (v: seq<seq<real>>)
    requires IsElemVec(x, |x|) && IsGradTable(dNxi) && IsMatrix(n, |dNxi|, NNE) && |w| == |dNxi|
    ensures IsQScalar(v, |x|, |w|)
  {
    seq(|x|, e requires 0 <= e < |x| => ElementAxiVolumes(dNxi, n, x[e], w))
  }

  /** The ring volume is the planar volume of the same point times the
      circumference 2 pi r at the point's radius. */
  lemma AxiVolumeIsSweptPlanarVolume(x: seq<seq<seq<real>>>, dNxi: seq<seq<seq<real>>>, n: seq<seq<real>>,
                                     w: seq<real>, e: nat, q: nat)
    requires IsElemVec(x, |x|) && IsGradTable(dNxi) && IsMatrix(n, |dNxi|, NNE) && |w| == |dNxi|
    requires e < |x| && q < |w|
    ensures AxiVolumeField(x, dNxi, n, w)[e][q] == VolumeField(x, dNxi, w)[e][q] * (2.0 * PI * Radius(n[q], x[e]))
  {
    assert AxiVolumeField(x, dNxi, n, w)[e] == ElementAxiVolumes(dNxi, n, x[e], w);
    assert VolumeField(x, dNxi, w)[e] == ElementVolumes(dNxi, x[e], w);
  }

  /** The operator stored at point q of element e is PointB of gradients
      consistent with that element's positions. */
  lemma StoredOperatorIsConsistent(x: seq<seq<seq<real>>>, xi: seq<seq<real>>, e: nat, q: nat)
    requires IsElemVec(x, |x|) && IsMatrix(xi, |xi|, NDIM)
    requires AxiRegular(x, LocalGradientTable(xi), ShapeTable(xi))
    requires e < |x| && q < |xi|
    ensures var d := LocalGradientTable(xi)[q];
      var dNx := GlobalGradient(d, Inv(Jacobian(d, x[e])));
      OperatorField(x, LocalGradientTable(xi), ShapeTable(xi))[e][q]
        == PointB(dNx, ShapeTable(xi)[q], Radius(ShapeTable(xi)[q], x[e]))
      && Consistent(dNx, x[e])
  {
    var dNxi, n := LocalGradientTable(xi), ShapeTable(xi);
    assert dNxi[q] == ShapeDNxi(xi[q]);
    assert OperatorField(x, dNxi, n)[e] == ElementOperators(dNxi, n, x[e]);
    assert AxiRegularAt(dNxi, n, x[e]);
    LocalGradientColumnsSumToZero(xi[q], 0);
    LocalGradientColumnsSumToZero(xi[q], 1);
    ComputedGradientIsConsistent(dNxi[q], x[e]);
  }

  /** The stored operators reproduce every affine displacement
      u_z = a.xx z + a.xy r + c0, u_r = a.yx z + a.yy r + c1 of an element:
      du_r/dr = a.yy, du_z/dr = a.xy, du_r/dz = a.yx, du_z/dz = a.xx, and the
      hoop strain is u_r / r at the point. */
  lemma StoredOperatorIsExactForAffineFields(x: seq<seq<seq<real>>>, xi: seq<seq<real>>, e: nat, q: nat,
                                             a: Tensor2, c0: real, c1: real)
    requires IsElemVec(x, |x|) && IsMatrix(xi, |xi|, NDIM)
    requires AxiRegular(x, LocalGradientTable(xi), ShapeTable(xi))
    requires e < |x| && q < |xi|
    ensures var g := AxiGradient(OperatorField(x, LocalGradientTable(xi), ShapeTable(xi))[e][q],
                                 AffineField(x[e], a, c0, c1));
      var nq := ShapeTable(xi)[q];
      g.rr == a.yy && g.rz == a.xy && g.zr == a.yx && g.zz == a.xx
      && g.tt == Radius(nq, AffineField(x[e], a, c0, c1)) / Radius(nq, x[e])
  {
    StoredOperatorIsConsistent(x, xi, e, q);
    var d := LocalGradientTable(xi)[q];
    var nq := ShapeTable(xi)[q];
    AffineGradientIsExact(GlobalGradient(d, Inv(Jacobian(d, x[e]))), x[e], nq, Radius(nq, x[e]), a, c0, c1);
  }

  /** The stored operators give the uniform radial expansion u_r = r its
      exact strain eps_rr = eps_tt = 1. */
  lemma StoredOperatorRadialExpansion(x: seq<seq<seq<real>>>, xi: seq<seq<real>>, e: nat, q: nat)
    requires IsElemVec(x, |x|) && IsMatrix(xi, |xi|, NDIM)
    requires AxiRegular(x, LocalGradientTable(xi), ShapeTable(xi))
    requires e < |x| && q < |xi|
    ensures AxiGradient(OperatorField(x, LocalGradientTable(xi), ShapeTable(xi))[e][q], RadialExpansion(x[e]))
         == Tensor3(1.0, 0.0, 0.0, 0.0, 1.0, 0.0, 0.0, 0.0, 0.0)
  {
    StoredOperatorIsConsistent(x, xi, e, q);
    var d := LocalGradientTable(xi)[q];
    RadialExpansionIsExact(GlobalGradient(d, Inv(Jacobian(d, x[e]))), x[e], ShapeTable(xi)[q]);
  }

  /** The operator the code writes at lines 178-182, built from the same
      gradients as the stored one, loses the radial strain of the uniform
      expansion that the stored operator recovers. */
  lemma WrittenOperatorLosesRadialStrain(x: seq<seq<seq<real>>>, xi: seq<seq<real>>, e: nat, q: nat)
    requires IsElemVec(x, |x|) && IsMatrix(xi, |xi|, NDIM)
    requires AxiRegular(x, LocalGradientTable(xi), ShapeTable(xi))
    requires e < |x| && q < |xi|
    ensures var d := LocalGradientTable(xi)[q];
      var nq := ShapeTable(xi)[q];
      var written := PointBAsWritten(GlobalGradient(d, Inv(Jacobian(d, x[e]))), nq, Radius(nq, x[e]));
      AxiGradient(written, RadialExpansion(x[e])).rr == 0.0
      && AxiGradient(OperatorField(x, LocalGradientTable(xi), ShapeTable(xi))[e][q], RadialExpansion(x[e])).rr == 1.0
  {
    StoredOperatorIsConsistent(x, xi, e, q);
    StoredOperatorRadialExpansion(x, xi, e, q);
    var d := LocalGradientTable(xi)[q];
    RadialExpansionAsWritten(GlobalGradient(d, Inv(Jacobian(d, x[e]))), x[e], ShapeTable(xi)[q]);
  }

  // --------------------------------------------------- the object

  class QuadratureAxisymmetric {
    var x: seq<seq<seq<real>>>
    var xi: seq<seq<real>>
    var w: seq<real>
    var nelem: nat
    var nip: nat
    var N: seq<seq<real>>
    var dNxi: seq<seq<seq<real>>>
    var B: seq<seq<seq<seq<real>>>>
    var vol: seq<seq<real>>

    /** The positions and the rule are well shaped, the per-point tables
        belong to the rule, and no point has a zero Jacobian or radius. */
    ghost predicate RuleValid()
      reads this
    {
      IsElemVec(x, nelem) && RuleShaped(Rule(xi, w)) && nip == |w|
      && N == ShapeTable(xi) && dNxi == LocalGradientTable(xi) && AxiRegular(x, dNxi, N)
    }

    /** In addition, B and the volumes belong to x. */
    ghost predicate Valid()
      reads this
    {
      RuleValid() && B == OperatorField(x, dNxi, N) && vol == AxiVolumeField(x, dNxi, N, w)
    }

    /** Construction from positions, point coordinates and weights. */
    constructor (x0: seq<seq<seq<real>>>, xi0: seq<seq<real>>, w0: seq<real>)
      requires IsElemVec(x0, |x0|) && RuleShaped(Rule(xi0, w0))
      requires AxiRegular(x0, LocalGradientTable(xi0), ShapeTable(xi0))
      ensures Valid()
      ensures x == x0 && xi == xi0 && w == w0 && nelem == |x0| && nip == |w0|
    {
      x := x0;
      w := w0;
      xi := xi0;
      nelem := |x0|;
      nip := |w0|;
      var n := ShapeFunctions(xi0);
      var d := LocalGradients(xi0);
      N := n;
      dNxi := d;
      B := [];
      vol := [];
      new;
      ComputeDN();
    }

    /** Construction with the 2x2 Gauss rule. */
    constructor Gauss(x0: seq<seq<seq<real>>>)
      requires IsElemVec(x0, |x0|)
      requires AxiRegular(x0, LocalGradientTable(GaussXi()), ShapeTable(GaussXi()))
      ensures Valid()
      ensures x == x0 && Rule(xi, w) == GaussRule() && nelem == |x0| && nip == 4
    {
      var r := GaussRule();
      x := x0;
      w := r.w;
      xi := r.xi;
      nelem := |x0|;
      nip := |r.w|;
      var n := ShapeFunctions(r.xi);
      var d := LocalGradients(r.xi);
      N := n;
      dNxi := d;
      B := [];
      vol := [];
      new;
      ComputeDN();
    }

    /** Recompute B and the volumes from the current positions. */
    method ComputeDN()
      requires RuleValid()
      modifies this`B, this`vol
      ensures Valid()
    {
      var xs, ds, ns, ws := x, dNxi, N, w;
      ghost var bf := OperatorField(xs, ds, ns);
      ghost var vf := AxiVolumeField(xs, ds, ns, ws);
      var b: seq<seq<seq<seq<real>>>> := [];
      var v: seq<seq<real>> := [];
      var e := 0;
      while e < nelem
        invariant 0 <= e <= nelem && b == bf[..e] && v == vf[..e]
      {
        var be, ve := ElementOperatorsAt(ds, ns, xs[e], ws);
        b := b + [be];
        v := v + [ve];
        e := e + 1;
      }
      assert b == bf && v == vf;
      B := b;
      vol := v;
    }

    /** Replace the nodal positions (same shape) and recompute B and the
        volumes for them. */
    method UpdateX(x0: seq<seq<seq<real>>>)
      requires Valid() && IsElemVec(x0, nelem) && AxiRegular(x0, dNxi, N)
      modifies this`x, this`B, this`vol
      ensures Valid() && x == x0
      ensures B == OperatorField(x0, LocalGradientTable(xi), ShapeTable(xi))
      ensures vol == AxiVolumeField(x0, LocalGradientTable(xi), ShapeTable(xi), w)
    {
      x := x0;
      ComputeDN();
    }

    /** dV into qscalar: qscalar(e,q) = vol(e,q). */
    method DV(qscalar: array2<real>)
      requires Valid() && qscalar.Length0 == nelem && qscalar.Length1 == nip
      modifies qscalar
      ensures forall e, q :: 0 <= e < nelem && 0 <= q < nip ==> qscalar[e, q] == vol[e][q]
    {
      forall e, q | 0 <= e < nelem && 0 <= q < nip {
        qscalar[e, q] := vol[e][q];
      }
    }

    /** dV into qtensor: every component of qtensor(e,q) is vol(e,q). The
        buffer has one row per integration point. */
    method DVTensor(qtensor: array4<real>)
      requires Valid() && IsQTensorBuffer(qtensor, nelem, nip)
      modifies qtensor
      ensures forall e, q, i, j :: 0 <= e < nelem && 0 <= q < nip && 0 <= i < TDIM && 0 <= j < TDIM ==>
        qtensor[e, q, i, j] == vol[e][q]
    {
      forall e, q, i, j | 0 <= e < nelem && 0 <= q < nip && 0 <= i < TDIM && 0 <= j < TDIM {
        qtensor[e, q, i, j] := vol[e][q];
      }
    }

    /** gradN_vector: qtensor is zero-filled, then at every point receives the
        five pattern entries of the cylindrical gradient of elemvec. */
    method GradNVector(elemvec: seq<seq<seq<real>>>, qtensor: array4<real>)
      requires Valid() && IsElemVec(elemvec, nelem) && IsQTensorBuffer(qtensor, nelem, nip)
      modifies qtensor
      ensures forall e, q, i, j :: 0 <= e < nelem && 0 <= q < nip && 0 <= i < TDIM && 0 <= j < TDIM ==>
        qtensor[e, q, i, j] == At(AxiGradient(B[e][q], elemvec[e]), i, j)
    {
      FillZero4(qtensor);
      var e := 0;
      while e < nelem
        invariant 0 <= e <= nelem
        invariant forall e', q, i, j :: 0 <= e' < nelem && 0 <= q < nip && 0 <= i < TDIM && 0 <= j < TDIM ==>
          qtensor[e', q, i, j] == if e' < e then At(AxiGradient(B[e'][q], elemvec[e']), i, j) else 0.0
      {
        var q := 0;
        while q < nip
          invariant 0 <= q <= nip
          invariant forall e', q', i, j :: 0 <= e' < nelem && 0 <= q' < nip && 0 <= i < TDIM && 0 <= j < TDIM ==>
            qtensor[e', q', i, j] ==
              if e' < e || (e' == e && q' < q) then At(AxiGradient(B[e'][q'], elemvec[e']), i, j) else 0.0
        {
          var g := AxiPointGradu(B[e][q], elemvec[e]);
          WritePattern(qtensor, e, q, g);
          q := q + 1;
        }
        e := e + 1;
      }
    }

    /** gradN_vector_T: the same, with the (0,2) and (2,0) sums swapped: the
        transpose of the gradient. */
    method GradNVectorT(elemvec: seq<seq<seq<real>>>, qtensor: array4<real>)
      requires Valid() && IsElemVec(elemvec, nelem) && IsQTensorBuffer(qtensor, nelem, nip)
      modifies qtensor
      ensures forall e, q, i, j :: 0 <= e < nelem && 0 <= q < nip && 0 <= i < TDIM && 0 <= j < TDIM ==>
        qtensor[e, q, i, j] == At(AxiGradientT(B[e][q], elemvec[e]), i, j)
    {
      FillZero4(qtensor);
      var e := 0;
      while e < nelem
        invariant 0 <= e <= nelem
        invariant forall e', q, i, j :: 0 <= e' < nelem && 0 <= q < nip && 0 <= i < TDIM && 0 <= j < TDIM ==>
          qtensor[e', q, i, j] == if e' < e then At(AxiGradientT(B[e'][q], elemvec[e']), i, j) else 0.0
      {
        var q := 0;
        while q < nip
          invariant 0 <= q <= nip
          invariant forall e', q', i, j :: 0 <= e' < nelem && 0 <= q' < nip && 0 <= i < TDIM && 0 <= j < TDIM ==>
            qtensor[e', q', i, j] ==
              if e' < e || (e' == e && q' < q) then At(AxiGradientT(B[e'][q'], elemvec[e']), i, j) else 0.0
        {
          var g := AxiPointGraduT(B[e][q], elemvec[e]);
          WritePattern(qtensor, e, q, g);
          q := q + 1;
        }
        e := e + 1;
      }
    }

    /** symGradN_vector: the same, with half the sum of the two off-diagonal
        sums at both (0,2) and (2,0): the symmetric part of the gradient. */
    method SymGradNVector(elemvec: seq<seq<seq<real>>>, qtensor: array4<real>)
      requires Valid() && IsElemVec(elemvec, nelem) && IsQTensorBuffer(qtensor, nelem, nip)
      modifies qtensor
      ensures forall e, q, i, j :: 0 <= e < nelem && 0 <= q < nip && 0 <= i < TDIM && 0 <= j < TDIM ==>
        qtensor[e, q, i, j] == At(AxiSymGradient(B[e][q], elemvec[e]), i, j)
    {
      FillZero4(qtensor);
      var e := 0;
      while e < nelem
        invariant 0 <= e <= nelem
        invariant forall e', q, i, j :: 0 <= e' < nelem && 0 <= q < nip && 0 <= i < TDIM && 0 <= j < TDIM ==>
          qtensor[e', q, i, j] == if e' < e then At(AxiSymGradient(B[e'][q], elemvec[e']), i, j) else 0.0
      {
        var q := 0;
        while q < nip
          invariant 0 <= q <= nip
          invariant forall e', q', i, j :: 0 <= e' < nelem && 0 <= q' < nip && 0 <= i < TDIM && 0 <= j < TDIM ==>
            qtensor[e', q', i, j] ==
              if e' < e || (e' == e && q' < q) then At(AxiSymGradient(B[e'][q'], elemvec[e']), i, j) else 0.0
        {
          var g := AxiPointSymGradu(B[e][q], elemvec[e]);
          WritePattern(qtensor, e, q, g);
          q := q + 1;
        }
        e := e + 1;
      }
    }

    /** int_N_scalar_NT_dV: elemmat is zero-filled, then per element, point
        and node pair receives N(m) rho N(n) vol at (2m+i, 2n+i) for both
        components i. */
    method IntNScalarNTdV(qscalar: seq<seq<real>>, elemmat: array3<real>)
      requires Valid() && IsQScalar(qscalar, nelem, nip) && IsElemMatBuffer(elemmat, nelem)
      modifies elemmat
      ensures forall e, r, c :: 0 <= e < nelem && 0 <= r < NDOF && 0 <= c < NDOF ==>
        elemmat[e, r, c] == MassEntry(N, qscalar[e], vol[e], r, c, nip)
    {
      FillZero3(elemmat);
      var e := 0;
      while e < nelem
        invariant 0 <= e <= nelem
        invariant forall e', r, c :: 0 <= e' < nelem && 0 <= r < NDOF && 0 <= c < NDOF ==>
          elemmat[e', r, c] == if e' < e then MassEntry(N, qscalar[e'], vol[e'], r, c, nip) else 0.0
      {
        AccumulateMass(elemmat, e, N, qscalar[e], vol[e], nip);
        e := e + 1;
      }
    }

    /** int_gradN_dot_tensor2_dV: elemvec is zero-filled, then per element and
        point receives the force terms of qtensor at every node. */
    method IntGradNDotTensor2DV(qtensor: seq<seq<Tensor3>>, elemvec: array3<real>)
      requires Valid() && IsTensorInput(qtensor, nelem, nip) && IsElemVecBuffer(elemvec, nelem)
      modifies elemvec
      ensures forall e, m, c :: 0 <= e < nelem && 0 <= m < NNE && 0 <= c < NDIM ==>
        elemvec[e, m, c] == AxiForceSum(B[e], qtensor[e], vol[e], m, c, nip)
    {
      FillZero3(elemvec);
      var e := 0;
      while e < nelem
        invariant 0 <= e <= nelem
        invariant forall e', m, c :: 0 <= e' < nelem && 0 <= m < NNE && 0 <= c < NDIM ==>
          elemvec[e', m, c] == if e' < e then AxiForceSum(B[e'], qtensor[e'], vol[e'], m, c, nip) else 0.0
      {
        AccumulateForce(elemvec, e, B[e], qtensor[e], vol[e], nip);
        e := e + 1;
      }
    }

    /** int_gradN_dot_tensor4_dot_gradNT_dV: elemmat is zero-filled, then per
        element and point receives that point's stiffness matrix. */
    method IntGradNDotTensor4DotGradNTdV(qtensor: seq<seq<seq<seq<seq<seq<real>>>>>>, elemmat: array3<real>)
      requires Valid() && IsStiffnessInput(qtensor, nelem, nip) && IsElemMatBuffer(elemmat, nelem)
      modifies elemmat
      ensures forall e, r, s :: 0 <= e < nelem && 0 <= r < NDOF && 0 <= s < NDOF ==>
        elemmat[e, r, s] == ElementMatrix(PointMatrices(B[e], qtensor[e], vol[e]), nip)[r][s]
    {
      FillZero3(elemmat);
      var e := 0;
      while e < nelem
        invariant 0 <= e <= nelem
        invariant forall e', r, s :: 0 <= e' < nelem && 0 <= r < NDOF && 0 <= s < NDOF ==>
          elemmat[e', r, s] == if e' < e then ElementMatrix(PointMatrices(B[e'], qtensor[e'], vol[e']), nip)[r][s]
                               else 0.0
      {
        AccumulateStiffness(elemmat, e, B[e], qtensor[e], vol[e], nip);
        e := e + 1;
      }
    }

    // The value-returning forms: each allocates its output and fills it
    // with the in-place operator of the same name.

    method NewDV() returns (qscalar: array2<real>)
      requires Valid()
      ensures fresh(qscalar) && qscalar.Length0 == nelem && qscalar.Length1 == nip
      ensures forall e, q :: 0 <= e < nelem && 0 <= q < nip ==> qscalar[e, q] == vol[e][q]
    {
      qscalar := new real[nelem, nip];
      DV(qscalar);
    }

    method NewDVTensor() returns (qtensor: array4<real>)
      requires Valid()
      ensures fresh(qtensor) && IsQTensorBuffer(qtensor, nelem, nip)
      ensures forall e, q, i, j :: 0 <= e < nelem && 0 <= q < nip && 0 <= i < TDIM && 0 <= j < TDIM ==>
        qtensor[e, q, i, j] == vol[e][q]
    {
      qtensor := new real[nelem, nip, TDIM, TDIM];
      DVTensor(qtensor);
    }

    method NewGradNVector(elemvec: seq<seq<seq<real>>>) returns (qtensor: array4<real>)
      requires Valid() && IsElemVec(elemvec, nelem)
      ensures fresh(qtensor) && IsQTensorBuffer(qtensor, nelem, nip)
      ensures forall e, q, i, j :: 0 <= e < nelem && 0 <= q < nip && 0 <= i < TDIM && 0 <= j < TDIM ==>
        qtensor[e, q, i, j] == At(AxiGradient(B[e][q], elemvec[e]), i, j)
    {
      qtensor := new real[nelem, nip, TDIM, TDIM];
      GradNVector(elemvec, qtensor);
    }

    method NewGradNVectorT(elemvec: seq<seq<seq<real>>>) returns (qtensor: array4<real>)
      requires Valid() && IsElemVec(elemvec, nelem)
      ensures fresh(qtensor) && IsQTensorBuffer(qtensor, nelem, nip)
      ensures forall e, q, i, j :: 0 <= e < nelem && 0 <= q < nip && 0 <= i < TDIM && 0 <= j < TDIM ==>
        qtensor[e, q, i, j] == At(AxiGradientT(B[e][q], elemvec[e]), i, j)
    {
      qtensor := new real[nelem, nip, TDIM, TDIM];
      GradNVectorT(elemvec, qtensor);
    }

    method NewSymGradNVector(elemvec: seq<seq<seq<real>>>) returns (qtensor: array4<real>)
      requires Valid() && IsElemVec(elemvec, nelem)
      ensures fresh(qtensor) && IsQTensorBuffer(qtensor, nelem, nip)
      ensures forall e, q, i, j :: 0 <= e < nelem && 0 <= q < nip && 0 <= i < TDIM && 0 <= j < TDIM ==>
        qtensor[e, q, i, j] == At(AxiSymGradient(B[e][q], elemvec[e]), i, j)
    {
      qtensor := new real[nelem, nip, TDIM, TDIM];
      SymGradNVector(elemvec, qtensor);
    }

    method NewIntNScalarNTdV(qscalar: seq<seq<real>>) returns (elemmat: array3<real>)
      requires Valid() && IsQScalar(qscalar, nelem, nip)
      ensures fresh(elemmat) && IsElemMatBuffer(elemmat, nelem)
      ensures forall e, r, c :: 0 <= e < nelem && 0 <= r < NDOF && 0 <= c < NDOF ==>
        elemmat[e, r, c] == MassEntry(N, qscalar[e], vol[e], r, c, nip)
    {
      elemmat := new real[nelem, NDOF, NDOF];
      IntNScalarNTdV(qscalar, elemmat);
    }

    method NewIntGradNDotTensor2DV(qtensor: seq<seq<Tensor3>>) returns (elemvec: array3<real>)
      requires Valid() && IsTensorInput(qtensor, nelem, nip)
      ensures fresh(elemvec) && IsElemVecBuffer(elemvec, nelem)
      ensures forall e, m, c :: 0 <= e < nelem && 0 <= m < NNE && 0 <= c < NDIM ==>
        elemvec[e, m, c] == AxiForceSum(B[e], qtensor[e], vol[e], m, c, nip)
    {
      elemvec := new real[nelem, NNE, NDIM];
      IntGradNDotTensor2DV(qtensor, elemvec);
    }

    method NewIntGradNDotTensor4DotGradNTdV(qtensor: seq<seq<seq<seq<seq<seq<real>>>>>>)
      returns (elemmat: array3<real>)
      requires Valid() && IsStiffnessInput(qtensor, nelem, nip)
      ensures fresh(elemmat) && IsElemMatBuffer(elemmat, nelem)
      ensures forall e, r, s :: 0 <= e < nelem && 0 <= r < NDOF && 0 <= s < NDOF ==>
        elemmat[e, r, s] == ElementMatrix(PointMatrices(B[e], qtensor[e], vol[e]), nip)[r][s]
    {
      elemmat := new real[nelem, NDOF, NDOF];
      IntGradNDotTensor4DotGradNTdV(qtensor, elemmat);
    }
  }

  /** The shape functions at every point, N(q,m). */
  method ShapeFunctions(p: seq<seq<real>>) returns (n: seq<seq<real>>)
    requires IsMatrix(p, |p|, NDIM)
    ensures n == ShapeTable(p)
  {
    n := [];
    var q := 0;
    while q < |p|
      invariant 0 <= q <= |p| && n == ShapeTable(p)[..q]
    {
      assert ShapeTable(p)[..q + 1] == ShapeTable(p)[..q] + [ShapeN(p[q])];
      n := n + [[0.25 * (1.0 - p[q][0]) * (1.0 - p[q][1]),
                 0.25 * (1.0 + p[q][0]) * (1.0 - p[q][1]),
                 0.25 * (1.0 + p[q][0]) * (1.0 + p[q][1]),
                 0.25 * (1.0 - p[q][0]) * (1.0 + p[q][1])]];
      q := q + 1;
    }
  }

  /** The local gradients at every point, dNxi(q,m,i). */
  method LocalGradients(p: seq<seq<real>>) returns (d: seq<seq<seq<real>>>)
    requires IsMatrix(p, |p|, NDIM)
    ensures d == LocalGradientTable(p)
  {
    d := [];
    var q := 0;
    while q < |p|
      invariant 0 <= q <= |p| && d == LocalGradientTable(p)[..q]
    {
      assert LocalGradientTable(p)[..q + 1] == LocalGradientTable(p)[..q] + [ShapeDNxi(p[q])];
      d := d + [[[-0.25 * (1.0 - p[q][1]), -0.25 * (1.0 - p[q][0])],
                 [ 0.25 * (1.0 - p[q][1]), -0.25 * (1.0 + p[q][0])],
                 [ 0.25 * (1.0 + p[q][1]),  0.25 * (1.0 + p[q][0])],
                 [-0.25 * (1.0 + p[q][1]),  0.25 * (1.0 - p[q][0])]]];
      q := q + 1;
    }
  }

  /** One element of compute_dN, point by point. */
  method ElementOperatorsAt(ds: seq<seq<seq<real>>>, ns: seq<seq<real>>, xe: seq<seq<real>>, ws: seq<real>)
    returns (be: seq<seq<seq<real>>>, ve: seq<real>)
    requires IsGradTable(ds) && IsMatrix(ns, |ds|, NNE) && IsMatrix(xe, NNE, NDIM) && |ws| == |ds|
    requires AxiRegularAt(ds, ns, xe)
    ensures be == ElementOperators(ds, ns, xe) && ve == ElementAxiVolumes(ds, ns, xe, ws)
  {
    be, ve := [], [];
    var q := 0;
    while q < |ds|
      invariant 0 <= q <= |ds|
      invariant be == ElementOperators(ds, ns, xe)[..q] && ve == ElementAxiVolumes(ds, ns, xe, ws)[..q]
    {
      var bq, vq := PointOperatorAt(ds[q], ns[q], xe, ws[q]);
      be := be + [bq];
      ve := ve + [vq];
      q := q + 1;
    }
  }

  /** One point of compute_dN: the Jacobian, its determinant and inverse, the
      radius, then B zero-filled with its five entries written node by node,
      and the volume. */
  method PointOperatorAt(d: seq<seq<real>>, nq: seq<real>, xe: seq<seq<real>>, wq: real)
    returns (bq: seq<seq<real>>, vq: real)
    requires IsMatrix(d, NNE, NDIM) && |nq| == NNE && IsMatrix(xe, NNE, NDIM)
    requires Det(Jacobian(d, xe)) != 0.0 && Radius(nq, xe) != 0.0
    ensures bq == PointOperator(d, nq, xe) && vq == PointVolume(d, nq, xe, wq)
  {
    var J := JacobianAt(d, xe);
    var Jdet := Det(J);
    var Jinv := Inv(J);
    var rq := nq[0] * xe[0][1] + nq[1] * xe[1][1] + nq[2] * xe[2][1] + nq[3] * xe[3][1];
    ghost var b := PointOperator(d, nq, xe);
    bq := seq(NNE, _ => Zeros(NB));
    var m := 0;
    while m < NNE
      invariant 0 <= m <= NNE && |bq| == NNE
      invariant forall k :: 0 <= k < m ==> bq[k] == b[k]
      invariant forall k :: m <= k < NNE ==> bq[k] == Zeros(NB)
    {
      var bm := NodeOperatorAt(bq[m], d[m], Jinv, rq, nq[m]);
      assert bm == b[m];
      bq := bq[m := bm];
      m := m + 1;
    }
    assert bq == b;
    vq := wq * Jdet * 2.0 * PI * rq;
  }

  /** One node of compute_dN: into the zeroed row, dN/dr = row 1 of
      Jinv * dNxi at (r,r,r) and (r,z,z), N/r at (theta,theta,r), and
      dN/dz = row 0 at (z,r,r) and (z,z,z). */
  method NodeOperatorAt(zero: seq<real>, dm: seq<real>, Jinv: Tensor2, rq: real, nm: real) returns (bm: seq<real>)
    requires zero == Zeros(NB) && |dm| == NDIM && rq != 0.0
    ensures bm == NodeB(GradientRow(dm, Jinv)[1], GradientRow(dm, Jinv)[1], Hoop(rq, nm),
                        GradientRow(dm, Jinv)[0], GradientRow(dm, Jinv)[0])
  {
    var dr := Jinv.yx * dm[0] + Jinv.yy * dm[1];
    var dz := Jinv.xx * dm[0] + Jinv.xy * dm[1];
    assert dr == GradientRow(dm, Jinv)[1] && dz == GradientRow(dm, Jinv)[0];
    bm := zero[RRR := dr][RZZ := dr][TTR := Hoop(rq, nm)][ZRR := dz][ZZZ := dz];
  }

  // ------------------------------------------------ caller buffers

  /** Every write (e, q, i, j) with e < nelem, q < nip, i, j < 3 of the loops
      over a qtensor lands inside a buffer of the given shape. */
  predicate WritesInBounds(shape: seq<nat>, nelem: nat, nip: nat)
  {
    |shape| == 4
    && forall e, q, i, j :: 0 <= e < nelem && 0 <= q < nip && 0 <= i < TDIM && 0 <= j < TDIM ==>
      InBounds(shape, e, q, i, j)
  }

  predicate InBounds(shape: seq<nat>, e: nat, q: nat, i: nat, j: nat)
    requires |shape| == 4
  {
    e < shape[0] && q < shape[1] && i < shape[2] && j < shape[3]
  }

  /** The qtensor shape assertion of dV and of the three gradient operators as
      written: the second extent is compared with the number of nodes. */
  predicate QTensorGuardAsWritten(shape: seq<nat>, nelem: nat, nip: nat)
  {
    |shape| == 4 && shape[0] == nelem && shape[1] == NNE && shape[2] == TDIM && shape[3] == TDIM
  }

  /** The corrected assertion: the second extent is the number of points, the
      bound of the loops that write it. */
  predicate QTensorGuard(shape: seq<nat>, nelem: nat, nip: nat)
  {
    |shape| == 4 && shape[0] == nelem && shape[1] == nip && shape[2] == TDIM && shape[3] == TDIM
  }

  /** With a rule of nine points the assertion as written accepts a buffer with
      four rows per element, which the loops overrun. */
  lemma QTensorGuardAsWrittenAdmitsOverrun()
    ensures QTensorGuardAsWritten([1, 4, 3, 3], 1, 9) && !WritesInBounds([1, 4, 3, 3], 1, 9)
  {
    assert !InBounds([1, 4, 3, 3], 0, 8, 0, 0);
  }

  /** With a one-point rule it rejects the buffer the loops fill exactly. */
  lemma QTensorGuardAsWrittenRejectsExactBuffer()
    ensures !QTensorGuardAsWritten([1, 1, 3, 3], 1, 1) && QTensorGuard([1, 1, 3, 3], 1, 1)
  {
  }

  /** The corrected assertion admits exactly the buffers of shape
      nelem x nip x 3 x 3, and every write into them is in bounds. */
  lemma QTensorGuardIsSound(shape: seq<nat>, nelem: nat, nip: nat)
    requires QTensorGuard(shape, nelem, nip)
    ensures WritesInBounds(shape, nelem, nip)
    ensures shape == [nelem, nip, TDIM, TDIM]
  {
  }

  /** For the 2x2 Gauss and the nodal rule (four points) both assertions agree. */
  lemma QTensorGuardsAgreeForFourPoints(shape: seq<nat>, nelem: nat)
    ensures QTensorGuardAsWritten(shape, nelem, NNE) <==> QTensorGuard(shape, nelem, NNE)
  {
  }

  predicate IsQTensorBuffer(a: array4<real>, nelem: nat, nip: nat)
  {
    QTensorGuard([a.Length0, a.Length1, a.Length2, a.Length3], nelem, nip)
  }

  /** qtensor.fill(0.0). */
  method FillZero4(a: array4<real>)
    modifies a
    ensures forall e, q, i, j ::
      (0 <= e < a.Length0 && 0 <= q < a.Length1 && 0 <= i < a.Length2 && 0 <= j < a.Length3) ==>
        a[e, q, i, j] == 0.0
  {
    forall e, q, i, j | 0 <= e < a.Length0 && 0 <= q < a.Length1 && 0 <= i < a.Length2 && 0 <= j < a.Length3 {
      a[e, q, i, j] := 0.0;
    }
  }

  /** Writes the pattern entries (0,0), (1,1), (2,2), (0,2), (2,0) of t into
      the zeroed tensor (e,q) of a; t is 0 off the pattern. */
  method WritePattern(a: array4<real>, e: nat, q: nat, t: Tensor3)
    requires e < a.Length0 && q < a.Length1 && a.Length2 == TDIM && a.Length3 == TDIM
    requires t.rt == 0.0 && t.tr == 0.0 && t.tz == 0.0 && t.zt == 0.0
    requires forall i, j :: 0 <= i < TDIM && 0 <= j < TDIM ==> a[e, q, i, j] == 0.0
    modifies a
    ensures forall i, j :: 0 <= i < TDIM && 0 <= j < TDIM ==> a[e, q, i, j] == At(t, i, j)
    ensures forall e', q', i, j ::
      (0 <= e' < a.Length0 && 0 <= q' < a.Length1 && 0 <= i < TDIM && 0 <= j < TDIM && (e' != e || q' != q)) ==>
        a[e', q', i, j] == old(a[e', q', i, j])
  {
    a[e, q, 0, 0] := t.rr;
    a[e, q, 1, 1] := t.tt;
    a[e, q, 2, 2] := t.zz;
    a[e, q, 0, 2] := t.rz;
    a[e, q, 2, 0] := t.zr;
  }

  /** One point of gradN_vector, with the sums over the nodes written out. */
  method AxiPointGradu(b: seq<seq<real>>, ue: seq<seq<real>>) returns (g: Tensor3)
    requires IsMatrix(b, NNE, NB) && IsMatrix(ue, NNE, NDIM)
    ensures g == AxiGradient(b, ue)
  {
    var rr := b[0][RRR] * ue[0][1] + b[1][RRR] * ue[1][1] + b[2][RRR] * ue[2][1] + b[3][RRR] * ue[3][1];
    var tt := b[0][TTR] * ue[0][1] + b[1][TTR] * ue[1][1] + b[2][TTR] * ue[2][1] + b[3][TTR] * ue[3][1];
    var zz := b[0][ZZZ] * ue[0][0] + b[1][ZZZ] * ue[1][0] + b[2][ZZZ] * ue[2][0] + b[3][ZZZ] * ue[3][0];
    var rz := b[0][RZZ] * ue[0][0] + b[1][RZZ] * ue[1][0] + b[2][RZZ] * ue[2][0] + b[3][RZZ] * ue[3][0];
    var zr := b[0][ZRR] * ue[0][1] + b[1][ZRR] * ue[1][1] + b[2][ZRR] * ue[2][1] + b[3][ZRR] * ue[3][1];
    BSumExpanded(b, RRR, ue, 1);
    BSumExpanded(b, TTR, ue, 1);
    BSumExpanded(b, ZZZ, ue, 0);
    BSumExpanded(b, RZZ, ue, 0);
    BSumExpanded(b, ZRR, ue, 1);
    g := Tensor3(rr, 0.0, rz, 0.0, tt, 0.0, zr, 0.0, zz);
  }

  /** One point of gradN_vector_T: B(m,0,2,2) u(m,0) summed at (2,0) and
      B(m,2,0,0) u(m,1) summed at (0,2). */
  method AxiPointGraduT(b: seq<seq<real>>, ue: seq<seq<real>>) returns (g: Tensor3)
    requires IsMatrix(b, NNE, NB) && IsMatrix(ue, NNE, NDIM)
    ensures g == AxiGradientT(b, ue)
  {
    var rr := b[0][RRR] * ue[0][1] + b[1][RRR] * ue[1][1] + b[2][RRR] * ue[2][1] + b[3][RRR] * ue[3][1];
    var tt := b[0][TTR] * ue[0][1] + b[1][TTR] * ue[1][1] + b[2][TTR] * ue[2][1] + b[3][TTR] * ue[3][1];
    var zz := b[0][ZZZ] * ue[0][0] + b[1][ZZZ] * ue[1][0] + b[2][ZZZ] * ue[2][0] + b[3][ZZZ] * ue[3][0];
    var zr := b[0][RZZ] * ue[0][0] + b[1][RZZ] * ue[1][0] + b[2][RZZ] * ue[2][0] + b[3][RZZ] * ue[3][0];
    var rz := b[0][ZRR] * ue[0][1] + b[1][ZRR] * ue[1][1] + b[2][ZRR] * ue[2][1] + b[3][ZRR] * ue[3][1];
    BSumExpanded(b, RRR, ue, 1);
    BSumExpanded(b, TTR, ue, 1);
    BSumExpanded(b, ZZZ, ue, 0);
    BSumExpanded(b, RZZ, ue, 0);
    BSumExpanded(b, ZRR, ue, 1);
    g := Tensor3(rr, 0.0, rz, 0.0, tt, 0.0, zr, 0.0, zz);
  }

  /** One point of symGradN_vector: eps(2,0) is half the sum of both
      off-diagonal sums, and eps(0,2) is set to eps(2,0). */
  method AxiPointSymGradu(b: seq<seq<real>>, ue: seq<seq<real>>) returns (g: Tensor3)
    requires IsMatrix(b, NNE, NB) && IsMatrix(ue, NNE, NDIM)
    ensures g == AxiSymGradient(b, ue)
  {
    var rr := b[0][RRR] * ue[0][1] + b[1][RRR] * ue[1][1] + b[2][RRR] * ue[2][1] + b[3][RRR] * ue[3][1];
    var tt := b[0][TTR] * ue[0][1] + b[1][TTR] * ue[1][1] + b[2][TTR] * ue[2][1] + b[3][TTR] * ue[3][1];
    var zz := b[0][ZZZ] * ue[0][0] + b[1][ZZZ] * ue[1][0] + b[2][ZZZ] * ue[2][0] + b[3][ZZZ] * ue[3][0];
    var zr := (b[0][RZZ] * ue[0][0] + b[1][RZZ] * ue[1][0] + b[2][RZZ] * ue[2][0] + b[3][RZZ] * ue[3][0]
             + b[0][ZRR] * ue[0][1] + b[1][ZRR] * ue[1][1] + b[2][ZRR] * ue[2][1] + b[3][ZRR] * ue[3][1]) * 0.5;
    var rz := zr;
    BSumExpanded(b, RRR, ue, 1);
    BSumExpanded(b, TTR, ue, 1);
    BSumExpanded(b, ZZZ, ue, 0);
    BSumExpanded(b, RZZ, ue, 0);
    BSumExpanded(b, ZRR, ue, 1);
    g := Tensor3(rr, 0.0, rz, 0.0, tt, 0.0, zr, 0.0, zz);
  }

  predicate IsElemMatBuffer(a: array3<real>, nelem: nat)
  {
    a.Length0 == nelem && a.Length1 == NDOF && a.Length2 == NDOF
  }

  predicate IsElemVecBuffer(a: array3<real>, nelem: nat)
  {
    a.Length0 == nelem && a.Length1 == NNE && a.Length2 == NDIM
  }

  /** One stress tensor per element and point. */
  predicate IsTensorInput(qtensor: seq<seq<Tensor3>>, nelem: nat, nip: nat)
  {
    |qtensor| == nelem && forall e :: 0 <= e < nelem ==> |qtensor[e]| == nip
  }

  /** One fourth-order tensor per element and point. */
  predicate IsStiffnessInput(qtensor: seq<seq<seq<seq<seq<seq<real>>>>>>, nelem: nat, nip: nat)
  {
    |qtensor| == nelem && forall e :: 0 <= e < nelem ==> |qtensor[e]| == nip && IsCField(qtensor[e])
  }

  /** elemvec.fill(0.0) or elemmat.fill(0.0). */
  method FillZero3(a: array3<real>)
    modifies a
    ensures forall e, i, j :: (0 <= e < a.Length0 && 0 <= i < a.Length1 && 0 <= j < a.Length2) ==>
      a[e, i, j] == 0.0
  {
    forall e, i, j | 0 <= e < a.Length0 && 0 <= i < a.Length1 && 0 <= j < a.Length2 {
      a[e, i, j] := 0.0;
    }
  }

  /** One element of int_N_scalar_NT_dV, accumulated in place. */
  method AccumulateMass(M: array3<real>, e: nat, n: seq<seq<real>>, rho: seq<real>, vol: seq<real>, nip: nat)
    requires e < M.Length0 && M.Length1 == NDOF && M.Length2 == NDOF
    requires IsMatrix(n, nip, NNE) && |rho| == nip && |vol| == nip
    requires forall r, c :: 0 <= r < NDOF && 0 <= c < NDOF ==> M[e, r, c] == 0.0
    modifies M
    ensures forall r, c :: 0 <= r < NDOF && 0 <= c < NDOF ==> M[e, r, c] == MassEntry(n, rho, vol, r, c, nip)
    ensures forall e', r, c :: (0 <= e' < M.Length0 && e' != e && 0 <= r < NDOF && 0 <= c < NDOF) ==>
      M[e', r, c] == old(M[e', r, c])
  {
    var k := 0;
    while k < nip
      invariant 0 <= k <= nip
      invariant forall r, c :: 0 <= r < NDOF && 0 <= c < NDOF ==> M[e, r, c] == MassEntry(n, rho, vol, r, c, k)
      invariant forall e', r, c :: (0 <= e' < M.Length0 && e' != e && 0 <= r < NDOF && 0 <= c < NDOF) ==>
        M[e', r, c] == old(M[e', r, c])
    {
      AddPointMass(M, e, n, rho, vol, k);
      k := k + 1;
    }
  }

  /** The term of point k in entry (r, c) of int_N_scalar_NT_dV. */
  function PointMass(n: seq<seq<real>>, rho: seq<real>, vol: seq<real>, k: nat, r: nat, c: nat): real
    requires IsMatrix(n, |n|, NNE) && k < |n| && k < |rho| && k < |vol| && r < NDOF && c < NDOF
  {
    if r % NDIM == c % NDIM then n[k][r / NDIM] * rho[k] * n[k][c / NDIM] * vol[k] else 0.0
  }

  /** The contribution of point k to one element of int_N_scalar_NT_dV: the
      same node-pair product on both diagonal component positions. */
  method AddPointMass(M: array3<real>, e: nat, n: seq<seq<real>>, rho: seq<real>, vol: seq<real>, k: nat)
    requires e < M.Length0 && M.Length1 == NDOF && M.Length2 == NDOF
    requires IsMatrix(n, |n|, NNE) && k < |n| && k < |rho| && k < |vol|
    modifies M
    ensures forall r, c :: 0 <= r < NDOF && 0 <= c < NDOF ==>
      M[e, r, c] == old(M[e, r, c]) + PointMass(n, rho, vol, k, r, c)
    ensures forall e', r, c :: (0 <= e' < M.Length0 && e' != e && 0 <= r < NDOF && 0 <= c < NDOF) ==>
      M[e', r, c] == old(M[e', r, c])
  {
    var a := 0;
    while a < NNE
      invariant 0 <= a <= NNE
      invariant forall r, c :: 0 <= r < NDOF && 0 <= c < NDOF ==>
        M[e, r, c] == old(M[e, r, c]) + (if r / NDIM < a then PointMass(n, rho, vol, k, r, c) else 0.0)
      invariant forall e', r, c :: (0 <= e' < M.Length0 && e' != e && 0 <= r < NDOF && 0 <= c < NDOF) ==>
        M[e', r, c] == old(M[e', r, c])
    {
      AddNodeRowMass(M, e, n, rho, vol, k, a);
      a := a + 1;
    }
  }

  /** The terms of point k in the two rows of node a. */
  method AddNodeRowMass(M: array3<real>, e: nat, n: seq<seq<real>>, rho: seq<real>, vol: seq<real>, k: nat, a: nat)
    requires e < M.Length0 && M.Length1 == NDOF && M.Length2 == NDOF && a < NNE
    requires IsMatrix(n, |n|, NNE) && k < |n| && k < |rho| && k < |vol|
    modifies M
    ensures forall r, c :: 0 <= r < NDOF && 0 <= c < NDOF ==>
      M[e, r, c] == old(M[e, r, c]) + (if r / NDIM == a then PointMass(n, rho, vol, k, r, c) else 0.0)
    ensures forall e', r, c :: (0 <= e' < M.Length0 && e' != e && 0 <= r < NDOF && 0 <= c < NDOF) ==>
      M[e', r, c] == old(M[e', r, c])
  {
    var b := 0;
    while b < NNE
      invariant 0 <= b <= NNE
      invariant forall r, c :: 0 <= r < NDOF && 0 <= c < NDOF ==>
        M[e, r, c] == old(M[e, r, c]) + (if r / NDIM == a && c / NDIM < b then PointMass(n, rho, vol, k, r, c) else 0.0)
      invariant forall e', r, c :: (0 <= e' < M.Length0 && e' != e && 0 <= r < NDOF && 0 <= c < NDOF) ==>
        M[e', r, c] == old(M[e', r, c])
    {
      AddNodePairMass(M, e, n[k][a] * rho[k] * n[k][b] * vol[k], a, b);
      b := b + 1;
    }
  }

  /** The two updates of node pair (a, b) at one point, one per component. */
  method AddNodePairMass(M: array3<real>, e: nat, t: real, a: nat, b: nat)
    requires e < M.Length0 && M.Length1 == NDOF && M.Length2 == NDOF && a < NNE && b < NNE
    modifies M
    ensures forall r, c :: 0 <= r < NDOF && 0 <= c < NDOF ==>
      M[e, r, c] == old(M[e, r, c]) + (if r / NDIM == a && c / NDIM == b && r % NDIM == c % NDIM then t else 0.0)
    ensures forall e', r, c :: (0 <= e' < M.Length0 && e' != e && 0 <= r < NDOF && 0 <= c < NDOF) ==>
      M[e', r, c] == old(M[e', r, c])
  {
    M[e, NDIM * a + 0, NDIM * b + 0] := M[e, NDIM * a + 0, NDIM * b + 0] + t;
    M[e, NDIM * a + 1, NDIM * b + 1] := M[e, NDIM * a + 1, NDIM * b + 1] + t;
  }

  /** One element of int_gradN_dot_tensor2_dV, accumulated in place. */
  method AccumulateForce(f: array3<real>, e: nat, bs: seq<seq<seq<real>>>, sigs: seq<Tensor3>, vols: seq<real>,
                         nip: nat)
    requires e < f.Length0 && f.Length1 == NNE && f.Length2 == NDIM
    requires IsBField(bs) && |bs| == nip && |sigs| == nip && |vols| == nip
    requires forall m, c :: 0 <= m < NNE && 0 <= c < NDIM ==> f[e, m, c] == 0.0
    modifies f
    ensures forall m, c :: 0 <= m < NNE && 0 <= c < NDIM ==> f[e, m, c] == AxiForceSum(bs, sigs, vols, m, c, nip)
    ensures forall e', m, c :: (0 <= e' < f.Length0 && e' != e && 0 <= m < NNE && 0 <= c < NDIM) ==>
      f[e', m, c] == old(f[e', m, c])
  {
    var q := 0;
    while q < nip
      invariant 0 <= q <= nip
      invariant forall m, c :: 0 <= m < NNE && 0 <= c < NDIM ==> f[e, m, c] == AxiForceSum(bs, sigs, vols, m, c, q)
      invariant forall e', m, c :: (0 <= e' < f.Length0 && e' != e && 0 <= m < NNE && 0 <= c < NDIM) ==>
        f[e', m, c] == old(f[e', m, c])
    {
      AddPointForce(f, e, bs[q], sigs[q], vols[q]);
      q := q + 1;
    }
  }

  /** The contribution of one point to one element of int_gradN_dot_tensor2_dV. */
  method AddPointForce(f: array3<real>, e: nat, b: seq<seq<real>>, sig: Tensor3, v: real)
    requires e < f.Length0 && f.Length1 == NNE && f.Length2 == NDIM
    requires IsMatrix(b, NNE, NB)
    modifies f
    ensures forall m, c :: 0 <= m < NNE && 0 <= c < NDIM ==> f[e, m, c] == old(f[e, m, c]) + AxiForceTerm(b, sig, v, m, c)
    ensures forall e', m, c :: (0 <= e' < f.Length0 && e' != e && 0 <= m < NNE && 0 <= c < NDIM) ==>
      f[e', m, c] == old(f[e', m, c])
  {
    var m := 0;
    while m < NNE
      invariant 0 <= m <= NNE
      invariant forall m', c :: 0 <= m' < NNE && 0 <= c < NDIM ==>
        f[e, m', c] == old(f[e, m', c]) + (if m' < m then AxiForceTerm(b, sig, v, m', c) else 0.0)
      invariant forall e', m', c :: (0 <= e' < f.Length0 && e' != e && 0 <= m' < NNE && 0 <= c < NDIM) ==>
        f[e', m', c] == old(f[e', m', c])
    {
      AddNodeForce(f, e, b, sig, v, m);
      m := m + 1;
    }
  }

  /** The two updates of node m at one point: axial first, then radial. */
  method AddNodeForce(f: array3<real>, e: nat, b: seq<seq<real>>, sig: Tensor3, v: real, m: nat)
    requires e < f.Length0 && f.Length1 == NNE && f.Length2 == NDIM
    requires IsMatrix(b, NNE, NB) && m < NNE
    modifies f
    ensures f[e, m, 0] == old(f[e, m, 0]) + AxiForceTerm(b, sig, v, m, 0)
    ensures f[e, m, 1] == old(f[e, m, 1]) + AxiForceTerm(b, sig, v, m, 1)
    ensures forall e', m', c :: (0 <= e' < f.Length0 && 0 <= m' < NNE && 0 <= c < NDIM && (e' != e || m' != m)) ==>
      f[e', m', c] == old(f[e', m', c])
  {
    f[e, m, 0] := f[e, m, 0] + (b[m][ZZZ] * sig.zz + b[m][RZZ] * sig.rz) * v;
    f[e, m, 1] := f[e, m, 1] + (b[m][RRR] * sig.rr + b[m][TTR] * sig.tt + b[m][ZRR] * sig.zr) * v;
  }

  /** One element of int_gradN_dot_tensor4_dot_gradNT_dV, accumulated in
      place point by point. */
  method AccumulateStiffness(K: array3<real>, e: nat, bs: seq<seq<seq<real>>>,
                             cs: seq<seq<seq<seq<seq<real>>>>>, vols: seq<real>, nip: nat)
    requires e < K.Length0 && K.Length1 == NDOF && K.Length2 == NDOF
    requires IsBField(bs) && IsCField(cs) && |bs| == nip && |cs| == nip && |vols| == nip
    requires forall r, s :: 0 <= r < NDOF && 0 <= s < NDOF ==> K[e, r, s] == 0.0
    modifies K
    ensures forall r, s :: 0 <= r < NDOF && 0 <= s < NDOF ==>
      K[e, r, s] == ElementMatrix(PointMatrices(bs, cs, vols), nip)[r][s]
    ensures forall e', r, s :: (0 <= e' < K.Length0 && e' != e && 0 <= r < NDOF && 0 <= s < NDOF) ==>
      K[e', r, s] == old(K[e', r, s])
  {
    var q := 0;
    while q < nip
      invariant 0 <= q <= nip
      invariant forall r, s :: 0 <= r < NDOF && 0 <= s < NDOF ==> K[e, r, s] == StiffnessSum(bs, cs, vols, r, s, q)
      invariant forall e', r, s :: (0 <= e' < K.Length0 && e' != e && 0 <= r < NDOF && 0 <= s < NDOF) ==>
        K[e', r, s] == old(K[e', r, s])
    {
      AddPointStiffness(K, e, bs[q], cs[q], vols[q]);
      q := q + 1;
    }
    forall r, s | 0 <= r < NDOF && 0 <= s < NDOF
      ensures K[e, r, s] == ElementMatrix(PointMatrices(bs, cs, vols), nip)[r][s]
    {
      StiffnessSumIsMatSum(bs, cs, vols, r, s, nip);
    }
  }

  /** Entry (r, s) of the sum of the first k point stiffness matrices. */
  function StiffnessSum(bs: seq<seq<seq<real>>>, cs: seq<seq<seq<seq<seq<real>>>>>, vols: seq<real>,
                        r: nat, s: nat, k: nat): real
    requires IsBField(bs) && IsCField(cs) && |cs| == |bs| && |vols| == |bs| && k <= |bs| && r < NDOF && s < NDOF
  {
    if k == 0 then 0.0
    else StiffnessSum(bs, cs, vols, r, s, k - 1) + PointStiffness(bs[k - 1], cs[k - 1], vols[k - 1], r / NDIM, r % NDIM, s / NDIM, s % NDIM)
  }

  lemma {:induction false} StiffnessSumIsMatSum(bs: seq<seq<seq<real>>>, cs: seq<seq<seq<seq<seq<real>>>>>, vols: seq<real>,
                                                r: nat, s: nat, k: nat)
    requires IsBField(bs) && IsCField(cs) && |cs| == |bs| && |vols| == |bs| && k <= |bs| && r < NDOF && s < NDOF
    ensures StiffnessSum(bs, cs, vols, r, s, k) == MatSum(PointMatrices(bs, cs, vols), r, s, k)
  {
    if k > 0 {
      StiffnessSumIsMatSum(bs, cs, vols, r, s, k - 1);
      var km := PointStiffnessMatrix(bs[k - 1], cs[k - 1], vols[k - 1]);
      assert PointMatrices(bs, cs, vols)[k - 1] == km;
      assert km[r][s] == PointStiffness(bs[k - 1], cs[k - 1], vols[k - 1], r / NDIM, r % NDIM, s / NDIM, s % NDIM);
    }
  }

  /** One point of int_gradN_dot_tensor4_dot_gradNT_dV: for every node pair
      (m, n) the 25 products B(m,a,b,c) C(a,b,d,e) B(n,e,d,f) vol are added to
      K(2m + perm(c), 2n + perm(f)). */
  method AddPointStiffness(K: array3<real>, e: nat, b: seq<seq<real>>, c: seq<seq<seq<seq<real>>>>, v: real)
    requires e < K.Length0 && K.Length1 == NDOF && K.Length2 == NDOF
    requires IsMatrix(b, NNE, NB) && IsTensor4(c)
    modifies K
    ensures forall r, s :: 0 <= r < NDOF && 0 <= s < NDOF ==>
      K[e, r, s] == old(K[e, r, s]) + PointStiffness(b, c, v, r / NDIM, r % NDIM, s / NDIM, s % NDIM)
    ensures forall e', r, s :: (0 <= e' < K.Length0 && e' != e && 0 <= r < NDOF && 0 <= s < NDOF) ==>
      K[e', r, s] == old(K[e', r, s])
  {
    var m := 0;
    while m < NNE
      invariant 0 <= m <= NNE
      invariant forall r, s :: 0 <= r < NDOF && 0 <= s < NDOF ==>
        K[e, r, s] == old(K[e, r, s])
          + (if r / NDIM < m then PointStiffness(b, c, v, r / NDIM, r % NDIM, s / NDIM, s % NDIM) else 0.0)
      invariant forall e', r, s :: (0 <= e' < K.Length0 && e' != e && 0 <= r < NDOF && 0 <= s < NDOF) ==>
        K[e', r, s] == old(K[e', r, s])
    {
      var n := 0;
      while n < NNE
        invariant 0 <= n <= NNE
        invariant forall r, s :: 0 <= r < NDOF && 0 <= s < NDOF ==>
          K[e, r, s] == old(K[e, r, s])
            + (if r / NDIM < m || (r / NDIM == m && s / NDIM < n)
               then PointStiffness(b, c, v, r / NDIM, r % NDIM, s / NDIM, s % NDIM) else 0.0)
        invariant forall e', r, s :: (0 <= e' < K.Length0 && e' != e && 0 <= r < NDOF && 0 <= s < NDOF) ==>
          K[e', r, s] == old(K[e', r, s])
      {
        NodePairStiffness(K, e, b, c, v, m, n);
        n := n + 1;
      }
      m := m + 1;
    }
  }

  /** The 25 updates of one node pair (m, n) at one point: first the row
      entries of B(m) that feed the radial row 2m + 1, then those that feed
      the axial row 2m. The two rows are disjoint, so every entry of K gets
      its additions in the order the code makes them. */
  method NodePairStiffness(K: array3<real>, e: nat, b: seq<seq<real>>, c: seq<seq<seq<seq<real>>>>, v: real,
                           m: nat, n: nat)
    requires e < K.Length0 && K.Length1 == NDOF && K.Length2 == NDOF
    requires IsMatrix(b, NNE, NB) && IsTensor4(c) && m < NNE && n < NNE
    modifies K
    ensures forall r, s :: 0 <= r < NDOF && 0 <= s < NDOF && r / NDIM == m && s / NDIM == n ==>
      K[e, r, s] == old(K[e, r, s]) + PointStiffness(b, c, v, m, r % NDIM, n, s % NDIM)
    ensures forall e', r, s :: (0 <= e' < K.Length0 && 0 <= r < NDOF && 0 <= s < NDOF
      && (e' != e || r / NDIM != m || s / NDIM != n)) ==> K[e', r, s] == old(K[e', r, s])
  {
    var mr, mz, nr, nz := m * NDIM + 1, m * NDIM + 0, n * NDIM + 1, n * NDIM + 0;
    assert mr < NDOF && nr < NDOF && nz / NDIM == n && nr / NDIM == n;
    AddRadialRow(K, e, b, c, v, m, n);
    // the axial row leaves the radial one as it is
    ghost var krr, krz := K[e, mr, nr], K[e, mr, nz];
    AddAxialRow(K, e, b, c, v, m, n);
    assert K[e, mr, nr] == krr && K[e, mr, nz] == krz;
    forall r, s | 0 <= r < NDOF && 0 <= s < NDOF && r / NDIM == m && s / NDIM == n
      ensures K[e, r, s] == old(K[e, r, s]) + PointStiffness(b, c, v, m, r % NDIM, n, s % NDIM)
    {
      if r % NDIM == 1 { assert r == mr; } else { assert r == mz; }
      if s % NDIM == 1 { assert s == nr; } else { assert s == nz; }
    }
  }

  /** The row entries (r,r,r), (theta,theta,r), (z,r,r) of node m, all into
      the radial row 2m + 1 of K, in the order the code adds them. */
  method AddRadialRow(K: array3<real>, e: nat, b: seq<seq<real>>, c: seq<seq<seq<seq<real>>>>, v: real,
                      m: nat, n: nat)
    requires e < K.Length0 && K.Length1 == NDOF && K.Length2 == NDOF
    requires IsMatrix(b, NNE, NB) && IsTensor4(c) && m < NNE && n < NNE
    modifies K
    ensures K[e, m * NDIM + 1, n * NDIM + 1] == old(K[e, m * NDIM + 1, n * NDIM + 1]) + PointStiffness(b, c, v, m, 1, n, 1)
    ensures K[e, m * NDIM + 1, n * NDIM + 0] == old(K[e, m * NDIM + 1, n * NDIM + 0]) + PointStiffness(b, c, v, m, 1, n, 0)
    ensures forall e', r, s :: (0 <= e' < K.Length0 && 0 <= r < NDOF && 0 <= s < NDOF
      && (e' != e || r != m * NDIM + 1 || s / NDIM != n)) ==> K[e', r, s] == old(K[e', r, s])
  {
    var mr := m * NDIM + 1;
    AddRowProducts(K, e, b, c, v, m, mr, RRR, 0, 0, n);
    AddRowProducts(K, e, b, c, v, m, mr, TTR, 1, 1, n);
    AddRowProducts(K, e, b, c, v, m, mr, ZRR, 2, 0, n);
  }

  /** The row entries (z,z,z), (r,z,z) of node m, into the axial row 2m of K. */
  method AddAxialRow(K: array3<real>, e: nat, b: seq<seq<real>>, c: seq<seq<seq<seq<real>>>>, v: real,
                     m: nat, n: nat)
    requires e < K.Length0 && K.Length1 == NDOF && K.Length2 == NDOF
    requires IsMatrix(b, NNE, NB) && IsTensor4(c) && m < NNE && n < NNE
    modifies K
    ensures K[e, m * NDIM + 0, n * NDIM + 1] == old(K[e, m * NDIM + 0, n * NDIM + 1]) + PointStiffness(b, c, v, m, 0, n, 1)
    ensures K[e, m * NDIM + 0, n * NDIM + 0] == old(K[e, m * NDIM + 0, n * NDIM + 0]) + PointStiffness(b, c, v, m, 0, n, 0)
    ensures forall e', r, s :: (0 <= e' < K.Length0 && 0 <= r < NDOF && 0 <= s < NDOF
      && (e' != e || r != m * NDIM + 0 || s / NDIM != n)) ==> K[e', r, s] == old(K[e', r, s])
  {
    var mz := m * NDIM + 0;
    AddRowProducts(K, e, b, c, v, m, mz, ZZZ, 2, 2, n);
    AddRowProducts(K, e, b, c, v, m, mz, RZZ, 0, 2, n);
  }

  /** The five updates of one row entry B(m,a,b,k) (flat position p) against
      the column entries (r,r,r), (theta,theta,r), (z,z,z), (r,z,z), (z,r,r)
      of node n, into row t of K. */
  method AddRowProducts(K: array3<real>, e: nat, b: seq<seq<real>>, c: seq<seq<seq<seq<real>>>>, v: real,
                        m: nat, t: nat, p: nat, a: nat, bb: nat, n: nat)
    requires e < K.Length0 && K.Length1 == NDOF && K.Length2 == NDOF && t < NDOF
    requires IsMatrix(b, NNE, NB) && IsTensor4(c) && m < NNE && p < NB && a < TDIM && bb < TDIM && n < NNE
    modifies K
    ensures K[e, t, n * NDIM + 1] == old(K[e, t, n * NDIM + 1]) + RowR(b, c, v, m, p, a, bb, n)
    ensures K[e, t, n * NDIM + 0] == old(K[e, t, n * NDIM + 0]) + RowZ(b, c, v, m, p, a, bb, n)
    ensures forall e', r, s :: (0 <= e' < K.Length0 && 0 <= r < NDOF && 0 <= s < NDOF
      && (e' != e || r != t || s / NDIM != n)) ==> K[e', r, s] == old(K[e', r, s])
  {
    var nr, nz := n * NDIM + 1, n * NDIM + 0;
    K[e, t, nr] := K[e, t, nr] + b[m][p] * c[a][bb][0][0] * b[n][RRR] * v;
    K[e, t, nr] := K[e, t, nr] + b[m][p] * c[a][bb][1][1] * b[n][TTR] * v;
    K[e, t, nz] := K[e, t, nz] + b[m][p] * c[a][bb][2][2] * b[n][ZZZ] * v;
    K[e, t, nz] := K[e, t, nz] + b[m][p] * c[a][bb][2][0] * b[n][RZZ] * v;
    K[e, t, nr] := K[e, t, nr] + b[m][p] * c[a][bb][0][2] * b[n][ZRR] * v;
  }
}
