/**
 * The fixed part of the 4-node quadrilateral (Quad4): the two integration
 * rules, the bilinear shape functions and their local gradients, and the 2x2
 * tensor algebra (Jacobian, determinant, inverse, global gradient) used at
 * every integration point. Everything here is exact real arithmetic.
 */
module Quad4Rules {

  type PositiveReal = r: real | r > 0.0 witness 1.0

  /** The local coordinate 1/sqrt(3) of the 2x2 Gauss points. Dafny has no
      square root, so only its sign is known; nothing here depends on more. */
  const G: PositiveReal

  /** Nodes per element and spatial dimensions of Quad4. */
  const NNE: nat := 4
  const NDIM: nat := 2

  predicate IsMatrix(a: seq<seq<real>>, rows: nat, cols: nat)
  {
    |a| == rows && forall r :: 0 <= r < rows ==> |a[r]| == cols
  }

  /** An integration rule: local point coordinates (nip x 2) and weights (nip). */
  datatype Rule = Rule(xi: seq<seq<real>>, w: seq<real>)

  predicate RuleShaped(r: Rule)
  {
    IsMatrix(r.xi, |r.w|, NDIM)
  }

  // ---------------------------------------------------------------- rules

  function GaussNip(): nat { 4 }

  /** Gauss points (+-g, +-g), listed in the order of the element's nodes. */
  function GaussXi(): seq<seq<real>>
  {
    var g: real := G;
    [[-g, -g], [g, -g], [g, g], [-g, g]]
  }

  function GaussW(): seq<real> { [1.0, 1.0, 1.0, 1.0] }

  function NodalNip(): nat { 4 }

  /** Nodal points: the corners of the reference square, in node order. */
  function NodalXi(): seq<seq<real>>
  {
    [[-1.0, -1.0], [1.0, -1.0], [1.0, 1.0], [-1.0, 1.0]]
  }

  function NodalW(): seq<real> { [1.0, 1.0, 1.0, 1.0] }

  function GaussRule(): (r: Rule)
    ensures RuleShaped(r) && |r.w| == GaussNip()
    ensures forall k :: 0 <= k < |r.w| ==> r.w[k] == 1.0
  {
    Rule(GaussXi(), GaussW())
  }

  function NodalRule(): (r: Rule)
    ensures RuleShaped(r) && |r.w| == NodalNip()
    ensures forall k :: 0 <= k < |r.w| ==> r.w[k] == 1.0
  {
    Rule(NodalXi(), NodalW())
  }

  /** The Gauss points are the nodal points scaled by g: both rules list their
      points in node order, in the same quadrant. */
  lemma GaussIsScaledNodal()
    ensures |GaussXi()| == |NodalXi()| == 4
    ensures forall k, d :: 0 <= k < 4 && 0 <= d < NDIM ==>
      GaussXi()[k][d] == G * NodalXi()[k][d]
  {
  }

  // ------------------------------------------------------ shape functions

  /** The bilinear shape functions N(m) at local point p. */
  function ShapeN(p: seq<real>): (n: seq<real>)
    requires |p| == NDIM
    ensures |n| == NNE
  {
    [ 0.25 * (1.0 - p[0]) * (1.0 - p[1]),
      0.25 * (1.0 + p[0]) * (1.0 - p[1]),
      0.25 * (1.0 + p[0]) * (1.0 + p[1]),
      0.25 * (1.0 - p[0]) * (1.0 + p[1]) ]
  }

  /** The local gradients dN(m)/dxi(i) at local point p (row m, column i). */
  function ShapeDNxi(p: seq<real>): (d: seq<seq<real>>)
    requires |p| == NDIM
    ensures IsMatrix(d, NNE, NDIM)
  {
    [ [-0.25 * (1.0 - p[1]), -0.25 * (1.0 - p[0])],
      [ 0.25 * (1.0 - p[1]), -0.25 * (1.0 + p[0])],
      [ 0.25 * (1.0 + p[1]),  0.25 * (1.0 + p[0])],
      [-0.25 * (1.0 + p[1]),  0.25 * (1.0 - p[0])] ]
  }

  /** Sum of the four nodal values s(m). */
  function Total(s: seq<real>): real
    requires |s| == NNE
  {
    s[0] + s[1] + s[2] + s[3]
  }

  /** The partial column sum sum_{m < k} a(m,i). */
  function ColumnSumUpTo(a: seq<seq<real>>, i: nat, k: nat): real
    requires IsMatrix(a, NNE, NDIM) && i < NDIM && k <= NNE
  {
    if k == 0 then 0.0 else ColumnSumUpTo(a, i, k - 1) + a[k - 1][i]
  }

  /** Sum over the four nodes of column i of a. */
  function ColumnSum(a: seq<seq<real>>, i: nat): real
    requires IsMatrix(a, NNE, NDIM) && i < NDIM
  {
    ColumnSumUpTo(a, i, NNE)
  }

  /** The partial contraction sum_{m < k} a(m,i) * b(m,j). */
  function DotUpTo(a: seq<seq<real>>, i: nat, b: seq<seq<real>>, j: nat, k: nat): real
    requires IsMatrix(a, NNE, NDIM) && IsMatrix(b, NNE, NDIM) && i < NDIM && j < NDIM && k <= NNE
  {
    if k == 0 then 0.0 else DotUpTo(a, i, b, j, k - 1) + a[k - 1][i] * b[k - 1][j]
  }

  /** The contraction sum_m a(m,i) * b(m,j) over the four nodes. */
  function Dot(a: seq<seq<real>>, i: nat, b: seq<seq<real>>, j: nat): real
    requires IsMatrix(a, NNE, NDIM) && IsMatrix(b, NNE, NDIM) && i < NDIM && j < NDIM
  {
    DotUpTo(a, i, b, j, NNE)
  }

  /** The column sum written out over the four nodes. */
  lemma ColumnSumExpanded(a: seq<seq<real>>, i: nat)
    requires IsMatrix(a, NNE, NDIM) && i < NDIM
    ensures ColumnSum(a, i) == a[0][i] + a[1][i] + a[2][i] + a[3][i]
  {
    assert ColumnSumUpTo(a, i, 1) == a[0][i];
    assert ColumnSumUpTo(a, i, 2) == ColumnSumUpTo(a, i, 1) + a[1][i];
    assert ColumnSumUpTo(a, i, 3) == ColumnSumUpTo(a, i, 2) + a[2][i];
  }

  /** The contraction written out over the four nodes. */
  lemma DotExpanded(a: seq<seq<real>>, i: nat, b: seq<seq<real>>, j: nat)
    requires IsMatrix(a, NNE, NDIM) && IsMatrix(b, NNE, NDIM) && i < NDIM && j < NDIM
    ensures Dot(a, i, b, j) == a[0][i] * b[0][j] + a[1][i] * b[1][j] + a[2][i] * b[2][j] + a[3][i] * b[3][j]
  {
    assert DotUpTo(a, i, b, j, 1) == a[0][i] * b[0][j];
    assert DotUpTo(a, i, b, j, 2) == DotUpTo(a, i, b, j, 1) + a[1][i] * b[1][j];
    assert DotUpTo(a, i, b, j, 3) == DotUpTo(a, i, b, j, 2) + a[2][i] * b[2][j];
  }

  /** Partition of unity: at every local point the shape functions sum to 1. */
  lemma PartitionOfUnity(p: seq<real>)
    requires |p| == NDIM
    ensures Total(ShapeN(p)) == 1.0
  {
  }

  /** Every column of the local gradients sums to 0 (the derivative of the
      partition of unity). */
  lemma LocalGradientColumnsSumToZero(p: seq<real>, i: nat)
    requires |p| == NDIM && i < NDIM
    ensures ColumnSum(ShapeDNxi(p), i) == 0.0
  {
    ColumnSumExpanded(ShapeDNxi(p), i);
  }

  /** dNxi is the exact derivative of N: each N(m) is affine in each local
      coordinate separately, so moving by t along xi(0) or xi(1) changes N(m) by
      exactly t times the matching column of dNxi (m = 0, 1, 2, 3). */
  lemma LocalGradientIsDerivative(p: seq<real>, t: real)
    requires |p| == NDIM
    ensures ShapeN([p[0] + t, p[1]])[0] == ShapeN(p)[0] + t * ShapeDNxi(p)[0][0]
    ensures ShapeN([p[0], p[1] + t])[0] == ShapeN(p)[0] + t * ShapeDNxi(p)[0][1]
    ensures ShapeN([p[0] + t, p[1]])[1] == ShapeN(p)[1] + t * ShapeDNxi(p)[1][0]
    ensures ShapeN([p[0], p[1] + t])[1] == ShapeN(p)[1] + t * ShapeDNxi(p)[1][1]
    ensures ShapeN([p[0] + t, p[1]])[2] == ShapeN(p)[2] + t * ShapeDNxi(p)[2][0]
    ensures ShapeN([p[0], p[1] + t])[2] == ShapeN(p)[2] + t * ShapeDNxi(p)[2][1]
    ensures ShapeN([p[0] + t, p[1]])[3] == ShapeN(p)[3] + t * ShapeDNxi(p)[3][0]
    ensures ShapeN([p[0], p[1] + t])[3] == ShapeN(p)[3] + t * ShapeDNxi(p)[3][1]
  {
  }

  /** At nodal point k the shape functions are the Kronecker delta: N(m) is 1 at
      its own node and 0 at the other three. */
  lemma NodalShapeIsKronecker(k: nat, m: nat)
    requires k < NodalNip() && m < NNE
    ensures ShapeN(NodalXi()[k])[m] == if k == m then 1.0 else 0.0
  {
  }

  /** Four points (+-a, +-b) with unit weights integrate every shape function
      exactly, whatever a and b: the odd terms cancel. */
  lemma SymmetricPointsIntegrateShapeFunctions(a: real, b: real)
    ensures ShapeN([-a, -b])[0] + ShapeN([a, -b])[0] + ShapeN([a, b])[0] + ShapeN([-a, b])[0] == 1.0
    ensures ShapeN([-a, -b])[1] + ShapeN([a, -b])[1] + ShapeN([a, b])[1] + ShapeN([-a, b])[1] == 1.0
    ensures ShapeN([-a, -b])[2] + ShapeN([a, -b])[2] + ShapeN([a, b])[2] + ShapeN([-a, b])[2] == 1.0
    ensures ShapeN([-a, -b])[3] + ShapeN([a, -b])[3] + ShapeN([a, b])[3] + ShapeN([-a, b])[3] == 1.0
  {
  }

  /** Weighted sum sum_k w(k) * N(m)(xi(k)) of shape function m under a rule. */
  function IntegrateShape(r: Rule, m: nat, n: nat): real
    requires RuleShaped(r) && m < NNE && n <= |r.w|
  {
    if n == 0 then 0.0 else IntegrateShape(r, m, n - 1) + r.w[n - 1] * ShapeN(r.xi[n - 1])[m]
  }

  /** One step of the weighted sum at a point of unit weight. */
  lemma IntegrateShapeStep(r: Rule, m: nat, n: nat)
    requires RuleShaped(r) && m < NNE && 0 < n <= |r.w| && r.w[n - 1] == 1.0
    ensures IntegrateShape(r, m, n) == IntegrateShape(r, m, n - 1) + ShapeN(r.xi[n - 1])[m]
  {
  }

  /** A four-point rule with unit weights sums the shape function at its points. */
  lemma IntegrateShapeOfFour(r: Rule, m: nat)
    requires RuleShaped(r) && |r.w| == 4 && m < NNE
    requires forall k :: 0 <= k < 4 ==> r.w[k] == 1.0
    ensures IntegrateShape(r, m, 4)
      == ShapeN(r.xi[0])[m] + ShapeN(r.xi[1])[m] + ShapeN(r.xi[2])[m] + ShapeN(r.xi[3])[m]
  {
    assert r.w[0] == 1.0 && r.w[1] == 1.0 && r.w[2] == 1.0 && r.w[3] == 1.0;
    IntegrateShapeStep(r, m, 1);
    IntegrateShapeStep(r, m, 2);
    IntegrateShapeStep(r, m, 3);
    IntegrateShapeStep(r, m, 4);
  }

  /** Both rules integrate every shape function exactly: sum_k w(k) N(m)(xi(k))
      equals 1, the integral of N(m) over the reference square [-1,1]^2. */
  lemma RulesIntegrateShapeFunctions()
    ensures IntegrateShape(GaussRule(), 0, 4) == 1.0 && IntegrateShape(NodalRule(), 0, 4) == 1.0
    ensures IntegrateShape(GaussRule(), 1, 4) == 1.0 && IntegrateShape(NodalRule(), 1, 4) == 1.0
    ensures IntegrateShape(GaussRule(), 2, 4) == 1.0 && IntegrateShape(NodalRule(), 2, 4) == 1.0
    ensures IntegrateShape(GaussRule(), 3, 4) == 1.0 && IntegrateShape(NodalRule(), 3, 4) == 1.0
  {
    var g: real := G;
    var gr, nr := GaussRule(), NodalRule();
    assert gr.xi == [[-g, -g], [g, -g], [g, g], [-g, g]];
    assert nr.xi == [[-1.0, -1.0], [1.0, -1.0], [1.0, 1.0], [-1.0, 1.0]];
    SymmetricPointsIntegrateShapeFunctions(g, g);
    SymmetricPointsIntegrateShapeFunctions(1.0, 1.0);
    IntegrateShapeOfFour(gr, 0);
    IntegrateShapeOfFour(nr, 0);
    IntegrateShapeOfFour(gr, 1);
    IntegrateShapeOfFour(nr, 1);
    IntegrateShapeOfFour(gr, 2);
    IntegrateShapeOfFour(nr, 2);
    IntegrateShapeOfFour(gr, 3);
    IntegrateShapeOfFour(nr, 3);
  }

  // ---------------------------------------------------------- 2x2 algebra

  /** A 2x2 tensor; the fields are the components (0,0), (0,1), (1,0), (1,1). */
  datatype Tensor2 = Tensor2(xx: real, xy: real, yx: real, yy: real)

  function Component(t: Tensor2, i: nat, j: nat): real
    requires i < 2 && j < 2
  {
    if i == 0 && j == 0 then t.xx
    else if i == 0 then t.xy
    else if j == 0 then t.yx
    else t.yy
  }

  function Mul(a: Tensor2, b: Tensor2): Tensor2
  {
    Tensor2(a.xx * b.xx + a.xy * b.yx, a.xx * b.xy + a.xy * b.yy,
            a.yx * b.xx + a.yy * b.yx, a.yx * b.xy + a.yy * b.yy)
  }

  function Identity(): Tensor2 { Tensor2(1.0, 0.0, 0.0, 1.0) }

  function Det(t: Tensor2): real
  {
    t.xx * t.yy - t.xy * t.yx
  }

  /** The closed-form inverse of a non-singular 2x2 tensor. */
  function Inv(t: Tensor2): Tensor2
    requires Det(t) != 0.0
  {
    var s := 1.0 / Det(t);
    Tensor2(t.yy * s, -t.xy * s, -t.yx * s, t.xx * s)
  }

  /** The products behind InvIsInverse over plain reals: with s the reciprocal
      of a*d - b*c, r = (d*s, -b*s; -c*s, a*s) inverts (a, b; c, d) on both sides. */
  lemma InverseProducts(a: real, b: real, c: real, d: real, s: real,
                        rxx: real, rxy: real, ryx: real, ryy: real)
    requires s * (a * d - b * c) == 1.0
    requires rxx == d * s && rxy == -b * s && ryx == -c * s && ryy == a * s
    ensures rxx * a + rxy * c == 1.0 && rxx * b + rxy * d == 0.0
    ensures ryx * a + ryy * c == 0.0 && ryx * b + ryy * d == 1.0
    ensures a * rxx + b * ryx == 1.0 && a * rxy + b * ryy == 0.0
    ensures c * rxx + d * ryx == 0.0 && c * rxy + d * ryy == 1.0
    ensures (rxx * ryy - rxy * ryx) * (a * d - b * c) == 1.0
  {
    assert rxx * ryy - rxy * ryx == s * (s * (a * d - b * c));
  }

  /** The closed form is the inverse on both sides, and its determinant is the
      reciprocal one. */
  lemma InvIsInverse(t: Tensor2)
    requires Det(t) != 0.0
    ensures Mul(Inv(t), t) == Identity() && Mul(t, Inv(t)) == Identity()
    ensures Det(Inv(t)) * Det(t) == 1.0
  {
    var s := 1.0 / Det(t);
    var r := Inv(t);
    InverseProducts(t.xx, t.xy, t.yx, t.yy, s, r.xx, r.xy, r.yx, r.yy);
  }

  /** The Jacobian J(i,j) = sum_m dNxi(m,i) * x(m,j) of one element at one point. */
  function Jacobian(dNxi: seq<seq<real>>, xe: seq<seq<real>>): Tensor2
    requires IsMatrix(dNxi, NNE, NDIM) && IsMatrix(xe, NNE, NDIM)
  {
    Tensor2(Dot(dNxi, 0, xe, 0), Dot(dNxi, 0, xe, 1),
            Dot(dNxi, 1, xe, 0), Dot(dNxi, 1, xe, 1))
  }

  /** The global gradient of one shape function: sum_j Jinv(i,j) * dNxi(m,j). */
  function GradientRow(dm: seq<real>, jinv: Tensor2): seq<real>
    requires |dm| == NDIM
  {
    [jinv.xx * dm[0] + jinv.xy * dm[1], jinv.yx * dm[0] + jinv.yy * dm[1]]
  }

  /** The global gradients dNx(m,i) = sum_j Jinv(i,j) * dNxi(m,j). */
  function GlobalGradient(dNxi: seq<seq<real>>, jinv: Tensor2): (dNx: seq<seq<real>>)
    requires IsMatrix(dNxi, NNE, NDIM)
    ensures IsMatrix(dNx, NNE, NDIM)
  {
    seq(NNE, m requires 0 <= m < NNE => GradientRow(dNxi[m], jinv))
  }

  /** One column of global gradients contracted with a field, over plain
      reals: a(k) = c0 * p(k) + c1 * q(k). */
  lemma CombinationLeft(c0: real, c1: real, a0: real, a1: real, a2: real, a3: real,
                        p0: real, p1: real, p2: real, p3: real, q0: real, q1: real, q2: real, q3: real,
                        b0: real, b1: real, b2: real, b3: real, dot: real, dp: real, dq: real)
    requires a0 == c0 * p0 + c1 * q0 && a1 == c0 * p1 + c1 * q1
    requires a2 == c0 * p2 + c1 * q2 && a3 == c0 * p3 + c1 * q3
    requires dot == a0 * b0 + a1 * b1 + a2 * b2 + a3 * b3
    requires dp == p0 * b0 + p1 * b1 + p2 * b2 + p3 * b3
    requires dq == q0 * b0 + q1 * b1 + q2 * b2 + q3 * b3
    ensures dot == c0 * dp + c1 * dq
  {
    ScaleCombination(b0, a0, c0, p0, c1, q0, 0.0);
    ScaleCombination(b1, a1, c0, p1, c1, q1, 0.0);
    ScaleCombination(b2, a2, c0, p2, c1, q2, 0.0);
    ScaleCombination(b3, a3, c0, p3, c1, q3, 0.0);
  }

  /** DotOfCombinationRight over plain reals: b(k) = c0 * x(k) + c1 * y(k) + c. */
  lemma CombinationRight(c0: real, c1: real, c: real, a0: real, a1: real, a2: real, a3: real,
                         b0: real, b1: real, b2: real, b3: real,
                         x0: real, x1: real, x2: real, x3: real, y0: real, y1: real, y2: real, y3: real,
                         dot: real, dx: real, dy: real, cs: real)
    requires b0 == c0 * x0 + c1 * y0 + c && b1 == c0 * x1 + c1 * y1 + c
    requires b2 == c0 * x2 + c1 * y2 + c && b3 == c0 * x3 + c1 * y3 + c
    requires dot == a0 * b0 + a1 * b1 + a2 * b2 + a3 * b3
    requires dx == a0 * x0 + a1 * x1 + a2 * x2 + a3 * x3
    requires dy == a0 * y0 + a1 * y1 + a2 * y2 + a3 * y3
    requires cs == a0 + a1 + a2 + a3
    ensures dot == c0 * dx + c1 * dy + c * cs
  {
    ScaleCombination(a0, b0, c0, x0, c1, y0, c);
    ScaleCombination(a1, b1, c0, x1, c1, y1, c);
    ScaleCombination(a2, b2, c0, x2, c1, y2, c);
    ScaleCombination(a3, b3, c0, x3, c1, y3, c);
  }

  /** One product of a combination: a * (c0 * x + c1 * y + c), distributed. */
  lemma ScaleCombination(a: real, b: real, c0: real, x: real, c1: real, y: real, c: real)
    requires b == c0 * x + c1 * y + c
    ensures a * b == c0 * (a * x) + c1 * (a * y) + c * a
  {
  }

  /** A contraction is linear in its second operand, constants included: if
      column j of b is c0 * x(.,0) + c1 * x(.,1) + c, the contraction is the same
      combination of contractions with x and of the column sum of a. */
  lemma DotOfCombinationRight(a: seq<seq<real>>, i: nat, b: seq<seq<real>>, j: nat,
                              x: seq<seq<real>>, c0: real, c1: real, c: real)
    requires IsMatrix(a, NNE, NDIM) && IsMatrix(b, NNE, NDIM) && IsMatrix(x, NNE, NDIM)
    requires i < NDIM && j < NDIM
    requires forall m :: 0 <= m < NNE ==> b[m][j] == c0 * x[m][0] + c1 * x[m][1] + c
    ensures Dot(a, i, b, j) == c0 * Dot(a, i, x, 0) + c1 * Dot(a, i, x, 1) + c * ColumnSum(a, i)
  {
    assert b[0][j] == c0 * x[0][0] + c1 * x[0][1] + c && b[1][j] == c0 * x[1][0] + c1 * x[1][1] + c;
    assert b[2][j] == c0 * x[2][0] + c1 * x[2][1] + c && b[3][j] == c0 * x[3][0] + c1 * x[3][1] + c;
    DotExpanded(a, i, b, j);
    DotExpanded(a, i, x, 0);
    DotExpanded(a, i, x, 1);
    ColumnSumExpanded(a, i);
    CombinationRight(c0, c1, c, a[0][i], a[1][i], a[2][i], a[3][i], b[0][j], b[1][j], b[2][j], b[3][j],
                     x[0][0], x[1][0], x[2][0], x[3][0], x[0][1], x[1][1], x[2][1], x[3][1],
                     Dot(a, i, b, j), Dot(a, i, x, 0), Dot(a, i, x, 1), ColumnSum(a, i));
  }

  /** Four combinations z(k) = c0 * x(k) + c1 * y(k) of two zero-sum columns
      sum to zero, over plain reals. */
  lemma CombinationOfZeroSums(c0: real, c1: real, x0: real, x1: real, x2: real, x3: real,
                              y0: real, y1: real, y2: real, y3: real,
                              z0: real, z1: real, z2: real, z3: real)
    requires x0 + x1 + x2 + x3 == 0.0 && y0 + y1 + y2 + y3 == 0.0
    requires z0 == c0 * x0 + c1 * y0 && z1 == c0 * x1 + c1 * y1
    requires z2 == c0 * x2 + c1 * y2 && z3 == c0 * x3 + c1 * y3
    ensures z0 + z1 + z2 + z3 == 0.0
  {
    assert z0 + z1 + z2 + z3 == c0 * (x0 + x1 + x2 + x3) + c1 * (y0 + y1 + y2 + y3);
  }

  /** The entries of the global gradients, row by row. */
  lemma GlobalGradientEntries(dNxi: seq<seq<real>>, jinv: Tensor2)
    requires IsMatrix(dNxi, NNE, NDIM)
    ensures var d := GlobalGradient(dNxi, jinv);
      forall m :: 0 <= m < NNE ==>
        d[m][0] == jinv.xx * dNxi[m][0] + jinv.xy * dNxi[m][1] &&
        d[m][1] == jinv.yx * dNxi[m][0] + jinv.yy * dNxi[m][1]
  {
  }

  /** The global gradients of the shape functions sum to 0 over the nodes, in
      each direction, whenever the local ones do. */
  lemma GlobalGradientColumnsSumToZero(dNxi: seq<seq<real>>, jinv: Tensor2, i: nat)
    requires IsMatrix(dNxi, NNE, NDIM) && i < NDIM
    requires ColumnSum(dNxi, 0) == 0.0 && ColumnSum(dNxi, 1) == 0.0
    ensures ColumnSum(GlobalGradient(dNxi, jinv), i) == 0.0
  {
    var d := GlobalGradient(dNxi, jinv);
    GlobalGradientEntries(dNxi, jinv);
    ColumnSumExpanded(dNxi, 0);
    ColumnSumExpanded(dNxi, 1);
    if i == 0 {
      ColumnSumExpanded(d, 0);
      CombinationOfZeroSums(jinv.xx, jinv.xy, dNxi[0][0], dNxi[1][0], dNxi[2][0], dNxi[3][0],
                            dNxi[0][1], dNxi[1][1], dNxi[2][1], dNxi[3][1], d[0][0], d[1][0], d[2][0], d[3][0]);
    } else {
      ColumnSumExpanded(d, 1);
      CombinationOfZeroSums(jinv.yx, jinv.yy, dNxi[0][0], dNxi[1][0], dNxi[2][0], dNxi[3][0],
                            dNxi[0][1], dNxi[1][1], dNxi[2][1], dNxi[3][1], d[0][1], d[1][1], d[2][1], d[3][1]);
    }
  }

  /** Contracting the first global gradient column (built with any tensor
      jinv) against a nodal field b combines the contractions of the local ones
      with the first row of jinv. */
  lemma GradientContractionX(dNxi: seq<seq<real>>, jinv: Tensor2, b: seq<seq<real>>, j: nat)
    requires IsMatrix(dNxi, NNE, NDIM) && IsMatrix(b, NNE, NDIM) && j < NDIM
    ensures Dot(GlobalGradient(dNxi, jinv), 0, b, j) == jinv.xx * Dot(dNxi, 0, b, j) + jinv.xy * Dot(dNxi, 1, b, j)
  {
    var d := GlobalGradient(dNxi, jinv);
    GlobalGradientEntries(dNxi, jinv);
    DotExpanded(d, 0, b, j);
    DotExpanded(dNxi, 0, b, j);
    DotExpanded(dNxi, 1, b, j);
    CombinationLeft(jinv.xx, jinv.xy, d[0][0], d[1][0], d[2][0], d[3][0],
                    dNxi[0][0], dNxi[1][0], dNxi[2][0], dNxi[3][0], dNxi[0][1], dNxi[1][1], dNxi[2][1], dNxi[3][1],
                    b[0][j], b[1][j], b[2][j], b[3][j], Dot(d, 0, b, j), Dot(dNxi, 0, b, j), Dot(dNxi, 1, b, j));
  }

  /** The same for the second column and the second row of jinv. */
  lemma GradientContractionY(dNxi: seq<seq<real>>, jinv: Tensor2, b: seq<seq<real>>, j: nat)
    requires IsMatrix(dNxi, NNE, NDIM) && IsMatrix(b, NNE, NDIM) && j < NDIM
    ensures Dot(GlobalGradient(dNxi, jinv), 1, b, j) == jinv.yx * Dot(dNxi, 0, b, j) + jinv.yy * Dot(dNxi, 1, b, j)
  {
    var d := GlobalGradient(dNxi, jinv);
    GlobalGradientEntries(dNxi, jinv);
    DotExpanded(d, 1, b, j);
    DotExpanded(dNxi, 0, b, j);
    DotExpanded(dNxi, 1, b, j);
    CombinationLeft(jinv.yx, jinv.yy, d[0][1], d[1][1], d[2][1], d[3][1],
                    dNxi[0][0], dNxi[1][0], dNxi[2][0], dNxi[3][0], dNxi[0][1], dNxi[1][1], dNxi[2][1], dNxi[3][1],
                    b[0][j], b[1][j], b[2][j], b[3][j], Dot(d, 1, b, j), Dot(dNxi, 0, b, j), Dot(dNxi, 1, b, j));
  }

  /** A table of global gradients is consistent with the positions xe when it
      annihilates constants (its columns sum to 0) and reproduces the
      coordinates: sum_m d(m,i) * x(m,j) is 1 if i == j and 0 otherwise. */
  predicate Consistent(d: seq<seq<real>>, xe: seq<seq<real>>)
    requires IsMatrix(d, NNE, NDIM) && IsMatrix(xe, NNE, NDIM)
  {
    ColumnSum(d, 0) == 0.0 && ColumnSum(d, 1) == 0.0
    && Dot(d, 0, xe, 0) == 1.0 && Dot(d, 0, xe, 1) == 0.0
    && Dot(d, 1, xe, 0) == 0.0 && Dot(d, 1, xe, 1) == 1.0
  }

  /** The gradients of compute_dN, Jinv * dNxi, are consistent with the
      element's positions whenever the local gradients sum to 0. */
  lemma ComputedGradientIsConsistent(dNxi: seq<seq<real>>, xe: seq<seq<real>>)
    requires IsMatrix(dNxi, NNE, NDIM) && IsMatrix(xe, NNE, NDIM)
    requires ColumnSum(dNxi, 0) == 0.0 && ColumnSum(dNxi, 1) == 0.0
    requires Det(Jacobian(dNxi, xe)) != 0.0
    ensures Consistent(GlobalGradient(dNxi, Inv(Jacobian(dNxi, xe))), xe)
  {
    var J := Jacobian(dNxi, xe);
    var jinv := Inv(J);
    InvIsInverse(J);
    GradientContractionX(dNxi, jinv, xe, 0);
    GradientContractionX(dNxi, jinv, xe, 1);
    GradientContractionY(dNxi, jinv, xe, 0);
    GradientContractionY(dNxi, jinv, xe, 1);
    GlobalGradientColumnsSumToZero(dNxi, jinv, 0);
    GlobalGradientColumnsSumToZero(dNxi, jinv, 1);
  }

  /** The nodal values u(m,j) = sum_l A(j,l) * x(m,l) + c(j) of an affine field. */
  function AffineField(xe: seq<seq<real>>, a: Tensor2, c0: real, c1: real): (u: seq<seq<real>>)
    requires IsMatrix(xe, NNE, NDIM)
    ensures IsMatrix(u, NNE, NDIM)
  {
    seq(NNE, m requires 0 <= m < NNE =>
      [a.xx * xe[m][0] + a.xy * xe[m][1] + c0, a.yx * xe[m][0] + a.yy * xe[m][1] + c1])
  }

  /** The entries of an affine field, node by node. */
  lemma AffineFieldEntries(xe: seq<seq<real>>, a: Tensor2, c0: real, c1: real)
    requires IsMatrix(xe, NNE, NDIM)
    ensures var u := AffineField(xe, a, c0, c1);
      forall m :: 0 <= m < NNE ==>
        u[m][0] == a.xx * xe[m][0] + a.xy * xe[m][1] + c0 &&
        u[m][1] == a.yx * xe[m][0] + a.yy * xe[m][1] + c1
  {
  }

  /** Contracting column i of any table d with the first component of an
      affine field combines the contractions of d with the coordinates and its
      column sum, with the first row of A and c(0) as coefficients. */
  lemma AffineContractionX(d: seq<seq<real>>, xe: seq<seq<real>>, a: Tensor2, c0: real, c1: real, i: nat)
    requires IsMatrix(d, NNE, NDIM) && IsMatrix(xe, NNE, NDIM) && i < NDIM
    ensures Dot(d, i, AffineField(xe, a, c0, c1), 0)
      == a.xx * Dot(d, i, xe, 0) + a.xy * Dot(d, i, xe, 1) + c0 * ColumnSum(d, i)
  {
    AffineFieldEntries(xe, a, c0, c1);
    DotOfCombinationRight(d, i, AffineField(xe, a, c0, c1), 0, xe, a.xx, a.xy, c0);
  }

  /** The same for the second component, with the second row of A and c(1). */
  lemma AffineContractionY(d: seq<seq<real>>, xe: seq<seq<real>>, a: Tensor2, c0: real, c1: real, i: nat)
    requires IsMatrix(d, NNE, NDIM) && IsMatrix(xe, NNE, NDIM) && i < NDIM
    ensures Dot(d, i, AffineField(xe, a, c0, c1), 1)
      == a.yx * Dot(d, i, xe, 0) + a.yy * Dot(d, i, xe, 1) + c1 * ColumnSum(d, i)
  {
    AffineFieldEntries(xe, a, c0, c1);
    DotOfCombinationRight(d, i, AffineField(xe, a, c0, c1), 1, xe, a.yx, a.yy, c1);
  }

  /** A consistent gradient table is exact for every affine field:
      sum_m d(m,i) * u(m,j) == A(j,i). */
  lemma AffineExactness(d: seq<seq<real>>, xe: seq<seq<real>>, a: Tensor2, c0: real, c1: real,
                        i: nat, j: nat)
    requires IsMatrix(d, NNE, NDIM) && IsMatrix(xe, NNE, NDIM)
    requires i < NDIM && j < NDIM && Consistent(d, xe)
    ensures Dot(d, i, AffineField(xe, a, c0, c1), j) == Component(a, j, i)
  {
    if j == 0 {
      AffineContractionX(d, xe, a, c0, c1, i);
      AffineCollapse(a.xx, a.xy, c0, Dot(d, i, xe, 0), Dot(d, i, xe, 1), ColumnSum(d, i), i);
    } else {
      AffineContractionY(d, xe, a, c0, c1, i);
      AffineCollapse(a.yx, a.yy, c1, Dot(d, i, xe, 0), Dot(d, i, xe, 1), ColumnSum(d, i), i);
    }
  }

  /** The last step of AffineExactness over plain reals: with the
      contractions against the coordinates the Kronecker delta and a zero sum,
      the combination picks coefficient i. */
  lemma AffineCollapse(c0: real, c1: real, c: real, d0: real, d1: real, cs: real, i: nat)
    requires i < NDIM && cs == 0.0
    requires d0 == (if i == 0 then 1.0 else 0.0) && d1 == (if i == 1 then 1.0 else 0.0)
    ensures c0 * d0 + c1 * d1 + c * cs == if i == 0 then c0 else c1
  {
  }
}
