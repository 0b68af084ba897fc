/**
 * Conversions between the three storages of a field on a mesh, given its
 * connectivity `conn` (element -> nodes) and its DOF numbers `dofs`
 * (node, component -> DOF):
 *
 *   nodevec  [nnode][ndim]       a value per node and component
 *   dofval   [ndof]              a value per DOF
 *   elemvec  [nelem][nne][ndim]  a value per element, local node, component
 *
 * Several (node, component) pairs may share one DOF, as on a periodic mesh.
 * Gathering writes `dofval(dofs(m,i)) = nodevec(m,i)` in row-major order,
 * so the last write wins; assembling adds every contribution to its DOF.
 */
module Vector {
  import opened Mesh

  /** One assignment `dofval(dof) = val` (or `+= val` when assembling). */
  datatype Write = Write(dof: nat, val: real)

  /** The writes of one node: component i goes to DOF dr[i]. */
  function RowWrites(dr: seq<nat>, vr: seq<real>): (ws: seq<Write>)
    requires |vr| == |dr|
    ensures |ws| == |dr| && forall i :: 0 <= i < |dr| ==> ws[i] == Write(dr[i], vr[i])
  {
    seq(|dr|, i requires 0 <= i < |dr| => Write(dr[i], vr[i]))
  }

  /** Last write wins: the writes applied in order to `base`. */
  function Scatter(ws: seq<Write>, base: seq<real>): (r: seq<real>)
    ensures |r| == |base|
  {
    if |ws| == 0 then base
    else
      var w := ws[0];
      Scatter(ws[1..], if w.dof < |base| then base[w.dof := w.val] else base)
  }

  /** The sum of the values written to DOF d. */
  function DofSum(ws: seq<Write>, d: nat): real
  {
    if |ws| == 0 then 0.0
    else (if ws[0].dof == d then ws[0].val else 0.0) + DofSum(ws[1..], d)
  }

  /** The DOFs a list of writes touches. */
  function Touched(ws: seq<Write>): set<nat>
  {
    set w | w in ws :: w.dof
  }

  /** Every write agrees with the reference values g. */
  predicate AgreesWith(ws: seq<Write>, g: seq<real>)
  {
    forall w :: w in ws ==> w.dof < |g| && w.val == g[w.dof]
  }

  /** Writes that agree with g leave g[d] in every DOF they touch and do
      not change the others: the order of the writes is irrelevant. */
  lemma {:induction false} ScatterAgreeing(ws: seq<Write>, base: seq<real>, g: seq<real>)
    requires AgreesWith(ws, g) && |base| == |g|
    ensures forall d :: 0 <= d < |g| ==>
      Scatter(ws, base)[d] == (if d in Touched(ws) then g[d] else base[d])
  {
    if |ws| > 0 {
      var w := ws[0];
      assert w in ws;
      var base' := base[w.dof := w.val];
      assert AgreesWith(ws[1..], g) by {
        forall x | x in ws[1..]
          ensures x in ws
        {
        }
      }
      ScatterAgreeing(ws[1..], base', g);
      assert Touched(ws) == {w.dof} + Touched(ws[1..]) by {
        assert ws == [w] + ws[1..];
      }
    }
  }

  lemma {:induction false} DofSumAppend(a: seq<Write>, b: seq<Write>, d: nat)
    ensures DofSum(a + b, d) == DofSum(a, d) + DofSum(b, d)
  {
    if |a| > 0 {
      assert (a + b)[0] == a[0] && (a + b)[1..] == a[1..] + b;
      DofSumAppend(a[1..], b, d);
    } else {
      assert a + b == b;
    }
  }

  lemma TouchedAppend(a: seq<Write>, b: seq<Write>)
    ensures Touched(a + b) == Touched(a) + Touched(b)
  {
    assert forall w :: w in a + b <==> w in a || w in b;
  }

  lemma AgreesAppend(a: seq<Write>, b: seq<Write>, g: seq<real>)
    requires AgreesWith(a, g) && AgreesWith(b, g)
    ensures AgreesWith(a + b, g)
  {
    assert forall w :: w in a + b ==> w in a || w in b;
  }

  /** The writes of a node whose values are read from g agree with g. */
  lemma RowWritesAgree(dr: seq<nat>, vr: seq<real>, g: seq<real>)
    requires |vr| == |dr| && forall i :: 0 <= i < |dr| ==> dr[i] < |g| && vr[i] == g[dr[i]]
    ensures AgreesWith(RowWrites(dr, vr), g)
  {
  }

  /** The writes of a node touch every DOF of the node. */
  lemma RowWritesTouch(dr: seq<nat>, vr: seq<real>)
    requires |vr| == |dr|
    ensures forall i :: 0 <= i < |dr| ==> dr[i] in Touched(RowWrites(dr, vr))
  {
    var ws := RowWrites(dr, vr);
    forall i | 0 <= i < |dr|
      ensures dr[i] in Touched(ws)
    {
      assert ws[i] in ws;
    }
  }

  function Sum(h: seq<real>, n: nat): real
    requires n <= |h|
  {
    if n == 0 then 0.0 else Sum(h, n - 1) + h[n - 1]
  }

  /** Sum over the nodes n < N of h[n] times the number of times n occurs
      among the first k entries of c. */
  function CountWeighted(c: seq<nat>, k: nat, h: seq<real>, n: nat): real
    requires k <= |c| && n <= |h|
  {
    if n == 0 then 0.0 else CountWeighted(c, k, h, n - 1) + (CountIn(c, n - 1, k) as real) * h[n - 1]
  }

  /** Sum over the nodes of h[n] times the number of times n occurs in the
      first k rows of conn. */
  function OccurrenceWeighted(conn: seq<seq<nat>>, k: nat, h: seq<real>, n: nat): real
    requires k <= |conn| && n <= |h|
  {
    if n == 0 then 0.0 else OccurrenceWeighted(conn, k, h, n - 1) + (Occurrences(conn, n - 1, k) as real) * h[n - 1]
  }

  lemma {:induction false} CountWeightedEmpty(c: seq<nat>, h: seq<real>, n: nat)
    requires n <= |h|
    ensures CountWeighted(c, 0, h, n) == 0.0
  {
    if n > 0 {
      CountWeightedEmpty(c, h, n - 1);
    }
  }

  lemma {:induction false} OccurrenceWeightedEmpty(conn: seq<seq<nat>>, h: seq<real>, n: nat)
    requires n <= |h|
    ensures OccurrenceWeighted(conn, 0, h, n) == 0.0
  {
    if n > 0 {
      OccurrenceWeightedEmpty(conn, h, n - 1);
    }
  }

  /** Splitting a scaled count over a sum. */
  lemma DistributeCount(p: real, q: real, a: nat, b: nat, z: real)
    ensures p + q + ((a + b) as real) * z == (p + (a as real) * z) + (q + (b as real) * z)
  {
  }

  lemma {:induction false} CountWeightedStep(c: seq<nat>, k: nat, h: seq<real>, n: nat)
    requires k < |c| && n <= |h|
    ensures CountWeighted(c, k + 1, h, n) == CountWeighted(c, k, h, n) + (if c[k] < n then h[c[k]] else 0.0)
  {
    if n > 0 {
      CountWeightedStep(c, k, h, n - 1);
      var a, b := CountIn(c, n - 1, k), if c[k] == n - 1 then 1 else 0;
      assert CountIn(c, n - 1, k + 1) == a + b;
      DistributeCount(CountWeighted(c, k, h, n - 1), if c[k] < n - 1 then h[c[k]] else 0.0, a, b, h[n - 1]);
    }
  }

  lemma {:induction false} OccurrenceWeightedStep(conn: seq<seq<nat>>, k: nat, h: seq<real>, n: nat)
    requires k < |conn| && n <= |h|
    ensures OccurrenceWeighted(conn, k + 1, h, n)
      == OccurrenceWeighted(conn, k, h, n) + CountWeighted(conn[k], |conn[k]|, h, n)
  {
    if n > 0 {
      OccurrenceWeightedStep(conn, k, h, n - 1);
      var a, b := Occurrences(conn, n - 1, k), CountIn(conn[k], n - 1, |conn[k]|);
      assert Occurrences(conn, n - 1, k + 1) == a + b;
      DistributeCount(OccurrenceWeighted(conn, k, h, n - 1), CountWeighted(conn[k], |conn[k]|, h, n - 1), a, b, h[n - 1]);
    }
  }

  // ------------------------------------------------------------ a vector

  /** GooseFEM::Vector(conn, dofs): the mesh and its DOF numbering. */
  datatype VectorDef = VectorDef(conn: seq<seq<nat>>, dofs: seq<seq<nat>>)
  {
    function Nnode(): nat { |dofs| }

    function Ndim(): nat { if |dofs| == 0 then 0 else |dofs[0]| }

    function Nelem(): nat { |conn| }

    function Nne(): nat { if |conn| == 0 then 0 else |conn[0]| }

    /** The number of DOFs: one more than the largest DOF number. */
    function Ndof(): nat { TableSize(Flatten(dofs)) }

    /** conn is nelem x nne, dofs is nnode x ndim, and conn names nodes of dofs. */
    predicate Valid()
    {
      (forall m :: 0 <= m < |dofs| ==> |dofs[m]| == Ndim())
      && (forall e :: 0 <= e < |conn| ==> |conn[e]| == Nne())
      && (forall e, m :: 0 <= e < |conn| && 0 <= m < |conn[e]| ==> conn[e][m] < |dofs|)
    }

    predicate IsNodeVec(v: seq<seq<real>>)
    {
      |v| == Nnode() && forall m :: 0 <= m < |v| ==> |v[m]| == Ndim()
    }

    predicate IsElemVec(ue: seq<seq<seq<real>>>)
    {
      |ue| == Nelem()
      && forall e :: 0 <= e < |ue| ==>
        |ue[e]| == Nne() && forall m :: 0 <= m < |ue[e]| ==> |ue[e][m]| == Ndim()
    }

    /** Every DOF number is below Ndof. */
    lemma DofBound(m: nat, i: nat)
      requires m < |dofs| && i < |dofs[m]|
      ensures dofs[m][i] < Ndof()
    {
      RowsAreFlattened(dofs);
    }

    /** The writes of the first k nodes, in row-major order. */
    function NodeWrites(v: seq<seq<real>>, k: nat): (ws: seq<Write>)
      requires Valid() && IsNodeVec(v) && k <= Nnode()
    {
      if k == 0 then [] else NodeWrites(v, k - 1) + RowWrites(dofs[k - 1], v[k - 1])
    }

    /** The writes of the first k local nodes of element e. */
    function ElementNodeWrites(ue: seq<seq<seq<real>>>, e: nat, k: nat): (ws: seq<Write>)
      requires Valid() && IsElemVec(ue) && e < Nelem() && k <= Nne()
    {
      if k == 0 then []
      else ElementNodeWrites(ue, e, k - 1) + RowWrites(dofs[conn[e][k - 1]], ue[e][k - 1])
    }

    /** The writes of the first k elements, in element order. */
    function ElementWrites(ue: seq<seq<seq<real>>>, k: nat): (ws: seq<Write>)
      requires Valid() && IsElemVec(ue) && k <= Nelem()
    {
      if k == 0 then [] else ElementWrites(ue, k - 1) + ElementNodeWrites(ue, k - 1, Nne())
    }

    /** asDofs(nodevec): dofval(dofs(m,i)) = nodevec(m,i) for every node
        and component in turn. */
    function AsDofs(v: seq<seq<real>>): (u: seq<real>)
      requires Valid() && IsNodeVec(v)
      ensures |u| == Ndof()
    {
      Scatter(NodeWrites(v, Nnode()), seq(Ndof(), _ => 0.0))
    }

    /** asDofs(elemvec): dofval(dofs(conn(e,m),i)) = elemvec(e,m,i). */
    function AsDofsElement(ue: seq<seq<seq<real>>>): (u: seq<real>)
      requires Valid() && IsElemVec(ue)
      ensures |u| == Ndof()
    {
      Scatter(ElementWrites(ue, Nelem()), seq(Ndof(), _ => 0.0))
    }

    /** asElement(dofval): every element reads the DOFs of its nodes. */
    function AsElement(u: seq<real>): (ue: seq<seq<seq<real>>>)
      requires Valid() && |u| == Ndof()
      ensures IsElemVec(ue)
    {
      seq(Nelem(), e requires 0 <= e < Nelem() =>
        seq(Nne(), m requires 0 <= m < Nne() =>
          seq(Ndim(), i requires 0 <= i < Ndim() =>
            DofBound(conn[e][m], i);
            u[dofs[conn[e][m]][i]])))
    }

    /** asElement(nodevec): every element copies the values of its nodes. */
    function AsElementNode(v: seq<seq<real>>): (ue: seq<seq<seq<real>>>)
      requires Valid() && IsNodeVec(v)
      ensures IsElemVec(ue)
    {
      seq(Nelem(), e requires 0 <= e < Nelem() =>
        seq(Nne(), m requires 0 <= m < Nne() => v[conn[e][m]]))
    }

    /** assembleDofs(nodevec): per DOF, the sum over the node components
        that share it. */
    function AssembleDofs(v: seq<seq<real>>): (u: seq<real>)
      requires Valid() && IsNodeVec(v)
      ensures |u| == Ndof()
    {
      seq(Ndof(), d requires 0 <= d => DofSum(NodeWrites(v, Nnode()), d))
    }

    /** assembleDofs(elemvec): per DOF, the sum over all element-local
        contributions to it. */
    function AssembleDofsElement(ue: seq<seq<seq<real>>>): (u: seq<real>)
      requires Valid() && IsElemVec(ue)
      ensures |u| == Ndof()
    {
      seq(Ndof(), d requires 0 <= d => DofSum(ElementWrites(ue, Nelem()), d))
    }

    // --------------------------------------------------------- properties

    /** v is the nodal image of the DOF values g: all (node, component)
        pairs that share a DOF carry that DOF's value. */
    predicate IsNodalFieldOf(v: seq<seq<real>>, g: seq<real>)
      requires Valid() && IsNodeVec(v)
    {
      |g| == Ndof() && forall m, i :: 0 <= m < |v| && 0 <= i < |v[m]| ==> dofs[m][i] < |g| && v[m][i] == g[dofs[m][i]]
    }

    predicate IsElementFieldOf(ue: seq<seq<seq<real>>>, g: seq<real>)
      requires Valid() && IsElemVec(ue)
    {
      |g| == Ndof()
      && forall e, m, i :: 0 <= e < |ue| && 0 <= m < |ue[e]| && 0 <= i < |ue[e][m]| ==>
        dofs[conn[e][m]][i] < |g| && ue[e][m][i] == g[dofs[conn[e][m]][i]]
    }

    lemma {:induction false} NodeWritesAgree(v: seq<seq<real>>, g: seq<real>, k: nat)
      requires Valid() && IsNodeVec(v) && k <= Nnode() && IsNodalFieldOf(v, g)
      ensures AgreesWith(NodeWrites(v, k), g)
    {
      if k > 0 {
        NodeWritesAgree(v, g, k - 1);
        var dr, vr := dofs[k - 1], v[k - 1];
        assert forall i :: 0 <= i < |dr| ==> dr[i] < |g| && vr[i] == g[dr[i]];
        RowWritesAgree(dr, vr, g);
        AgreesAppend(NodeWrites(v, k - 1), RowWrites(dr, vr), g);
      }
    }

    lemma {:induction false} NodeWritesTouch(v: seq<seq<real>>, k: nat)
      requires Valid() && IsNodeVec(v) && k <= Nnode()
      ensures forall m, i :: 0 <= m < k && 0 <= i < |dofs[m]| ==> dofs[m][i] in Touched(NodeWrites(v, k))
    {
      if k > 0 {
        NodeWritesTouch(v, k - 1);
        RowWritesTouch(dofs[k - 1], v[k - 1]);
        TouchedAppend(NodeWrites(v, k - 1), RowWrites(dofs[k - 1], v[k - 1]));
      }
    }

    /** asDofs of a nodal image of g reads g back at every DOF used by a
        node: which of the nodes sharing a DOF is read does not matter. */
    lemma AsDofsOfNodalField(v: seq<seq<real>>, g: seq<real>)
      requires Valid() && IsNodeVec(v) && IsNodalFieldOf(v, g)
      ensures forall m, i :: 0 <= m < Nnode() && 0 <= i < Ndim() ==> AsDofs(v)[dofs[m][i]] == v[m][i]
      ensures forall d :: 0 <= d < Ndof() ==>
        AsDofs(v)[d] == if d in Touched(NodeWrites(v, Nnode())) then g[d] else 0.0
    {
      NodeWritesAgree(v, g, Nnode());
      NodeWritesTouch(v, Nnode());
      ScatterAgreeing(NodeWrites(v, Nnode()), seq(Ndof(), _ => 0.0), g);
    }

    lemma {:induction false} ElementNodeWritesAgree(ue: seq<seq<seq<real>>>, g: seq<real>, e: nat, k: nat)
      requires Valid() && IsElemVec(ue) && e < Nelem() && k <= Nne() && IsElementFieldOf(ue, g)
      ensures AgreesWith(ElementNodeWrites(ue, e, k), g)
    {
      if k > 0 {
        ElementNodeWritesAgree(ue, g, e, k - 1);
        var dr, vr := dofs[conn[e][k - 1]], ue[e][k - 1];
        assert forall i :: 0 <= i < |dr| ==> dr[i] < |g| && vr[i] == g[dr[i]];
        RowWritesAgree(dr, vr, g);
        AgreesAppend(ElementNodeWrites(ue, e, k - 1), RowWrites(dr, vr), g);
      }
    }

    lemma {:induction false} ElementNodeWritesTouch(ue: seq<seq<seq<real>>>, e: nat, k: nat)
      requires Valid() && IsElemVec(ue) && e < Nelem() && k <= Nne()
      ensures forall m, i :: 0 <= m < k && 0 <= i < |dofs[conn[e][m]]| ==>
        dofs[conn[e][m]][i] in Touched(ElementNodeWrites(ue, e, k))
    {
      if k > 0 {
        ElementNodeWritesTouch(ue, e, k - 1);
        var dr, vr := dofs[conn[e][k - 1]], ue[e][k - 1];
        RowWritesTouch(dr, vr);
        TouchedAppend(ElementNodeWrites(ue, e, k - 1), RowWrites(dr, vr));
      }
    }

    lemma {:induction false} ElementWritesAgree(ue: seq<seq<seq<real>>>, g: seq<real>, k: nat)
      requires Valid() && IsElemVec(ue) && k <= Nelem() && IsElementFieldOf(ue, g)
      ensures AgreesWith(ElementWrites(ue, k), g)
    {
      if k > 0 {
        ElementWritesAgree(ue, g, k - 1);
        ElementNodeWritesAgree(ue, g, k - 1, Nne());
        AgreesAppend(ElementWrites(ue, k - 1), ElementNodeWrites(ue, k - 1, Nne()), g);
      }
    }

    lemma {:induction false} ElementWritesTouch(ue: seq<seq<seq<real>>>, k: nat)
      requires Valid() && IsElemVec(ue) && k <= Nelem()
      ensures forall e, m, i :: 0 <= e < k && 0 <= m < |conn[e]| && 0 <= i < |dofs[conn[e][m]]| ==>
        dofs[conn[e][m]][i] in Touched(ElementWrites(ue, k))
    {
      if k > 0 {
        var a, b := ElementWrites(ue, k - 1), ElementNodeWrites(ue, k - 1, Nne());
        ElementWritesTouch(ue, k - 1);
        ElementNodeWritesTouch(ue, k - 1, Nne());
        TouchedAppend(a, b);
        forall e, m, i | 0 <= e < k && 0 <= m < |conn[e]| && 0 <= i < |dofs[conn[e][m]]|
          ensures dofs[conn[e][m]][i] in Touched(a + b)
        {
          if e < k - 1 {
            assert dofs[conn[e][m]][i] in Touched(a);
          } else {
            assert dofs[conn[e][m]][i] in Touched(b);
          }
        }
      }
    }

    /** asElement is a true gather, and its result is the element image of
        the DOF values. */
    lemma AsElementIsElementField(u: seq<real>)
      requires Valid() && |u| == Ndof()
      ensures IsElementFieldOf(AsElement(u), u)
    {
      forall e, m, i | 0 <= e < Nelem() && 0 <= m < Nne() && 0 <= i < Ndim()
        ensures dofs[conn[e][m]][i] < |u|
      {
        DofBound(conn[e][m], i);
      }
    }

    /** Round trip DOF -> element -> DOF: every DOF that an element uses
        gets its value back, and the DOFs no element uses are 0. */
    lemma AsDofsOfAsElement(u: seq<real>)
      requires Valid() && |u| == Ndof()
      ensures forall e, m, i :: 0 <= e < Nelem() && 0 <= m < Nne() && 0 <= i < Ndim() ==>
        dofs[conn[e][m]][i] < Ndof() && AsDofsElement(AsElement(u))[dofs[conn[e][m]][i]] == u[dofs[conn[e][m]][i]]
      ensures forall d :: 0 <= d < Ndof() ==>
        AsDofsElement(AsElement(u))[d] == if d in Touched(ElementWrites(AsElement(u), Nelem())) then u[d] else 0.0
    {
      var ue := AsElement(u);
      AsElementIsElementField(u);
      ElementWritesAgree(ue, u, Nelem());
      ElementWritesTouch(ue, Nelem());
      ScatterAgreeing(ElementWrites(ue, Nelem()), seq(Ndof(), _ => 0.0), u);
    }

    /** On a nodal image, gathering through the DOFs and copying the nodal
        values give the same element field. */
    lemma AsElementOfAsDofs(v: seq<seq<real>>, g: seq<real>)
      requires Valid() && IsNodeVec(v) && IsNodalFieldOf(v, g)
      ensures AsElement(AsDofs(v)) == AsElementNode(v)
    {
      AsDofsOfNodalField(v, g);
      var a, b := AsElement(AsDofs(v)), AsElementNode(v);
      forall e, m | 0 <= e < Nelem() && 0 <= m < Nne()
        ensures a[e][m] == b[e][m]
      {
        assert |a[e][m]| == |b[e][m]|;
      }
      forall e | 0 <= e < Nelem()
        ensures a[e] == b[e]
      {
        assert |a[e]| == |b[e]|;
      }
    }

    // --------------------------------------------------------- assembly

    /** The share of node n in DOF d: the sum of its components numbered d. */
    function NodeShares(v: seq<seq<real>>, d: nat): (h: seq<real>)
      requires Valid() && IsNodeVec(v)
      ensures |h| == Nnode()
    {
      seq(Nnode(), n requires 0 <= n < Nnode() => DofSum(RowWrites(dofs[n], v[n]), d))
    }

    /** assembleDofs(nodevec) sums the shares of all nodes. */
    lemma {:induction false} AssembleDofsIsNodeSum(v: seq<seq<real>>, d: nat, k: nat)
      requires Valid() && IsNodeVec(v) && k <= Nnode()
      ensures DofSum(NodeWrites(v, k), d) == Sum(NodeShares(v, d), k)
    {
      if k > 0 {
        AssembleDofsIsNodeSum(v, d, k - 1);
        DofSumAppend(NodeWrites(v, k - 1), RowWrites(dofs[k - 1], v[k - 1]), d);
      }
    }

    /** ue copies the nodal field f onto the elements. */
    predicate CopiesNodes(ue: seq<seq<seq<real>>>, f: seq<seq<real>>)
      requires Valid() && IsNodeVec(f)
    {
      IsElemVec(ue) && forall e, m :: 0 <= e < Nelem() && 0 <= m < Nne() ==> ue[e][m] == f[conn[e][m]]
    }

    /** The writes of element e of a copied nodal field add up to the shares
        of its nodes, each node counted once per slot it fills. */
    lemma {:induction false} ElementShare(ue: seq<seq<seq<real>>>, f: seq<seq<real>>, d: nat, e: nat, k: nat)
      requires Valid() && IsNodeVec(f) && CopiesNodes(ue, f) && e < Nelem() && k <= Nne()
      ensures DofSum(ElementNodeWrites(ue, e, k), d) == CountWeighted(conn[e], k, NodeShares(f, d), Nnode())
    {
      if k > 0 {
        ElementShare(ue, f, d, e, k - 1);
        DofSumAppend(ElementNodeWrites(ue, e, k - 1), RowWrites(dofs[conn[e][k - 1]], ue[e][k - 1]), d);
        CountWeightedStep(conn[e], k - 1, NodeShares(f, d), Nnode());
        assert ue[e][k - 1] == f[conn[e][k - 1]];
      } else {
        CountWeightedEmpty(conn[e], NodeShares(f, d), Nnode());
      }
    }

    lemma ElementWritesStep(ue: seq<seq<seq<real>>>, d: nat, k: nat)
      requires Valid() && IsElemVec(ue) && 0 < k <= Nelem()
      ensures DofSum(ElementWrites(ue, k), d)
        == DofSum(ElementWrites(ue, k - 1), d) + DofSum(ElementNodeWrites(ue, k - 1, Nne()), d)
    {
      DofSumAppend(ElementWrites(ue, k - 1), ElementNodeWrites(ue, k - 1, Nne()), d);
    }

    lemma {:induction false} ElementsShare(ue: seq<seq<seq<real>>>, f: seq<seq<real>>, d: nat, k: nat)
      requires Valid() && IsNodeVec(f) && CopiesNodes(ue, f) && k <= Nelem()
      ensures DofSum(ElementWrites(ue, k), d) == OccurrenceWeighted(conn, k, NodeShares(f, d), Nnode())
    {
      if k > 0 {
        ElementsShare(ue, f, d, k - 1);
        ElementWritesStep(ue, d, k);
        ElementShare(ue, f, d, k - 1, Nne());
        assert |conn[k - 1]| == Nne();
        OccurrenceWeightedStep(conn, k - 1, NodeShares(f, d), Nnode());
      } else {
        OccurrenceWeightedEmpty(conn, NodeShares(f, d), Nnode());
      }
    }

    /** Assembling the element copies of a nodal field counts every node as
        often as it occurs in the connectivity (its coordination), while
        assembling the nodal field counts every node once. */
    lemma AssembleElementCopies(f: seq<seq<real>>, d: nat)
      requires Valid() && IsNodeVec(f) && d < Ndof()
      ensures AssembleDofsElement(AsElementNode(f))[d] == OccurrenceWeighted(conn, Nelem(), NodeShares(f, d), Nnode())
      ensures AssembleDofs(f)[d] == Sum(NodeShares(f, d), Nnode())
    {
      ElementsShare(AsElementNode(f), f, d, Nelem());
      AssembleDofsIsNodeSum(f, d, Nnode());
    }
  }
}
