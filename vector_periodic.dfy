/**
 * The conversions of a Vector on the regular 2 x 2 mesh of Quad4 elements
 * with periodic DOFs:
 *
 *   6 --- 7 --- 8
 *   |  2  |  3  |
 *   3 --- 4 --- 5
 *   |  0  |  1  |
 *   0 --- 1 --- 2
 *
 * The corners 0, 2, 6, 8 share DOFs {0, 1}, the edge midpoints 1 and 7
 * share {2, 3}, 3 and 5 share {4, 5}, and the centre node 4 has {6, 7}.
 */
module VectorPeriodic {
  import opened Mesh
  import opened Vector

  function PeriodicConn(): seq<seq<nat>>
  {
    [[0, 1, 4, 3], [1, 2, 5, 4], [3, 4, 7, 6], [4, 5, 8, 7]]
  }

  function PeriodicDofs(): seq<seq<nat>>
  {
    [[0, 1], [2, 3], [0, 1], [4, 5], [6, 7], [4, 5], [0, 1], [2, 3], [0, 1]]
  }

  function PeriodicVector(): VectorDef
  {
    VectorDef(PeriodicConn(), PeriodicDofs())
  }

  /** The periodic velocity field of the first two sections. */
  function Velocity(): seq<seq<real>>
  {
    [[1.0, 0.0], [1.0, 0.0], [1.0, 0.0], [1.5, 0.0], [1.5, 0.0], [1.5, 0.0], [1.0, 0.0], [1.0, 0.0], [1.0, 0.0]]
  }

  /** Its values per DOF. */
  function VelocityDofs(): seq<real>
  {
    [1.0, 0.0, 1.0, 0.0, 1.5, 0.0, 1.5, 0.0]
  }

  /** The force field of the last two sections: x runs -1, 0, 1 along the
      columns and y along the rows, so partners carry opposite forces. */
  function Force(): seq<seq<real>>
  {
    [[-1.0, -1.0], [0.0, -1.0], [1.0, -1.0], [-1.0, 0.0], [0.0, 0.0], [1.0, 0.0], [-1.0, 1.0], [0.0, 1.0], [1.0, 1.0]]
  }

  /** The mesh is well formed: 4 elements of 4 nodes, 9 nodes of 2
      components, 8 DOFs (4 independent nodes times 2 dimensions). */
  lemma PeriodicVectorIsValid(vec: VectorDef)
    requires vec == PeriodicVector()
    ensures vec.Valid()
    ensures vec.Nelem() == 4 && vec.Nne() == 4 && vec.Nnode() == 9 && vec.Ndim() == 2
    ensures vec.Ndof() == 8
  {
    DofsShape(vec.dofs);
    ConnShape(vec.conn);
    DofCount(vec.dofs);
    ShapesAreValid(vec);
  }

  lemma ShapesAreValid(vec: VectorDef)
    requires |vec.dofs| == 9 && forall m :: 0 <= m < 9 ==> |vec.dofs[m]| == 2
    requires |vec.conn| == 4 && forall e :: 0 <= e < 4 ==> |vec.conn[e]| == 4 && forall m :: 0 <= m < 4 ==> vec.conn[e][m] < 9
    ensures vec.Valid() && vec.Nelem() == 4 && vec.Nne() == 4 && vec.Nnode() == 9 && vec.Ndim() == 2
  {
  }

  lemma DofCount(dofs: seq<seq<nat>>)
    requires dofs == PeriodicDofs()
    ensures TableSize(Flatten(dofs)) == 8
  {
    DofsShape(dofs);
    FlattenBound(dofs, 8);
    RowsAreFlattened(dofs);
    assert dofs[4][1] == 7;
  }

  lemma DofsShape(dofs: seq<seq<nat>>)
    requires dofs == PeriodicDofs()
    ensures |dofs| == 9 && forall m :: 0 <= m < 9 ==> |dofs[m]| == 2 && dofs[m][0] < 8 && dofs[m][1] < 8
  {
  }

  lemma ConnShape(conn: seq<seq<nat>>)
    requires conn == PeriodicConn()
    ensures |conn| == 4 && forall e :: 0 <= e < 4 ==> |conn[e]| == 4 && forall m :: 0 <= m < 4 ==> conn[e][m] < 9
  {
  }

  /** "asDofs - nodevec": 8 entries, read from nodes 0, 1, 3 and 4. */
  lemma AsDofsOfVelocity(vec: VectorDef, v: seq<seq<real>>)
    requires vec == PeriodicVector() && v == Velocity()
    ensures vec.Valid() && vec.IsNodeVec(v)
    ensures var dv := vec.AsDofs(v);
      |dv| == 8
      && dv[0] == v[0][0] && dv[1] == v[0][1] && dv[2] == v[1][0] && dv[3] == v[1][1]
      && dv[4] == v[3][0] && dv[5] == v[3][1] && dv[6] == v[4][0] && dv[7] == v[4][1]
  {
    PeriodicVectorIsValid(vec);
    VelocityIsPeriodic(vec, v, VelocityDofs());
    vec.AsDofsOfNodalField(v, VelocityDofs());
    assert vec.dofs[0][0] == 0 && vec.dofs[0][1] == 1 && vec.dofs[1][0] == 2 && vec.dofs[1][1] == 3;
    assert vec.dofs[3][0] == 4 && vec.dofs[3][1] == 5 && vec.dofs[4][0] == 6 && vec.dofs[4][1] == 7;
  }

  /** The velocity is the nodal image of its DOF values. */
  lemma VelocityIsPeriodic(vec: VectorDef, v: seq<seq<real>>, g: seq<real>)
    requires vec == PeriodicVector() && v == Velocity() && g == VelocityDofs()
    ensures vec.Valid() && vec.IsNodeVec(v) && vec.IsNodalFieldOf(v, g)
  {
    PeriodicVectorIsValid(vec);
    VelocityMatches(vec.dofs, v, g);
  }

  lemma VelocityMatches(dofs: seq<seq<nat>>, v: seq<seq<real>>, g: seq<real>)
    requires dofs == PeriodicDofs() && v == Velocity() && g == VelocityDofs()
    ensures |v| == 9 && forall m :: 0 <= m < 9 ==> |v[m]| == 2
    ensures forall m, i :: 0 <= m < 9 && 0 <= i < 2 ==> dofs[m][i] < |g| && v[m][i] == g[dofs[m][i]]
  {
  }

  /** "asDofs - elemvec": DOF -> element -> DOF gives the same 8 entries;
      element 0 already uses every DOF. */
  lemma RoundTripOfVelocity(vec: VectorDef, v: seq<seq<real>>)
    requires vec == PeriodicVector() && v == Velocity()
    ensures vec.Valid() && vec.IsNodeVec(v)
    ensures var w := vec.AsDofsElement(vec.AsElement(vec.AsDofs(v)));
      |w| == 8
      && w[0] == v[0][0] && w[1] == v[0][1] && w[2] == v[1][0] && w[3] == v[1][1]
      && w[4] == v[3][0] && w[5] == v[3][1] && w[6] == v[4][0] && w[7] == v[4][1]
  {
    AsDofsOfVelocity(vec, v);
    var u := vec.AsDofs(v);
    vec.AsDofsOfAsElement(u);
    var c0 := vec.conn[0];
    assert c0 == [0, 1, 4, 3];
    assert vec.dofs[c0[0]] == [0, 1] && vec.dofs[c0[1]] == [2, 3];
    assert vec.dofs[c0[2]] == [6, 7] && vec.dofs[c0[3]] == [4, 5];
  }

  /** The share of a node with two components in DOF d. */
  lemma TwoComponentShare(dr: seq<nat>, vr: seq<real>, d: nat)
    requires |dr| == 2 && |vr| == 2
    ensures DofSum(RowWrites(dr, vr), d)
      == (if dr[0] == d then vr[0] else 0.0) + (if dr[1] == d then vr[1] else 0.0)
  {
    var ws := RowWrites(dr, vr);
    assert ws[1..][0] == ws[1] && |ws[1..][1..]| == 0;
    assert DofSum(ws[1..], d) == (if dr[1] == d then vr[1] else 0.0) + DofSum(ws[1..][1..], d);
  }

  /** The force shares of the nodes, per DOF: every DOF collects opposite
      forces of its partners. */
  lemma ForceShares(vec: VectorDef, f: seq<seq<real>>, d: nat)
    requires vec == PeriodicVector() && f == Force() && d < 8
    ensures vec.Valid() && vec.IsNodeVec(f)
    ensures var h := vec.NodeShares(f, d);
      h[0] + h[2] + h[6] + h[8] == 0.0 && h[1] + h[7] == 0.0 && h[3] + h[5] == 0.0 && h[4] == 0.0
      && (d < 2 || (h[0] == 0.0 && h[2] == 0.0 && h[6] == 0.0 && h[8] == 0.0))
      && (2 <= d < 4 || (h[1] == 0.0 && h[7] == 0.0))
      && (4 <= d < 6 || (h[3] == 0.0 && h[5] == 0.0))
  {
    PeriodicVectorIsValid(vec);
    ForceShape(f);
    var h := vec.NodeShares(f, d);
    forall n | 0 <= n < 9
      ensures h[n] == (if vec.dofs[n][0] == d then f[n][0] else 0.0) + (if vec.dofs[n][1] == d then f[n][1] else 0.0)
    {
      TwoComponentShare(vec.dofs[n], f[n], d);
    }
    ForceShareValues(vec.dofs, f, d, h);
  }

  lemma ForceShareValues(dofs: seq<seq<nat>>, f: seq<seq<real>>, d: nat, h: seq<real>)
    requires dofs == PeriodicDofs() && f == Force() && d < 8 && |h| == 9
    requires forall n :: 0 <= n < 9 ==>
      h[n] == (if dofs[n][0] == d then f[n][0] else 0.0) + (if dofs[n][1] == d then f[n][1] else 0.0)
    ensures h[0] + h[2] + h[6] + h[8] == 0.0 && h[1] + h[7] == 0.0 && h[3] + h[5] == 0.0 && h[4] == 0.0
    ensures d < 2 || (h[0] == 0.0 && h[2] == 0.0 && h[6] == 0.0 && h[8] == 0.0)
    ensures 2 <= d < 4 || (h[1] == 0.0 && h[7] == 0.0)
    ensures 4 <= d < 6 || (h[3] == 0.0 && h[5] == 0.0)
  {
    assert h[0] == (if d == 0 then -1.0 else 0.0) + (if d == 1 then -1.0 else 0.0);
    assert h[2] == (if d == 0 then 1.0 else 0.0) + (if d == 1 then -1.0 else 0.0);
    assert h[6] == (if d == 0 then -1.0 else 0.0) + (if d == 1 then 1.0 else 0.0);
    assert h[8] == (if d == 0 then 1.0 else 0.0) + (if d == 1 then 1.0 else 0.0);
    assert h[1] == (if d == 3 then -1.0 else 0.0);
    assert h[7] == (if d == 3 then 1.0 else 0.0);
    assert h[3] == (if d == 4 then -1.0 else 0.0);
    assert h[5] == (if d == 4 then 1.0 else 0.0);
    assert h[4] == 0.0;
  }

  lemma ForceShape(f: seq<seq<real>>)
    requires f == Force()
    ensures |f| == 9 && forall n :: 0 <= n < 9 ==> |f[n]| == 2
  {
  }

  lemma SumOfNine(h: seq<real>)
    requires |h| == 9
    ensures Sum(h, 9) == h[0] + h[1] + h[2] + h[3] + h[4] + h[5] + h[6] + h[7] + h[8]
  {
    assert Sum(h, 1) == h[0];
    assert Sum(h, 2) == h[0] + h[1];
    assert Sum(h, 3) == h[0] + h[1] + h[2];
    assert Sum(h, 4) == h[0] + h[1] + h[2] + h[3];
    assert Sum(h, 5) == h[0] + h[1] + h[2] + h[3] + h[4];
    assert Sum(h, 6) == h[0] + h[1] + h[2] + h[3] + h[4] + h[5];
    assert Sum(h, 7) == h[0] + h[1] + h[2] + h[3] + h[4] + h[5] + h[6];
    assert Sum(h, 8) == h[0] + h[1] + h[2] + h[3] + h[4] + h[5] + h[6] + h[7];
  }

  /** "asDofs - assembleDofs": the node forces sum to 0 on every DOF. */
  lemma AssembledForceVanishes(vec: VectorDef, f: seq<seq<real>>)
    requires vec == PeriodicVector() && f == Force()
    ensures vec.Valid() && vec.IsNodeVec(f)
    ensures var r := vec.AssembleDofs(f); |r| == 8 && forall d :: 0 <= d < 8 ==> r[d] == 0.0
  {
    PeriodicVectorIsValid(vec);
    ForceShape(f);
    forall d | 0 <= d < 8
      ensures vec.AssembleDofs(f)[d] == 0.0
    {
      AssembledForceVanishesAt(vec, f, d);
    }
  }

  lemma AssembledForceVanishesAt(vec: VectorDef, f: seq<seq<real>>, d: nat)
    requires vec == PeriodicVector() && f == Force() && d < 8
    ensures vec.Valid() && vec.IsNodeVec(f) && vec.Ndof() == 8
    ensures vec.AssembleDofs(f)[d] == 0.0
  {
    PeriodicVectorIsValid(vec);
    ForceShape(f);
    vec.AssembleElementCopies(f, d);
    ForceShares(vec, f, d);
    SumOfNine(vec.NodeShares(f, d));
  }

  /** The coordination of the mesh: corners 1, edge midpoints 2, centre 4. */
  lemma PeriodicCoordination(conn: seq<seq<nat>>)
    requires conn == PeriodicConn()
    ensures forall n :: 0 <= n < 9 ==> Occurrences(conn, n, 4) == [1, 2, 1, 2, 4, 2, 1, 2, 1][n]
  {
    forall n | 0 <= n < 9
      ensures Occurrences(conn, n, 4) == [1, 2, 1, 2, 4, 2, 1, 2, 1][n]
    {
      RowCount(conn[0], n);
      RowCount(conn[1], n);
      RowCount(conn[2], n);
      RowCount(conn[3], n);
    }
  }

  lemma RowCount(row: seq<nat>, n: nat)
    requires |row| == 4
    ensures CountIn(row, n, 4) == (if row[0] == n then 1 else 0) + (if row[1] == n then 1 else 0)
      + (if row[2] == n then 1 else 0) + (if row[3] == n then 1 else 0)
  {
    assert CountIn(row, n, 1) == (if row[0] == n then 1 else 0);
    assert CountIn(row, n, 2) == (if row[0] == n then 1 else 0) + (if row[1] == n then 1 else 0);
    assert CountIn(row, n, 3) == CountIn(row, n, 2) + (if row[2] == n then 1 else 0);
  }

  lemma WeightedNine(conn: seq<seq<nat>>, h: seq<real>)
    requires |conn| == 4 && |h| == 9
    requires forall n :: 0 <= n < 9 ==> Occurrences(conn, n, 4) == [1, 2, 1, 2, 4, 2, 1, 2, 1][n]
    ensures OccurrenceWeighted(conn, 4, h, 9)
      == h[0] + 2.0 * h[1] + h[2] + 2.0 * h[3] + 4.0 * h[4] + 2.0 * h[5] + h[6] + 2.0 * h[7] + h[8]
  {
    assert OccurrenceWeighted(conn, 4, h, 1) == h[0];
    assert OccurrenceWeighted(conn, 4, h, 2) == h[0] + 2.0 * h[1];
    assert OccurrenceWeighted(conn, 4, h, 3) == h[0] + 2.0 * h[1] + h[2];
    assert OccurrenceWeighted(conn, 4, h, 4) == h[0] + 2.0 * h[1] + h[2] + 2.0 * h[3];
    assert OccurrenceWeighted(conn, 4, h, 5) == h[0] + 2.0 * h[1] + h[2] + 2.0 * h[3] + 4.0 * h[4];
    assert OccurrenceWeighted(conn, 4, h, 6) == h[0] + 2.0 * h[1] + h[2] + 2.0 * h[3] + 4.0 * h[4] + 2.0 * h[5];
    assert OccurrenceWeighted(conn, 4, h, 7)
      == h[0] + 2.0 * h[1] + h[2] + 2.0 * h[3] + 4.0 * h[4] + 2.0 * h[5] + h[6];
    assert OccurrenceWeighted(conn, 4, h, 8)
      == h[0] + 2.0 * h[1] + h[2] + 2.0 * h[3] + 4.0 * h[4] + 2.0 * h[5] + h[6] + 2.0 * h[7];
  }

  /** "asDofs - assembleNode": the element copies, in which every node
      counts as often as its coordination, also sum to 0 on every DOF. */
  lemma AssembledElementForceVanishes(vec: VectorDef, f: seq<seq<real>>)
    requires vec == PeriodicVector() && f == Force()
    ensures vec.Valid() && vec.IsNodeVec(f)
    ensures var r := vec.AssembleDofsElement(vec.AsElementNode(f)); |r| == 8 && forall d :: 0 <= d < 8 ==> r[d] == 0.0
  {
    PeriodicVectorIsValid(vec);
    ForceShape(f);
    forall d | 0 <= d < 8
      ensures vec.AssembleDofsElement(vec.AsElementNode(f))[d] == 0.0
    {
      AssembledElementForceVanishesAt(vec, f, d);
    }
  }

  lemma AssembledElementForceVanishesAt(vec: VectorDef, f: seq<seq<real>>, d: nat)
    requires vec == PeriodicVector() && f == Force() && d < 8
    ensures vec.Valid() && vec.IsNodeVec(f) && vec.Ndof() == 8
    ensures vec.AssembleDofsElement(vec.AsElementNode(f))[d] == 0.0
  {
    PeriodicVectorIsValid(vec);
    ForceShape(f);
    vec.AssembleElementCopies(f, d);
    ForceShares(vec, f, d);
    PeriodicCoordination(vec.conn);
    WeightedNine(vec.conn, vec.NodeShares(f, d));
  }
}
