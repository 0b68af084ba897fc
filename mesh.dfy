/**
 * Integer helpers of the mesh: the element type implied by the shape of a
 * mesh, sequential DOF numbers, renumbering DOFs to the lowest indices,
 * reordering them group by group, the coordination of every node and the
 * elements around every node.
 *
 * Integer arrays are sequences of `nat`; a two-dimensional array is a
 * sequence of rows. An array of any shape that is read entry by entry (the
 * argument of the Renumber constructor) is the sequence of its entries in
 * storage order.
 */
module Mesh {
  import opened Wrappers

  // ------------------------------------------------------ element types

  datatype ElementType = Quad4 | Hex8 | Tri3

  /** Nodes per element: a quadrilateral has 4, a hexahedron 8, a triangle 3. */
  function NodesPerElement(t: ElementType): nat
  {
    match t
    case Quad4 => 4
    case Hex8 => 8
    case Tri3 => 3
  }

  /** The dimension of the space the element lives in. */
  function Dimension(t: ElementType): nat
  {
    match t
    case Quad4 => 2
    case Hex8 => 3
    case Tri3 => 2
  }

  const ElementTypeError: string := "element type not implemented"

  /** defaultElementType: the type whose dimension is the number of columns of
      coor (ndim) and whose node count is the number of columns of conn (nne);
      no such type is an error. */
  function DefaultElementType(ndim: nat, nne: nat): (r: Result<ElementType, string>)
    ensures r.Ok? ==> Dimension(r.value) == ndim && NodesPerElement(r.value) == nne
    ensures r.Err? <==> forall t: ElementType :: !(Dimension(t) == ndim && NodesPerElement(t) == nne)
    ensures r.Err? ==> r.error == ElementTypeError
  {
    if ndim == 2 && nne == 3 then Ok(Tri3)
    else if ndim == 2 && nne == 4 then Ok(Quad4)
    else if ndim == 3 && nne == 8 then Ok(Hex8)
    else Err(ElementTypeError)
  }

  /** Every type is recovered from the shape of its own meshes. */
  lemma DefaultElementTypeRoundTrip(t: ElementType)
    ensures DefaultElementType(Dimension(t), NodesPerElement(t)) == Ok(t)
  {
  }

  // ---------------------------------------------------------- DOF numbers

  /** dofs(nnode, ndim): component i of node n gets number n * ndim + i. */
  function Dofs(nnode: nat, ndim: nat): (d: seq<seq<nat>>)
    ensures |d| == nnode && forall n :: 0 <= n < nnode ==> |d[n]| == ndim
  {
    seq(nnode, n => seq(ndim, i => n * ndim + i))
  }

  lemma RowBlocksAreOrdered(n: nat, i: nat, m: nat, j: nat, ndim: nat)
    requires i < ndim && j < ndim && n < m
    ensures n * ndim + i < m * ndim + j
  {
    var t := m - n - 1;
    assert m * ndim == n * ndim + ndim + t * ndim;
  }

  lemma RowBlockIsBelow(n: nat, i: nat, nnode: nat, ndim: nat)
    requires i < ndim && n < nnode
    ensures n * ndim + i < nnode * ndim
  {
    var t := nnode - n - 1;
    assert nnode * ndim == n * ndim + ndim + t * ndim;
  }

  /** The DOF numbers are distinct and lie in [0, nnode * ndim). */
  lemma DofsAreDistinct(nnode: nat, ndim: nat, n: nat, i: nat, m: nat, j: nat)
    requires n < nnode && i < ndim && m < nnode && j < ndim
    ensures Dofs(nnode, ndim)[n][i] < nnode * ndim
    ensures Dofs(nnode, ndim)[n][i] == Dofs(nnode, ndim)[m][j] <==> n == m && i == j
  {
    var d := Dofs(nnode, ndim);
    assert d[n][i] == n * ndim + i && d[m][j] == m * ndim + j;
    RowBlockIsBelow(n, i, nnode, ndim);
    if n < m {
      RowBlocksAreOrdered(n, i, m, j, ndim);
    } else if m < n {
      RowBlocksAreOrdered(m, j, n, i, ndim);
    }
  }

  /** Every number in [0, nnode * ndim) is used. */
  lemma DofsCover(nnode: nat, ndim: nat, k: nat)
    requires k < nnode * ndim
    ensures exists n, i :: 0 <= n < nnode && 0 <= i < ndim && Dofs(nnode, ndim)[n][i] == k
  {
    var n, i := k / ndim, k % ndim;
    assert k == n * ndim + i;
    assert Dofs(nnode, ndim)[n][i] == k;
  }

  // --------------------------------------------------------- sequences

  function Elements(s: seq<nat>): set<nat>
  {
    set x | x in s
  }

  predicate StrictlyIncreasing(u: seq<nat>)
  {
    forall i, j :: 0 <= i < j < |u| ==> u[i] < u[j]
  }

  predicate NoDuplicates(s: seq<nat>)
  {
    forall i, j :: 0 <= i < j < |s| ==> s[i] != s[j]
  }

  /** The largest entry, 0 for an empty sequence. */
  function MaxEntry(s: seq<nat>): (m: nat)
    ensures forall i :: 0 <= i < |s| ==> s[i] <= m
    ensures |s| > 0 ==> m in s
  {
    if |s| == 0 then 0
    else if |s| == 1 then s[0]
    else
      var m := MaxEntry(s[1..]);
      assert forall i :: 1 <= i < |s| ==> s[i] == s[1..][i - 1];
      if s[0] < m then m else s[0]
  }

  /** The length of an index table for the entries of s: one more than the
      largest entry (xt::amax + 1). */
  function TableSize(s: seq<nat>): (n: nat)
    ensures forall i :: 0 <= i < |s| ==> s[i] < n
  {
    if |s| == 0 then 0 else MaxEntry(s) + 1
  }

  /** The rows of a two-dimensional array, or a list of lists, in order. */
  function Flatten(rows: seq<seq<nat>>): (s: seq<nat>)
  {
    if |rows| == 0 then [] else rows[0] + Flatten(rows[1..])
  }

  /** Number of entries before row k. */
  function Offset(rows: seq<seq<nat>>, k: nat): nat
    requires k <= |rows|
  {
    |Flatten(rows[..k])|
  }

  /** Entry j of row k sits at position Offset(rows, k) + j of the flattened
      rows. */
  lemma {:induction false} FlattenPosition(rows: seq<seq<nat>>, k: nat, j: nat)
    requires k < |rows| && j < |rows[k]|
    ensures Offset(rows, k) + j < |Flatten(rows)|
    ensures Flatten(rows)[Offset(rows, k) + j] == rows[k][j]
  {
    if k == 0 {
      assert rows[..0] == [];
    } else {
      FlattenPosition(rows[1..], k - 1, j);
      assert rows[1..][..k - 1] == rows[..k][1..];
      assert rows[..k][0] == rows[0];
    }
  }

  /** A bound on every entry of the rows bounds the flattened rows. */
  lemma {:induction false} FlattenBound(rows: seq<seq<nat>>, b: nat)
    requires forall i, j :: 0 <= i < |rows| && 0 <= j < |rows[i]| ==> rows[i][j] < b
    ensures forall k :: 0 <= k < |Flatten(rows)| ==> Flatten(rows)[k] < b
  {
    if |rows| > 0 {
      FlattenBound(rows[1..], b);
      assert forall k :: 0 <= k < |rows[0]| ==> rows[0][k] < b;
    }
  }

  /** The sequence of the numbers 0, 1, ..., n - 1 plus a shift. */
  function Range(n: nat, shift: nat): (r: seq<nat>)
    ensures |r| == n && forall i :: 0 <= i < n ==> r[i] == i + shift
  {
    seq(n, i => i + shift)
  }

  // ------------------------------------------------------------- unique

  /** Inserting x into a strictly increasing sequence, unless present. */
  function InsertSorted(u: seq<nat>, x: nat): (r: seq<nat>)
    requires StrictlyIncreasing(u)
    ensures StrictlyIncreasing(r) && Elements(r) == Elements(u) + {x}
  {
    if |u| == 0 then [x]
    else if x < u[0] then [x] + u
    else if x == u[0] then u
    else
      var t := InsertSorted(u[1..], x);
      assert Elements(u) == {u[0]} + Elements(u[1..]);
      ConsSorted(u[0], t);
      [u[0]] + t
  }

  /** A value below every member of an increasing sequence extends it. */
  lemma ConsSorted(h: nat, t: seq<nat>)
    requires StrictlyIncreasing(t) && forall y :: y in Elements(t) ==> h < y
    ensures StrictlyIncreasing([h] + t) && Elements([h] + t) == {h} + Elements(t)
  {
    forall i | 0 < i <= |t|
      ensures h < ([h] + t)[i]
    {
      assert t[i - 1] in Elements(t);
    }
  }

  /** The distinct values of s in increasing order (xt::unique). */
  function Unique(s: seq<nat>): (u: seq<nat>)
    ensures StrictlyIncreasing(u) && Elements(u) == Elements(s)
  {
    if |s| == 0 then []
    else
      assert Elements(s) == Elements(s[..|s| - 1]) + {s[|s| - 1]};
      InsertSorted(Unique(s[..|s| - 1]), s[|s| - 1])
  }

  /** A strictly increasing sequence has as many values as entries. */
  lemma {:induction false} StrictlyIncreasingCardinality(u: seq<nat>)
    requires StrictlyIncreasing(u)
    ensures |Elements(u)| == |u|
  {
    if |u| > 0 {
      var p := u[..|u| - 1];
      StrictlyIncreasingCardinality(p);
      assert Elements(u) == Elements(p) + {u[|u| - 1]};
      assert u[|u| - 1] !in Elements(p);
    }
  }

  /** The position of x in s. */
  function IndexOf(s: seq<nat>, x: nat): (i: nat)
    requires x in s
    ensures i < |s| && s[i] == x
  {
    if s[0] == x then 0 else 1 + IndexOf(s[1..], x)
  }

  /** The last position of x in s. */
  function LastIndexOf(s: seq<nat>, x: nat): (i: nat)
    requires x in s
    ensures i < |s| && s[i] == x && forall j :: i < j < |s| ==> s[j] != x
  {
    if s[|s| - 1] == x then |s| - 1 else LastIndexOf(s[..|s| - 1], x)
  }

  lemma PositionIsUnique(s: seq<nat>, p: nat, q: nat)
    requires NoDuplicates(s) && p < |s| && q < |s| && s[p] == s[q]
    ensures p == q
  {
  }

  // ---------------------------------------------- renumbering and reordering

  /** The lookup list m_renum of Renumber and of Reorder, fixed at
      construction; entry v is the new number of old number v. */
  datatype Renumbering = Renumbering(renum: seq<nat>)
  {
    /** index(): the lookup list itself. */
    function Index(): (r: seq<nat>)
      ensures r == renum
    {
      renum
    }

    predicate Applicable(list: seq<nat>)
    {
      forall i :: 0 <= i < |list| ==> list[i] < |renum|
    }

    /** apply(list): every entry looked up. */
    function Apply(list: seq<nat>): (r: seq<nat>)
      requires Applicable(list)
      ensures |r| == |list| && forall i :: 0 <= i < |list| ==> r[i] == Index()[list[i]]
    {
      seq(|list|, i requires 0 <= i < |list| => renum[list[i]])
    }

    /** get(dofs): apply row by row; dofs_renumbered(i,j) = index(dofs(i,j)). */
    function Get(dofs: seq<seq<nat>>): (r: seq<seq<nat>>)
      requires forall i :: 0 <= i < |dofs| ==> Applicable(dofs[i])
      ensures |r| == |dofs|
      ensures forall i :: 0 <= i < |dofs| ==> r[i] == Apply(dofs[i])
    {
      seq(|dofs|, i requires 0 <= i < |dofs| => Apply(dofs[i]))
    }
  }

  /** Renumber(dofs): every value present gets its rank among the distinct
      values; values that are not present keep the entry 0. */
  function RenumberOf(dofs: seq<nat>): (r: Renumbering)
    ensures |r.renum| == TableSize(dofs) && r.Applicable(dofs)
  {
    var u := Unique(dofs);
    Renumbering(seq(TableSize(dofs), v => if v in u then IndexOf(u, v) else 0))
  }

  /** The new number of a value present in dofs is its position among the
      distinct values in increasing order. */
  lemma RenumberEntry(dofs: seq<nat>, v: nat)
    requires v in dofs
    ensures v < |RenumberOf(dofs).renum|
    ensures RenumberOf(dofs).renum[v] < |Unique(dofs)| && Unique(dofs)[RenumberOf(dofs).renum[v]] == v
  {
    assert v in Elements(dofs);
    assert v in Unique(dofs) by {
      assert v in Elements(Unique(dofs));
    }
  }

  /** Renumbering keeps the order of the values, and equal and only equal
      values get equal numbers. */
  lemma RenumberPreservesOrder(dofs: seq<nat>, a: nat, b: nat)
    requires a in dofs && b in dofs
    ensures var r := RenumberOf(dofs).renum;
      a < |r| && b < |r| && (r[a] < r[b] <==> a < b) && (r[a] == r[b] <==> a == b)
  {
    RenumberEntry(dofs, a);
    RenumberEntry(dofs, b);
    var u, r := Unique(dofs), RenumberOf(dofs).renum;
    assert r[a] < r[b] ==> u[r[a]] < u[r[b]];
    assert r[b] < r[a] ==> u[r[b]] < u[r[a]];
  }

  /** The new numbers are exactly 0, 1, ..., k - 1 for the k distinct values:
      every value present gets a number below k, and number p goes to the
      value of rank p. */
  lemma RenumberIsCompact(dofs: seq<nat>)
    ensures |Unique(dofs)| == |Elements(dofs)|
    ensures forall i :: 0 <= i < |dofs| ==> RenumberOf(dofs).renum[dofs[i]] < |Unique(dofs)|
    ensures forall p :: 0 <= p < |Unique(dofs)| ==>
      Unique(dofs)[p] in dofs && RenumberOf(dofs).renum[Unique(dofs)[p]] == p
  {
    var u, r := Unique(dofs), RenumberOf(dofs).renum;
    StrictlyIncreasingCardinality(u);
    forall i | 0 <= i < |dofs|
      ensures r[dofs[i]] < |u|
    {
      RenumberEntry(dofs, dofs[i]);
    }
    forall p | 0 <= p < |u|
      ensures u[p] in dofs && r[u[p]] == p
    {
      assert u[p] in Elements(u);
      RenumberEntry(dofs, u[p]);
      var q := r[u[p]];
      assert u[q] == u[p];
    }
  }

  /** The example of the header: [0, 3, 4, 2] becomes [0, 2, 3, 1]. */
  lemma RenumberExample(s: seq<nat>)
    requires s == [0, 3, 4, 2]
    ensures RenumberOf(s).Apply(s) == [0, 2, 3, 1]
  {
    RenumberExampleTable(s);
    ExampleLookup(RenumberOf(s), s);
  }

  lemma ExampleLookup(r: Renumbering, s: seq<nat>)
    requires s == [0, 3, 4, 2]
    requires |r.renum| == 5 && r.renum[0] == 0 && r.renum[3] == 2 && r.renum[4] == 3 && r.renum[2] == 1
    ensures r.Apply(s) == [0, 2, 3, 1]
  {
  }

  lemma RenumberExampleTable(s: seq<nat>)
    requires s == [0, 3, 4, 2]
    ensures var r := RenumberOf(s).renum; |r| == 5 && r[0] == 0 && r[3] == 2 && r[4] == 3 && r[2] == 1
  {
    var u: seq<nat> := [0, 2, 3, 4];
    UniqueExample(s, u);
    ExampleTableSize(s);
    RenumberEntry(s, 0);
    RenumberEntry(s, 3);
    RenumberEntry(s, 4);
    RenumberEntry(s, 2);
  }

  lemma ExampleTableSize(s: seq<nat>)
    requires s == [0, 3, 4, 2]
    ensures TableSize(s) == 5
  {
    assert s[2] == 4;
  }

  lemma NonEmptyHasElements(s: seq<nat>)
    ensures |s| > 0 ==> s[0] in Elements(s)
  {
  }

  /** A set has one strictly increasing listing, so Unique(s) is the only
      strictly increasing sequence of the values of s. */
  lemma {:induction false} SortedListingIsUnique(u: seq<nat>, w: seq<nat>)
    requires StrictlyIncreasing(u) && StrictlyIncreasing(w) && Elements(u) == Elements(w)
    ensures u == w
  {
    NonEmptyHasElements(w);
    if |u| > 0 {
      assert u[0] in Elements(w);
      assert |w| > 0 && w[0] in Elements(u);
      assert u[0] == w[0];
      assert Elements(u[1..]) == Elements(u) - {u[0]} by {
        assert u == [u[0]] + u[1..];
      }
      assert Elements(w[1..]) == Elements(w) - {w[0]} by {
        assert w == [w[0]] + w[1..];
      }
      SortedListingIsUnique(u[1..], w[1..]);
      assert u == [u[0]] + u[1..] && w == [w[0]] + w[1..];
    }
  }

  lemma UniqueExample(s: seq<nat>, u: seq<nat>)
    requires s == [0, 3, 4, 2] && u == [0, 2, 3, 4]
    ensures Unique(s) == u
  {
    assert Elements(s) == {0, 2, 3, 4} == Elements(u);
    SortedListingIsUnique(Unique(s), u);
  }

  /** renumber(dofs): the DOF array renumbered by Renumber of its own entries. */
  function RenumberDofs(dofs: seq<seq<nat>>): (r: seq<seq<nat>>)
    ensures |r| == |dofs| && forall i :: 0 <= i < |dofs| ==> |r[i]| == |dofs[i]|
  {
    RowsAreFlattened(dofs);
    RenumberOf(Flatten(dofs)).Get(dofs)
  }

  /** Every entry of the rows is an entry of the flattened rows. */
  lemma RowsAreFlattened(rows: seq<seq<nat>>)
    ensures forall i, j :: 0 <= i < |rows| && 0 <= j < |rows[i]| ==> rows[i][j] in Flatten(rows)
    ensures forall i :: 0 <= i < |rows| ==> RenumberOf(Flatten(rows)).Applicable(rows[i])
  {
    forall i, j | 0 <= i < |rows| && 0 <= j < |rows[i]|
      ensures rows[i][j] in Flatten(rows)
    {
      FlattenPosition(rows, i, j);
    }
  }

  /** renumber keeps equality and order of the DOF numbers and maps them onto
      0, 1, ..., k - 1. */
  lemma RenumberDofsProperties(dofs: seq<seq<nat>>, i: nat, j: nat, p: nat, q: nat)
    requires i < |dofs| && j < |dofs[i]| && p < |dofs| && q < |dofs[p]|
    ensures var r := RenumberDofs(dofs);
      r[i][j] < |Elements(Flatten(dofs))|
      && (r[i][j] == r[p][q] <==> dofs[i][j] == dofs[p][q])
      && (r[i][j] < r[p][q] <==> dofs[i][j] < dofs[p][q])
  {
    RowsAreFlattened(dofs);
    RenumberPreservesOrder(Flatten(dofs), dofs[i][j], dofs[p][q]);
    RenumberEntry(Flatten(dofs), dofs[i][j]);
    StrictlyIncreasingCardinality(Unique(Flatten(dofs)));
  }

  /** Reorder(args): the values of the lists, in the order given, get the
      numbers 0, 1, 2, ...; a value listed twice keeps its last number;
      values not listed keep the entry 0. */
  function ReorderOf(args: seq<seq<nat>>): (r: Renumbering)
    ensures |r.renum| == TableSize(Flatten(args))
  {
    var all := Flatten(args);
    Renumbering(seq(TableSize(all), v => if v in all then LastIndexOf(all, v) else 0))
  }

  /** With no value listed twice, list k is renumbered to the consecutive
      numbers that follow all earlier lists. */
  lemma ReorderPlacesListsInOrder(args: seq<seq<nat>>, k: nat)
    requires NoDuplicates(Flatten(args)) && k < |args|
    ensures ReorderOf(args).Applicable(args[k])
    ensures ReorderOf(args).Apply(args[k]) == Range(|args[k]|, Offset(args, k))
  {
    var all, r := Flatten(args), ReorderOf(args);
    forall j | 0 <= j < |args[k]|
      ensures args[k][j] < |r.renum| && r.renum[args[k][j]] == Offset(args, k) + j
    {
      FlattenPosition(args, k, j);
      var p := LastIndexOf(all, args[k][j]);
      PositionIsUnique(all, p, Offset(args, k) + j);
    }
  }

  /** Reorder({iiu, iip}): afterwards iiu is range(nnu) and iip is
      range(nnp) + nnu. */
  lemma ReorderTwoLists(iiu: seq<nat>, iip: seq<nat>)
    requires NoDuplicates(iiu + iip)
    ensures ReorderOf([iiu, iip]).Applicable(iiu) && ReorderOf([iiu, iip]).Applicable(iip)
    ensures ReorderOf([iiu, iip]).Apply(iiu) == Range(|iiu|, 0)
    ensures ReorderOf([iiu, iip]).Apply(iip) == Range(|iip|, |iiu|)
  {
    var args: seq<seq<nat>> := [iiu, iip];
    assert args[1..][1..] == [];
    assert args[1..] == [iip];
    assert Flatten(args[1..]) == iip;
    assert Flatten(args) == iiu + iip;
    assert args[..0] == [] && args[..1] == [iiu];
    assert Flatten(args[..1]) == iiu by {
      assert args[..1][1..] == [];
    }
    ReorderPlacesListsInOrder(args, 0);
    ReorderPlacesListsInOrder(args, 1);
  }

  // ------------------------------------------------ nodes and elements

  /** How often n occurs among the first k entries of row. */
  function CountIn(row: seq<nat>, n: nat, k: nat): nat
    requires k <= |row|
  {
    if k == 0 then 0 else CountIn(row, n, k - 1) + (if row[k - 1] == n then 1 else 0)
  }

  /** How often n occurs in the first k elements of conn. */
  function Occurrences(conn: seq<seq<nat>>, n: nat, k: nat): nat
    requires k <= |conn|
  {
    if k == 0 then 0 else Occurrences(conn, n, k - 1) + CountIn(conn[k - 1], n, |conn[k - 1]|)
  }

  /** The number of nodes a connectivity refers to: one more than its
      largest node number. */
  function NodeCount(conn: seq<seq<nat>>): nat
  {
    TableSize(Flatten(conn))
  }

  /** coordination(conn): per node, the number of element slots it fills. */
  function Coordination(conn: seq<seq<nat>>): (c: seq<nat>)
    ensures |c| == NodeCount(conn)
  {
    seq(NodeCount(conn), n requires 0 <= n => Occurrences(conn, n, |conn|))
  }

  function Repeat(e: nat, k: nat): (s: seq<nat>)
    ensures |s| == k && forall i :: 0 <= i < k ==> s[i] == e
  {
    seq(k, _ => e)
  }

  /** The elements among the first k that hold node n, in element order, once
      per slot the node fills. */
  function ElementsAround(conn: seq<seq<nat>>, n: nat, k: nat): (s: seq<nat>)
    requires k <= |conn|
  {
    if k == 0 then [] else ElementsAround(conn, n, k - 1) + Repeat(k - 1, CountIn(conn[k - 1], n, |conn[k - 1]|))
  }

  /** elem2node(conn): per node, the elements connected to it. The lists
      are built in element order, so they are already sorted. */
  function Elem2Node(conn: seq<seq<nat>>): (l: seq<seq<nat>>)
    ensures |l| == NodeCount(conn)
  {
    seq(NodeCount(conn), n requires 0 <= n => ElementsAround(conn, n, |conn|))
  }

  lemma {:induction false} CountInPositive(row: seq<nat>, n: nat, k: nat)
    requires k <= |row|
    ensures CountIn(row, n, k) > 0 <==> exists m :: 0 <= m < k && row[m] == n
  {
    if k > 0 {
      CountInPositive(row, n, k - 1);
    }
  }

  /** e is in the list of node n iff n is in the connectivity of e. */
  lemma {:induction false} ElementsAroundMembership(conn: seq<seq<nat>>, n: nat, k: nat, e: nat)
    requires k <= |conn|
    ensures e in ElementsAround(conn, n, k) <==> e < k && n in conn[e]
  {
    if k > 0 {
      ElementsAroundMembership(conn, n, k - 1, e);
      var row := conn[k - 1];
      CountInPositive(row, n, |row|);
      assert n in row <==> exists m :: 0 <= m < |row| && row[m] == n;
      var rep := Repeat(k - 1, CountIn(row, n, |row|));
      assert e in ElementsAround(conn, n, k) <==> e in ElementsAround(conn, n, k - 1) || e in rep;
      if CountIn(row, n, |row|) > 0 {
        assert rep[0] == k - 1;
      }
      assert e in rep <==> e == k - 1 && CountIn(row, n, |row|) > 0;
    }
  }

  predicate Ascending(s: seq<nat>)
  {
    forall i, j :: 0 <= i < j < |s| ==> s[i] <= s[j]
  }

  /** The list of node n is ascending, strictly when no element lists a
      node twice; it has one entry per slot, so its length is the
      coordination. */
  lemma {:induction false} ElementsAroundShape(conn: seq<seq<nat>>, n: nat, k: nat)
    requires k <= |conn|
    ensures Ascending(ElementsAround(conn, n, k))
    ensures (forall e :: 0 <= e < k ==> NoDuplicates(conn[e])) ==> StrictlyIncreasing(ElementsAround(conn, n, k))
    ensures |ElementsAround(conn, n, k)| == Occurrences(conn, n, k)
    ensures forall i :: 0 <= i < |ElementsAround(conn, n, k)| ==> ElementsAround(conn, n, k)[i] < k
  {
    if k > 0 {
      ElementsAroundShape(conn, n, k - 1);
      var row := conn[k - 1];
      var p, t := ElementsAround(conn, n, k - 1), Repeat(k - 1, CountIn(row, n, |row|));
      assert ElementsAround(conn, n, k) == p + t;
      if NoDuplicates(row) {
        CountInAtMostOne(row, n, |row|);
      }
    }
  }

  lemma {:induction false} CountInAtMostOne(row: seq<nat>, n: nat, k: nat)
    requires k <= |row| && NoDuplicates(row)
    ensures CountIn(row, n, k) <= 1
  {
    if k > 0 {
      CountInAtMostOne(row, n, k - 1);
      if row[k - 1] == n {
        CountInPositive(row, n, k - 1);
      }
    }
  }

  /** elem2node and coordination agree: the list of node n holds exactly the
      elements whose connectivity contains n, in ascending order, and has as
      many entries as the coordination of n. */
  lemma Elem2NodeProperties(conn: seq<seq<nat>>, n: nat)
    requires n < NodeCount(conn)
    ensures forall e: nat :: e in Elem2Node(conn)[n] <==> e < |conn| && n in conn[e]
    ensures Ascending(Elem2Node(conn)[n])
    ensures |Elem2Node(conn)[n]| == Coordination(conn)[n]
  {
    forall e: nat
      ensures e in Elem2Node(conn)[n] <==> e < |conn| && n in conn[e]
    {
      ElementsAroundMembership(conn, n, |conn|, e);
    }
    ElementsAroundShape(conn, n, |conn|);
  }

  /** When no element lists a node twice, the coordination of n is the number
      of elements connected to n. */
  lemma CoordinationCountsElements(conn: seq<seq<nat>>, n: nat)
    requires n < NodeCount(conn)
    requires forall e :: 0 <= e < |conn| ==> NoDuplicates(conn[e])
    ensures Coordination(conn)[n] == |set e | 0 <= e < |conn| && n in conn[e]|
  {
    var l := Elem2Node(conn)[n];
    Elem2NodeProperties(conn, n);
    ElementsAroundShape(conn, n, |conn|);
    StrictlyIncreasingCardinality(l);
    assert Elements(l) == set e | 0 <= e < |conn| && n in conn[e];
  }
}
