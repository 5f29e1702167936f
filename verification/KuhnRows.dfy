/** The rows of the mesh: each tetrahedron once, faces shared by two rows or on the surface of the box. */
module KuhnRows {
  import opened KuhnGrid
  import opened KuhnConformity

  // ----- Faces as the mesh stores them -----

  /** The vertex numbers of a face, as a set. */
  function FacetIndices(n: Counts, f: Facet): set<int>
    requires 0 <= f.omit < 4
  {
    var t := Nodes(f);
    {Idx(n, t.a), Idx(n, t.b), Idx(n, t.c)}
  }

  lemma NodesAreOrdered(n: Counts, f: Facet)
    requires f.Valid(n)
    ensures var t := Nodes(f);
            && IsNode(n, t.a) && IsNode(n, t.b) && IsNode(n, t.c)
            && Idx(n, t.a) < Idx(n, t.b) < Idx(n, t.c)
  {
    hide Idx;
    var t := f.tet;
    IdxRises(n, t.cell, t.perm.First());
    IdxRises(n, PathNode(t, 1), t.perm.Second());
    IdxRises(n, PathNode(t, 2), t.perm.Third());
  }

  lemma SortedTriplesAreSets(a: int, b: int, c: int, a': int, b': int, c': int)
    requires a < b < c && a' < b' < c' && {a, b, c} == {a', b', c'}
    ensures a == a' && b == b' && c == c'
  {
    assert a in {a', b', c'} && b in {a', b', c'} && c in {a', b', c'};
    assert a' in {a, b, c} && b' in {a, b, c} && c' in {a, b, c};
  }

  lemma SameIndicesSameNodes(n: Counts, f: Facet, h: Facet)
    requires f.Valid(n) && h.Valid(n)
    ensures FacetIndices(n, f) == FacetIndices(n, h) <==> Nodes(f) == Nodes(h)
  {
    hide Idx, IsNode, Nodes;
    NodesAreOrdered(n, f);
    NodesAreOrdered(n, h);
    var t, u := Nodes(f), Nodes(h);
    if FacetIndices(n, f) == FacetIndices(n, h) {
      SortedTriplesAreSets(Idx(n, t.a), Idx(n, t.b), Idx(n, t.c), Idx(n, u.a), Idx(n, u.b), Idx(n, u.c));
      IdxIsInjective(n, t.a, u.a);
      IdxIsInjective(n, t.b, u.b);
      IdxIsInjective(n, t.c, u.c);
    }
  }

  /** The vertex sets of faces coincide for a face and its mate, and for nothing else. */
  lemma GridIsConforming(n: Counts, f: Facet, h: Facet)
    requires n.Valid() && f.Valid(n) && h.Valid(n)
    ensures FacetIndices(n, h) == FacetIndices(n, f) <==> h == f || h == Mate(f)
    ensures Mate(f).tet != f.tet && (Mate(f).Valid(n) <==> forall a, high :: !OnBoxFace(n, f, a, high))
  {
    hide FacetIndices, Nodes, OnBoxFace, Mate;
    SameIndicesSameNodes(n, f, h);
    OnlyTheMateShares(f, h);
    MateSharesFace(f);
    SurfaceHasNoMate(n, f);
  }

  // ----- The list of tetrahedra -----

  const PERMS := [XYZ, XZY, YXZ, YZX, ZXY, ZYX]

  function CellTets(cell: Node, count: nat): seq<Tet>
    requires count <= |PERMS|
  {
    if count == 0 then [] else CellTets(cell, count - 1) + [Tet(cell, PERMS[count - 1])]
  }

  function ColumnTets(i: int, j: int, cells: nat): seq<Tet> {
    if cells == 0 then [] else ColumnTets(i, j, cells - 1) + CellTets(Node(i, j, cells - 1), 6)
  }

  function LayerTets(n: Counts, i: int, columns: nat): seq<Tet> {
    if columns == 0 then [] else LayerTets(n, i, columns - 1) + ColumnTets(i, columns - 1, n.nz)
  }

  function GridTets(n: Counts, layers: nat): seq<Tet> {
    if layers == 0 then [] else GridTets(n, layers - 1) + LayerTets(n, layers - 1, n.ny)
  }

  function Once(b: bool): nat {
    if b then 1 else 0
  }

  /** Position in the fixed order of the six axis orderings. */
  function Rank(perm: Perm): (r: nat)
    ensures r < 6 && PERMS[r] == perm
  {
    match perm case XYZ => 0 case XZY => 1 case YXZ => 2 case YZX => 3 case ZXY => 4 case ZYX => 5
  }

  lemma RankIsExact(perm: Perm, r: nat)
    requires r < |PERMS|
    ensures PERMS[r] == perm <==> Rank(perm) == r
  {
  }

  lemma OneMore<T>(s: seq<T>, x: T, t: T)
    ensures multiset(s + [x])[t] == multiset(s)[t] + Once(t == x)
  {
  }

  lemma {:induction false} CellTetsCount(cell: Node, count: nat, t: Tet)
    requires count <= |PERMS|
    ensures |CellTets(cell, count)| == count
    ensures multiset(CellTets(cell, count))[t] == Once(t.cell == cell && Rank(t.perm) < count)
  {
    if count > 0 {
      CellTetsCount(cell, count - 1, t);
      RankIsExact(t.perm, count - 1);
      OneMore(CellTets(cell, count - 1), Tet(cell, PERMS[count - 1]), t);
      hide Rank, PERMS;
    }
  }

  lemma {:induction false} ColumnTetsCount(i: int, j: int, cells: nat, t: Tet)
    ensures multiset(ColumnTets(i, j, cells))[t] == Once(t.cell.i == i && t.cell.j == j && 0 <= t.cell.k < cells)
    ensures |ColumnTets(i, j, cells)| == 6 * cells
  {
    hide CellTets;
    if cells > 0 {
      ColumnTetsCount(i, j, cells - 1, t);
      CellTetsCount(Node(i, j, cells - 1), 6, t);
    }
  }

  lemma {:induction false} LayerTetsCount(n: Counts, i: int, columns: nat, t: Tet)
    ensures multiset(LayerTets(n, i, columns))[t]
            == Once(t.cell.i == i && 0 <= t.cell.j < columns && 0 <= t.cell.k < n.nz)
    ensures |LayerTets(n, i, columns)| == columns * (6 * n.nz)
  {
    hide ColumnTets;
    if columns > 0 {
      LayerTetsCount(n, i, columns - 1, t);
      ColumnTetsCount(i, columns - 1, n.nz, t);
      OneMoreRow(columns - 1, 6 * n.nz);
    }
  }

  /** Every tetrahedron of every cell is listed exactly once. */
  lemma {:induction false} GridTetsCount(n: Counts, layers: nat, t: Tet)
    ensures multiset(GridTets(n, layers))[t]
            == Once(0 <= t.cell.i < layers && 0 <= t.cell.j < n.ny && 0 <= t.cell.k < n.nz)
    ensures |GridTets(n, layers)| == layers * (n.ny * (6 * n.nz))
  {
    hide LayerTets;
    if layers > 0 {
      GridTetsCount(n, layers - 1, t);
      LayerTetsCount(n, layers - 1, n.ny, t);
      OneMoreRow(layers - 1, n.ny * (6 * n.nz));
    }
  }

  /** The stored row of a tetrahedron: its four vertex numbers. */
  function TetRow(n: Counts, t: Tet): seq<int> {
    var c := Corners(t);
    [Idx(n, c[0]), Idx(n, c[1]), Idx(n, c[2]), Idx(n, c[3])]
  }

  function TetRows(n: Counts, tets: seq<Tet>): seq<seq<int>> {
    seq(|tets|, m requires 0 <= m < |tets| => TetRow(n, tets[m]))
  }

  lemma TetRowsConcat(n: Counts, a: seq<Tet>, b: seq<Tet>)
    ensures TetRows(n, a + b) == TetRows(n, a) + TetRows(n, b)
  {
  }

  lemma NoRows(n: Counts)
    ensures TetRows(n, []) == []
  {
  }

  // ----- Faces of rows -----

  function RowSet(row: seq<int>): set<int> {
    set c | 0 <= c < |row| :: row[c]
  }

  /** The rows that have all of `s` among their vertices. */
  function Sharers(rows: seq<seq<int>>, s: set<int>): set<int> {
    set m | 0 <= m < |rows| && s <= RowSet(rows[m])
  }

  /** All vertices of `s` lie on the low or high end of axis `a`. */
  predicate OnSide(n: Counts, s: set<int>, a: Axis, high: bool) {
    forall v :: v in s ==> Unidx(n, v).Along(a) == if high then n.Along(a) else 0
  }

  predicate OnSurface(n: Counts, s: set<int>) {
    exists a, high :: OnSide(n, s, a, high)
  }

  /** Any three vertices of a row belong to two rows, or to one row if they lie on a side of the box. */
  ghost predicate Conforming(n: Counts, rows: seq<seq<int>>) {
    forall m, s :: 0 <= m < |rows| && s <= RowSet(rows[m]) && |s| == 3 ==>
      |Sharers(rows, s)| == if OnSurface(n, s) then 1 else 2
  }

  lemma UnidxOfIdx(n: Counts, p: Node)
    requires IsNode(n, p)
    ensures Unidx(n, Idx(n, p)) == p
  {
    hide Idx, Unidx;
    IdxInRange(n, p);
    IdxIsOnto(n, Idx(n, p));
    IdxIsInjective(n, Unidx(n, Idx(n, p)), p);
  }

  lemma SideOfFace(n: Counts, f: Facet, a: Axis, high: bool)
    requires f.Valid(n)
    ensures OnSide(n, FacetIndices(n, f), a, high) <==> OnBoxFace(n, f, a, high)
  {
    hide Idx, Unidx, Nodes, IsNode;
    NodesAreOrdered(n, f);
    var t := Nodes(f);
    UnidxOfIdx(n, t.a);
    UnidxOfIdx(n, t.b);
    UnidxOfIdx(n, t.c);
    assert Idx(n, t.a) in FacetIndices(n, f) && Idx(n, t.b) in FacetIndices(n, f) && Idx(n, t.c) in FacetIndices(n, f);
  }

  lemma AllButOne(s: set<int>, all: set<int>)
    requires s <= all && |all| == |s| + 1
    ensures exists x :: x in all && s == all - {x}
  {
    var rest := all - s;
    assert all == s + rest;
    assert exists x :: x in rest by {
      assert (forall x :: x !in rest) ==> rest == {};
    }
    var x :| x in rest;
    assert |rest - {x}| == 0;
    assert s == all - {x};
  }

  lemma SubsetOfFour(s: set<int>, a: int, b: int, c: int, d: int)
    requires a < b < c < d
    ensures s <= {a, b, c, d} && |s| == 3 <==>
            s == {b, c, d} || s == {a, c, d} || s == {a, b, d} || s == {a, b, c}
  {
    if s <= {a, b, c, d} && |s| == 3 {
      AllButOne(s, {a, b, c, d});
    }
  }

  lemma PathRises(n: Counts, t: Tet)
    ensures Idx(n, PathNode(t, 0)) < Idx(n, PathNode(t, 1)) < Idx(n, PathNode(t, 2)) < Idx(n, PathNode(t, 3))
  {
    hide Idx;
    IdxRises(n, t.cell, t.perm.First());
    IdxRises(n, PathNode(t, 1), t.perm.Second());
    IdxRises(n, PathNode(t, 2), t.perm.Third());
  }

  lemma RowSetIsPath(n: Counts, t: Tet)
    ensures RowSet(TetRow(n, t))
            == {Idx(n, PathNode(t, 0)), Idx(n, PathNode(t, 1)), Idx(n, PathNode(t, 2)), Idx(n, PathNode(t, 3))}
  {
    hide Idx, PathNode;
    var row := TetRow(n, t);
    assert forall v :: v in RowSet(row) <==> v == row[0] || v == row[1] || v == row[2] || v == row[3];
  }

  /** Three vertices of a row are one of the four faces of its tetrahedron. */
  lemma TriplesAreFaces(n: Counts, t: Tet, s: set<int>)
    ensures s <= RowSet(TetRow(n, t)) && |s| == 3 <==>
            exists omit :: 0 <= omit < 4 && FacetIndices(n, Facet(t, omit)) == s
  {
    var p0, p1, p2, p3 := Idx(n, PathNode(t, 0)), Idx(n, PathNode(t, 1)), Idx(n, PathNode(t, 2)), Idx(n, PathNode(t, 3));
    PathRises(n, t);
    RowSetIsPath(n, t);
    hide Idx, PathNode, RowSet, TetRow;
    SubsetOfFour(s, p0, p1, p2, p3);
    assert FacetIndices(n, Facet(t, 0)) == {p1, p2, p3};
    assert FacetIndices(n, Facet(t, 1)) == {p0, p2, p3};
    assert FacetIndices(n, Facet(t, 2)) == {p0, p1, p3};
    assert FacetIndices(n, Facet(t, 3)) == {p0, p1, p2};
  }

  /** The one place of a tetrahedron in a list that has it once. */
  lemma OnePlace(tets: seq<Tet>, t: Tet) returns (m: int)
    requires multiset(tets)[t] == 1
    ensures 0 <= m < |tets| && forall k :: 0 <= k < |tets| && tets[k] == t ==> k == m
    ensures tets[m] == t
  {
    assert t in tets;
    m :| 0 <= m < |tets| && tets[m] == t;
    var before, after := tets[..m], tets[m + 1..];
    assert tets == before + [t] + after;
    assert t !in multiset(before) && t !in multiset(after);
    forall k | 0 <= k < |tets| && k != m ensures tets[k] != t {
      assert if k < m then tets[k] == before[k] else tets[k] == after[k - (m + 1)];
    }
  }

  lemma ListedAreCells(n: Counts, m: int)
    requires 0 <= m < |GridTets(n, n.nx)|
    ensures IsCell(n, GridTets(n, n.nx)[m].cell)
  {
    hide GridTets;
    var t := GridTets(n, n.nx)[m];
    assert multiset(GridTets(n, n.nx))[t] > 0;
    GridTetsCount(n, n.nx, t);
  }

  /** Which tetrahedra of the grid have a face: its own, and the mate's when there is one. */
  lemma TetsOfFace(n: Counts, f: Facet, t: Tet)
    requires n.Valid() && f.Valid(n) && IsCell(n, t.cell)
    ensures FacetIndices(n, f) <= RowSet(TetRow(n, t)) <==> t == f.tet || t == Mate(f).tet
  {
    hide FacetIndices, RowSet, TetRow, Mate;
    var s := FacetIndices(n, f);
    TriplesAreFaces(n, f.tet, s);
    assert FacetIndices(n, Facet(f.tet, f.omit)) == s;
    TriplesAreFaces(n, t, s);
    MateSharesFace(f);
    forall omit | 0 <= omit < 4
      ensures FacetIndices(n, Facet(t, omit)) == s <==> Facet(t, omit) == f || Facet(t, omit) == Mate(f)
    {
      GridIsConforming(n, f, Facet(t, omit));
    }
    MateIsAFace(f);
    assert t == Mate(f).tet ==> Facet(t, Mate(f).omit) == Mate(f);
  }

  lemma MateIsAFace(f: Facet)
    requires 0 <= f.omit < 4
    ensures 0 <= Mate(f).omit < 4
  {
  }

  lemma SharersOfFace(n: Counts, f: Facet)
    requires n.Valid() && f.Valid(n)
    ensures |Sharers(TetRows(n, GridTets(n, n.nx)), FacetIndices(n, f))| == if Mate(f).Valid(n) then 2 else 1
  {
    hide GridTets, FacetIndices, Mate, RowSet, TetRow;
    var tets, s := GridTets(n, n.nx), FacetIndices(n, f);
    GridIsConforming(n, f, f);
    MateIsAFace(f);
    forall m | 0 <= m < |tets| ensures s <= RowSet(TetRow(n, tets[m])) <==> tets[m] == f.tet || tets[m] == Mate(f).tet {
      ListedAreCells(n, m);
      TetsOfFace(n, f, tets[m]);
    }
    GridTetsCount(n, n.nx, f.tet);
    var own := OnePlace(tets, f.tet);
    if Mate(f).Valid(n) {
      GridTetsCount(n, n.nx, Mate(f).tet);
      var other := OnePlace(tets, Mate(f).tet);
      assert Sharers(TetRows(n, tets), s) == {own, other};
    } else {
      forall m | 0 <= m < |tets| ensures tets[m] != Mate(f).tet {
        ListedAreCells(n, m);
      }
      assert Sharers(TetRows(n, tets), s) == {own};
    }
  }

  /** The rows of the grid conform. */
  lemma RowsConform(n: Counts)
    requires n.Valid()
    ensures Conforming(n, TetRows(n, GridTets(n, n.nx)))
  {
    hide GridTets, FacetIndices, Mate, RowSet, TetRow, Sharers, OnSide, OnBoxFace;
    var tets := GridTets(n, n.nx);
    var rows := TetRows(n, tets);
    forall m, s | 0 <= m < |rows| && s <= RowSet(rows[m]) && |s| == 3
      ensures |Sharers(rows, s)| == if OnSurface(n, s) then 1 else 2
    {
      ListedAreCells(n, m);
      TriplesAreFaces(n, tets[m], s);
      var omit :| 0 <= omit < 4 && FacetIndices(n, Facet(tets[m], omit)) == s;
      var f := Facet(tets[m], omit);
      SharersOfFace(n, f);
      SurfaceHasNoMate(n, f);
      forall a, high ensures OnSide(n, s, a, high) <==> OnBoxFace(n, f, a, high) {
        SideOfFace(n, f, a, high);
      }
    }
  }

  // ----- Faces on one side of the box -----

  /** The vertex sets of the faces on one side. */
  function SideFaces(n: Counts, a: Axis, high: bool): set<set<int>> {
    FaceSets(n, BoundaryFacets(n, a, high))
  }

  function FaceSets(n: Counts, faces: set<Facet>): set<set<int>> {
    set f | f in faces && 0 <= f.omit < 4 :: FacetIndices(n, f)
  }

  lemma {:induction false} FaceSetsCount(n: Counts, faces: set<Facet>)
    requires forall f :: f in faces ==> f.Valid(n)
    requires forall f, h :: f in faces && h in faces && f.Valid(n) && h.Valid(n) ==>
               (FacetIndices(n, f) == FacetIndices(n, h) ==> f == h)
    ensures |FaceSets(n, faces)| == |faces|
  {
    hide FacetIndices;
    if faces != {} {
      var f :| f in faces;
      FaceSetsCount(n, faces - {f});
      assert FaceSets(n, faces) == FaceSets(n, faces - {f}) + {FacetIndices(n, f)};
    }
  }

  /** A vertex set on a side is three vertices of some row that all lie there, and their number is known. */
  lemma SideFacesAreExact(n: Counts, a: Axis, high: bool, s: set<int>)
    requires n.Valid()
    ensures s in SideFaces(n, a, high) <==>
              && |s| == 3 && OnSide(n, s, a, high)
              && exists m :: 0 <= m < |GridTets(n, n.nx)| && s <= RowSet(TetRow(n, GridTets(n, n.nx)[m]))
    ensures |SideFaces(n, a, high)| == 2 * n.Along(Across(a)) * n.Along(Up(a))
  {
    hide GridTets, FacetIndices, Mate, RowSet, TetRow, OnSide, OnBoxFace, AllFacets;
    var faces, tets := BoundaryFacets(n, a, high), GridTets(n, n.nx);
    forall f | f in faces ensures f.Valid(n) {
      AllFacetsAreValid(n, f);
    }
    forall f, h | f in faces && h in faces && FacetIndices(n, f) == FacetIndices(n, h) ensures f == h {
      GridIsConforming(n, f, h);
      assert OnBoxFace(n, f, a, high);
    }
    FaceSetsCount(n, faces);
    BoundaryCount(n, a, high);
    if s in SideFaces(n, a, high) {
      var f :| f in faces && 0 <= f.omit < 4 && FacetIndices(n, f) == s;
      SideOfFace(n, f, a, high);
      assert FacetIndices(n, Facet(f.tet, f.omit)) == s;
      TriplesAreFaces(n, f.tet, s);
      GridTetsCount(n, n.nx, f.tet);
      var m := OnePlace(tets, f.tet);
      assert s <= RowSet(TetRow(n, tets[m]));
    }
    if |s| == 3 && OnSide(n, s, a, high)
       && exists m :: 0 <= m < |tets| && s <= RowSet(TetRow(n, tets[m]))
    {
      var m :| 0 <= m < |tets| && s <= RowSet(TetRow(n, tets[m]));
      ListedAreCells(n, m);
      TriplesAreFaces(n, tets[m], s);
      var omit :| 0 <= omit < 4 && FacetIndices(n, Facet(tets[m], omit)) == s;
      var f := Facet(tets[m], omit);
      SideOfFace(n, f, a, high);
      AllFacetsAreValid(n, f);
      assert f in faces;
    }
  }
}
