/** Faces of the Kuhn tetrahedra: inside the box two tetrahedra share each, on its surface one has it. */
module KuhnConformity {
  import opened KuhnGrid

  /** The face of `tet` that leaves out vertex `omit` of its path. */
  datatype Facet = Facet(tet: Tet, omit: int) {
    predicate Valid(n: Counts) {
      IsCell(n, tet.cell) && 0 <= omit < 4
    }
  }

  datatype Triangle = Triangle(a: Node, b: Node, c: Node)

  /** The nodes of a face, in path order. */
  function Nodes(f: Facet): Triangle
    requires 0 <= f.omit < 4
  {
    Triangle(PathNode(f.tet, if f.omit == 0 then 1 else 0),
             PathNode(f.tet, if f.omit <= 1 then 2 else 1),
             PathNode(f.tet, if f.omit <= 2 then 3 else 2))
  }

  /** The tetrahedron on the other side of a face, and the vertex that it leaves out there. */
  function Mate(f: Facet): Facet
    requires 0 <= f.omit < 4
  {
    var cell, perm := f.tet.cell, f.tet.perm;
    match f.omit
    case 0 => Facet(Tet(cell.Step(perm.First()), perm.RotateLeft()), 3)
    case 1 => Facet(Tet(cell, perm.SwapFirst()), 1)
    case 2 => Facet(Tet(cell, perm.SwapLast()), 2)
    case 3 => Facet(Tet(cell.Back(perm.Third()), perm.RotateRight()), 0)
  }

  /** The mate is another tetrahedron with the same face, and the relation is mutual. */
  lemma MateSharesFace(f: Facet)
    requires 0 <= f.omit < 4
    ensures Mate(f).tet != f.tet && Mate(Mate(f)) == f
    ensures Nodes(Mate(f)) == Nodes(f)
  {
  }

  /** How many axes the path advances along each edge of the face. */
  function Advance(p: Node, q: Node): int {
    q.i - p.i + q.j - p.j + q.k - p.k
  }

  lemma AdvanceTellsOmitted(f: Facet)
    requires 0 <= f.omit < 4
    ensures Advance(Nodes(f).a, Nodes(f).b) == (if f.omit == 1 then 2 else 1)
    ensures Advance(Nodes(f).b, Nodes(f).c) == (if f.omit == 2 then 2 else 1)
  {
  }

  lemma OuterSharers(f: Facet, h: Facet)
    requires f.omit in {0, 3} && h.omit in {0, 3} && Nodes(f) == Nodes(h)
    ensures h == f || h == Mate(f)
  {
  }

  lemma InnerSharers(f: Facet, h: Facet)
    requires f.omit == h.omit && f.omit in {1, 2} && Nodes(f) == Nodes(h)
    ensures h == f || h == Mate(f)
  {
  }

  /** No third tetrahedron has the face. */
  lemma OnlyTheMateShares(f: Facet, h: Facet)
    requires 0 <= f.omit < 4 && 0 <= h.omit < 4
    ensures Nodes(h) == Nodes(f) <==> h == f || h == Mate(f)
  {
    hide PathNode;
    MateSharesFace(f);
    if Nodes(h) == Nodes(f) {
      AdvanceTellsOmitted(f);
      AdvanceTellsOmitted(h);
      hide Nodes, Advance, Mate;
      if f.omit in {1, 2} {
        InnerSharers(f, h);
      } else {
        OuterSharers(f, h);
      }
    }
  }

  // ----- The surface of the box -----

  /** All nodes of the face lie on the low or high end of axis `a`. */
  predicate OnBoxFace(n: Counts, f: Facet, a: Axis, high: bool)
    requires 0 <= f.omit < 4
  {
    var level := if high then n.Along(a) else 0;
    var t := Nodes(f);
    t.a.Along(a) == level && t.b.Along(a) == level && t.c.Along(a) == level
  }

  /** A face lies on the box surface exactly when the cell beyond it is outside the grid. */
  lemma SurfaceHasNoMate(n: Counts, f: Facet)
    requires n.Valid() && f.Valid(n)
    ensures (exists a, high :: OnBoxFace(n, f, a, high)) <==> !Mate(f).Valid(n)
  {
    if f.omit == 0 {
      assert !Mate(f).Valid(n) ==> OnBoxFace(n, f, f.tet.perm.First(), true);
    } else if f.omit == 3 {
      assert !Mate(f).Valid(n) ==> OnBoxFace(n, f, f.tet.perm.Third(), false);
    }
  }

  // ----- Counting the faces on one side of the box -----

  /** The two axes within a box face. */
  function Across(a: Axis): Axis {
    if a == X then Y else X
  }

  function Up(a: Axis): Axis {
    if a == Z then Y else Z
  }

  function CellOn(a: Axis, level: int, u: int, v: int): Node {
    match a
    case X => Node(level, u, v)
    case Y => Node(u, level, v)
    case Z => Node(u, v, level)
  }

  /** The order that starts with `a`. */
  function StartingWith(a: Axis, swapped: bool): Perm {
    match a
    case X => if swapped then XZY else XYZ
    case Y => if swapped then YZX else YXZ
    case Z => if swapped then ZYX else ZXY
  }

  /** The two triangles of square (u, v) on a side of the box. */
  function SideFacet(n: Counts, a: Axis, high: bool, u: int, v: int, swapped: bool): Facet {
    if high then Facet(Tet(CellOn(a, n.Along(a) - 1, u, v), StartingWith(a, swapped)), 0)
    else Facet(Tet(CellOn(a, 0, u, v), StartingWith(a, swapped).RotateLeft()), 3)
  }

  /** The square of a face within the side. */
  function Row(a: Axis, f: Facet): int {
    f.tet.cell.Along(Across(a))
  }

  function Column(a: Axis, f: Facet): int {
    f.tet.cell.Along(Up(a))
  }

  /** One of the two triangles of its square. */
  predicate IsSideFacet(n: Counts, a: Axis, high: bool, f: Facet) {
    || f == SideFacet(n, a, high, Row(a, f), Column(a, f), false)
    || f == SideFacet(n, a, high, Row(a, f), Column(a, f), true)
  }

  lemma SquareOfSideFacet(n: Counts, a: Axis, high: bool, u: int, v: int, swapped: bool)
    ensures Row(a, SideFacet(n, a, high, u, v, swapped)) == u
    ensures Column(a, SideFacet(n, a, high, u, v, swapped)) == v
    ensures SideFacet(n, a, high, u, v, false) != SideFacet(n, a, high, u, v, true)
  {
  }

  /** The face that is left behind when the path starts, or ends, across this side of the box. */
  predicate LeavesSide(n: Counts, f: Facet, a: Axis, high: bool) {
    if high then f.omit == 0 && f.tet.perm.First() == a && f.tet.cell.Along(a) == n.Along(a) - 1
    else f.omit == 3 && f.tet.perm.Third() == a && f.tet.cell.Along(a) == 0
  }

  lemma OnBoxFaceMeansLeaving(n: Counts, f: Facet, a: Axis, high: bool)
    requires n.Valid() && f.Valid(n)
    ensures OnBoxFace(n, f, a, high) <==> LeavesSide(n, f, a, high)
  {
  }

  /** The faces on a side of the box are the two triangles of each of its squares. */
  lemma SideFacetsAreExact(n: Counts, f: Facet, a: Axis, high: bool)
    requires n.Valid()
    ensures f.Valid(n) && OnBoxFace(n, f, a, high)
            <==> IsSideFacet(n, a, high, f) && 0 <= Row(a, f) < n.Along(Across(a)) && 0 <= Column(a, f) < n.Along(Up(a))
  {
    hide OnBoxFace;
    if f.Valid(n) {
      OnBoxFaceMeansLeaving(n, f, a, high);
    }
  }

  /** The faces of the first `cols` squares in row `u`. */
  function RowFacets(n: Counts, a: Axis, high: bool, u: int, cols: nat): set<Facet> {
    if cols == 0 then {}
    else RowFacets(n, a, high, u, cols - 1)
         + {SideFacet(n, a, high, u, cols - 1, false)} + {SideFacet(n, a, high, u, cols - 1, true)}
  }

  lemma {:induction false} RowMembers(n: Counts, a: Axis, high: bool, u: int, cols: nat, f: Facet)
    ensures f in RowFacets(n, a, high, u, cols)
            <==> IsSideFacet(n, a, high, f) && Row(a, f) == u && 0 <= Column(a, f) < cols
  {
    hide SideFacet, Row, Column;
    if cols > 0 {
      RowMembers(n, a, high, u, cols - 1, f);
      SquareOfSideFacet(n, a, high, u, cols - 1, false);
      SquareOfSideFacet(n, a, high, u, cols - 1, true);
    }
  }

  lemma {:induction false} RowCount(n: Counts, a: Axis, high: bool, u: int, cols: nat)
    ensures |RowFacets(n, a, high, u, cols)| == 2 * cols
  {
    hide SideFacet, Row, Column, IsSideFacet;
    if cols > 0 {
      var plain, swapped := SideFacet(n, a, high, u, cols - 1, false), SideFacet(n, a, high, u, cols - 1, true);
      RowCount(n, a, high, u, cols - 1);
      SquareOfSideFacet(n, a, high, u, cols - 1, false);
      SquareOfSideFacet(n, a, high, u, cols - 1, true);
      RowMembers(n, a, high, u, cols - 1, plain);
      RowMembers(n, a, high, u, cols - 1, swapped);
    }
  }

  /** The faces of the first `rows` rows of a side. */
  function SideFacets(n: Counts, a: Axis, high: bool, rows: nat, cols: nat): set<Facet> {
    if rows == 0 then {} else SideFacets(n, a, high, rows - 1, cols) + RowFacets(n, a, high, rows - 1, cols)
  }

  lemma {:induction false} SideMembers(n: Counts, a: Axis, high: bool, rows: nat, cols: nat, f: Facet)
    ensures f in SideFacets(n, a, high, rows, cols)
            <==> IsSideFacet(n, a, high, f) && 0 <= Row(a, f) < rows && 0 <= Column(a, f) < cols
  {
    hide RowFacets, IsSideFacet, Row, Column;
    if rows > 0 {
      SideMembers(n, a, high, rows - 1, cols, f);
      RowMembers(n, a, high, rows - 1, cols, f);
    }
  }

  lemma RowsAreDisjoint(n: Counts, a: Axis, high: bool, rows: nat, cols: nat)
    ensures SideFacets(n, a, high, rows, cols) !! RowFacets(n, a, high, rows, cols)
  {
    hide SideFacets, RowFacets, IsSideFacet, Row, Column;
    forall f ensures !(f in SideFacets(n, a, high, rows, cols) && f in RowFacets(n, a, high, rows, cols)) {
      SideMembers(n, a, high, rows, cols, f);
      RowMembers(n, a, high, rows, cols, f);
    }
  }

  lemma {:induction false} SideCount(n: Counts, a: Axis, high: bool, rows: nat, cols: nat)
    ensures |SideFacets(n, a, high, rows, cols)| == rows * (2 * cols)
  {
    hide RowFacets;
    if rows > 0 {
      SideCount(n, a, high, rows - 1, cols);
      RowCount(n, a, high, rows - 1, cols);
      RowsAreDisjoint(n, a, high, rows - 1, cols);
      OneMoreRow(rows - 1, 2 * cols);
    }
  }

  lemma OneMoreRow(rows: int, size: int)
    ensures rows * size + size == (rows + 1) * size
  {
  }

  /** All faces of all tetrahedra. */
  function AllFacets(n: Counts): set<Facet> {
    set i, j, k, perm, omit | 0 <= i < n.nx && 0 <= j < n.ny && 0 <= k < n.nz && 0 <= omit < 4 ::
      Facet(Tet(Node(i, j, k), perm), omit)
  }

  lemma AllFacetsAreValid(n: Counts, f: Facet)
    ensures f in AllFacets(n) <==> f.Valid(n)
  {
    if f.Valid(n) {
      assert f == Facet(Tet(Node(f.tet.cell.i, f.tet.cell.j, f.tet.cell.k), f.tet.perm), f.omit);
    }
  }

  /** The faces whose nodes all lie on one side of the box. */
  function BoundaryFacets(n: Counts, a: Axis, high: bool): set<Facet> {
    set f | f in AllFacets(n) && 0 <= f.omit < 4 && OnBoxFace(n, f, a, high)
  }

  lemma BoundaryFacetsAreSideFacets(n: Counts, a: Axis, high: bool)
    requires n.Valid()
    ensures BoundaryFacets(n, a, high) == SideFacets(n, a, high, n.Along(Across(a)), n.Along(Up(a)))
  {
    var rows, cols := n.Along(Across(a)), n.Along(Up(a));
    hide OnBoxFace, SideFacets, AllFacets, IsSideFacet, Row, Column;
    forall f ensures f in BoundaryFacets(n, a, high) <==> f in SideFacets(n, a, high, rows, cols) {
      AllFacetsAreValid(n, f);
      SideMembers(n, a, high, rows, cols, f);
      SideFacetsAreExact(n, f, a, high);
    }
  }

  lemma TwiceProduct(rows: nat, cols: nat)
    ensures rows * (2 * cols) == 2 * rows * cols
  {
  }

  /** Each side of the box carries two triangles per square. */
  lemma BoundaryCount(n: Counts, a: Axis, high: bool)
    requires n.Valid()
    ensures |BoundaryFacets(n, a, high)| == 2 * n.Along(Across(a)) * n.Along(Up(a))
  {
    hide BoundaryFacets, SideFacets;
    BoundaryFacetsAreSideFacets(n, a, high);
    SideCount(n, a, high, n.Along(Across(a)), n.Along(Up(a)));
    TwiceProduct(n.Along(Across(a)), n.Along(Up(a)));
  }
}
