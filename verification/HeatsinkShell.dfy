/**
 The finned plate as a solid of lattice cells and its triangulated surface. A cell is a box between
 neighbouring breakpoints; layer 0 is the base, layer 1 holds the fins.
 */
module HeatsinkShell {

  /** Breakpoints in x and y, the heights of the base and of the fin tops, and which x cells carry a fin. */
  datatype Grid = Grid(xs: seq<real>, ys: seq<real>, baseZ: real, topZ: real, fin: seq<bool>) {
    predicate Valid() {
      && |xs| >= 2 && |ys| >= 2 && |fin| == |xs| - 1
      && xs[0] == 0.0 && ys[0] == 0.0 && 0.0 < baseZ < topZ
      && Increasing(xs) && Increasing(ys)
    }

    function Cells(): nat
      requires Valid()
    {
      |xs| - 1
    }

    function Rows(): nat
      requires Valid()
    {
      |ys| - 1
    }

    function Height(l: int): real {
      if l <= 0 then 0.0 else if l == 1 then baseZ else topZ
    }

    /** The solid: the whole base layer, and the fin cells of the layer above. */
    predicate Solid(i: int, j: int, l: int)
      requires Valid()
    {
      0 <= i < Cells() && 0 <= j < Rows() && (l == 0 || (l == 1 && fin[i]))
    }
  }

  predicate Increasing(s: seq<real>) {
    forall i, j :: 0 <= i < j < |s| ==> s[i] < s[j]
  }

  datatype Direction = XLow | XHigh | YLow | YHigh | ZLow | ZHigh {
    function Dx(): int {
      match this case XLow => -1 case XHigh => 1 case _ => 0
    }

    function Dy(): int {
      match this case YLow => -1 case YHigh => 1 case _ => 0
    }

    function Dz(): int {
      match this case ZLow => -1 case ZHigh => 1 case _ => 0
    }

    function Opposite(): Direction {
      match this
      case XLow => XHigh case XHigh => XLow
      case YLow => YHigh case YHigh => YLow
      case ZLow => ZHigh case ZHigh => ZLow
    }
  }

  /** The side of cell (i, j, l) that looks in direction `out`. */
  datatype Face = Face(i: int, j: int, l: int, out: Direction)

  /** A lattice point, or the cell whose lowest corner it is. */
  datatype Vertex = Vertex(i: int, j: int, l: int)

  /** The neighbour of a cell in a direction. */
  function Beside(v: Vertex, d: Direction): Vertex {
    Vertex(v.i + d.Dx(), v.j + d.Dy(), v.l + d.Dz())
  }

  predicate SolidAt(g: Grid, cell: Vertex)
    requires g.Valid()
  {
    g.Solid(cell.i, cell.j, cell.l)
  }

  function Inside(f: Face): Vertex {
    Vertex(f.i, f.j, f.l)
  }

  function Outside(f: Face): Vertex {
    Beside(Inside(f), f.out)
  }

  /** Solid on one side, empty on the other. */
  predicate Boundary(g: Grid, f: Face)
    requires g.Valid()
  {
    SolidAt(g, Inside(f)) && !SolidAt(g, Outside(f))
  }

  /** The four corners of a face, counter-clockwise seen from outside. */
  function Corner(f: Face, c: int): Vertex
    requires 0 <= c < 4
  {
    var (i, j, l) := (f.i, f.j, f.l);
    var far := c == 2;
    match f.out
    case ZHigh => Vertex(if c == 1 || far then i + 1 else i, if c == 3 || far then j + 1 else j, l + 1)
    case ZLow => Vertex(if c == 3 || far then i + 1 else i, if c == 1 || far then j + 1 else j, l)
    case YLow => Vertex(if c == 1 || far then i + 1 else i, j, if c == 3 || far then l + 1 else l)
    case YHigh => Vertex(if c == 3 || far then i + 1 else i, j + 1, if c == 1 || far then l + 1 else l)
    case XHigh => Vertex(i + 1, if c == 1 || far then j + 1 else j, if c == 3 || far then l + 1 else l)
    case XLow => Vertex(i, if c == 3 || far then j + 1 else j, if c == 1 || far then l + 1 else l)
  }

  /**
   The directed sides of the two triangles (a, b, c) and (a, c, d) that a face is split into, in
   order. Sides 2 and 3 run along the diagonal, the others around the face.
   */
  function Side(f: Face, s: int): (Vertex, Vertex)
    requires 0 <= s < 6
  {
    match s
    case 0 => (Corner(f, 0), Corner(f, 1))
    case 1 => (Corner(f, 1), Corner(f, 2))
    case 2 => (Corner(f, 2), Corner(f, 0))
    case 3 => (Corner(f, 0), Corner(f, 2))
    case 4 => (Corner(f, 2), Corner(f, 3))
    case 5 => (Corner(f, 3), Corner(f, 0))
  }

  // ----- Each directed side belongs to one face -----

  /** The direction in which side `s` bounds its face. */
  function Across(f: Face, s: int): Direction {
    match f.out
    case ZHigh => if s == 0 then YLow else if s == 1 then XHigh else if s == 4 then YHigh else XLow
    case ZLow => if s == 0 then XLow else if s == 1 then YHigh else if s == 4 then XHigh else YLow
    case YLow => if s == 0 then ZLow else if s == 1 then XHigh else if s == 4 then ZHigh else XLow
    case YHigh => if s == 0 then XLow else if s == 1 then ZHigh else if s == 4 then XHigh else ZLow
    case XHigh => if s == 0 then ZLow else if s == 1 then YHigh else if s == 4 then ZHigh else YLow
    case XLow => if s == 0 then YLow else if s == 1 then ZHigh else if s == 4 then YHigh else ZLow
  }

  lemma SameWayFaces(f: Face, s: int, h: Face, t: int)
    requires 0 <= s < 6 && 0 <= t < 6 && Side(f, s) == Side(h, t) && h.out == f.out
    ensures f == h && s == t
  {
  }

  /** Faces at right angles on one directed side: one of them looks into the other's cell. */
  lemma PerpendicularFaces(f: Face, s: int, h: Face, t: int)
    requires 0 <= s < 6 && 0 <= t < 6 && Side(f, s) == Side(h, t)
    requires h.out != f.out && h.out != f.out.Opposite()
    ensures Inside(h) == Outside(f) || Inside(f) == Outside(h)
  {
  }

  /** Opposed faces on one directed side: back to back, or diagonally across the side. */
  lemma OpposedFaces(f: Face, s: int, h: Face, t: int)
    requires 0 <= s < 6 && 0 <= t < 6 && Side(f, s) == Side(h, t) && h.out == f.out.Opposite()
    ensures || Inside(h) == Outside(f)
            || (Inside(h) == Beside(Outside(f), Across(f, s)) && Outside(h) == Beside(Inside(f), Across(f, s)))
  {
  }

  /** No two solid cells of the plate touch along an edge with both other cells around it empty. */
  lemma NoCheckerboard(g: Grid, cell: Vertex, n: Direction, d: Direction)
    requires g.Valid() && n != d && n != d.Opposite()
    requires SolidAt(g, cell) && SolidAt(g, Beside(Beside(cell, n), d))
    ensures SolidAt(g, Beside(cell, n)) || SolidAt(g, Beside(cell, d))
  {
  }

  lemma AcrossIsPerpendicular(f: Face, s: int)
    ensures Across(f, s) != f.out && Across(f, s) != f.out.Opposite()
  {
  }

  /** Two boundary faces of the plate never share a directed side. */
  lemma SideIsUnique(g: Grid, f: Face, s: int, h: Face, t: int)
    requires g.Valid() && Boundary(g, f) && Boundary(g, h)
    requires 0 <= s < 6 && 0 <= t < 6 && Side(f, s) == Side(h, t)
    ensures f == h && s == t
  {
    hide SolidAt, Side, Across, Beside;
    if h.out == f.out {
      SameWayFaces(f, s, h, t);
    } else if h.out == f.out.Opposite() {
      OpposedFaces(f, s, h, t);
      AcrossIsPerpendicular(f, s);
      if Inside(h) != Outside(f) {
        NoCheckerboard(g, Inside(f), f.out, Across(f, s));
      }
    } else {
      PerpendicularFaces(f, s, h, t);
    }
  }

  // ----- Each directed side meets its reverse -----

  function FaceOf(cell: Vertex, out: Direction): Face {
    Face(cell.i, cell.j, cell.l, out)
  }

  function Reversed(side: (Vertex, Vertex)): (Vertex, Vertex) {
    (side.1, side.0)
  }

  /** The side of `h` that runs along `side`, if any. */
  function SlotOf(h: Face, side: (Vertex, Vertex)): (t: int)
    ensures 0 <= t < 6
  {
    if Side(h, 0) == side then 0
    else if Side(h, 1) == side then 1
    else if Side(h, 2) == side then 2
    else if Side(h, 3) == side then 3
    else if Side(h, 4) == side then 4
    else 5
  }

  /** Going around a side from `f`: the surface turns up, goes on flat, or turns down. */
  function Mate(g: Grid, f: Face, s: int): Face
    requires g.Valid()
  {
    if s == 2 || s == 3 then f
    else
      var d := Across(f, s);
      if SolidAt(g, Beside(Outside(f), d)) then FaceOf(Beside(Outside(f), d), d.Opposite())
      else if SolidAt(g, Beside(Inside(f), d)) then FaceOf(Beside(Inside(f), d), f.out)
      else FaceOf(Inside(f), d)
  }

  lemma DiagonalsReverse(f: Face, s: int)
    requires s == 2 || s == 3
    ensures Side(f, SlotOf(f, Reversed(Side(f, s)))) == Reversed(Side(f, s))
  {
  }

  lemma FlatMate(f: Face, s: int)
    requires 0 <= s < 6 && s != 2 && s != 3
    ensures var h := FaceOf(Beside(Inside(f), Across(f, s)), f.out);
            Side(h, SlotOf(h, Reversed(Side(f, s)))) == Reversed(Side(f, s))
  {
  }

  lemma ConvexMate(f: Face, s: int)
    requires 0 <= s < 6 && s != 2 && s != 3
    ensures var h := FaceOf(Inside(f), Across(f, s));
            Side(h, SlotOf(h, Reversed(Side(f, s)))) == Reversed(Side(f, s))
  {
  }

  lemma ConcaveMate(f: Face, s: int)
    requires 0 <= s < 6 && s != 2 && s != 3
    ensures var h := FaceOf(Beside(Outside(f), Across(f, s)), Across(f, s).Opposite());
            Side(h, SlotOf(h, Reversed(Side(f, s)))) == Reversed(Side(f, s))
  {
  }

  lemma BesideAndBack(cell: Vertex, n: Direction, d: Direction)
    ensures Beside(Beside(cell, n), d) == Beside(Beside(cell, d), n)
    ensures Beside(Beside(cell, d), d.Opposite()) == cell
  {
  }

  /** Every directed side of the surface is met by its reverse. */
  lemma SideHasMate(g: Grid, f: Face, s: int)
    requires g.Valid() && Boundary(g, f) && 0 <= s < 6
    ensures Boundary(g, Mate(g, f, s))
    ensures Side(Mate(g, f, s), SlotOf(Mate(g, f, s), Reversed(Side(f, s)))) == Reversed(Side(f, s))
  {
    hide SolidAt, Side, Across, Beside, SlotOf;
    if s == 2 || s == 3 {
      DiagonalsReverse(f, s);
    } else {
      var d := Across(f, s);
      BesideAndBack(Inside(f), f.out, d);
      BesideAndBack(Outside(f), f.out, d);
      FlatMate(f, s);
      ConvexMate(f, s);
      ConcaveMate(f, s);
    }
  }
}
