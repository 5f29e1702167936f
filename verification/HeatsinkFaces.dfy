/** The faces emitted for the finned plate, in order, and the proof that they are its whole boundary, once each. */
module HeatsinkFaces {
  import opened HeatsinkShell

  /** Top layer of the solid over cell `i`. */
  function TopLayer(g: Grid, i: nat): nat
    requires g.Valid() && i < g.Cells()
  {
    if g.fin[i] then 1 else 0
  }

  /** Bottom and top of cell `i`, over its first `rows` rows. */
  function Plates(g: Grid, i: nat, rows: nat): seq<Face>
    requires g.Valid() && i < g.Cells()
  {
    if rows == 0 then []
    else Plates(g, i, rows - 1) + [Face(i, rows - 1, 0, ZLow), Face(i, rows - 1, TopLayer(g, i), ZHigh)]
  }

  /** The end of cell `i` in direction `out`: a base strip, and a fin strip above it. */
  function Strip(g: Grid, i: nat, j: int, out: Direction): seq<Face>
    requires g.Valid() && i < g.Cells()
  {
    [Face(i, j, 0, out)] + if g.fin[i] then [Face(i, j, 1, out)] else []
  }

  function CellFaces(g: Grid, i: nat): seq<Face>
    requires g.Valid() && i < g.Cells()
  {
    Plates(g, i, g.Rows()) + Strip(g, i, 0, YLow) + Strip(g, i, g.Rows() - 1, YHigh)
  }

  function AllCells(g: Grid, cells: nat): seq<Face>
    requires g.Valid() && cells <= g.Cells()
  {
    if cells == 0 then [] else AllCells(g, cells - 1) + CellFaces(g, cells - 1)
  }

  /** A wall of cell `i` in layer `l`, over its first `rows` rows. */
  function Wall(g: Grid, i: int, l: int, out: Direction, rows: nat): seq<Face> {
    if rows == 0 then [] else Wall(g, i, l, out, rows - 1) + [Face(i, rows - 1, l, out)]
  }

  /** Cell `k` exists and carries a fin. */
  predicate IsFin(g: Grid, k: int) {
    0 <= k < |g.fin| && g.fin[k]
  }

  /** The walls of a fin cell, except towards a neighbouring fin cell. */
  function FinWalls(g: Grid, i: nat): seq<Face>
    requires g.Valid() && i < g.Cells()
  {
    if !g.fin[i] then []
    else (if IsFin(g, i - 1) then [] else Wall(g, i, 1, XLow, g.Rows()))
         + (if IsFin(g, i + 1) then [] else Wall(g, i, 1, XHigh, g.Rows()))
  }

  function AllWalls(g: Grid, cells: nat): seq<Face>
    requires g.Valid() && cells <= g.Cells()
  {
    if cells == 0 then [] else AllWalls(g, cells - 1) + FinWalls(g, cells - 1)
  }

  function Ends(g: Grid): seq<Face>
    requires g.Valid()
  {
    Wall(g, 0, 0, XLow, g.Rows()) + Wall(g, g.Cells() - 1, 0, XHigh, g.Rows())
  }

  function AllFaces(g: Grid): seq<Face>
    requires g.Valid()
  {
    AllCells(g, g.Cells()) + AllWalls(g, g.Cells()) + Ends(g)
  }

  // ----- How often each face occurs -----

  function Once(b: bool): nat {
    if b then 1 else 0
  }

  predicate IsPlate(g: Grid, f: Face, i: nat, rows: nat)
    requires g.Valid() && i < g.Cells()
  {
    f.i == i && 0 <= f.j < rows && ((f.out == ZLow && f.l == 0) || (f.out == ZHigh && f.l == TopLayer(g, i)))
  }

  lemma {:induction false} PlatesCount(g: Grid, i: nat, rows: nat, f: Face)
    requires g.Valid() && i < g.Cells()
    ensures multiset(Plates(g, i, rows))[f] == Once(IsPlate(g, f, i, rows))
  {
    if rows > 0 {
      PlatesCount(g, i, rows - 1, f);
    }
  }

  predicate InStrip(g: Grid, f: Face, i: nat, j: int, out: Direction)
    requires g.Valid() && i < g.Cells()
  {
    f.i == i && f.j == j && f.out == out && (f.l == 0 || (f.l == 1 && g.fin[i]))
  }

  lemma StripCount(g: Grid, i: nat, j: int, out: Direction, f: Face)
    requires g.Valid() && i < g.Cells()
    ensures multiset(Strip(g, i, j, out))[f] == Once(InStrip(g, f, i, j, out))
  {
  }

  predicate IsStrip(g: Grid, f: Face, i: nat)
    requires g.Valid() && i < g.Cells()
  {
    InStrip(g, f, i, 0, YLow) || InStrip(g, f, i, g.Rows() - 1, YHigh)
  }

  lemma CellCount(g: Grid, i: nat, f: Face)
    requires g.Valid() && i < g.Cells()
    ensures multiset(CellFaces(g, i))[f] == Once(IsPlate(g, f, i, g.Rows()) || IsStrip(g, f, i))
  {
    hide Plates, Strip;
    PlatesCount(g, i, g.Rows(), f);
    StripCount(g, i, 0, YLow, f);
    StripCount(g, i, g.Rows() - 1, YHigh, f);
  }

  lemma {:induction false} AllCellsCount(g: Grid, cells: nat, f: Face)
    requires g.Valid() && cells <= g.Cells()
    ensures multiset(AllCells(g, cells))[f]
            == Once(0 <= f.i < cells && (IsPlate(g, f, f.i, g.Rows()) || IsStrip(g, f, f.i)))
  {
    hide CellFaces;
    if cells > 0 {
      AllCellsCount(g, cells - 1, f);
      CellCount(g, cells - 1, f);
    }
  }

  lemma {:induction false} WallCount(g: Grid, i: int, l: int, out: Direction, rows: nat, f: Face)
    ensures multiset(Wall(g, i, l, out, rows))[f] == Once(f == Face(i, f.j, l, out) && 0 <= f.j < rows)
  {
    if rows > 0 {
      WallCount(g, i, l, out, rows - 1, f);
    }
  }

  predicate IsFinWall(g: Grid, f: Face)
    requires g.Valid()
  {
    && IsFin(g, f.i) && f.l == 1 && 0 <= f.j < g.Rows()
    && ((f.out == XLow && !IsFin(g, f.i - 1)) || (f.out == XHigh && !IsFin(g, f.i + 1)))
  }

  lemma FinWallsCount(g: Grid, i: nat, f: Face)
    requires g.Valid() && i < g.Cells()
    ensures multiset(FinWalls(g, i))[f] == Once(f.i == i && IsFinWall(g, f))
  {
    hide Wall;
    WallCount(g, i, 1, XLow, g.Rows(), f);
    WallCount(g, i, 1, XHigh, g.Rows(), f);
  }

  lemma {:induction false} AllWallsCount(g: Grid, cells: nat, f: Face)
    requires g.Valid() && cells <= g.Cells()
    ensures multiset(AllWalls(g, cells))[f] == Once(f.i < cells && IsFinWall(g, f))
  {
    hide FinWalls;
    if cells > 0 {
      AllWallsCount(g, cells - 1, f);
      FinWallsCount(g, cells - 1, f);
    }
  }

  /** The emitted faces are the boundary of the solid, each exactly once. */
  lemma FacesAreTheBoundary(g: Grid, f: Face)
    requires g.Valid()
    ensures multiset(AllFaces(g))[f] == Once(Boundary(g, f))
  {
    hide AllCells, AllWalls, Wall;
    AllCellsCount(g, g.Cells(), f);
    AllWallsCount(g, g.Cells(), f);
    WallCount(g, 0, 0, XLow, g.Rows(), f);
    WallCount(g, g.Cells() - 1, 0, XHigh, g.Rows(), f);
  }
}
