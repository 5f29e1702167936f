/** The signed volume of the emitted facets telescopes to the volume of the plate. */
module HeatsinkVolume {
  import opened HeatsinkShell
  import opened HeatsinkFaces
  import opened HeatsinkSurface

  /** Six times the signed volume of the tetrahedron from the origin to a facet. */
  function Determinant(a: Point, b: Point, c: Point): real {
    a.x * (b.y * c.z - b.z * c.y) - a.y * (b.x * c.z - b.z * c.x) + a.z * (b.x * c.y - b.y * c.x)
  }

  function SixVolume(facets: seq<Facet>): real {
    if facets == [] then 0.0
    else
      var t := facets[|facets| - 1];
      SixVolume(facets[..|facets| - 1]) + Determinant(t.a, t.b, t.c)
  }

  lemma {:induction false} SixVolumeConcat(a: seq<Facet>, b: seq<Facet>)
    ensures SixVolume(a + b) == SixVolume(a) + SixVolume(b)
    decreases |b|
  {
    hide Determinant;
    if b == [] {
      assert a + b == a;
    } else {
      SixVolumeConcat(a, b[..|b| - 1]);
      assert (a + b)[..|a + b| - 1] == a + b[..|b| - 1];
    }
  }

  // ----- One face -----

  function Width(g: Grid, i: int): real
    requires 0 <= i < |g.xs| - 1
  {
    g.xs[i + 1] - g.xs[i]
  }

  function Depth(g: Grid, j: int): real
    requires 0 <= j < |g.ys| - 1
  {
    g.ys[j + 1] - g.ys[j]
  }

  function Layer(g: Grid, l: int): real {
    g.Height(l + 1) - g.Height(l)
  }

  /** Twice the area of the face times the offset of its plane along the outward axis. */
  function FaceSix(g: Grid, f: Face): real
    requires g.Valid() && InGrid(g, f)
  {
    match f.out
    case ZHigh => 2.0 * Width(g, f.i) * Depth(g, f.j) * g.Height(f.l + 1)
    case ZLow => -2.0 * Width(g, f.i) * Depth(g, f.j) * g.Height(f.l)
    case YHigh => 2.0 * Width(g, f.i) * Layer(g, f.l) * g.ys[f.j + 1]
    case YLow => -2.0 * Width(g, f.i) * Layer(g, f.l) * g.ys[f.j]
    case XHigh => 2.0 * Depth(g, f.j) * Layer(g, f.l) * g.xs[f.i + 1]
    case XLow => -2.0 * Depth(g, f.j) * Layer(g, f.l) * g.xs[f.i]
  }

  function TwoTriangles(a: Point, b: Point, c: Point, d: Point): real {
    Determinant(a, b, c) + Determinant(a, c, d)
  }

  lemma RectangleZ(x0: real, x1: real, y0: real, y1: real, z: real)
    ensures TwoTriangles(Point(x0, y0, z), Point(x1, y0, z), Point(x1, y1, z), Point(x0, y1, z))
            == 2.0 * (x1 - x0) * (y1 - y0) * z
    ensures TwoTriangles(Point(x0, y0, z), Point(x0, y1, z), Point(x1, y1, z), Point(x1, y0, z))
            == -2.0 * (x1 - x0) * (y1 - y0) * z
  {
  }

  lemma RectangleY(x0: real, x1: real, y: real, z0: real, z1: real)
    ensures TwoTriangles(Point(x0, y, z0), Point(x1, y, z0), Point(x1, y, z1), Point(x0, y, z1))
            == -2.0 * (x1 - x0) * (z1 - z0) * y
    ensures TwoTriangles(Point(x0, y, z0), Point(x0, y, z1), Point(x1, y, z1), Point(x1, y, z0))
            == 2.0 * (x1 - x0) * (z1 - z0) * y
  {
  }

  lemma RectangleX(x: real, y0: real, y1: real, z0: real, z1: real)
    ensures TwoTriangles(Point(x, y0, z0), Point(x, y1, z0), Point(x, y1, z1), Point(x, y0, z1))
            == 2.0 * (y1 - y0) * (z1 - z0) * x
    ensures TwoTriangles(Point(x, y0, z0), Point(x, y0, z1), Point(x, y1, z1), Point(x, y1, z0))
            == -2.0 * (y1 - y0) * (z1 - z0) * x
  {
  }

  lemma TwoFacets(t: Facet, u: Facet)
    ensures SixVolume([t, u]) == Determinant(t.a, t.b, t.c) + Determinant(u.a, u.b, u.c)
  {
    hide Determinant;
    assert [t, u][..1] == [t] && [t][..0] == [];
    assert SixVolume([t]) == SixVolume([]) + Determinant(t.a, t.b, t.c);
  }

  lemma FaceVolume(g: Grid, f: Face)
    requires g.Valid() && InGrid(g, f)
    ensures SixVolume(FaceFacets(g, f)) == FaceSix(g, f)
  {
    hide Determinant, SixVolume;
    var z0, z1 := g.Height(f.l), g.Height(f.l + 1);
    TwoFacets(FaceFacets(g, f)[0], FaceFacets(g, f)[1]);
    assert SixVolume(FaceFacets(g, f))
        == TwoTriangles(CornerAt(g, f, 0), CornerAt(g, f, 1), CornerAt(g, f, 2), CornerAt(g, f, 3));
    hide TwoTriangles;
    match f.out
    case ZLow => RectangleZ(g.xs[f.i], g.xs[f.i + 1], g.ys[f.j], g.ys[f.j + 1], z0);
    case ZHigh => RectangleZ(g.xs[f.i], g.xs[f.i + 1], g.ys[f.j], g.ys[f.j + 1], z1);
    case YLow => RectangleY(g.xs[f.i], g.xs[f.i + 1], g.ys[f.j], z0, z1);
    case YHigh => RectangleY(g.xs[f.i], g.xs[f.i + 1], g.ys[f.j + 1], z0, z1);
    case XLow => RectangleX(g.xs[f.i], g.ys[f.j], g.ys[f.j + 1], z0, z1);
    case XHigh => RectangleX(g.xs[f.i + 1], g.ys[f.j], g.ys[f.j + 1], z0, z1);
  }

  // ----- Sums over the emitted faces -----

  function SixSum(g: Grid, faces: seq<Face>): real
    requires g.Valid() && AllInGrid(g, faces)
  {
    if faces == [] then 0.0
    else SixSum(g, faces[..|faces| - 1]) + FaceSix(g, faces[|faces| - 1])
  }

  lemma {:induction false} SixSumConcat(g: Grid, a: seq<Face>, b: seq<Face>)
    requires g.Valid() && AllInGrid(g, a) && AllInGrid(g, b)
    ensures AllInGrid(g, a + b) && SixSum(g, a + b) == SixSum(g, a) + SixSum(g, b)
    decreases |b|
  {
    hide FaceSix, InGrid;
    if b == [] {
      assert a + b == a;
    } else {
      SixSumConcat(g, a, b[..|b| - 1]);
      assert (a + b)[..|a + b| - 1] == a + b[..|b| - 1];
    }
  }

  lemma {:induction false} FacetVolumes(g: Grid, faces: seq<Face>)
    requires g.Valid() && AllInGrid(g, faces)
    ensures SixVolume(Facets(g, faces)) == SixSum(g, faces)
    decreases |faces|
  {
    hide FaceSix, InGrid, FaceFacets;
    if faces != [] {
      var front, last := faces[..|faces| - 1], faces[|faces| - 1];
      FacetVolumes(g, front);
      SixVolumeConcat(Facets(g, front), FaceFacets(g, last));
      FaceVolume(g, last);
    }
  }

  lemma OneFaceSum(g: Grid, f: Face)
    requires g.Valid() && InGrid(g, f)
    ensures AllInGrid(g, [f]) && SixSum(g, [f]) == FaceSix(g, f)
  {
    assert [f][..0] == [];
  }

  function TopHeight(g: Grid, i: int): real
    requires 0 <= i < |g.fin|
  {
    if g.fin[i] then g.topZ else g.baseZ
  }

  lemma PairSum(g: Grid, a: Face, b: Face)
    requires g.Valid() && InGrid(g, a) && InGrid(g, b)
    ensures AllInGrid(g, [a, b]) && SixSum(g, [a, b]) == FaceSix(g, a) + FaceSix(g, b)
  {
    hide FaceSix, InGrid;
    assert [a, b][..1] == [a] && [a][..0] == [];
    assert SixSum(g, [a]) == FaceSix(g, a);
  }

  /** The bottom of a cell lies in the plane z = 0. */
  lemma PlateSix(g: Grid, i: nat, j: nat)
    requires g.Valid() && i < g.Cells() && j < g.Rows()
    ensures FaceSix(g, Face(i, j, 0, ZLow)) == 0.0
    ensures FaceSix(g, Face(i, j, TopLayer(g, i), ZHigh)) == 2.0 * Width(g, i) * Depth(g, j) * TopHeight(g, i)
  {
  }

  lemma Telescopes(w: real, t: real, y: real, dy: real)
    ensures 2.0 * w * t * y + 2.0 * w * dy * t == 2.0 * w * t * (y + dy)
  {
  }

  lemma {:induction false} PlatesSum(g: Grid, i: nat, rows: nat)
    requires g.Valid() && i < g.Cells() && rows <= g.Rows()
    ensures AllInGrid(g, Plates(g, i, rows))
    ensures SixSum(g, Plates(g, i, rows)) == 2.0 * Width(g, i) * TopHeight(g, i) * g.ys[rows]
  {
    if rows > 0 {
      hide SixSum, FaceSix, Width, TopHeight;
      var j := rows - 1;
      var low, high := Face(i, j, 0, ZLow), Face(i, j, TopLayer(g, i), ZHigh);
      PlatesSum(g, i, j);
      PairSum(g, low, high);
      SixSumConcat(g, Plates(g, i, j), [low, high]);
      PlateSix(g, i, j);
      Telescopes(Width(g, i), TopHeight(g, i), g.ys[j], Depth(g, j));
      assert g.ys[j] + Depth(g, j) == g.ys[rows];
    }
  }

  lemma StripSum(g: Grid, i: nat)
    requires g.Valid() && i < g.Cells()
    ensures AllInGrid(g, Strip(g, i, 0, YLow)) && AllInGrid(g, Strip(g, i, g.Rows() - 1, YHigh))
    ensures SixSum(g, Strip(g, i, 0, YLow)) == 0.0
    ensures SixSum(g, Strip(g, i, g.Rows() - 1, YHigh)) == 2.0 * Width(g, i) * TopHeight(g, i) * g.ys[g.Rows()]
  {
    var j := g.Rows() - 1;
    var y := g.ys[g.Rows()];
    hide SixSum;
    if g.fin[i] {
      PairSum(g, Face(i, 0, 0, YLow), Face(i, 0, 1, YLow));
      PairSum(g, Face(i, j, 0, YHigh), Face(i, j, 1, YHigh));
      assert Strip(g, i, 0, YLow) == [Face(i, 0, 0, YLow), Face(i, 0, 1, YLow)];
      assert Strip(g, i, j, YHigh) == [Face(i, j, 0, YHigh), Face(i, j, 1, YHigh)];
      TwoStrips(Width(g, i), g.baseZ, g.topZ, y);
    } else {
      OneFaceSum(g, Face(i, 0, 0, YLow));
      OneFaceSum(g, Face(i, j, 0, YHigh));
      assert Strip(g, i, 0, YLow) == [Face(i, 0, 0, YLow)];
      assert Strip(g, i, j, YHigh) == [Face(i, j, 0, YHigh)];
    }
  }

  lemma TwoStrips(w: real, base: real, top: real, y: real)
    ensures 2.0 * w * (base - 0.0) * y + 2.0 * w * (top - base) * y == 2.0 * w * top * y
  {
  }

  function CellSix(g: Grid, i: nat): real
    requires g.Valid() && i < g.Cells()
  {
    4.0 * Width(g, i) * TopHeight(g, i) * g.ys[g.Rows()]
  }

  lemma CellSum(g: Grid, i: nat)
    requires g.Valid() && i < g.Cells()
    ensures AllInGrid(g, CellFaces(g, i))
    ensures SixSum(g, CellFaces(g, i)) == CellSix(g, i)
  {
    hide SixSum, Plates, Strip, Width, TopHeight;
    PlatesSum(g, i, g.Rows());
    StripSum(g, i);
    SixSumConcat(g, Plates(g, i, g.Rows()), Strip(g, i, 0, YLow));
    SixSumConcat(g, Plates(g, i, g.Rows()) + Strip(g, i, 0, YLow), Strip(g, i, g.Rows() - 1, YHigh));
  }

  /** Total width of the fin cells among the first `cells`. */
  function FinWidth(g: Grid, cells: nat): real
    requires g.Valid() && cells <= g.Cells()
  {
    if cells == 0 then 0.0 else FinWidth(g, cells - 1) + if g.fin[cells - 1] then Width(g, cells - 1) else 0.0
  }

  lemma CellStep(x: real, w: real, f: real, base: real, h: real, y: real, fin: bool)
    ensures 4.0 * y * (x * base + f * h) + 4.0 * w * (if fin then base + h else base) * y
            == 4.0 * y * ((x + w) * base + (if fin then f + w else f) * h)
  {
  }

  function CellsSix(g: Grid, cells: nat): real
    requires g.Valid() && cells <= g.Cells()
  {
    4.0 * g.ys[g.Rows()] * (g.xs[cells] * g.baseZ + FinWidth(g, cells) * (g.topZ - g.baseZ))
  }

  lemma CellsSixStep(g: Grid, i: nat)
    requires g.Valid() && i < g.Cells()
    ensures CellsSix(g, i) + CellSix(g, i) == CellsSix(g, i + 1)
    ensures CellsSix(g, 0) == 0.0
  {
    CellStep(g.xs[i], Width(g, i), FinWidth(g, i), g.baseZ, g.topZ - g.baseZ, g.ys[g.Rows()], g.fin[i]);
  }

  lemma {:induction false} AllCellsSum(g: Grid, cells: nat)
    requires g.Valid() && cells <= g.Cells()
    ensures AllInGrid(g, AllCells(g, cells))
    ensures SixSum(g, AllCells(g, cells)) == CellsSix(g, cells)
  {
    hide SixSum, CellFaces, CellSix, CellsSix;
    if cells == 0 {
      EmptySum(g);
      CellsSixStep(g, 0);
    } else {
      var i := cells - 1;
      AllCellsSum(g, i);
      CellSum(g, i);
      SixSumConcat(g, AllCells(g, i), CellFaces(g, i));
      CellsSixStep(g, i);
    }
  }

  // ----- Walls -----

  lemma WallTelescopes(k: real, y: real, dy: real)
    ensures k * y + k * dy == k * (y + dy)
  {
  }

  /** The plane of a wall in direction `out`, signed by that direction. */
  function SignedOffset(g: Grid, i: nat, out: Direction): real
    requires g.Valid() && i < g.Cells()
  {
    if out == XLow then -g.xs[i] else g.xs[i + 1]
  }

  function WallSix(g: Grid, i: nat, l: nat, out: Direction, rows: nat): real
    requires g.Valid() && i < g.Cells() && rows <= g.Rows()
  {
    2.0 * Layer(g, l) * SignedOffset(g, i, out) * g.ys[rows]
  }

  lemma WallSixStep(g: Grid, i: nat, l: nat, out: Direction, j: nat)
    requires g.Valid() && i < g.Cells() && l <= 1 && j < g.Rows() && (out == XLow || out == XHigh)
    ensures WallSix(g, i, l, out, j) + FaceSix(g, Face(i, j, l, out)) == WallSix(g, i, l, out, j + 1)
    ensures WallSix(g, i, l, out, 0) == 0.0
  {
    WallTelescopes(2.0 * Layer(g, l) * SignedOffset(g, i, out), g.ys[j], Depth(g, j));
  }

  lemma {:induction false} WallSum(g: Grid, i: nat, l: nat, out: Direction, rows: nat)
    requires g.Valid() && i < g.Cells() && l <= 1 && rows <= g.Rows() && (out == XLow || out == XHigh)
    ensures AllInGrid(g, Wall(g, i, l, out, rows))
    ensures SixSum(g, Wall(g, i, l, out, rows)) == WallSix(g, i, l, out, rows)
  {
    hide SixSum, FaceSix, WallSix;
    if rows == 0 {
      EmptySum(g);
      WallSixStep(g, i, l, out, 0);
    } else {
      var j := rows - 1;
      WallSum(g, i, l, out, j);
      OneFaceSum(g, Face(i, j, l, out));
      SixSumConcat(g, Wall(g, i, l, out, j), [Face(i, j, l, out)]);
      WallSixStep(g, i, l, out, j);
    }
  }

  /** Where the fin walls of cell `i` stand: plus the right wall, minus the left wall. */
  function WallOffset(g: Grid, i: nat): real
    requires g.Valid() && i < g.Cells()
  {
    if !g.fin[i] then 0.0
    else (if IsFin(g, i + 1) then 0.0 else g.xs[i + 1]) - (if IsFin(g, i - 1) then 0.0 else g.xs[i])
  }

  lemma FinWallsSum(g: Grid, i: nat)
    requires g.Valid() && i < g.Cells()
    ensures AllInGrid(g, FinWalls(g, i))
    ensures SixSum(g, FinWalls(g, i)) == 2.0 * (g.topZ - g.baseZ) * g.ys[g.Rows()] * WallOffset(g, i)
  {
    hide SixSum, Wall;
    var left := if IsFin(g, i - 1) then [] else Wall(g, i, 1, XLow, g.Rows());
    var right := if IsFin(g, i + 1) then [] else Wall(g, i, 1, XHigh, g.Rows());
    EmptySum(g);
    WallSum(g, i, 1, XLow, g.Rows());
    WallSum(g, i, 1, XHigh, g.Rows());
    SixSumConcat(g, left, right);
    WallAlgebra(g.topZ - g.baseZ, g.ys[g.Rows()], g.xs[i], g.xs[i + 1]);
  }

  lemma EmptySum(g: Grid)
    requires g.Valid()
    ensures AllInGrid(g, []) && SixSum(g, []) == 0.0
  {
  }

  lemma WallAlgebra(h: real, y: real, x0: real, x1: real)
    ensures 2.0 * h * (-x0) * y == 2.0 * h * y * (0.0 - x0)
    ensures 2.0 * h * x1 * y == 2.0 * h * y * (x1 - 0.0)
    ensures 2.0 * h * (-x0) * y + 2.0 * h * x1 * y == 2.0 * h * y * (x1 - x0)
  {
  }

  /** The interface between the fin cells on both sides of breakpoint `k`, which has no wall. */
  function Interface(g: Grid, k: nat): real
    requires g.Valid() && k <= g.Cells()
  {
    if IsFin(g, k - 1) && IsFin(g, k) then g.xs[k] else 0.0
  }

  function WallsSix(g: Grid, cells: nat): real
    requires g.Valid() && cells <= g.Cells()
  {
    2.0 * (g.topZ - g.baseZ) * g.ys[g.Rows()] * (FinWidth(g, cells) - Interface(g, cells))
  }

  lemma WallsSixStep(g: Grid, i: nat)
    requires g.Valid() && i < g.Cells()
    ensures WallsSix(g, i) + 2.0 * (g.topZ - g.baseZ) * g.ys[g.Rows()] * WallOffset(g, i) == WallsSix(g, i + 1)
    ensures WallsSix(g, 0) == 0.0
  {
    assert FinWidth(g, i) - Interface(g, i) + WallOffset(g, i) == FinWidth(g, i + 1) - Interface(g, i + 1);
    WallTelescopes(2.0 * (g.topZ - g.baseZ) * g.ys[g.Rows()], FinWidth(g, i) - Interface(g, i), WallOffset(g, i));
  }

  /** Interior interfaces cancel: what remains of the walls is the width of the fins. */
  lemma {:induction false} AllWallsSum(g: Grid, cells: nat)
    requires g.Valid() && cells <= g.Cells()
    ensures AllInGrid(g, AllWalls(g, cells))
    ensures SixSum(g, AllWalls(g, cells)) == WallsSix(g, cells)
  {
    hide SixSum, FinWalls, WallsSix, WallOffset;
    if cells == 0 {
      EmptySum(g);
      WallsSixStep(g, 0);
    } else {
      var i := cells - 1;
      AllWallsSum(g, i);
      FinWallsSum(g, i);
      SixSumConcat(g, AllWalls(g, i), FinWalls(g, i));
      WallsSixStep(g, i);
    }
  }

  /** Six times the volume: base box plus fins. */
  function PlateSixVolume(g: Grid): real
    requires g.Valid()
  {
    6.0 * (g.xs[g.Cells()] * g.ys[g.Rows()] * g.baseZ
           + FinWidth(g, g.Cells()) * g.ys[g.Rows()] * (g.topZ - g.baseZ))
  }

  lemma TotalAlgebra(x: real, y: real, base: real, h: real, f: real)
    ensures 4.0 * y * (x * base + f * h) + 2.0 * h * y * (f - 0.0) + 2.0 * base * x * y
            == 6.0 * (x * y * base + f * y * h)
  {
  }

  lemma ClosedFormsAddUp(g: Grid)
    requires g.Valid()
    ensures CellsSix(g, g.Cells()) + WallsSix(g, g.Cells())
            + (WallSix(g, 0, 0, XLow, g.Rows()) + WallSix(g, g.Cells() - 1, 0, XHigh, g.Rows())) == PlateSixVolume(g)
  {
    var x, y := g.xs[g.Cells()], g.ys[g.Rows()];
    hide FinWidth;
    assert WallSix(g, 0, 0, XLow, g.Rows()) == 0.0;
    assert WallSix(g, g.Cells() - 1, 0, XHigh, g.Rows()) == 2.0 * g.baseZ * x * y;
    TotalAlgebra(x, y, g.baseZ, g.topZ - g.baseZ, FinWidth(g, g.Cells()));
  }

  /** The signed volume of the emitted facets is that of the base box and the fins together. */
  lemma SignedVolumeIsPlateVolume(g: Grid)
    requires g.Valid()
    ensures AllInGrid(g, AllFaces(g)) && SixVolume(Facets(g, AllFaces(g))) == PlateSixVolume(g)
  {
    hide SixSum, AllCells, AllWalls, Wall, SixVolume, CellsSix, WallsSix, WallSix, PlateSixVolume;
    var n, m := g.Cells(), g.Rows();
    AllCellsSum(g, n);
    AllWallsSum(g, n);
    WallSum(g, 0, 0, XLow, m);
    WallSum(g, n - 1, 0, XHigh, m);
    SixSumConcat(g, Wall(g, 0, 0, XLow, m), Wall(g, n - 1, 0, XHigh, m));
    SixSumConcat(g, AllCells(g, n), AllWalls(g, n));
    SixSumConcat(g, AllCells(g, n) + AllWalls(g, n), Ends(g));
    FacetVolumes(g, AllFaces(g));
    ClosedFormsAddUp(g);
  }
}
