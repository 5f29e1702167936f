/** Which way the facets look: along their declared axis, out of the solid and into the air. */
module HeatsinkNormals {
  import opened HeatsinkShell
  import opened HeatsinkFaces
  import opened HeatsinkSurface

  /** The cross product of the first two edges of triangle (a, b, c). */
  function Normal(a: Point, b: Point, c: Point): Point {
    var u := Point(b.x - a.x, b.y - a.y, b.z - a.z);
    var v := Point(c.x - a.x, c.y - a.y, c.z - a.z);
    Point(u.y * v.z - u.z * v.y, u.z * v.x - u.x * v.z, u.x * v.y - u.y * v.x)
  }

  function Dot(n: Point, out: Direction): real {
    n.x * out.Dx() as real + n.y * out.Dy() as real + n.z * out.Dz() as real
  }

  /** The normal of triangle (a, b, c) along the axis of `out`. */
  function NormalAlong(a: Point, b: Point, c: Point, out: Direction): real {
    Dot(Normal(a, b, c), out)
  }

  lemma ProductIsPositive(p: real, q: real)
    requires p > 0.0 && q > 0.0
    ensures p * q > 0.0
  {
  }

  // ----- The solid in space -----

  /** The base box, and above it the fin cells. */
  predicate InPlate(g: Grid, p: Point)
    requires g.Valid()
  {
    && 0.0 <= p.x <= g.xs[|g.xs| - 1] && 0.0 <= p.y <= g.ys[|g.ys| - 1]
    && (0.0 <= p.z <= g.baseZ || (g.baseZ <= p.z <= g.topZ && OverFin(g, p.x)))
  }

  predicate OverFin(g: Grid, x: real)
    requires g.Valid()
  {
    exists i :: 0 <= i < |g.fin| && g.fin[i] && g.xs[i] <= x <= g.xs[i + 1]
  }

  function Centroid(t: Facet): Point {
    Point((t.a.x + t.b.x + t.c.x) / 3.0, (t.a.y + t.b.y + t.c.y) / 3.0, (t.a.z + t.b.z + t.c.z) / 3.0)
  }

  function Toward(p: Point, out: Direction, distance: real): Point {
    match out
    case XLow => p.(x := p.x - distance)
    case XHigh => p.(x := p.x + distance)
    case YLow => p.(y := p.y - distance)
    case YHigh => p.(y := p.y + distance)
    case ZLow => p.(z := p.z - distance)
    case ZHigh => p.(z := p.z + distance)
  }

  /** At distance `d` from `p` there is air on the side of `out` and solid on the other. */
  predicate SplitAt(g: Grid, p: Point, out: Direction, d: real)
    requires g.Valid()
  {
    !InPlate(g, Toward(p, out, d)) && InPlate(g, Toward(p, out, -d))
  }

  ghost predicate Separates(g: Grid, p: Point, out: Direction, reach: real)
    requires g.Valid()
  {
    reach > 0.0 && forall d :: 0.0 < d <= reach ==> SplitAt(g, p, out, d)
  }

  /** The facet winds around its declared axis, and that axis points out of the solid. */
  ghost predicate LooksOut(g: Grid, t: Facet)
    requires g.Valid()
  {
    && NormalAlong(t.a, t.b, t.c, t.out) > 0.0
    && exists reach :: Separates(g, Centroid(t), t.out, reach)
  }

  /** `p` is inside the rectangle of face `f`, off its edges. */
  predicate WithinFace(g: Grid, f: Face, p: Point)
    requires g.Valid() && InGrid(g, f)
  {
    && (match f.out
        case XLow => p.x == g.xs[f.i]
        case XHigh => p.x == g.xs[f.i + 1]
        case _ => g.xs[f.i] < p.x < g.xs[f.i + 1])
    && (match f.out
        case YLow => p.y == g.ys[f.j]
        case YHigh => p.y == g.ys[f.j + 1]
        case _ => g.ys[f.j] < p.y < g.ys[f.j + 1])
    && (match f.out
        case ZLow => p.z == g.Height(f.l)
        case ZHigh => p.z == g.Height(f.l + 1)
        case _ => g.Height(f.l) < p.z < g.Height(f.l + 1))
  }

  lemma CentroidsAreWithin(g: Grid, f: Face)
    requires g.Valid() && InGrid(g, f)
    ensures WithinFace(g, f, Centroid(FaceFacets(g, f)[0])) && WithinFace(g, f, Centroid(FaceFacets(g, f)[1]))
  {
    CellIsWide(g, f);
  }

  lemma CellIsWide(g: Grid, f: Face)
    requires g.Valid() && InGrid(g, f)
    ensures g.xs[f.i] < g.xs[f.i + 1] && g.ys[f.j] < g.ys[f.j + 1] && g.Height(f.l) < g.Height(f.l + 1)
  {
  }

  lemma FacetsWindOutward(g: Grid, f: Face)
    requires g.Valid() && InGrid(g, f)
    ensures forall k :: 0 <= k < 2 ==>
              var t := FaceFacets(g, f)[k];
              NormalAlong(t.a, t.b, t.c, f.out) > 0.0
  {
    CellIsWide(g, f);
    ProductIsPositive(g.xs[f.i + 1] - g.xs[f.i], g.ys[f.j + 1] - g.ys[f.j]);
    ProductIsPositive(g.xs[f.i + 1] - g.xs[f.i], g.Height(f.l + 1) - g.Height(f.l));
    ProductIsPositive(g.ys[f.j + 1] - g.ys[f.j], g.Height(f.l + 1) - g.Height(f.l));
  }

  /** Breakpoints lie between the ends of the plate. */
  lemma BetweenEnds(s: seq<real>, k: nat)
    requires |s| > 0 && Increasing(s) && k < |s|
    ensures s[0] <= s[k] <= s[|s| - 1]
  {
  }

  /** Strictly inside a cell, only that cell can put a fin. */
  lemma OnlyThisCell(g: Grid, i: nat, x: real)
    requires g.Valid() && i < |g.fin| && g.xs[i] < x < g.xs[i + 1]
    ensures OverFin(g, x) <==> g.fin[i]
  {
    forall k | 0 <= k < |g.fin| && k != i ensures !(g.xs[k] <= x <= g.xs[k + 1]) {
      if k < i {
        assert g.xs[k + 1] <= g.xs[i];
      } else {
        assert g.xs[i + 1] <= g.xs[k];
      }
    }
  }

  /** The cell of a face lies between the ends of the plate. */
  lemma CellInPlate(g: Grid, f: Face)
    requires g.Valid() && InGrid(g, f)
    ensures 0.0 <= g.xs[f.i] < g.xs[f.i + 1] <= g.xs[|g.xs| - 1]
    ensures 0.0 <= g.ys[f.j] < g.ys[f.j + 1] <= g.ys[|g.ys| - 1]
    ensures 0.0 <= g.Height(f.l) < g.Height(f.l + 1) <= g.topZ
  {
    BetweenEnds(g.xs, f.i);
    BetweenEnds(g.xs, f.i + 1);
    BetweenEnds(g.ys, f.j);
    BetweenEnds(g.ys, f.j + 1);
  }

  /** Close enough to a face to stay within its cell, and within the cell beside it if there is one. */
  function Reach(g: Grid, f: Face): real
    requires g.Valid() && InGrid(g, f)
  {
    var next := f.i + f.out.Dx();
    var width := g.xs[f.i + 1] - g.xs[f.i];
    var beside := if 0 <= next < |g.fin| then g.xs[next + 1] - g.xs[next] else width;
    match f.out
    case XLow | XHigh => (if width < beside then width else beside) / 2.0
    case YLow | YHigh => g.ys[f.j + 1] - g.ys[f.j]
    case ZLow | ZHigh => g.Height(f.l + 1) - g.Height(f.l)
  }

  lemma HorizontalFaceSplits(g: Grid, f: Face, p: Point, d: real)
    requires g.Valid() && InGrid(g, f) && Boundary(g, f) && WithinFace(g, f, p)
    requires (f.out == ZLow || f.out == ZHigh) && 0.0 < d <= Reach(g, f)
    ensures SplitAt(g, p, f.out, d)
  {
    CellInPlate(g, f);
    OnlyThisCell(g, f.i, p.x);
    hide OverFin, Increasing;
  }

  lemma FrontFaceSplits(g: Grid, f: Face, p: Point, d: real)
    requires g.Valid() && InGrid(g, f) && Boundary(g, f) && WithinFace(g, f, p)
    requires (f.out == YLow || f.out == YHigh) && 0.0 < d <= Reach(g, f)
    ensures SplitAt(g, p, f.out, d)
  {
    CellInPlate(g, f);
    OnlyThisCell(g, f.i, p.x);
    hide OverFin, Increasing;
  }

  lemma WallSplits(g: Grid, f: Face, p: Point, d: real)
    requires g.Valid() && InGrid(g, f) && Boundary(g, f) && WithinFace(g, f, p)
    requires (f.out == XLow || f.out == XHigh) && 0.0 < d <= Reach(g, f)
    ensures SplitAt(g, p, f.out, d)
  {
    CellInPlate(g, f);
    var air, solid := Toward(p, f.out, d), Toward(p, f.out, -d);
    var next := f.i + f.out.Dx();
    assert g.xs[f.i] < solid.x < g.xs[f.i + 1];
    OnlyThisCell(g, f.i, solid.x);
    if 0 <= next < |g.fin| {
      assert g.xs[next] < air.x < g.xs[next + 1];
      OnlyThisCell(g, next, air.x);
    }
    hide OverFin, Increasing;
  }

  lemma ReachIsPositive(g: Grid, f: Face)
    requires g.Valid() && InGrid(g, f)
    ensures Reach(g, f) > 0.0
  {
    CellInPlate(g, f);
  }

  lemma FaceSeparates(g: Grid, f: Face, p: Point)
    requires g.Valid() && InGrid(g, f) && Boundary(g, f) && WithinFace(g, f, p)
    ensures Separates(g, p, f.out, Reach(g, f))
  {
    ReachIsPositive(g, f);
    hide SplitAt, WithinFace, Boundary, Reach, Increasing;
    forall d | 0.0 < d <= Reach(g, f) ensures SplitAt(g, p, f.out, d) {
      match f.out
      case XLow | XHigh => WallSplits(g, f, p, d);
      case YLow | YHigh => FrontFaceSplits(g, f, p, d);
      case ZLow | ZHigh => HorizontalFaceSplits(g, f, p, d);
    }
  }

  /** Both facets of a boundary face look out of the solid. */
  lemma BoundaryLooksOut(g: Grid, f: Face)
    requires g.Valid() && InGrid(g, f) && Boundary(g, f)
    ensures forall k :: 0 <= k < 2 ==> LooksOut(g, FaceFacets(g, f)[k])
  {
    FacetsWindOutward(g, f);
    CentroidsAreWithin(g, f);
    forall k | 0 <= k < 2 ensures LooksOut(g, FaceFacets(g, f)[k]) {
      var t := FaceFacets(g, f)[k];
      assert t.out == f.out && WithinFace(g, f, Centroid(t));
      hide Separates, WithinFace, Boundary, NormalAlong, Centroid, FaceFacets;
      FaceSeparates(g, f, Centroid(t));
    }
  }

  /** In any listing of boundary faces, every facet looks out of the solid. */
  lemma {:induction false} FacetsLookOut(g: Grid, faces: seq<Face>)
    requires g.Valid() && AllInGrid(g, faces)
    requires forall f :: f in faces ==> Boundary(g, f)
    ensures forall t :: t in Facets(g, faces) ==> LooksOut(g, t)
  {
    hide Boundary, LooksOut, FaceFacets, InGrid;
    if faces != [] {
      var front, last := faces[..|faces| - 1], faces[|faces| - 1];
      assert faces == front + [last];
      FacetsLookOut(g, front);
      BoundaryLooksOut(g, last);
      var pair := FaceFacets(g, last);
      assert pair == [pair[0], pair[1]];
    }
  }
}
