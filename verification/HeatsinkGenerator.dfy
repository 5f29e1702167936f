/** The two generators: nested loops that append facets, the edge census and the signed volume. */
module HeatsinkGenerator {
  import opened HeatsinkShell
  import opened HeatsinkFaces
  import opened HeatsinkSurface
  import opened HeatsinkVolume
  import opened HeatsinkNormals

  // ----- Orienting a quadrilateral -----

  function TwoFacetsOf(a: Point, b: Point, c: Point, d: Point, out: Direction): seq<Facet> {
    [Facet(out, a, b, c), Facet(out, a, c, d)]
  }

  lemma NormalZ(x0: real, x1: real, y0: real, y1: real, z: real, out: Direction)
    requires out == ZLow || out == ZHigh
    ensures NormalAlong(Point(x0, y0, z), Point(x1, y0, z), Point(x1, y1, z), out)
            == (x1 - x0) * (y1 - y0) * out.Dz() as real
  {
  }

  lemma NormalY(x0: real, x1: real, y: real, z0: real, z1: real, out: Direction)
    requires out == YLow || out == YHigh
    ensures NormalAlong(Point(x0, y, z0), Point(x1, y, z0), Point(x1, y, z1), out)
            == -(x1 - x0) * (z1 - z0) * out.Dy() as real
  {
  }

  lemma NormalX(x: real, y0: real, y1: real, z0: real, z1: real, out: Direction)
    requires out == XLow || out == XHigh
    ensures NormalAlong(Point(x, y0, z0), Point(x, y1, z0), Point(x, y1, z1), out)
            == (y1 - y0) * (z1 - z0) * out.Dx() as real
  {
  }

  class ShellBuilder {
    var facets: seq<Facet>

    constructor ()
      ensures facets == []
    {
      facets := [];
    }

    /** Splits a quadrilateral along its first diagonal, turned so that it looks along `out`. */
    method Quad(a: Point, b: Point, c: Point, d: Point, out: Direction)
      requires NormalAlong(a, b, c, out) != 0.0
      modifies this
      ensures facets == old(facets) + if NormalAlong(a, b, c, out) < 0.0 then TwoFacetsOf(a, d, c, b, out)
                                      else TwoFacetsOf(a, b, c, d, out)
    {
      hide Dot, Normal;
      var dot := Dot(Normal(a, b, c), out);
      var second, last := b, d;
      if dot < 0.0 {
        second, last := d, b;
      }
      facets := facets + [Facet(out, a, second, c)];
      facets := facets + [Facet(out, a, c, last)];
    }

    method HorizontalQuad(g: Grid, i: nat, j: nat, l: nat, out: Direction)
      requires g.Valid() && InGrid(g, Face(i, j, l, out)) && (out == ZLow || out == ZHigh)
      modifies this
      ensures facets == old(facets) + FaceFacets(g, Face(i, j, l, out))
    {
      var x0, x1, y0, y1 := g.xs[i], g.xs[i + 1], g.ys[j], g.ys[j + 1];
      var z := if out == ZLow then g.Height(l) else g.Height(l + 1);
      ProductIsPositive(x1 - x0, y1 - y0);
      NormalZ(x0, x1, y0, y1, z, out);
      hide NormalAlong;
      Quad(Point(x0, y0, z), Point(x1, y0, z), Point(x1, y1, z), Point(x0, y1, z), out);
    }

    method FrontQuad(g: Grid, i: nat, j: nat, l: nat, out: Direction)
      requires g.Valid() && InGrid(g, Face(i, j, l, out)) && (out == YLow || out == YHigh)
      modifies this
      ensures facets == old(facets) + FaceFacets(g, Face(i, j, l, out))
    {
      var x0, x1, z0, z1 := g.xs[i], g.xs[i + 1], g.Height(l), g.Height(l + 1);
      var y := if out == YLow then g.ys[j] else g.ys[j + 1];
      ProductIsPositive(x1 - x0, z1 - z0);
      NormalY(x0, x1, y, z0, z1, out);
      hide NormalAlong;
      Quad(Point(x0, y, z0), Point(x1, y, z0), Point(x1, y, z1), Point(x0, y, z1), out);
    }

    method WallQuad(g: Grid, i: nat, j: nat, l: nat, out: Direction)
      requires g.Valid() && InGrid(g, Face(i, j, l, out)) && (out == XLow || out == XHigh)
      modifies this
      ensures facets == old(facets) + FaceFacets(g, Face(i, j, l, out))
    {
      var y0, y1, z0, z1 := g.ys[j], g.ys[j + 1], g.Height(l), g.Height(l + 1);
      var x := if out == XLow then g.xs[i] else g.xs[i + 1];
      ProductIsPositive(y1 - y0, z1 - z0);
      NormalX(x, y0, y1, z0, z1, out);
      hide NormalAlong;
      Quad(Point(x, y0, z0), Point(x, y1, z0), Point(x, y1, z1), Point(x, y0, z1), out);
    }

    /** Facets of one more listed face. */
    method Extend(g: Grid, ghost before: seq<Facet>, ghost faces: seq<Face>, i: nat, j: nat, l: nat, out: Direction)
      requires g.Valid() && AllInGrid(g, faces) && InGrid(g, Face(i, j, l, out))
      requires facets == before + Facets(g, faces)
      modifies this
      ensures AllInGrid(g, faces + [Face(i, j, l, out)])
      ensures facets == before + Facets(g, faces + [Face(i, j, l, out)])
    {
      hide Facets, FaceFacets;
      FacetsSnoc(g, faces, Face(i, j, l, out));
      match out {
        case ZLow => HorizontalQuad(g, i, j, l, out);
        case ZHigh => HorizontalQuad(g, i, j, l, out);
        case YLow => FrontQuad(g, i, j, l, out);
        case YHigh => FrontQuad(g, i, j, l, out);
        case XLow => WallQuad(g, i, j, l, out);
        case XHigh => WallQuad(g, i, j, l, out);
      }
    }

    method Cell(g: Grid, i: nat)
      requires g.Valid() && i < g.Cells()
      modifies this
      ensures AllInGrid(g, CellFaces(g, i)) && facets == old(facets) + Facets(g, CellFaces(g, i))
    {
      hide Facets;
      ghost var before := facets;
      NoFacets(g, before);
      for j := 0 to g.Rows()
        invariant AllInGrid(g, Plates(g, i, j)) && facets == before + Facets(g, Plates(g, i, j))
      {
        ghost var faces := Plates(g, i, j);
        var high := if g.fin[i] then 1 else 0;
        Extend(g, before, faces, i, j, 0, ZLow);
        Extend(g, before, faces + [Face(i, j, 0, ZLow)], i, j, high, ZHigh);
        assert Plates(g, i, j + 1) == faces + [Face(i, j, 0, ZLow)] + [Face(i, j, high, ZHigh)];
      }
      ghost var plates := Plates(g, i, g.Rows());
      FrontStrip(g, before, plates, i, 0, YLow);
      FrontStrip(g, before, plates + Strip(g, i, 0, YLow), i, g.Rows() - 1, YHigh);
    }

    method FrontStrip(g: Grid, ghost before: seq<Facet>, ghost faces: seq<Face>, i: nat, j: nat, out: Direction)
      requires g.Valid() && i < g.Cells() && j < g.Rows() && (out == YLow || out == YHigh)
      requires AllInGrid(g, faces) && facets == before + Facets(g, faces)
      modifies this
      ensures AllInGrid(g, faces + Strip(g, i, j, out))
      ensures facets == before + Facets(g, faces + Strip(g, i, j, out))
    {
      hide Facets, InGrid;
      assert InGrid(g, Face(i, j, 0, out)) && InGrid(g, Face(i, j, 1, out)) by {
        CellsAreInGrid(g, i, j, out);
      }
      Extend(g, before, faces, i, j, 0, out);
      if g.fin[i] {
        Extend(g, before, faces + [Face(i, j, 0, out)], i, j, 1, out);
        assert faces + Strip(g, i, j, out) == faces + [Face(i, j, 0, out)] + [Face(i, j, 1, out)];
      } else {
        assert faces + Strip(g, i, j, out) == faces + [Face(i, j, 0, out)];
      }
    }

    method WallColumn(g: Grid, i: nat, l: nat, out: Direction)
      requires g.Valid() && i < g.Cells() && l <= 1 && (out == XLow || out == XHigh)
      modifies this
      ensures AllInGrid(g, Wall(g, i, l, out, g.Rows()))
      ensures facets == old(facets) + Facets(g, Wall(g, i, l, out, g.Rows()))
    {
      hide Facets;
      ghost var before := facets;
      NoFacets(g, before);
      for j := 0 to g.Rows()
        invariant AllInGrid(g, Wall(g, i, l, out, j)) && facets == before + Facets(g, Wall(g, i, l, out, j))
      {
        Extend(g, before, Wall(g, i, l, out, j), i, j, l, out);
      }
    }

    /** The walls of a fin cell that face a cell without a fin, or the outside. */
    method FinCellWalls(g: Grid, k: nat)
      requires g.Valid() && k < g.Cells() && g.fin[k]
      modifies this
      ensures AllInGrid(g, FinWalls(g, k)) && facets == old(facets) + Facets(g, FinWalls(g, k))
    {
      hide Facets, Wall;
      ghost var before := facets;
      NoFacets(g, before);
      ghost var left: seq<Face> := [];
      if !(0 < k && g.fin[k - 1]) {
        left := Wall(g, k, 1, XLow, g.Rows());
        WallColumn(g, k, 1, XLow);
      }
      if !(k + 1 < g.Cells() && g.fin[k + 1]) {
        ghost var right := Wall(g, k, 1, XHigh, g.Rows());
        WallColumn(g, k, 1, XHigh);
        FacetsConcat(g, left, right);
        assert before + Facets(g, left) + Facets(g, right) == before + (Facets(g, left) + Facets(g, right));
      }
      assert left + [] == left;
    }
  }

  lemma FacetsSnoc(g: Grid, faces: seq<Face>, f: Face)
    requires g.Valid() && AllInGrid(g, faces) && InGrid(g, f)
    ensures AllInGrid(g, faces + [f]) && Facets(g, faces + [f]) == Facets(g, faces) + FaceFacets(g, f)
  {
    hide FaceFacets, InGrid;
    assert (faces + [f])[..|faces|] == faces;
  }

  lemma {:induction false} FacetsConcat(g: Grid, a: seq<Face>, b: seq<Face>)
    requires g.Valid() && AllInGrid(g, a) && AllInGrid(g, b)
    ensures AllInGrid(g, a + b) && Facets(g, a + b) == Facets(g, a) + Facets(g, b)
    decreases |b|
  {
    hide FaceFacets, InGrid;
    if b == [] {
      assert a + b == a;
    } else {
      var front, last := b[..|b| - 1], b[|b| - 1];
      FacetsConcat(g, a, front);
      assert (a + b)[..|a + b| - 1] == a + front;
      assert Facets(g, a + b) == Facets(g, a + front) + FaceFacets(g, last);
    }
  }

  lemma NoFacets(g: Grid, before: seq<Facet>)
    requires g.Valid()
    ensures AllInGrid(g, []) && before == before + Facets(g, [])
  {
  }

  lemma CellsAreInGrid(g: Grid, i: nat, j: nat, out: Direction)
    requires g.Valid() && i < g.Cells() && j < g.Rows()
    ensures InGrid(g, Face(i, j, 0, out)) && InGrid(g, Face(i, j, 1, out))
  {
  }

  // ----- The census and the volume -----

  /** `counts` holds how often each edge of `s` occurs. */
  ghost predicate Tallies(counts: map<Edge, nat>, s: seq<Edge>) {
    forall e :: (e in counts <==> e in s) && (e in counts ==> counts[e] == multiset(s)[e])
  }

  function Tally(counts: map<Edge, nat>, e: Edge): map<Edge, nat> {
    counts[e := (if e in counts then counts[e] else 0) + 1]
  }

  lemma TallyStep(counts: map<Edge, nat>, s: seq<Edge>, e: Edge)
    requires Tallies(counts, s)
    ensures Tallies(Tally(counts, e), s + [e])
  {
    assert multiset(s + [e]) == multiset(s) + multiset{e};
    assert e !in s ==> multiset(s)[e] == 0;
  }

  /** Counts every directed edge, then asks that each occurs once together with its reverse. */
  method Census(facets: seq<Facet>) returns (manifold: bool)
    ensures manifold <==> forall e :: e in Edges(facets) ==>
              multiset(Edges(facets))[e] == 1 && (e.1, e.0) in Edges(facets)
  {
    hide FacetEdges, Tallies, Tally;
    var counts: map<Edge, nat> := map[];
    var k := 0;
    assert facets[..0] == [];
    assert Tallies(map[], []) by {
      NothingTallied();
    }
    while k < |facets|
      invariant 0 <= k <= |facets|
      invariant Tallies(counts, Edges(facets[..k]))
    {
      ghost var seen := Edges(facets[..k]);
      var sides := FacetEdges(facets[k]);
      var s := 0;
      assert seen + sides[..0] == seen;
      while s < |sides|
        invariant 0 <= s <= |sides|
        invariant Tallies(counts, seen + sides[..s])
      {
        TallyStep(counts, seen + sides[..s], sides[s]);
        assert seen + sides[..s + 1] == seen + sides[..s] + [sides[s]];
        counts := Tally(counts, sides[s]);
        s := s + 1;
      }
      assert sides[..s] == sides;
      assert facets[..k + 1][..k] == facets[..k];
      k := k + 1;
    }
    assert facets[..k] == facets;
    manifold := forall e :: e in counts ==> counts[e] == 1 && (e.1, e.0) in counts;
    TalliedCensus(counts, Edges(facets));
  }

  lemma NothingTallied()
    ensures Tallies(map[], [])
  {
  }

  lemma TalliedCensus(counts: map<Edge, nat>, s: seq<Edge>)
    requires Tallies(counts, s)
    ensures (forall e :: e in counts ==> counts[e] == 1 && (e.1, e.0) in counts)
            <==> forall e :: e in s ==> multiset(s)[e] == 1 && (e.1, e.0) in s
  {
  }

  method SignedVolume(facets: seq<Facet>) returns (vol: real)
    ensures vol * 6.0 == SixVolume(facets)
  {
    hide Determinant;
    vol := 0.0;
    assert facets[..0] == [];
    for k := 0 to |facets|
      invariant vol * 6.0 == SixVolume(facets[..k])
    {
      var t := facets[k];
      assert facets[..k + 1][..k] == facets[..k];
      vol := vol + Determinant(t.a, t.b, t.c) / 6.0;
    }
    assert facets[..|facets|] == facets;
  }

  // ----- The plate cut at the chip edges -----

  /** Cells first, then the fin walls, then the ends; the census and the volume check never fail. */
  method BuildChip(g: Grid) returns (facets: seq<Facet>, vol: real)
    requires g.Valid()
    ensures AllInGrid(g, AllFaces(g)) && facets == Facets(g, AllFaces(g))
    ensures Closed(facets)
    ensures forall t :: t in facets ==> LooksOut(g, t)
    ensures vol * 6.0 == PlateSixVolume(g)
  {
    hide Facets, CellFaces, FinWalls, Wall, Closed, LooksOut, SixVolume, PlateSixVolume;
    var builder := new ShellBuilder();
    NoFacets(g, []);
    ghost var faces: seq<Face> := [];
    for i := 0 to g.Cells()
      invariant faces == AllCells(g, i)
      invariant AllInGrid(g, faces) && builder.facets == Facets(g, faces)
    {
      builder.Cell(g, i);
      FacetsConcat(g, faces, CellFaces(g, i));
      faces := faces + CellFaces(g, i);
    }
    ghost var cells := faces;
    assert cells + [] == cells;
    for k := 0 to g.Cells()
      invariant faces == cells + AllWalls(g, k)
      invariant AllInGrid(g, faces) && builder.facets == Facets(g, faces)
    {
      assert faces + FinWalls(g, k) == cells + AllWalls(g, k + 1);
      if g.fin[k] {
        builder.FinCellWalls(g, k);
        FacetsConcat(g, faces, FinWalls(g, k));
        faces := faces + FinWalls(g, k);
      } else {
        assert FinWalls(g, k) == [] by {
          NoFinNoWalls(g, k);
        }
        assert faces + [] == faces;
      }
    }
    AddEnds(builder, g, faces);
    assert faces + Ends(g) == AllFaces(g);
    facets := builder.facets;
    ChipSurface(g);
    var manifold := Census(facets);
    assert manifold by {
      ClosedPassesCensus(facets);
    }
    vol := SignedVolume(facets);
  }

  lemma NoFinNoWalls(g: Grid, k: nat)
    requires g.Valid() && k < g.Cells() && !g.fin[k]
    ensures FinWalls(g, k) == []
  {
  }

  method AddEnds(builder: ShellBuilder, g: Grid, ghost faces: seq<Face>)
    requires g.Valid() && AllInGrid(g, faces) && builder.facets == Facets(g, faces)
    modifies builder
    ensures AllInGrid(g, faces + Ends(g)) && builder.facets == Facets(g, faces + Ends(g))
  {
    hide Facets, Wall;
    ghost var left, right := Wall(g, 0, 0, XLow, g.Rows()), Wall(g, g.Cells() - 1, 0, XHigh, g.Rows());
    builder.WallColumn(g, 0, 0, XLow);
    FacetsConcat(g, faces, left);
    builder.WallColumn(g, g.Cells() - 1, 0, XHigh);
    FacetsConcat(g, faces + left, right);
    assert faces + left + right == faces + Ends(g);
  }

  lemma ChipSurface(g: Grid)
    requires g.Valid()
    ensures AllInGrid(g, AllFaces(g))
    ensures Closed(Facets(g, AllFaces(g))) && SixVolume(Facets(g, AllFaces(g))) == PlateSixVolume(g)
    ensures forall t :: t in Facets(g, AllFaces(g)) ==> LooksOut(g, t)
  {
    hide AllFaces, Facets, LooksOut, Closed, SixVolume, PlateSixVolume;
    assert Complete(g, AllFaces(g)) by {
      forall f ensures multiset(AllFaces(g))[f] == Once(Boundary(g, f)) {
        FacesAreTheBoundary(g, f);
      }
    }
    BoundaryIsClosed(g, AllFaces(g));
    CompleteLooksOut(g, AllFaces(g));
    SignedVolumeIsPlateVolume(g);
  }

  /** Every facet of a complete listing of the boundary looks out of the solid. */
  lemma CompleteLooksOut(g: Grid, faces: seq<Face>)
    requires g.Valid() && Complete(g, faces)
    ensures AllInGrid(g, faces) && forall t :: t in Facets(g, faces) ==> LooksOut(g, t)
  {
    hide LooksOut, Boundary, Facets;
    CompleteIsSimple(g, faces);
    forall f | f in faces ensures Boundary(g, f) {
      assert f in multiset(faces);
    }
    FacetsLookOut(g, faces);
  }

  lemma ClosedPassesCensus(facets: seq<Facet>)
    requires Closed(facets)
    ensures forall e :: e in Edges(facets) ==> multiset(Edges(facets))[e] == 1 && (e.1, e.0) in Edges(facets)
  {
    forall e | e in Edges(facets)
      ensures multiset(Edges(facets))[e] == 1 && (e.1, e.0) in Edges(facets)
    {
      assert e in multiset(Edges(facets));
      assert (e.1, e.0) in multiset(Edges(facets));
    }
  }

  // ----- The plate cut at the fins only -----

  /** Every other cell carries a fin, the first and the last do not, and depth is one row. */
  predicate Alternates(g: Grid) {
    g.Valid() && |g.ys| == 2 && g.Cells() % 2 == 1 && forall i :: 0 <= i < g.Cells() ==> g.fin[i] == (i % 2 == 1)
  }

  /** The faces of one cell in the order of the plain generator: bottom, top, fronts, walls. */
  function PlainCell(g: Grid, i: nat): seq<Face>
    requires g.Valid() && i < g.Cells()
  {
    CellFaces(g, i) + if g.fin[i] then Wall(g, i, 1, XLow, g.Rows()) + Wall(g, i, 1, XHigh, g.Rows()) else []
  }

  function PlainCells(g: Grid, cells: nat): seq<Face>
    requires g.Valid() && cells <= g.Cells()
  {
    if cells == 0 then [] else PlainCells(g, cells - 1) + PlainCell(g, cells - 1)
  }

  function PlainFaces(g: Grid): seq<Face>
    requires g.Valid()
  {
    PlainCells(g, g.Cells()) + Ends(g)
  }

  /** Without neighbouring fins every fin cell keeps both walls. */
  lemma PlainCellIsChipCell(g: Grid, i: nat)
    requires Alternates(g) && i < g.Cells()
    ensures PlainCell(g, i) == CellFaces(g, i) + FinWalls(g, i)
  {
    hide CellFaces, Wall;
    assert g.fin[i] ==> !IsFin(g, i - 1) && !IsFin(g, i + 1);
  }

  lemma {:induction false} PlainCellsPermute(g: Grid, cells: nat)
    requires Alternates(g) && cells <= g.Cells()
    ensures multiset(PlainCells(g, cells)) == multiset(AllCells(g, cells)) + multiset(AllWalls(g, cells))
  {
    hide Alternates, PlainCell, CellFaces, FinWalls;
    if cells > 0 {
      PlainCellsPermute(g, cells - 1);
      PlainCellIsChipCell(g, cells - 1);
    }
  }

  lemma WithoutOne<T>(front: seq<T>, x: T, left: seq<T>, right: seq<T>)
    requires multiset(front + [x]) == multiset(left + [x] + right)
    ensures multiset(front) == multiset(left + right)
  {
    var m := multiset{x};
    assert multiset(front + [x]) == multiset(front) + m;
    assert multiset(left + [x] + right) == multiset(left) + m + multiset(right);
    assert multiset(front) == multiset(front) + m - m;
    assert multiset(left) + multiset(right) == multiset(left) + m + multiset(right) - m;
  }

  /** The volume does not depend on the order of emission. */
  lemma {:induction false} SixSumIgnoresOrder(g: Grid, a: seq<Face>, b: seq<Face>)
    requires g.Valid() && AllInGrid(g, a) && AllInGrid(g, b) && multiset(a) == multiset(b)
    ensures SixSum(g, a) == SixSum(g, b)
    decreases |a|
  {
    hide FaceSix, InGrid;
    if a == [] {
      assert |multiset(b)| == 0;
    } else {
      var front, x := a[..|a| - 1], a[|a| - 1];
      assert a == front + [x];
      assert x in multiset(b);
      var k :| 0 <= k < |b| && b[k] == x;
      var left, right := b[..k], b[k + 1..];
      assert b == left + [x] + right;
      WithoutOne(front, x, left, right);
      SixSumIgnoresOrder(g, front, left + right);
      SixSumConcat(g, left, right);
      SixSumConcat(g, left, [x]);
      SixSumConcat(g, left + [x], right);
      assert [x][..0] == [];
    }
  }

  /** Any complete listing of the boundary encloses the volume of the plate. */
  lemma CompleteVolume(g: Grid, faces: seq<Face>)
    requires g.Valid() && Complete(g, faces)
    ensures AllInGrid(g, faces) && SixVolume(Facets(g, faces)) == PlateSixVolume(g)
  {
    hide AllFaces, Facets, SixVolume, PlateSixVolume, SixSum, Boundary;
    CompleteIsSimple(g, faces);
    SignedVolumeIsPlateVolume(g);
    forall f ensures multiset(AllFaces(g))[f] == multiset(faces)[f] {
      FacesAreTheBoundary(g, f);
    }
    SixSumIgnoresOrder(g, AllFaces(g), faces);
    FacetVolumes(g, AllFaces(g));
    FacetVolumes(g, faces);
  }

  lemma PlainSurface(g: Grid)
    requires Alternates(g)
    ensures AllInGrid(g, PlainFaces(g))
    ensures Closed(Facets(g, PlainFaces(g))) && SixVolume(Facets(g, PlainFaces(g))) == PlateSixVolume(g)
    ensures forall t :: t in Facets(g, PlainFaces(g)) ==> LooksOut(g, t)
  {
    assert multiset(PlainFaces(g)) == multiset(AllFaces(g)) by {
      hide PlainCells, AllCells, AllWalls, Wall;
      PlainCellsPermute(g, g.Cells());
    }
    hide AllFaces, PlainFaces, Facets, LooksOut, Closed, SixVolume, PlateSixVolume;
    assert Complete(g, PlainFaces(g)) by {
      forall f ensures multiset(PlainFaces(g))[f] == Once(Boundary(g, f)) {
        FacesAreTheBoundary(g, f);
      }
    }
    BoundaryIsClosed(g, PlainFaces(g));
    CompleteLooksOut(g, PlainFaces(g));
    CompleteVolume(g, PlainFaces(g));
  }

  method BuildPlain(g: Grid) returns (facets: seq<Facet>, vol: real)
    requires Alternates(g)
    ensures AllInGrid(g, PlainFaces(g)) && facets == Facets(g, PlainFaces(g))
    ensures Closed(facets)
    ensures forall t :: t in facets ==> LooksOut(g, t)
    ensures vol * 6.0 == PlateSixVolume(g)
  {
    hide Facets, CellFaces, Wall, Closed, LooksOut, SixVolume, PlateSixVolume;
    var builder := new ShellBuilder();
    NoFacets(g, []);
    ghost var faces: seq<Face> := [];
    for i := 0 to g.Cells()
      invariant faces == PlainCells(g, i)
      invariant AllInGrid(g, faces) && builder.facets == Facets(g, faces)
    {
      builder.Cell(g, i);
      FacetsConcat(g, faces, CellFaces(g, i));
      ghost var cell := faces + CellFaces(g, i);
      if i % 2 == 1 {
        ghost var left, right := Wall(g, i, 1, XLow, g.Rows()), Wall(g, i, 1, XHigh, g.Rows());
        builder.WallColumn(g, i, 1, XLow);
        FacetsConcat(g, cell, left);
        builder.WallColumn(g, i, 1, XHigh);
        FacetsConcat(g, cell + left, right);
        assert cell + left + right == faces + PlainCell(g, i);
      } else {
        assert cell == faces + PlainCell(g, i);
      }
      faces := faces + PlainCell(g, i);
    }
    AddEnds(builder, g, faces);
    facets := builder.facets;
    PlainSurface(g);
    var manifold := Census(facets);
    assert manifold by {
      ClosedPassesCensus(facets);
    }
    vol := SignedVolume(facets);
  }
}
