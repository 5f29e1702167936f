/** The emitted facets in space: a closed oriented surface whose signed volume is that of the plate. */
module HeatsinkSurface {
  import opened HeatsinkShell
  import opened HeatsinkFaces

  datatype Point = Point(x: real, y: real, z: real)

  /** A triangle with its declared outward axis. */
  datatype Facet = Facet(out: Direction, a: Point, b: Point, c: Point)

  predicate OnLattice(g: Grid, v: Vertex) {
    0 <= v.i < |g.xs| && 0 <= v.j < |g.ys| && 0 <= v.l <= 2
  }

  function Place(g: Grid, v: Vertex): Point
    requires OnLattice(g, v)
  {
    Point(g.xs[v.i], g.ys[v.j], g.Height(v.l))
  }

  /** Strictly increasing breakpoints keep lattice points apart. */
  lemma PlaceIsInjective(g: Grid, u: Vertex, v: Vertex)
    requires g.Valid() && OnLattice(g, u) && OnLattice(g, v)
    requires Place(g, u) == Place(g, v)
    ensures u == v
  {
  }

  /** The cell of a face lies within the grid. */
  predicate InGrid(g: Grid, f: Face)
    requires g.Valid()
  {
    0 <= f.i < g.Cells() && 0 <= f.j < g.Rows() && 0 <= f.l <= 1
  }

  lemma CornersAreOnLattice(g: Grid, f: Face, c: int)
    requires g.Valid() && InGrid(g, f) && 0 <= c < 4
    ensures OnLattice(g, Corner(f, c))
  {
  }

  function CornerAt(g: Grid, f: Face, c: int): Point
    requires g.Valid() && InGrid(g, f) && 0 <= c < 4
  {
    CornersAreOnLattice(g, f, c);
    Place(g, Corner(f, c))
  }

  /** The two triangles of a face. */
  function FaceFacets(g: Grid, f: Face): (facets: seq<Facet>)
    requires g.Valid() && InGrid(g, f)
    ensures |facets| == 2
  {
    [Facet(f.out, CornerAt(g, f, 0), CornerAt(g, f, 1), CornerAt(g, f, 2)),
     Facet(f.out, CornerAt(g, f, 0), CornerAt(g, f, 2), CornerAt(g, f, 3))]
  }

  predicate AllInGrid(g: Grid, faces: seq<Face>)
    requires g.Valid()
  {
    forall f :: f in faces ==> InGrid(g, f)
  }

  function Facets(g: Grid, faces: seq<Face>): seq<Facet>
    requires g.Valid() && AllInGrid(g, faces)
  {
    if faces == [] then []
    else Facets(g, faces[..|faces| - 1]) + FaceFacets(g, faces[|faces| - 1])
  }

  // ----- Directed edges -----

  type Edge = (Point, Point)

  function FacetEdges(t: Facet): seq<Edge> {
    [(t.a, t.b), (t.b, t.c), (t.c, t.a)]
  }

  function Edges(facets: seq<Facet>): seq<Edge> {
    if facets == [] then [] else Edges(facets[..|facets| - 1]) + FacetEdges(facets[|facets| - 1])
  }

  /** Every directed edge occurs once, and so does its reverse. */
  ghost predicate Closed(facets: seq<Facet>) {
    forall e :: e in multiset(Edges(facets)) ==>
      multiset(Edges(facets))[e] == 1 && multiset(Edges(facets))[(e.1, e.0)] == 1
  }

  lemma {:induction false} EdgesConcat(a: seq<Facet>, b: seq<Facet>)
    ensures Edges(a + b) == Edges(a) + Edges(b)
    decreases |b|
  {
    if b == [] {
      assert a + b == a;
    } else {
      var front := b[..|b| - 1];
      EdgesConcat(a, front);
      assert (a + b)[..|a + b| - 1] == a + front;
      assert Edges(a + b) == (Edges(a) + Edges(front)) + FacetEdges(b[|b| - 1]);
    }
  }

  function SideAt(g: Grid, f: Face, s: int): Edge
    requires g.Valid() && InGrid(g, f) && 0 <= s < 6
  {
    SidesAreOnLattice(g, f, s);
    (Place(g, Side(f, s).0), Place(g, Side(f, s).1))
  }

  lemma SidesAreOnLattice(g: Grid, f: Face, s: int)
    requires g.Valid() && InGrid(g, f) && 0 <= s < 6
    ensures OnLattice(g, Side(f, s).0) && OnLattice(g, Side(f, s).1)
  {
  }

  function SidesAt(g: Grid, f: Face): seq<Edge>
    requires g.Valid() && InGrid(g, f)
  {
    [SideAt(g, f, 0), SideAt(g, f, 1), SideAt(g, f, 2), SideAt(g, f, 3), SideAt(g, f, 4), SideAt(g, f, 5)]
  }

  lemma FaceEdges(g: Grid, f: Face)
    requires g.Valid() && InGrid(g, f)
    ensures Edges(FaceFacets(g, f)) == SidesAt(g, f)
  {
    hide Corner, Place;
    var facets := FaceFacets(g, f);
    assert facets[..1] == [facets[0]] && facets[..1][..0] == [];
    assert Edges(facets[..1]) == FacetEdges(facets[0]);
    assert Edges(facets) == FacetEdges(facets[0]) + FacetEdges(facets[1]);
  }

  /** Distinct boundary faces have distinct edges in space. */
  lemma SideAtIsUnique(g: Grid, f: Face, s: int, h: Face, t: int)
    requires g.Valid() && InGrid(g, f) && InGrid(g, h) && Boundary(g, f) && Boundary(g, h)
    requires 0 <= s < 6 && 0 <= t < 6 && SideAt(g, f, s) == SideAt(g, h, t)
    ensures f == h && s == t
  {
    hide Side, Boundary;
    SidesAreOnLattice(g, f, s);
    SidesAreOnLattice(g, h, t);
    PlaceIsInjective(g, Side(f, s).0, Side(h, t).0);
    PlaceIsInjective(g, Side(f, s).1, Side(h, t).1);
    assert Side(f, s) == Side(h, t);
    SideIsUnique(g, f, s, h, t);
  }

  predicate HasSide(g: Grid, f: Face, e: Edge)
    requires g.Valid() && InGrid(g, f)
  {
    exists s :: 0 <= s < 6 && SideAt(g, f, s) == e
  }

  lemma SidesOfOneFace(g: Grid, f: Face, e: Edge)
    requires g.Valid() && InGrid(g, f) && Boundary(g, f)
    ensures multiset(SidesAt(g, f))[e] == Once(HasSide(g, f, e))
  {
    hide SideAt, Boundary;
    forall s, t | 0 <= s < t < 6 ensures SideAt(g, f, s) != SideAt(g, f, t) {
      if SideAt(g, f, s) == SideAt(g, f, t) {
        SideAtIsUnique(g, f, s, f, t);
      }
    }
  }

  lemma SharedSideIsUnique(g: Grid, f: Face, h: Face, e: Edge)
    requires g.Valid() && InGrid(g, f) && InGrid(g, h) && Boundary(g, f) && Boundary(g, h)
    requires HasSide(g, f, e) && HasSide(g, h, e)
    ensures f == h
  {
    hide SideAt, Boundary;
    var s :| 0 <= s < 6 && SideAt(g, f, s) == e;
    var t :| 0 <= t < 6 && SideAt(g, h, t) == e;
    SideAtIsUnique(g, f, s, h, t);
  }

  /** `faces` lists boundary faces of the plate without repetition. */
  ghost predicate Simple(g: Grid, faces: seq<Face>)
    requires g.Valid()
  {
    AllInGrid(g, faces) && forall f :: f in faces ==> Boundary(g, f) && multiset(faces)[f] == 1
  }

  lemma SimpleFront(g: Grid, faces: seq<Face>)
    requires g.Valid() && Simple(g, faces) && faces != []
    ensures Simple(g, faces[..|faces| - 1]) && faces[|faces| - 1] !in faces[..|faces| - 1]
  {
    hide Boundary, InGrid;
    assert faces == faces[..|faces| - 1] + [faces[|faces| - 1]];
  }

  lemma FacetsStep(g: Grid, faces: seq<Face>)
    requires g.Valid() && AllInGrid(g, faces) && faces != []
    ensures Edges(Facets(g, faces)) == Edges(Facets(g, faces[..|faces| - 1])) + SidesAt(g, faces[|faces| - 1])
  {
    hide Edges, FaceFacets, SidesAt;
    EdgesConcat(Facets(g, faces[..|faces| - 1]), FaceFacets(g, faces[|faces| - 1]));
    FaceEdges(g, faces[|faces| - 1]);
  }

  /** Some listed face has the side. */
  predicate AnyHasSide(g: Grid, faces: seq<Face>, e: Edge)
    requires g.Valid() && AllInGrid(g, faces)
  {
    exists f :: f in faces && HasSide(g, f, e)
  }

  lemma AnyHasSideStep(g: Grid, faces: seq<Face>, e: Edge)
    requires g.Valid() && Simple(g, faces) && faces != []
    ensures var front, last := faces[..|faces| - 1], faces[|faces| - 1];
            && AnyHasSide(g, faces, e) == (AnyHasSide(g, front, e) || HasSide(g, last, e))
            && !(AnyHasSide(g, front, e) && HasSide(g, last, e))
  {
    hide HasSide, Boundary;
    var front, last := faces[..|faces| - 1], faces[|faces| - 1];
    SimpleFront(g, faces);
    assert faces == front + [last];
    if AnyHasSide(g, front, e) && HasSide(g, last, e) {
      var f :| f in front && HasSide(g, f, e);
      SharedSideIsUnique(g, f, last, e);
    }
  }

  /** An edge occurs once when some listed face has it, and otherwise not at all. */
  lemma {:induction false} EdgesOfSimple(g: Grid, faces: seq<Face>, e: Edge)
    requires g.Valid() && Simple(g, faces)
    ensures multiset(Edges(Facets(g, faces)))[e] == Once(AnyHasSide(g, faces, e))
    decreases |faces|
  {
    if faces == [] {
      assert !AnyHasSide(g, faces, e);
    } else {
      hide SidesAt, HasSide, AnyHasSide, Facets, Edges, Boundary;
      SimpleFront(g, faces);
      EdgesOfSimple(g, faces[..|faces| - 1], e);
      FacetsStep(g, faces);
      SidesOfOneFace(g, faces[|faces| - 1], e);
      AnyHasSideStep(g, faces, e);
    }
  }

  /** A listing of the whole boundary. */
  ghost predicate Complete(g: Grid, faces: seq<Face>)
    requires g.Valid()
  {
    forall f :: multiset(faces)[f] == Once(Boundary(g, f))
  }

  lemma CompleteIsSimple(g: Grid, faces: seq<Face>)
    requires g.Valid() && Complete(g, faces)
    ensures Simple(g, faces)
    ensures forall f :: Boundary(g, f) ==> f in faces
  {
    forall f | f in faces ensures InGrid(g, f) && Boundary(g, f) && multiset(faces)[f] == 1 {
      assert multiset(faces)[f] == Once(Boundary(g, f));
      BoundaryIsInGrid(g, f);
    }
  }

  /** Whatever the order of emission, the facets of the whole boundary form a closed oriented surface. */
  lemma BoundaryIsClosed(g: Grid, faces: seq<Face>)
    requires g.Valid() && Complete(g, faces)
    ensures Simple(g, faces) && Closed(Facets(g, faces))
  {
    CompleteIsSimple(g, faces);
    hide Complete, Boundary, SideAt, Facets, Edges;
    forall e | e in multiset(Edges(Facets(g, faces)))
      ensures multiset(Edges(Facets(g, faces)))[e] == 1 && multiset(Edges(Facets(g, faces)))[(e.1, e.0)] == 1
    {
      EdgesOfSimple(g, faces, e);
      EdgesOfSimple(g, faces, (e.1, e.0));
      var f :| f in faces && HasSide(g, f, e);
      var s :| 0 <= s < 6 && SideAt(g, f, s) == e;
      MateAt(g, f, s);
      assert HasSide(g, Mate(g, f, s), (e.1, e.0));
    }
  }

  lemma MateAt(g: Grid, f: Face, s: int)
    requires g.Valid() && InGrid(g, f) && Boundary(g, f) && 0 <= s < 6
    ensures var h := Mate(g, f, s);
            var t := SlotOf(h, Reversed(Side(f, s)));
            Boundary(g, h) && InGrid(g, h) && SideAt(g, h, t) == (SideAt(g, f, s).1, SideAt(g, f, s).0)
  {
    hide Side, Mate, SlotOf;
    SideHasMate(g, f, s);
    BoundaryIsInGrid(g, Mate(g, f, s));
  }

  lemma BoundaryIsInGrid(g: Grid, f: Face)
    requires g.Valid() && Boundary(g, f)
    ensures InGrid(g, f)
  {
  }
}
