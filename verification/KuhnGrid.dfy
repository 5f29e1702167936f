/** The Kuhn subdivision of a box grid into tetrahedra: numbering, orientation and conformity. */
module KuhnGrid {
  import opened Wrappers

  /** Cell counts along the three axes. */
  datatype Counts = Counts(nx: nat, ny: nat, nz: nat) {
    predicate Valid() {
      nx > 0 && ny > 0 && nz > 0
    }

    function Along(a: Axis): nat {
      match a case X => nx case Y => ny case Z => nz
    }
  }

  datatype Axis = X | Y | Z

  /** A grid point, or the cell whose lowest corner it is. */
  datatype Node = Node(i: int, j: int, k: int) {
    function Along(a: Axis): int {
      match a case X => i case Y => j case Z => k
    }

    function Step(a: Axis): Node {
      match a case X => Node(i + 1, j, k) case Y => Node(i, j + 1, k) case Z => Node(i, j, k + 1)
    }

    function Back(a: Axis): Node {
      match a case X => Node(i - 1, j, k) case Y => Node(i, j - 1, k) case Z => Node(i, j, k - 1)
    }
  }

  predicate IsNode(n: Counts, p: Node) {
    0 <= p.i <= n.nx && 0 <= p.j <= n.ny && 0 <= p.k <= n.nz
  }

  predicate IsCell(n: Counts, p: Node) {
    0 <= p.i < n.nx && 0 <= p.j < n.ny && 0 <= p.k < n.nz
  }

  // ----- Vertex numbers -----

  function NodeCount(n: Counts): nat {
    (n.nx + 1) * (n.ny + 1) * (n.nz + 1)
  }

  function Idx(n: Counts, p: Node): int {
    p.i * (n.ny + 1) * (n.nz + 1) + p.j * (n.nz + 1) + p.k
  }

  lemma RowsApart(size: nat, low: int, high: int)
    requires low < high
    ensures high * size >= low * size + size
  {
    var gap := high - low - 1;
    assert gap * size >= 0;
    assert high * size == low * size + size + gap * size;
  }

  /** A digit below the base, and the number above it, are determined by `high * size + low`. */
  lemma DigitsAreUnique(size: nat, high: int, low: int, high': int, low': int)
    requires 0 <= low < size && 0 <= low' < size
    requires high * size + low == high' * size + low'
    ensures high == high' && low == low'
  {
    if high < high' {
      RowsApart(size, high, high');
    } else if high > high' {
      RowsApart(size, high', high);
    }
  }

  lemma DigitsInRange(size: nat, count: nat, high: int, low: int)
    requires 0 <= low < size && 0 <= high < count
    ensures 0 <= high * size + low < count * size
  {
    assert high * size <= (count - 1) * size;
  }

  /** Vertex numbers, with the two low digits taken together. */
  lemma IdxSplits(n: Counts, p: Node)
    ensures Idx(n, p) == p.i * ((n.ny + 1) * (n.nz + 1)) + (p.j * (n.nz + 1) + p.k)
    ensures NodeCount(n) == (n.nx + 1) * ((n.ny + 1) * (n.nz + 1))
  {
  }

  lemma IdxInRange(n: Counts, p: Node)
    requires IsNode(n, p)
    ensures 0 <= Idx(n, p) < NodeCount(n)
  {
    IdxSplits(n, p);
    DigitsInRange(n.nz + 1, n.ny + 1, p.j, p.k);
    DigitsInRange((n.ny + 1) * (n.nz + 1), n.nx + 1, p.i, p.j * (n.nz + 1) + p.k);
  }

  lemma IdxIsInjective(n: Counts, p: Node, q: Node)
    requires IsNode(n, p) && IsNode(n, q) && Idx(n, p) == Idx(n, q)
    ensures p == q
  {
    IdxSplits(n, p);
    IdxSplits(n, q);
    DigitsInRange(n.nz + 1, n.ny + 1, p.j, p.k);
    DigitsInRange(n.nz + 1, n.ny + 1, q.j, q.k);
    DigitsAreUnique((n.ny + 1) * (n.nz + 1), p.i, p.j * (n.nz + 1) + p.k, q.i, q.j * (n.nz + 1) + q.k);
    DigitsAreUnique(n.nz + 1, p.j, p.k, q.j, q.k);
  }

  function Unidx(n: Counts, v: int): Node
  {
    var plane := (n.ny + 1) * (n.nz + 1);
    PlaneIsPositive(n);
    Node(v / plane, v % plane / (n.nz + 1), v % plane % (n.nz + 1))
  }

  lemma PlaneIsPositive(n: Counts)
    ensures (n.ny + 1) * (n.nz + 1) > 0
  {
  }

  lemma QuotientInRange(v: int, size: nat, count: nat)
    requires size > 0 && 0 <= v < count * size
    ensures 0 <= v / size < count
  {
    if count < v / size {
      RowsApart(size, count, v / size);
    }
  }

  /** Every number below the vertex count is the number of exactly one grid point. */
  lemma IdxIsOnto(n: Counts, v: int)
    requires 0 <= v < NodeCount(n)
    ensures IsNode(n, Unidx(n, v)) && Idx(n, Unidx(n, v)) == v
  {
    var plane := (n.ny + 1) * (n.nz + 1);
    PlaneIsPositive(n);
    IdxSplits(n, Unidx(n, v));
    QuotientInRange(v, plane, n.nx + 1);
    QuotientInRange(v % plane, n.nz + 1, n.ny + 1);
  }

  /** One step along an axis raises the vertex number. */
  lemma IdxRises(n: Counts, p: Node, a: Axis)
    ensures Idx(n, p.Step(a)) > Idx(n, p)
  {
    PlaneIsPositive(n);
    IdxSplits(n, p);
    IdxSplits(n, p.Step(a));
    if a == X {
      assert (p.i + 1) * ((n.ny + 1) * (n.nz + 1)) == p.i * ((n.ny + 1) * (n.nz + 1)) + (n.ny + 1) * (n.nz + 1);
    } else if a == Y {
      assert (p.j + 1) * (n.nz + 1) == p.j * (n.nz + 1) + (n.nz + 1);
    }
  }

  // ----- Tetrahedra -----

  /** The order in which a path from the low to the high corner of a cell takes the axes. */
  datatype Perm = XYZ | XZY | YXZ | YZX | ZXY | ZYX {
    function First(): Axis {
      match this case XYZ => X case XZY => X case YXZ => Y case YZX => Y case ZXY => Z case ZYX => Z
    }

    function Second(): Axis {
      match this case XYZ => Y case XZY => Z case YXZ => X case YZX => Z case ZXY => X case ZYX => Y
    }

    function Third(): Axis {
      match this case XYZ => Z case XZY => Y case YXZ => Z case YZX => X case ZXY => Y case ZYX => X
    }

    predicate Odd() {
      this == XZY || this == YXZ || this == ZYX
    }

    function SwapFirst(): Perm {
      match this case XYZ => YXZ case XZY => ZXY case YXZ => XYZ case YZX => ZYX case ZXY => XZY case ZYX => YZX
    }

    function SwapLast(): Perm {
      match this case XYZ => XZY case XZY => XYZ case YXZ => YZX case YZX => YXZ case ZXY => ZYX case ZYX => ZXY
    }

    /** The first axis moved to the end. */
    function RotateLeft(): Perm {
      match this case XYZ => YZX case XZY => ZYX case YXZ => XZY case YZX => ZXY case ZXY => XYZ case ZYX => YXZ
    }

    /** The last axis moved to the front. */
    function RotateRight(): Perm {
      match this case XYZ => ZXY case XZY => YXZ case YXZ => ZYX case YZX => XYZ case ZXY => YZX case ZYX => XZY
    }
  }

  datatype Tet = Tet(cell: Node, perm: Perm)

  /** Vertex `c` of the path of a tetrahedron. */
  function PathNode(t: Tet, c: int): Node
    requires 0 <= c < 4
  {
    match c
    case 0 => t.cell
    case 1 => t.cell.Step(t.perm.First())
    case 2 => t.cell.Step(t.perm.First()).Step(t.perm.Second())
    case 3 => t.cell.Step(t.perm.First()).Step(t.perm.Second()).Step(t.perm.Third())
  }

  /** The vertices in emitted order: odd orderings swap the two middle ones. */
  function Corners(t: Tet): seq<Node> {
    if t.perm.Odd() then [PathNode(t, 0), PathNode(t, 2), PathNode(t, 1), PathNode(t, 3)]
    else [PathNode(t, 0), PathNode(t, 1), PathNode(t, 2), PathNode(t, 3)]
  }

  lemma PathIsInGrid(n: Counts, t: Tet, c: int)
    requires IsCell(n, t.cell) && 0 <= c < 4
    ensures IsNode(n, PathNode(t, c))
  {
  }

  // ----- Orientation -----

  /** A vector in space. */
  datatype Vector = Vector(x: real, y: real, z: real)

  function Edge(a: Node, b: Node, hx: real, hy: real, hz: real): Vector {
    Vector(b.i as real * hx - a.i as real * hx, b.j as real * hy - a.j as real * hy,
           b.k as real * hz - a.k as real * hz)
  }

  function Determinant(u: Vector, v: Vector, w: Vector): real {
    u.x * (v.y * w.z - v.z * w.y) - u.y * (v.x * w.z - v.z * w.x) + u.z * (v.x * w.y - v.y * w.x)
  }

  lemma EdgeIsDifference(a: Node, b: Node, hx: real, hy: real, hz: real)
    ensures Edge(a, b, hx, hy, hz)
            == Vector((b.i - a.i) as real * hx, (b.j - a.j) as real * hy, (b.k - a.k) as real * hz)
  {
    assert (b.i - a.i) as real == b.i as real - a.i as real;
    assert (b.j - a.j) as real == b.j as real - a.j as real;
    assert (b.k - a.k) as real == b.k as real - a.k as real;
  }

  /** The six paths, as vectors: each has determinant plus or minus the cell volume. */
  lemma PathDeterminants(hx: real, hy: real, hz: real)
    ensures var x, y, z := Vector(hx, 0.0, 0.0), Vector(0.0, hy, 0.0), Vector(0.0, 0.0, hz);
            var xy, xz, yz := Vector(hx, hy, 0.0), Vector(hx, 0.0, hz), Vector(0.0, hy, hz);
            var xyz := Vector(hx, hy, hz);
            && Determinant(x, xy, xyz) == hx * hy * hz && Determinant(xz, x, xyz) == hx * hy * hz
            && Determinant(xy, y, xyz) == hx * hy * hz && Determinant(y, yz, xyz) == hx * hy * hz
            && Determinant(z, xz, xyz) == hx * hy * hz && Determinant(yz, z, xyz) == hx * hy * hz
  {
  }

  /** Every tetrahedron is positively oriented: its determinant is the volume of its cell. */
  lemma OrientationIsPositive(t: Tet, hx: real, hy: real, hz: real)
    ensures var v := Corners(t);
            Determinant(Edge(v[0], v[1], hx, hy, hz), Edge(v[0], v[2], hx, hy, hz), Edge(v[0], v[3], hx, hy, hz))
            == hx * hy * hz
  {
    var v := Corners(t);
    EdgeIsDifference(v[0], v[1], hx, hy, hz);
    EdgeIsDifference(v[0], v[2], hx, hy, hz);
    EdgeIsDifference(v[0], v[3], hx, hy, hz);
    PathDeterminants(hx, hy, hz);
    hide Determinant, Edge;
  }
}
