/** The grid builder: positions filled by a running row counter, tetrahedra appended cell by cell. */
module KuhnMesh {
  import opened KuhnGrid
  import opened KuhnConformity
  import opened KuhnRows

  // ----- Tetrahedra -----

  /** The path of a tetrahedron, one axis at a time. */
  method PathCorners(t: Tet) returns (corners: seq<Node>)
    ensures |corners| == 4 && forall c :: 0 <= c < 4 ==> corners[c] == PathNode(t, c)
  {
    var axes := [t.perm.First(), t.perm.Second(), t.perm.Third()];
    corners := [t.cell];
    for s := 0 to 3
      invariant |corners| == s + 1 && forall c :: 0 <= c <= s ==> corners[c] == PathNode(t, c)
    {
      corners := corners + [corners[s].Step(axes[s])];
    }
  }

  method CellRows(n: Counts, cell: Node) returns (rows: seq<seq<int>>)
    ensures rows == TetRows(n, CellTets(cell, 6))
  {
    hide Idx, PathNode;
    rows := [];
    assert TetRows(n, CellTets(cell, 0)) == [];
    for p := 0 to 6
      invariant rows == TetRows(n, CellTets(cell, p))
    {
      var t := Tet(cell, PERMS[p]);
      var c := PathCorners(t);
      var v := [Idx(n, c[0]), Idx(n, c[1]), Idx(n, c[2]), Idx(n, c[3])];
      TetRowsConcat(n, CellTets(cell, p), [t]);
      var row := if t.perm.Odd() then [v[0], v[2], v[1], v[3]] else [v[0], v[1], v[2], v[3]];
      assert TetRows(n, [t]) == [row];
      rows := rows + [row];
    }
  }

  /** Three nested loops over the cells. */
  method BuildTets(n: Counts) returns (rows: seq<seq<int>>)
    ensures rows == TetRows(n, GridTets(n, n.nx))
  {
    hide TetRows, CellTets;
    rows := [];
    NoRows(n);
    for i := 0 to n.nx
      invariant rows == TetRows(n, GridTets(n, i))
    {
      ghost var layer := GridTets(n, i);
      assert layer + [] == layer;
      for j := 0 to n.ny
        invariant rows == TetRows(n, layer + LayerTets(n, i, j))
      {
        ghost var column := layer + LayerTets(n, i, j);
        assert column + [] == column;
        for k := 0 to n.nz
          invariant rows == TetRows(n, column + ColumnTets(i, j, k))
        {
          var cell := CellRows(n, Node(i, j, k));
          TetRowsConcat(n, column + ColumnTets(i, j, k), CellTets(Node(i, j, k), 6));
          assert column + ColumnTets(i, j, k) + CellTets(Node(i, j, k), 6) == column + ColumnTets(i, j, k + 1);
          rows := rows + cell;
        }
        assert column + ColumnTets(i, j, n.nz) == layer + LayerTets(n, i, j + 1);
      }
    }
  }

  // ----- Positions -----

  /** The rows below `row` hold the coordinates of the grid points with those numbers. */
  ghost predicate Filled(positions: array2<real>, n: Counts, hx: real, hy: real, hz: real, row: int)
    requires positions.Length0 == NodeCount(n) && positions.Length1 == 3
    reads positions
  {
    forall p :: IsNode(n, p) && Idx(n, p) < row ==>
      (IdxInRange(n, p);
       && positions[Idx(n, p), 0] == p.i as real * hx
       && positions[Idx(n, p), 1] == p.j as real * hy
       && positions[Idx(n, p), 2] == p.k as real * hz)
  }

  method PutPosition(positions: array2<real>, n: Counts, hx: real, hy: real, hz: real, p: Node)
    requires positions.Length0 == NodeCount(n) && positions.Length1 == 3
    requires IsNode(n, p) && Filled(positions, n, hx, hy, hz, Idx(n, p))
    modifies positions
    ensures Filled(positions, n, hx, hy, hz, Idx(n, p) + 1)
  {
    hide Idx, NodeCount;
    IdxInRange(n, p);
    var row := Idx(n, p);
    positions[row, 0] := p.i as real * hx;
    positions[row, 1] := p.j as real * hy;
    positions[row, 2] := p.k as real * hz;
    forall q | IsNode(n, q) && Idx(n, q) <= row
      ensures 0 <= Idx(n, q) < NodeCount(n)
      ensures positions[Idx(n, q), 0] == q.i as real * hx
      ensures positions[Idx(n, q), 1] == q.j as real * hy
      ensures positions[Idx(n, q), 2] == q.k as real * hz
    {
      IdxInRange(n, q);
      if Idx(n, q) == row {
        IdxIsInjective(n, p, q);
      }
    }
  }

  lemma CounterCarries(n: Counts, i: int, j: int, k: int)
    ensures Idx(n, Node(i, j, k + 1)) == Idx(n, Node(i, j, k)) + 1
    ensures Idx(n, Node(i, j, n.nz + 1)) == Idx(n, Node(i, j + 1, 0))
    ensures Idx(n, Node(i, n.ny + 1, 0)) == Idx(n, Node(i + 1, 0, 0))
    ensures Idx(n, Node(0, 0, 0)) == 0 && Idx(n, Node(n.nx + 1, 0, 0)) == NodeCount(n)
  {
    OneMoreRow(j, n.nz + 1);
    IdxSplits(n, Node(i, n.ny + 1, 0));
    IdxSplits(n, Node(i + 1, 0, 0));
    IdxSplits(n, Node(n.nx + 1, 0, 0));
    OneMoreRow(i, (n.ny + 1) * (n.nz + 1));
  }

  /** The running row counter is the vertex number of the grid point at hand. */
  method BuildPositions(n: Counts, hx: real, hy: real, hz: real) returns (positions: array2<real>)
    ensures fresh(positions) && positions.Length0 == NodeCount(n) && positions.Length1 == 3
    ensures Filled(positions, n, hx, hy, hz, NodeCount(n))
  {
    hide Idx, NodeCount, Filled;
    positions := new real[NodeCount(n), 3];
    var row := 0;
    CounterCarries(n, 0, 0, 0);
    NothingFilled(positions, n, hx, hy, hz);
    for i := 0 to n.nx + 1
      invariant row == Idx(n, Node(i, 0, 0)) && Filled(positions, n, hx, hy, hz, row)
    {
      for j := 0 to n.ny + 1
        invariant row == Idx(n, Node(i, j, 0)) && Filled(positions, n, hx, hy, hz, row)
      {
        for k := 0 to n.nz + 1
          invariant row == Idx(n, Node(i, j, k)) && Filled(positions, n, hx, hy, hz, row)
        {
          CounterCarries(n, i, j, k);
          PutPosition(positions, n, hx, hy, hz, Node(i, j, k));
          row := row + 1;
        }
        CounterCarries(n, i, j, 0);
      }
      CounterCarries(n, i, 0, 0);
    }
  }

  lemma NothingFilled(positions: array2<real>, n: Counts, hx: real, hy: real, hz: real)
    requires positions.Length0 == NodeCount(n) && positions.Length1 == 3
    ensures Filled(positions, n, hx, hy, hz, 0)
  {
    hide Idx, NodeCount;
    forall p | IsNode(n, p) ensures Idx(n, p) >= 0 {
      IdxInRange(n, p);
    }
  }

  // ----- Rows over stored positions -----

  /** Every vertex number of the row has a stored position. */
  predicate Stored(positions: array2<real>, row: seq<int>) {
    positions.Length1 == 3 && |row| == 4 && forall c :: 0 <= c < 4 ==> 0 <= row[c] < positions.Length0
  }

  function StoredEdge(positions: array2<real>, p: int, q: int): Vector
    requires positions.Length1 == 3 && 0 <= p < positions.Length0 && 0 <= q < positions.Length0
    reads positions
  {
    Vector(positions[q, 0] - positions[p, 0], positions[q, 1] - positions[p, 1], positions[q, 2] - positions[p, 2])
  }

  /** Six times the signed volume of a row, from the three edges at its first vertex. */
  function RowDeterminant(positions: array2<real>, row: seq<int>): real
    requires Stored(positions, row)
    reads positions
  {
    Determinant(StoredEdge(positions, row[0], row[1]), StoredEdge(positions, row[0], row[2]),
                StoredEdge(positions, row[0], row[3]))
  }

  function DeterminantSum(positions: array2<real>, rows: seq<seq<int>>): real
    requires forall m :: 0 <= m < |rows| ==> Stored(positions, rows[m])
    reads positions
  {
    if rows == [] then 0.0
    else DeterminantSum(positions, rows[..|rows| - 1]) + RowDeterminant(positions, rows[|rows| - 1])
  }

  /** Every row refers to stored positions and has determinant `d`. */
  predicate AllOriented(positions: array2<real>, rows: seq<seq<int>>, d: real)
    reads positions
  {
    forall m :: 0 <= m < |rows| ==> Stored(positions, rows[m]) && RowDeterminant(positions, rows[m]) == d
  }

  lemma CornersAreInGrid(n: Counts, t: Tet, c: int)
    requires IsCell(n, t.cell) && 0 <= c < 4
    ensures IsNode(n, Corners(t)[c])
  {
    hide IsNode, IsCell, PathNode;
    PathIsInGrid(n, t, 0);
    PathIsInGrid(n, t, 1);
    PathIsInGrid(n, t, 2);
    PathIsInGrid(n, t, 3);
  }

  lemma StoredEdgeIsEdge(positions: array2<real>, n: Counts, hx: real, hy: real, hz: real, p: Node, q: Node)
    requires positions.Length0 == NodeCount(n) && positions.Length1 == 3
    requires Filled(positions, n, hx, hy, hz, NodeCount(n)) && IsNode(n, p) && IsNode(n, q)
    ensures 0 <= Idx(n, p) < NodeCount(n) && 0 <= Idx(n, q) < NodeCount(n)
    ensures StoredEdge(positions, Idx(n, p), Idx(n, q)) == Edge(p, q, hx, hy, hz)
  {
    IdxInRange(n, p);
    IdxInRange(n, q);
    hide Idx, NodeCount, IsNode;
  }

  lemma RowIsOriented(positions: array2<real>, n: Counts, hx: real, hy: real, hz: real, t: Tet)
    requires positions.Length0 == NodeCount(n) && positions.Length1 == 3
    requires Filled(positions, n, hx, hy, hz, NodeCount(n)) && IsCell(n, t.cell)
    ensures Stored(positions, TetRow(n, t))
    ensures RowDeterminant(positions, TetRow(n, t)) == hx * hy * hz
  {
    hide Filled, Idx, NodeCount, IsNode, IsCell, PathNode, Determinant, Edge, StoredEdge;
    var v := Corners(t);
    forall c | 0 <= c < 4
      ensures 0 <= Idx(n, v[0]) < NodeCount(n) && 0 <= Idx(n, v[c]) < NodeCount(n)
      ensures StoredEdge(positions, Idx(n, v[0]), Idx(n, v[c])) == Edge(v[0], v[c], hx, hy, hz)
    {
      CornersAreInGrid(n, t, 0);
      CornersAreInGrid(n, t, c);
      StoredEdgeIsEdge(positions, n, hx, hy, hz, v[0], v[c]);
    }
    hide Corners;
    OrientationIsPositive(t, hx, hy, hz);
  }

  /** Every row of the grid has the volume of its cell as determinant. */
  lemma RowsAreOriented(positions: array2<real>, n: Counts, hx: real, hy: real, hz: real)
    requires positions.Length0 == NodeCount(n) && positions.Length1 == 3
    requires Filled(positions, n, hx, hy, hz, NodeCount(n))
    ensures AllOriented(positions, TetRows(n, GridTets(n, n.nx)), hx * hy * hz)
  {
    hide Filled, GridTets, TetRow, NodeCount, RowDeterminant;
    var tets := GridTets(n, n.nx);
    forall m | 0 <= m < |tets|
      ensures Stored(positions, TetRow(n, tets[m])) && RowDeterminant(positions, TetRow(n, tets[m])) == hx * hy * hz
    {
      ListedAreCells(n, m);
      RowIsOriented(positions, n, hx, hy, hz, tets[m]);
    }
  }

  lemma {:induction false} EqualDeterminantsSum(positions: array2<real>, rows: seq<seq<int>>, d: real)
    requires AllOriented(positions, rows, d)
    ensures DeterminantSum(positions, rows) == |rows| as real * d
  {
    hide RowDeterminant;
    if rows != [] {
      var before := rows[..|rows| - 1];
      EqualDeterminantsSum(positions, before, d);
      assert |rows| as real == |before| as real + 1.0;
      assert (|before| as real + 1.0) * d == |before| as real * d + d;
    }
  }

  /** The volumes of the tetrahedra add up to the volume of the box. */
  lemma RowsFillTheBox(positions: array2<real>, n: Counts, ex: real, ey: real, ez: real)
    requires n.Valid() && positions.Length0 == NodeCount(n) && positions.Length1 == 3
    requires Filled(positions, n, ex / n.nx as real, ey / n.ny as real, ez / n.nz as real, NodeCount(n))
    ensures AllOriented(positions, TetRows(n, GridTets(n, n.nx)),
                        ex / n.nx as real * (ey / n.ny as real) * (ez / n.nz as real))
    ensures DeterminantSum(positions, TetRows(n, GridTets(n, n.nx))) == 6.0 * (ex * ey * ez)
  {
    hide Filled, GridTets, TetRow, RowDeterminant, DeterminantSum, NodeCount;
    var hx, hy, hz := ex / n.nx as real, ey / n.ny as real, ez / n.nz as real;
    var rows := TetRows(n, GridTets(n, n.nx));
    RowsAreOriented(positions, n, hx, hy, hz);
    GridTetsCount(n, n.nx, Tet(Node(0, 0, 0), XYZ));
    hide AllOriented;
    EqualDeterminantsSum(positions, rows, hx * hy * hz);
    CellVolumes(n, ex, ey, ez);
  }

  lemma CellVolumes(n: Counts, ex: real, ey: real, ez: real)
    requires n.Valid()
    ensures (n.nx * (n.ny * (6 * n.nz))) as real * (ex / n.nx as real * (ey / n.ny as real) * (ez / n.nz as real))
            == 6.0 * (ex * ey * ez)
  {
    var x, y, z := n.nx as real, n.ny as real, n.nz as real;
    var hx, hy, hz := ex / x, ey / y, ez / z;
    ProductAsReal(n.ny, 6 * n.nz);
    ProductAsReal(n.nx, n.ny * (6 * n.nz));
    assert (6 * n.nz) as real == 6.0 * z;
    Regroup(x, y, z, hx, hy, hz);
    assert x * hx == ex && y * hy == ey && z * hz == ez;
  }

  lemma {:induction false} ProductAsReal(a: nat, b: nat)
    ensures (a * b) as real == a as real * b as real
  {
    if a > 0 {
      ProductAsReal(a - 1, b);
      assert a * b == (a - 1) * b + b;
      assert (a * b) as real == ((a - 1) * b) as real + b as real;
      assert a as real == (a - 1) as real + 1.0;
      assert ((a - 1) as real + 1.0) * b as real == (a - 1) as real * b as real + b as real;
    }
  }

  lemma Regroup(x: real, y: real, z: real, hx: real, hy: real, hz: real)
    ensures x * (y * (6.0 * z)) * (hx * hy * hz) == 6.0 * ((x * hx) * (y * hy) * (z * hz))
  {
  }

  /** Every grid point is stored under its number, at its multiple of the cell steps from the origin. */
  ghost predicate OnBox(positions: array2<real>, n: Counts, ex: real, ey: real, ez: real)
    requires n.Valid() && positions.Length0 == NodeCount(n) && positions.Length1 == 3
    reads positions
  {
    forall p :: IsNode(n, p) ==>
      && 0 <= Idx(n, p) < NodeCount(n)
      && positions[Idx(n, p), 0] == p.i as real * (ex / n.nx as real)
      && positions[Idx(n, p), 1] == p.j as real * (ey / n.ny as real)
      && positions[Idx(n, p), 2] == p.k as real * (ez / n.nz as real)
  }

  lemma FilledIsOnBox(positions: array2<real>, n: Counts, ex: real, ey: real, ez: real)
    requires n.Valid() && positions.Length0 == NodeCount(n) && positions.Length1 == 3
    requires Filled(positions, n, ex / n.nx as real, ey / n.ny as real, ez / n.nz as real, NodeCount(n))
    ensures OnBox(positions, n, ex, ey, ez)
  {
    hide Idx, NodeCount;
    forall p | IsNode(n, p) ensures 0 <= Idx(n, p) < NodeCount(n) {
      IdxInRange(n, p);
    }
  }

  /** The first vertex is the origin, the last one the far corner of the box. */
  lemma CornersOfBox(positions: array2<real>, n: Counts, ex: real, ey: real, ez: real)
    requires n.Valid() && positions.Length0 == NodeCount(n) && positions.Length1 == 3
    requires OnBox(positions, n, ex, ey, ez)
    ensures var last := NodeCount(n) - 1;
            && last >= 0
            && positions[0, 0] == positions[0, 1] == positions[0, 2] == 0.0
            && positions[last, 0] == ex && positions[last, 1] == ey && positions[last, 2] == ez
  {
    var low, high := Node(0, 0, 0), Node(n.nx, n.ny, n.nz);
    LastIdx(n);
    hide Idx, NodeCount;
    assert IsNode(n, low) && IsNode(n, high);
    StepsSpan(n.nx, ex);
    StepsSpan(n.ny, ey);
    StepsSpan(n.nz, ez);
  }

  lemma LastIdx(n: Counts)
    ensures Idx(n, Node(0, 0, 0)) == 0 && Idx(n, Node(n.nx, n.ny, n.nz)) == NodeCount(n) - 1
  {
    IdxSplits(n, Node(n.nx, n.ny, n.nz));
    OneMoreRow(n.nx, (n.ny + 1) * (n.nz + 1));
    OneMoreRow(n.ny, n.nz + 1);
  }

  lemma StepsSpan(count: nat, extent: real)
    requires count > 0
    ensures count as real * (extent / count as real) == extent && 0 as real * (extent / count as real) == 0.0
  {
  }

  /** The whole grid over a box of extent (ex, ey, ez). */
  method KuhnBoxGrid(n: Counts, ex: real, ey: real, ez: real) returns (positions: array2<real>, rows: seq<seq<int>>)
    requires n.Valid()
    ensures fresh(positions) && positions.Length0 == NodeCount(n) && positions.Length1 == 3
    ensures OnBox(positions, n, ex, ey, ez)
    ensures var last := NodeCount(n) - 1;
            && last >= 0
            && positions[0, 0] == positions[0, 1] == positions[0, 2] == 0.0
            && positions[last, 0] == ex && positions[last, 1] == ey && positions[last, 2] == ez
    ensures rows == TetRows(n, GridTets(n, n.nx))
    ensures AllOriented(positions, rows, ex / n.nx as real * (ey / n.ny as real) * (ez / n.nz as real))
    ensures DeterminantSum(positions, rows) == 6.0 * (ex * ey * ez)
    ensures Conforming(n, rows)
  {
    hide Filled, OnBox, GridTets, TetRows, NodeCount, AllOriented, DeterminantSum, Conforming;
    positions := BuildPositions(n, ex / n.nx as real, ey / n.ny as real, ez / n.nz as real);
    rows := BuildTets(n);
    FilledIsOnBox(positions, n, ex, ey, ez);
    CornersOfBox(positions, n, ex, ey, ez);
    RowsFillTheBox(positions, n, ex, ey, ez);
    RowsConform(n);
  }

  function StoredAlong(positions: array2<real>, v: int, a: Axis): real
    requires positions.Length1 == 3 && 0 <= v < positions.Length0
    reads positions
  {
    match a case X => positions[v, 0] case Y => positions[v, 1] case Z => positions[v, 2]
  }

  function ExtentAlong(ex: real, ey: real, ez: real, a: Axis): real {
    match a case X => ex case Y => ey case Z => ez
  }

  function Multiple(i: int, count: nat, extent: real): real
    requires count > 0
  {
    i as real * (extent / count as real)
  }

  lemma StoredMultiple(positions: array2<real>, n: Counts, ex: real, ey: real, ez: real, p: Node, a: Axis)
    requires n.Valid() && positions.Length0 == NodeCount(n) && positions.Length1 == 3
    requires OnBox(positions, n, ex, ey, ez) && IsNode(n, p)
    ensures 0 <= Idx(n, p) < NodeCount(n)
    ensures StoredAlong(positions, Idx(n, p), a) == Multiple(p.Along(a), n.Along(a), ExtentAlong(ex, ey, ez, a))
  {
    hide Idx, NodeCount, IsNode;
  }

  lemma VertexOnSide(
    positions: array2<real>, n: Counts, ex: real, ey: real, ez: real, v: int, a: Axis, high: bool)
    requires n.Valid() && positions.Length0 == NodeCount(n) && positions.Length1 == 3
    requires OnBox(positions, n, ex, ey, ez) && ExtentAlong(ex, ey, ez, a) != 0.0 && 0 <= v < NodeCount(n)
    ensures StoredAlong(positions, v, a) == (if high then ExtentAlong(ex, ey, ez, a) else 0.0) <==>
            Unidx(n, v).Along(a) == if high then n.Along(a) else 0
  {
    hide Idx, Unidx, NodeCount, OnBox, StoredAlong, ExtentAlong, Multiple, IsNode;
    IdxIsOnto(n, v);
    var p := Unidx(n, v);
    StoredMultiple(positions, n, ex, ey, ez, p, a);
    assert n.Along(a) > 0;
    StepsDiffer(n.Along(a), ExtentAlong(ex, ey, ez, a), p.Along(a));
  }

  /** A vertex set lies on a side exactly when its stored coordinates are those of that side of the box. */
  lemma SideByPositions(
    positions: array2<real>, n: Counts, ex: real, ey: real, ez: real, s: set<int>, a: Axis, high: bool)
    requires n.Valid() && positions.Length0 == NodeCount(n) && positions.Length1 == 3
    requires OnBox(positions, n, ex, ey, ez) && ExtentAlong(ex, ey, ez, a) != 0.0
    requires forall v :: v in s ==> 0 <= v < NodeCount(n)
    ensures OnSide(n, s, a, high) <==>
            forall v :: v in s ==>
              StoredAlong(positions, v, a) == if high then ExtentAlong(ex, ey, ez, a) else 0.0
  {
    hide Unidx, NodeCount, OnBox, StoredAlong, ExtentAlong;
    forall v | v in s
      ensures StoredAlong(positions, v, a) == (if high then ExtentAlong(ex, ey, ez, a) else 0.0) <==>
              Unidx(n, v).Along(a) == if high then n.Along(a) else 0
    {
      VertexOnSide(positions, n, ex, ey, ez, v, a, high);
    }
  }

  lemma StepsDiffer(count: nat, extent: real, i: int)
    requires count > 0 && extent != 0.0
    ensures Multiple(i, count, extent) == extent <==> i == count
    ensures Multiple(i, count, extent) == 0.0 <==> i == 0
  {
    var step := extent / count as real;
    StepsSpan(count, extent);
    assert step != 0.0;
    assert i as real * step - count as real * step == (i as real - count as real) * step;
  }

  /** The number used to probe a grid point is that of its stored row. */
  lemma ProbeFindsItsRow(positions: array2<real>, n: Counts, hx: real, hy: real, hz: real, p: Node)
    requires positions.Length0 == NodeCount(n) && positions.Length1 == 3
    requires Filled(positions, n, hx, hy, hz, NodeCount(n)) && IsNode(n, p)
    ensures var v := p.i * (n.ny + 1) * (n.nz + 1) + p.j * (n.nz + 1) + p.k;
            && 0 <= v < NodeCount(n)
            && positions[v, 0] == p.i as real * hx
            && positions[v, 1] == p.j as real * hy
            && positions[v, 2] == p.k as real * hz
  {
    IdxInRange(n, p);
    assert p.i * (n.ny + 1) * (n.nz + 1) + p.j * (n.nz + 1) + p.k == Idx(n, p);
    hide Idx, NodeCount;
  }
}
