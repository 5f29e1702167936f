/** From fin spans to labelled cells: the fin cells together are as wide as the fins. */
module HeatsinkFins {
  import opened HeatsinkShell
  import opened HeatsinkVolume
  import opened HeatsinkGenerator

  const BASE_X := 0.080
  const BASE_Y := 0.060
  const BASE_Z := 0.005
  const FIN_W := 0.006
  const FIN_H := 0.020

  /** The x interval of one fin. */
  datatype Span = Span(low: real, high: real)

  function FinSpan(k: nat): Span {
    var low := 0.008 + 0.018 * k as real;
    Span(low, low + FIN_W)
  }

  function FinSpans(n: nat): seq<Span> {
    if n == 0 then [] else FinSpans(n - 1) + [FinSpan(n - 1)]
  }

  predicate Separated(spans: seq<Span>) {
    && (forall k :: 0 <= k < |spans| ==> spans[k].low < spans[k].high)
    && (forall k, m :: 0 <= k < m < |spans| ==> spans[k].high < spans[m].low)
  }

  function TotalWidth(spans: seq<Span>): real {
    if spans == [] then 0.0
    else TotalWidth(spans[..|spans| - 1]) + (spans[|spans| - 1].high - spans[|spans| - 1].low)
  }

  predicate Covers(span: Span, x: real) {
    span.low <= x <= span.high
  }

  predicate Covered(spans: seq<Span>, x: real) {
    exists k :: 0 <= k < |spans| && Covers(spans[k], x)
  }

  function Middle(g: Grid, i: nat): real
    requires g.Valid() && i < g.Cells()
  {
    0.5 * (g.xs[i] + g.xs[i + 1])
  }

  /** Every end of a fin is a breakpoint, and a cell is a fin cell when its middle lies in a fin. */
  predicate Labelled(g: Grid, spans: seq<Span>) {
    && g.Valid() && Separated(spans)
    && (forall k :: 0 <= k < |spans| ==> spans[k].low in g.xs && spans[k].high in g.xs)
    && (forall i :: 0 <= i < g.Cells() ==>
          g.fin[i] == Covered(spans, Middle(g, i)))
  }

  /** How much of a span lies below `x`. */
  function Below(span: Span, x: real): real {
    if x <= span.low then 0.0 else if x >= span.high then span.high - span.low else x - span.low
  }

  function AllBelow(spans: seq<Span>, x: real): real {
    if spans == [] then 0.0 else AllBelow(spans[..|spans| - 1], x) + Below(spans[|spans| - 1], x)
  }

  /** A breakpoint is never strictly inside a cell. */
  lemma BreakpointsBoundCells(g: Grid, i: nat, x: real)
    requires g.Valid() && i < g.Cells() && x in g.xs
    ensures x <= g.xs[i] || x >= g.xs[i + 1]
  {
    var k :| 0 <= k < |g.xs| && g.xs[k] == x;
    if k < i {
      assert g.xs[k] < g.xs[i];
    } else if k > i + 1 {
      assert g.xs[i + 1] < g.xs[k];
    }
  }

  lemma SpanOverCell(g: Grid, i: nat, span: Span)
    requires g.Valid() && i < g.Cells() && span.low < span.high && span.low in g.xs && span.high in g.xs
    ensures Below(span, g.xs[i + 1]) - Below(span, g.xs[i])
            == if Covers(span, Middle(g, i)) then Width(g, i) else 0.0
  {
    BreakpointsBoundCells(g, i, span.low);
    BreakpointsBoundCells(g, i, span.high);
    assert g.xs[i] < g.xs[i + 1];
  }

  /** At most one span covers a point. */
  lemma CoveredStep(spans: seq<Span>, x: real)
    requires Separated(spans) && spans != []
    ensures var front, last := spans[..|spans| - 1], spans[|spans| - 1];
            && Covered(spans, x) == (Covered(front, x) || Covers(last, x))
            && !(Covered(front, x) && Covers(last, x))
  {
    var front, last := spans[..|spans| - 1], |spans| - 1;
    if k :| 0 <= k < |front| && Covers(front[k], x) {
      assert Covers(spans[k], x) && spans[k].high < spans[last].low;
    }
    if k :| 0 <= k < |spans| && Covers(spans[k], x) {
      assert k < last ==> Covers(front[k], x);
    }
  }

  lemma SeparatedFront(spans: seq<Span>)
    requires Separated(spans) && spans != []
    ensures Separated(spans[..|spans| - 1])
  {
  }

  /** A cell gains its whole width when one of the spans covers it, and otherwise nothing. */
  lemma {:induction false} SpansOverCell(g: Grid, i: nat, spans: seq<Span>)
    requires g.Valid() && i < g.Cells() && Separated(spans)
    requires forall k :: 0 <= k < |spans| ==> spans[k].low in g.xs && spans[k].high in g.xs
    ensures AllBelow(spans, g.xs[i + 1]) - AllBelow(spans, g.xs[i])
            == if Covered(spans, Middle(g, i)) then Width(g, i) else 0.0
    decreases |spans|
  {
    if spans == [] {
      assert !Covered(spans, Middle(g, i));
    } else {
      hide Below, Width, Middle, Covers, Covered;
      var front, last := spans[..|spans| - 1], spans[|spans| - 1];
      SeparatedFront(spans);
      CoveredStep(spans, Middle(g, i));
      assert last.low < last.high;
      hide Separated, Increasing;
      SpansOverCell(g, i, front);
      SpanOverCell(g, i, last);
    }
  }

  lemma {:induction false} FinWidthIsBelow(g: Grid, spans: seq<Span>, cells: nat)
    requires Labelled(g, spans) && cells <= g.Cells()
    ensures FinWidth(g, cells) == AllBelow(spans, g.xs[cells]) - AllBelow(spans, g.xs[0])
  {
    hide AllBelow, Width, Middle, Covered;
    if cells > 0 {
      FinWidthIsBelow(g, spans, cells - 1);
      SpansOverCell(g, cells - 1, spans);
    }
  }

  lemma {:induction false} BelowEnds(spans: seq<Span>, x0: real, x1: real)
    requires Separated(spans)
    requires forall k :: 0 <= k < |spans| ==> x0 <= spans[k].low && spans[k].high <= x1
    ensures AllBelow(spans, x0) == 0.0 && AllBelow(spans, x1) == TotalWidth(spans)
    decreases |spans|
  {
    if spans != [] {
      BelowEnds(spans[..|spans| - 1], x0, x1);
    }
  }

  /** However the cuts split them, the fin cells are together as wide as the fins. */
  lemma FinCellsSpanTheFins(g: Grid, spans: seq<Span>)
    requires Labelled(g, spans)
    ensures FinWidth(g, g.Cells()) == TotalWidth(spans)
  {
    forall k | 0 <= k < |spans| ensures g.xs[0] <= spans[k].low && spans[k].high <= g.xs[g.Cells()] {
      WithinEnds(g, spans[k].low);
      WithinEnds(g, spans[k].high);
    }
    BelowEnds(spans, g.xs[0], g.xs[g.Cells()]);
    FinWidthIsBelow(g, spans, g.Cells());
  }

  lemma WithinEnds(g: Grid, x: real)
    requires g.Valid() && x in g.xs
    ensures g.xs[0] <= x <= g.xs[g.Cells()]
  {
    var k :| 0 <= k < |g.xs| && g.xs[k] == x;
    assert k > 0 ==> g.xs[0] < g.xs[k];
    assert k < g.Cells() ==> g.xs[k] < g.xs[g.Cells()];
  }

  lemma {:induction false} FinSpansTotal(n: nat)
    ensures |FinSpans(n)| == n && TotalWidth(FinSpans(n)) == FIN_W * n as real
    ensures forall k :: 0 <= k < n ==> FinSpans(n)[k] == FinSpan(k)
  {
    if n > 0 {
      FinSpansTotal(n - 1);
      assert FinSpans(n)[..n - 1] == FinSpans(n - 1);
    }
  }

  lemma FinSpansAreSeparated(n: nat)
    ensures Separated(FinSpans(n))
  {
    FinSpansTotal(n);
    forall k, m | 0 <= k < m < n ensures FinSpan(k).high < FinSpan(m).low {
      assert m as real >= k as real + 1.0;
    }
  }

  /** A plate of the fixed dimensions, with `nfins` fins labelled by cell middles. */
  predicate IsPlate(g: Grid, nfins: nat) {
    && Labelled(g, FinSpans(nfins))
    && g.xs[g.Cells()] == BASE_X && g.ys[g.Rows()] == BASE_Y
    && g.baseZ == BASE_Z && g.topZ == BASE_Z + FIN_H
  }

  /** The generators' volume check: the base box and `nfins` fins. */
  lemma PlateVolume(g: Grid, nfins: nat)
    requires IsPlate(g, nfins)
    ensures PlateSixVolume(g) == 6.0 * (BASE_X * BASE_Y * BASE_Z + nfins as real * FIN_W * BASE_Y * FIN_H)
  {
    hide FinWidth, TotalWidth, FinSpans;
    FinCellsSpanTheFins(g, FinSpans(nfins));
    FinSpansTotal(nfins);
    assert FinWidth(g, g.Cells()) == FIN_W * nfins as real;
  }

  // ----- The plain generator's breakpoints -----

  /** 0, both ends of every fin, and the end of the base. */
  function PlainBreakpoints(n: nat): seq<real> {
    seq(2 * n + 2, i requires 0 <= i < 2 * n + 2 =>
      if i == 0 then 0.0
      else if i == 2 * n + 1 then BASE_X
      else if i % 2 == 1 then FinSpan(i / 2).low
      else FinSpan(i / 2 - 1).high)
  }

  function PlainGrid(n: nat): Grid {
    Grid(PlainBreakpoints(n), [0.0, BASE_Y], BASE_Z, BASE_Z + FIN_H, seq(2 * n + 1, i => i % 2 == 1))
  }

  lemma PlainBreakpointsIncrease(n: nat)
    requires n <= 4
    ensures Increasing(PlainBreakpoints(n))
  {
    var xs := PlainBreakpoints(n);
    forall i, j | 0 <= i < j < |xs| ensures xs[i] < xs[j] {
      assert (j / 2) as real >= (i / 2) as real;
    }
  }

  lemma PlainGridIsValid(n: nat)
    requires n <= 4
    ensures Alternates(PlainGrid(n)) && PlainGrid(n).Valid() && PlainGrid(n).Cells() == 2 * n + 1
    ensures forall k :: 0 <= k < n ==>
              PlainGrid(n).xs[2 * k + 1] == FinSpan(k).low && PlainGrid(n).xs[2 * k + 2] == FinSpan(k).high
  {
    PlainBreakpointsIncrease(n);
  }

  /** Cell `i` has its middle in fin `k` exactly when it is the cell between the ends of fin `k`. */
  lemma PlainCover(n: nat, k: nat, i: nat)
    requires n <= 4 && k < n && i < 2 * n + 1
    ensures PlainGrid(n).Valid() && PlainGrid(n).Cells() == 2 * n + 1
    ensures Covers(FinSpan(k), Middle(PlainGrid(n), i)) <==> i == 2 * k + 1
  {
    PlainGridIsValid(n);
    var g := PlainGrid(n);
    hide FinSpan, PlainGrid;
    assert g.xs[i] < g.xs[i + 1];
    if i < 2 * k + 1 {
      assert i + 1 < 2 * k + 1 ==> g.xs[i + 1] < g.xs[2 * k + 1];
    } else if i > 2 * k + 1 {
      assert 2 * k + 2 < i ==> g.xs[2 * k + 2] < g.xs[i];
    }
  }

  lemma PlainFin(n: nat, i: nat)
    requires i < 2 * n + 1
    ensures PlainGrid(n).fin[i] == (i % 2 == 1)
  {
  }

  lemma PlainLabel(n: nat, i: nat)
    requires n <= 4 && i < 2 * n + 1
    ensures PlainGrid(n).Valid() && PlainGrid(n).Cells() == 2 * n + 1
    ensures PlainGrid(n).fin[i] <==> exists k: nat :: k < n && Covers(FinSpan(k), Middle(PlainGrid(n), i))
  {
    hide PlainGrid, FinSpan, Covers, Middle, Alternates, Increasing;
    PlainGridIsValid(n);
    PlainFin(n, i);
    if i % 2 == 1 {
      PlainCover(n, i / 2, i);
    } else {
      forall k: nat | k < n ensures !Covers(FinSpan(k), Middle(PlainGrid(n), i)) {
        PlainCover(n, k, i);
      }
    }
  }

  lemma PlainSpanEnds(n: nat, k: nat)
    requires n <= 4 && k < n
    ensures |FinSpans(n)| == n
    ensures FinSpans(n)[k].low in PlainGrid(n).xs && FinSpans(n)[k].high in PlainGrid(n).xs
  {
    PlainGridIsValid(n);
    FinSpansTotal(n);
    hide PlainGrid, FinSpan, FinSpans;
    assert PlainGrid(n).xs[2 * k + 1] == FinSpan(k).low && PlainGrid(n).xs[2 * k + 2] == FinSpan(k).high;
  }

  lemma PlainGridIsLabelled(n: nat)
    requires n <= 4
    ensures Labelled(PlainGrid(n), FinSpans(n))
  {
    hide PlainGrid, FinSpan, FinSpans, Covers, Middle, Separated, Increasing;
    FinSpansTotal(n);
    FinSpansAreSeparated(n);
    PlainGridIsValid(n);
    forall k | 0 <= k < n
      ensures FinSpans(n)[k].low in PlainGrid(n).xs && FinSpans(n)[k].high in PlainGrid(n).xs
    {
      PlainSpanEnds(n, k);
    }
    forall i | 0 <= i < 2 * n + 1
      ensures PlainGrid(n).fin[i] <==> exists k :: 0 <= k < n && Covers(FinSpans(n)[k], Middle(PlainGrid(n), i))
    {
      PlainLabel(n, i);
    }
  }

  /** Up to four fins fit; the alternating labels of the plain generator are those of the cell middles. */
  lemma PlainGridIsPlate(n: nat)
    requires n <= 4
    ensures Alternates(PlainGrid(n)) && IsPlate(PlainGrid(n), n)
  {
    PlainGridIsValid(n);
    PlainGridIsLabelled(n);
    hide Labelled, FinSpans, FinSpan, Alternates;
  }
}
