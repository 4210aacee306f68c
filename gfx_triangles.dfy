/** draw_triangle and fill_triangle of src/ili9488_gfx.c: three lines, and
    a scan conversion that sorts the corners by row and draws one horizontal
    span per row between the long edge and one of the two short edges. */
module GfxTriangles {
  import opened Ints
  import opened Hal
  import opened Driver
  import opened Gfx

  /** The primitive covers the pixel (x, y). */
  predicate Covers(p: Prim, x: int, y: int)
  {
    match p
    case Pixel(px, py) => px == x && py == y
    case HLine(px, py, w) => py == y && px <= x < px + w
    case VLine(px, py, h) => px == x && py <= y < py + h
  }

  /** Some primitive of ps covers the pixel (x, y). */
  predicate Drawn(ps: seq<Prim>, x: int, y: int)
  {
    exists i :: 0 <= i < |ps| && Covers(ps[i], x, y)
  }

  lemma DrawnAppend(ps: seq<Prim>, qs: seq<Prim>, x: int, y: int)
    requires Drawn(ps, x, y) || Drawn(qs, x, y)
    ensures Drawn(ps + qs, x, y)
  {
    if Drawn(ps, x, y) {
      var i :| 0 <= i < |ps| && Covers(ps[i], x, y);
      assert (ps + qs)[i] == ps[i];
    } else {
      var i :| 0 <= i < |qs| && Covers(qs[i], x, y);
      assert (ps + qs)[|ps| + i] == qs[i];
    }
  }

  // ---------------------------------------------------------------------------
  // draw_triangle

  /** A line whose end points are less than 2^15 apart on both axes draws
      both end points, whichever of its three cases it takes. */
  lemma LineCoversEnds(x0: u16, y0: u16, x1: u16, y1: u16)
    requires LineTerminates(x0, y0, x1, y1) && Abs(x1 - x0) <= 0x7FFF && Abs(y1 - y0) <= 0x7FFF
    ensures Drawn(LinePrims(x0, y0, x1, y1), x0, y0) && Drawn(LinePrims(x0, y0, x1, y1), x1, y1)
  {
    var ps := LinePrims(x0, y0, x1, y1);
    if y0 == y1 {
      assert ps[0] == HLine(Min(x0, x1), y0, Abs(x1 - x0) + 1);
      assert Covers(ps[0], x0, y0) && Covers(ps[0], x1, y1);
    } else if x0 == x1 {
      assert ps[0] == VLine(x0, Min(y0, y1), Abs(y1 - y0) + 1);
      assert Covers(ps[0], x0, y0) && Covers(ps[0], x1, y1);
    } else {
      LineEndpoints(x0, y0, x1, y1);
      assert Covers(ps[0], x0, y0) || Covers(ps[|ps| - 1], x0, y0);
      assert Covers(ps[0], x1, y1) || Covers(ps[|ps| - 1], x1, y1);
    }
  }

  /** The drawing calls of draw_triangle: the three edges in order. */
  function TrianglePrims(x0: u16, y0: u16, x1: u16, y1: u16, x2: u16, y2: u16): seq<Prim>
    requires LineTerminates(x0, y0, x1, y1) && LineTerminates(x1, y1, x2, y2) && LineTerminates(x2, y2, x0, y0)
  {
    LinePrims(x0, y0, x1, y1) + LinePrims(x1, y1, x2, y2) + LinePrims(x2, y2, x0, y0)
  }

  /** The outline of a triangle whose corners are less than 2^15 apart
      passes through all three corners. */
  lemma TriangleCorners(x0: u16, y0: u16, x1: u16, y1: u16, x2: u16, y2: u16)
    requires LineTerminates(x0, y0, x1, y1) && LineTerminates(x1, y1, x2, y2) && LineTerminates(x2, y2, x0, y0)
    requires Abs(x1 - x0) <= 0x7FFF && Abs(y1 - y0) <= 0x7FFF && Abs(x2 - x1) <= 0x7FFF
    requires Abs(y2 - y1) <= 0x7FFF && Abs(x0 - x2) <= 0x7FFF && Abs(y0 - y2) <= 0x7FFF
    ensures var ps := TrianglePrims(x0, y0, x1, y1, x2, y2);
      Drawn(ps, x0, y0) && Drawn(ps, x1, y1) && Drawn(ps, x2, y2)
  {
    var e0, e1, e2 := LinePrims(x0, y0, x1, y1), LinePrims(x1, y1, x2, y2), LinePrims(x2, y2, x0, y0);
    LineCoversEnds(x0, y0, x1, y1);
    LineCoversEnds(x1, y1, x2, y2);
    LineCoversEnds(x2, y2, x0, y0);
    DrawnAppend(e0, e1, x0, y0);
    DrawnAppend(e0, e1, x1, y1);
    DrawnAppend(e0, e1, x2, y2);
    DrawnAppend(e0 + e1, e2, x0, y0);
    DrawnAppend(e0 + e1, e2, x1, y1);
    DrawnAppend(e0 + e1, e2, x2, y2);
  }

  /** draw_triangle. */
  method DrawTriangle(d: Display, x0: u16, y0: u16, x1: u16, y1: u16, x2: u16, y2: u16, color: u16)
    requires LineTerminates(x0, y0, x1, y1) && LineTerminates(x1, y1, x2, y2) && LineTerminates(x2, y2, x0, y0)
    modifies d.bus`cs, d.bus`dc, d.bus`log
    ensures d.bus.log == old(d.bus.log) + Render(TrianglePrims(x0, y0, x1, y1, x2, y2), Rgb565ToRgb666(color), d.width, d.height)
  {
    ghost var c, w, h := Rgb565ToRgb666(color), d.width, d.height;
    ghost var e0, e1, e2 := LinePrims(x0, y0, x1, y1), LinePrims(x1, y1, x2, y2), LinePrims(x2, y2, x0, y0);
    DrawLine(d, x0, y0, x1, y1, color);
    DrawLine(d, x1, y1, x2, y2, color);
    DrawLine(d, x2, y2, x0, y0, color);
    RenderAppend(e0, e1, c, w, h);
    RenderAppend(e0 + e1, e2, c, w, h);
    AppendAssoc(old(d.bus.log), Render(e0, c, w, h), Render(e1, c, w, h));
    AppendAssoc(old(d.bus.log), Render(e0 + e1, c, w, h), Render(e2, c, w, h));
  }

  // ---------------------------------------------------------------------------
  // fill_triangle: sorting the corners

  datatype Vertex = Vertex(x: u16, y: u16)

  /** One conditional swap of the sort: the pair is exchanged when the first
      is further down. */
  function Order(a: Vertex, b: Vertex): (r: (Vertex, Vertex))
    ensures r.0.y <= r.1.y && multiset{r.0, r.1} == multiset{a, b}
    ensures r == (a, b) || r == (b, a)
  {
    if a.y > b.y then (b, a) else (a, b)
  }

  /** The three conditional swaps fill_triangle starts with: the corners
      come out ordered by row, and they are the same three corners. */
  function SortByY(a: Vertex, b: Vertex, c: Vertex): (r: (Vertex, Vertex, Vertex))
    ensures r.0.y <= r.1.y <= r.2.y
    ensures multiset{r.0, r.1, r.2} == multiset{a, b, c}
  {
    var p := Order(a, b);
    var q := Order(p.1, c);
    var t := Order(p.0, q.0);
    assert multiset{t.0, t.1, q.1} == multiset{p.0, q.0, q.1} == multiset{p.0, p.1, c};
    (t.0, t.1, q.1)
  }

  /** fill_triangle returns when the three corners share a row or are all
      above row 32767. Otherwise its int16_t row counter can never pass the
      bottom row, which a uint16_t of at least 32767 holds, and the loop
      never ends. */
  predicate FillTerminates(y0: u16, y1: u16, y2: u16)
  {
    (y0 == y1 && y1 == y2) || (y0 < 0x7FFF && y1 < 0x7FFF && y2 < 0x7FFF)
  }

  // ---------------------------------------------------------------------------
  // fill_triangle: the one-row case

  /** One comparison of the one-row case: x widens the int16_t range [a, b]
      to the left, or else to the right. */
  function Widen(a: i16, b: i16, x: u16): (i16, i16)
  {
    if x < a then (I16(x), b) else if x > b then (a, I16(x)) else (a, b)
  }

  /** The span the one-row case draws: from the leftmost to the rightmost
      of the three x, tracked in int16_t. */
  function FlatRow(x0: u16, x1: u16, x2: u16, y: u16): Prim
  {
    var p := Widen(I16(x0), I16(x0), x1);
    var q := Widen(p.0, p.1, x2);
    HLine(U16(q.0), y, U16(q.1 - q.0 + 1))
  }

  /** For x below 2^15 the one-row span runs exactly from the smallest to
      the largest x. */
  lemma FlatRowSpan(x0: u16, x1: u16, x2: u16, y: u16)
    requires x0 < 0x8000 && x1 < 0x8000 && x2 < 0x8000
    ensures var lo, hi := Min(x0, Min(x1, x2)), Max(x0, Max(x1, x2));
      FlatRow(x0, x1, x2, y) == HLine(lo, y, hi - lo + 1)
  {
  }

  // ---------------------------------------------------------------------------
  // fill_triangle: the rows, one span per row

  /** The spans f(y), f(y + 1), ..., f(last), one per row. */
  function Tabulate(f: int --> Prim, y: int, last: int): seq<Prim>
    requires forall k :: y <= k <= last ==> f.requires(k)
    decreases last - y
  {
    if y <= last then [f(y)] + Tabulate(f, y + 1, last) else []
  }

  /** The row counter when a loop from y to last has ended. */
  function RowEnd(y: int, last: int): int
  {
    if y <= last then last + 1 else y
  }

  /** One span per row from y to last. */
  lemma {:induction false} TabulateLength(f: int --> Prim, y: int, last: int)
    requires forall k :: y <= k <= last ==> f.requires(k)
    ensures |Tabulate(f, y, last)| == RowEnd(y, last) - y
    decreases last - y
  {
    if y <= last {
      TabulateLength(f, y + 1, last);
    }
  }

  /** A table from row y starts with row y's entry. */
  lemma TabulateCons(f: int --> Prim, y: int, last: int)
    requires forall k :: y <= k <= last ==> f.requires(k)
    requires y <= last
    ensures Tabulate(f, y, last) == [f(y)] + Tabulate(f, y + 1, last)
  {
  }

  /** Span i is the one of row y + i. */
  lemma {:induction false} TabulateAt(f: int --> Prim, y: int, last: int, i: nat)
    requires forall k :: y <= k <= last ==> f.requires(k)
    requires y + i <= last
    ensures var rows := Tabulate(f, y, last);
      i < |rows| && rows[i] == f(y + i)
    decreases i
  {
    var rows, rest := Tabulate(f, y, last), Tabulate(f, y + 1, last);
    assert rows == [f(y)] + rest;
    if i > 0 {
      TabulateAt(f, y + 1, last, i - 1);
      assert rows[i] == rest[i - 1];
    }
  }

  /** The rows from y to last are those up to m followed by those after
      it, from the row a loop up to m ends on. */
  lemma {:induction false} TabulateSplit(f: int --> Prim, y: int, m: int, last: int)
    requires forall k :: y <= k <= last ==> f.requires(k)
    requires y - 1 <= m <= last
    ensures Tabulate(f, y, last) == Tabulate(f, y, m) + Tabulate(f, RowEnd(y, m), last)
    decreases m - y
  {
    if y <= m {
      TabulateSplit(f, y + 1, m, last);
      assert Tabulate(f, y, m) == [f(y)] + Tabulate(f, y + 1, m);
      AppendAssoc([f(y)], Tabulate(f, y + 1, m), Tabulate(f, m + 1, last));
    } else {
      assert Tabulate(f, y, m) == [];
    }
  }

  /** Two row maps that agree on every row give the same rows. */
  lemma {:induction false} TabulateAgree(f: int --> Prim, g: int --> Prim, y: int, last: int)
    requires forall k :: y <= k <= last ==> f.requires(k) && g.requires(k) && f(k) == g(k)
    ensures Tabulate(f, y, last) == Tabulate(g, y, last)
    decreases last - y
  {
    if y <= last {
      TabulateAgree(f, g, y + 1, last);
    }
  }

  /** The span of one row between the edge crossings a and b, taken in
      either order: after the swap, draw_hline(a, y, b - a + 1). */
  function RowSpan(a: i16, b: i16, y: i16): Prim
  {
    if a > b then HLine(U16(b), U16(y), U16(a - b + 1)) else HLine(U16(a), U16(y), U16(b - a + 1))
  }

  /** An edge as fill_triangle walks it: from the corner (x, y), with the
      int16_t differences dx and dy to its other corner. */
  datatype Edge = Edge(x: u16, y: u16, dx: i16, dy: i16)

  /** The edge from corner a to corner b further down. */
  function EdgeOf(a: Vertex, b: Vertex): Edge
    requires a.y <= b.y < 0x7FFF
  {
    Edge(a.x, a.y, I16(b.x - a.x), b.y - a.y)
  }

  /** Where the edge crosses row y: dx (y - y0) / dy with C's division,
      added to x in int16_t. The loops reach the product dx (y - y0) by
      adding dx once per row. */
  function EdgeX(e: Edge, y: int): i16
    requires e.dy != 0 && e.y <= y
  {
    I16(e.x + TDiv(Times(e.dx, y - e.y), e.dy))
  }

  /** The span of row k between the crossings of the edges ea and eb. */
  function EdgeRow(ea: Edge, eb: Edge): int --> Prim
  {
    (k: int) requires ea.dy != 0 && eb.dy != 0 && ea.y <= k && eb.y <= k < 0x7FFF =>
      RowSpan(EdgeX(ea, k), EdgeX(eb, k), k)
  }

  /** The last row of the upper loop: the row above q, or q's row when q
      and s share it. */
  function UpperLast(q: Vertex, s: Vertex): int
  {
    if q.y == s.y then q.y else q.y - 1
  }

  /** Where row y crosses the short edges: p-q above q's row (and on it,
      when q and s share their row), q-s from q's row on. */
  function ShortX(p: Vertex, q: Vertex, s: Vertex, y: int): i16
    requires p.y <= q.y <= s.y < 0x7FFF && p.y < s.y && p.y <= y <= s.y
  {
    if y <= UpperLast(q, s) then EdgeX(EdgeOf(p, q), y) else EdgeX(EdgeOf(q, s), y)
  }

  /** Where row y crosses the long edge p-s. */
  function LongX(p: Vertex, s: Vertex, y: int): i16
    requires p.y < s.y < 0x7FFF && p.y <= y
  {
    EdgeX(EdgeOf(p, s), y)
  }

  /** The span of row k of the triangle with corners p, q, s sorted by row:
      between its crossings of the short and the long edge. */
  function TriangleRow(p: Vertex, q: Vertex, s: Vertex): int --> Prim
    requires p.y <= q.y <= s.y < 0x7FFF && p.y < s.y
  {
    (k: int) requires p.y <= k <= s.y => RowSpan(ShortX(p, q, s, k), LongX(p, s, k), k)
  }

  /** The rows of fill_triangle when the corners are not all on one row:
      one span on every row from p's to s's. */
  function TriangleRows(p: Vertex, q: Vertex, s: Vertex): seq<Prim>
    requires p.y <= q.y <= s.y < 0x7FFF && p.y < s.y
  {
    Tabulate(TriangleRow(p, q, s), p.y, s.y)
  }

  /** The drawing calls of fill_triangle. */
  function FillTrianglePrims(x0: u16, y0: u16, x1: u16, y1: u16, x2: u16, y2: u16): seq<Prim>
    requires FillTerminates(y0, y1, y2)
  {
    var t := SortByY(Vertex(x0, y0), Vertex(x1, y1), Vertex(x2, y2));
    if t.0.y == t.2.y then [FlatRow(t.0.x, t.1.x, t.2.x, t.0.y)] else TriangleRows(t.0, t.1, t.2)
  }

  // ---------------------------------------------------------------------------
  // fill_triangle: properties of the rows

  /** The rows run from p's row to s's, and row y spans the crossings of
      the short and the long edge. */
  lemma TriangleRowsClosed(p: Vertex, q: Vertex, s: Vertex)
    requires p.y <= q.y <= s.y < 0x7FFF && p.y < s.y
    ensures var rows := TriangleRows(p, q, s);
      && |rows| == s.y - p.y + 1
      && forall i :: 0 <= i < |rows| ==> rows[i] == RowSpan(ShortX(p, q, s, p.y + i), LongX(p, s, p.y + i), p.y + i)
  {
    var f, rows := TriangleRow(p, q, s), TriangleRows(p, q, s);
    TriangleRowDefined(p, q, s);
    TabulateLength(f, p.y, s.y);
    forall i | 0 <= i < |rows|
      ensures rows[i] == RowSpan(ShortX(p, q, s, p.y + i), LongX(p, s, p.y + i), p.y + i)
    {
      RowAt(p, q, s, i);
    }
  }

  /** Row i of the triangle is the span of row p.y + i. */
  lemma RowAt(p: Vertex, q: Vertex, s: Vertex, i: nat)
    requires p.y <= q.y <= s.y < 0x7FFF && p.y < s.y && p.y + i <= s.y
    ensures var rows := TriangleRows(p, q, s);
      i < |rows| && rows[i] == RowSpan(ShortX(p, q, s, p.y + i), LongX(p, s, p.y + i), p.y + i)
  {
    TriangleRowDefined(p, q, s);
    TabulateAt(TriangleRow(p, q, s), p.y, s.y, i);
  }

  /** The row function is defined on every row of the triangle. */
  lemma TriangleRowDefined(p: Vertex, q: Vertex, s: Vertex)
    requires p.y <= q.y <= s.y < 0x7FFF && p.y < s.y
    ensures forall k :: p.y <= k <= s.y ==> TriangleRow(p, q, s).requires(k)
  {
  }

  /** An edge crosses its own first row at its first corner. */
  lemma EdgeXStart(e: Edge)
    requires e.x < 0x8000 && e.dy != 0
    ensures EdgeX(e, e.y) == e.x
  {
    TDivExact(0, e.dy);
  }

  /** An edge crosses its last row at its second corner, for corners less
      than 2^15 apart. */
  lemma EdgeXEnd(a: Vertex, b: Vertex)
    requires a.x < 0x8000 && b.x < 0x8000 && a.y < b.y < 0x7FFF
    ensures EdgeX(EdgeOf(a, b), b.y) == b.x
  {
    TimesIsProduct(b.x - a.x, b.y - a.y);
    TDivExact(b.x - a.x, b.y - a.y);
  }

  /** Between its corners' rows, an edge crosses a row between its
      corners' columns, for corners less than 2^15 apart. */
  lemma EdgeXBetween(a: Vertex, b: Vertex, y: int)
    requires a.x < 0x8000 && b.x < 0x8000 && a.y < b.y < 0x7FFF && a.y <= y <= b.y
    ensures Min(a.x, b.x) <= EdgeX(EdgeOf(a, b), y) <= Max(a.x, b.x)
  {
    var dx, dy, k := b.x - a.x, b.y - a.y, y - a.y;
    var q := TDiv(Times(dx, k), dy);
    TimesIsProduct(dx, k);
    QuotientBound(dx, k, dy);
    assert EdgeX(EdgeOf(a, b), y) == I16(a.x + q);
  }

  /** |dx k / dy| <= |dx|, with the sign of dx, for 0 <= k <= dy. */
  lemma QuotientBound(dx: int, k: nat, dy: nat)
    requires k <= dy && dy > 0
    ensures var q := TDiv(dx * k, dy);
      Abs(q) <= Abs(dx) && (dx >= 0 ==> q >= 0) && (dx < 0 ==> q <= 0)
  {
    var m := Abs(dx);
    QuotientAtMost(m, k, dy);
    MulAbs(dx, k);
  }

  /** m k / d <= m for k <= d. */
  lemma QuotientAtMost(m: nat, k: nat, d: nat)
    requires k <= d && d > 0
    ensures (m * k) / d <= m
  {
    MulLe(k, m, d);
    var t := (m * k) / d;
    assert m * k == t * d + (m * k) % d;
    assert (m + 1) * d == m * d + d && d * m == m * d;
    if t > m {
      MulLe(m + 1, d, t);
    }
  }

  /** A row span covers both crossings it was drawn between, and no column
      outside them. */
  lemma RowSpanCovers(a: i16, b: i16, y: i16)
    requires 0 <= a && 0 <= b && 0 <= y
    ensures var r := RowSpan(a, b, y);
      && r.HLine? && r.y == y && r.x == Min(a, b) && r.x + r.w - 1 == Max(a, b)
      && Covers(r, a, y) && Covers(r, b, y)
  {
  }

  /** For x below 2^15, the span of every row runs between the two edge
      crossings, which lie inside the triangle's columns. */
  lemma TriangleRowShape(p: Vertex, q: Vertex, s: Vertex, y: i16)
    requires p.y <= q.y <= s.y < 0x7FFF && p.y < s.y && p.y <= y <= s.y
    requires p.x < 0x8000 && q.x < 0x8000 && s.x < 0x8000
    ensures var r, lo, hi := RowSpan(ShortX(p, q, s, y), LongX(p, s, y), y), Min(p.x, Min(q.x, s.x)), Max(p.x, Max(q.x, s.x));
      && r.HLine? && r.y == y && lo <= r.x && r.x + r.w - 1 <= hi
      && Covers(r, ShortX(p, q, s, y), y) && Covers(r, LongX(p, s, y), y)
  {
    EdgeXBetween(p, s, y);
    if y < q.y || q.y == s.y {
      EdgeXBetween(p, q, y);
    } else {
      EdgeXBetween(q, s, y);
    }
    RowSpanCovers(ShortX(p, q, s, y), LongX(p, s, y), y);
  }

  /** A row that covers a pixel puts it among the drawn pixels. */
  lemma RowDrawn(rows: seq<Prim>, i: int, r: Prim, x: int, y: int)
    requires 0 <= i < |rows| && rows[i] == r && Covers(r, x, y)
    ensures Drawn(rows, x, y)
  {
  }

  /** The first row covers the top corner p. */
  lemma TopCornerDrawn(p: Vertex, q: Vertex, s: Vertex)
    requires p.y <= q.y <= s.y < 0x7FFF && p.y < s.y
    requires p.x < 0x8000 && q.x < 0x8000 && s.x < 0x8000
    ensures Drawn(TriangleRows(p, q, s), p.x, p.y)
  {
    var rows := TriangleRows(p, q, s);
    TriangleRowsClosed(p, q, s);
    var r := RowSpan(ShortX(p, q, s, p.y), LongX(p, s, p.y), p.y);
    assert rows[0] == r;
    TriangleRowShape(p, q, s, p.y);
    EdgeXStart(EdgeOf(p, s));
    RowDrawn(rows, 0, r, p.x, p.y);
  }

  /** Row q.y covers the middle corner q. */
  lemma MiddleCornerDrawn(p: Vertex, q: Vertex, s: Vertex)
    requires p.y <= q.y <= s.y < 0x7FFF && p.y < s.y
    requires p.x < 0x8000 && q.x < 0x8000 && s.x < 0x8000
    ensures Drawn(TriangleRows(p, q, s), q.x, q.y)
  {
    var rows := TriangleRows(p, q, s);
    TriangleRowsClosed(p, q, s);
    var i := q.y - p.y;
    var r := RowSpan(ShortX(p, q, s, q.y), LongX(p, s, q.y), q.y);
    assert rows[i] == r;
    TriangleRowShape(p, q, s, q.y);
    if q.y == s.y {
      EdgeXEnd(p, q);
    } else {
      EdgeXStart(EdgeOf(q, s));
    }
    RowDrawn(rows, i, r, q.x, q.y);
  }

  /** The last row covers the bottom corner s. */
  lemma BottomCornerDrawn(p: Vertex, q: Vertex, s: Vertex)
    requires p.y <= q.y <= s.y < 0x7FFF && p.y < s.y
    requires p.x < 0x8000 && q.x < 0x8000 && s.x < 0x8000
    ensures Drawn(TriangleRows(p, q, s), s.x, s.y)
  {
    var rows := TriangleRows(p, q, s);
    TriangleRowsClosed(p, q, s);
    var i := s.y - p.y;
    var r := RowSpan(ShortX(p, q, s, s.y), LongX(p, s, s.y), s.y);
    assert rows[i] == r;
    TriangleRowShape(p, q, s, s.y);
    EdgeXEnd(p, s);
    RowDrawn(rows, i, r, s.x, s.y);
  }

  // ---------------------------------------------------------------------------
  // fill_triangle: the method

  /** fill_triangle: sort the corners by row with three conditional swaps,
      then draw the one-row span or the rows of both loops. */
  method FillTriangle(d: Display, x0: u16, y0: u16, x1: u16, y1: u16, x2: u16, y2: u16, color: u16)
    requires FillTerminates(y0, y1, y2)
    modifies d.bus`cs, d.bus`dc, d.bus`log
    ensures d.bus.log == old(d.bus.log) + Render(FillTrianglePrims(x0, y0, x1, y1, x2, y2), Rgb565ToRgb666(color), d.width, d.height)
  {
    var xa, ya, xb, yb, xc, yc := SortCorners(x0, y0, x1, y1, x2, y2);
    if ya == yc {
      FlatFill(d, xa, xb, xc, ya, color);
    } else {
      TriangleFill(d, xa, ya, xb, yb, xc, yc, color);
    }
  }

  /** The three conditional swaps, each exchanging both coordinates. */
  method SortCorners(x0: u16, y0: u16, x1: u16, y1: u16, x2: u16, y2: u16)
    returns (xa: u16, ya: u16, xb: u16, yb: u16, xc: u16, yc: u16)
    ensures (Vertex(xa, ya), Vertex(xb, yb), Vertex(xc, yc)) == SortByY(Vertex(x0, y0), Vertex(x1, y1), Vertex(x2, y2))
  {
    xa, ya, xb, yb := OrderCorners(x0, y0, x1, y1);
    xb, yb, xc, yc := OrderCorners(xb, yb, x2, y2);
    xa, ya, xb, yb := OrderCorners(xa, ya, xb, yb);
  }

  /** One conditional swap: both coordinates of the two corners are
      exchanged when the first is further down. */
  method OrderCorners(x0: u16, y0: u16, x1: u16, y1: u16) returns (xa: u16, ya: u16, xb: u16, yb: u16)
    ensures (Vertex(xa, ya), Vertex(xb, yb)) == Order(Vertex(x0, y0), Vertex(x1, y1))
  {
    xa, ya, xb, yb := x0, y0, x1, y1;
    if ya > yb {
      ya, yb := yb, ya;
      xa, xb := xb, xa;
    }
  }

  /** One comparison of the one-row case, on the int16_t pair a, b. */
  method WidenStep(a: i16, b: i16, x: u16) returns (a': i16, b': i16)
    ensures (a', b') == Widen(a, b, x)
  {
    a', b' := a, b;
    if x < a' {
      a' := I16(x);
    } else if x > b' {
      b' := I16(x);
    }
  }

  /** The one-row case: widen [a, b] by x1 and x2, then one horizontal line. */
  method FlatFill(d: Display, x0: u16, x1: u16, x2: u16, y: u16, color: u16)
    modifies d.bus`cs, d.bus`dc, d.bus`log
    ensures d.bus.log == old(d.bus.log) + Render([FlatRow(x0, x1, x2, y)], Rgb565ToRgb666(color), d.width, d.height)
  {
    var a: i16, b: i16 := I16(x0), I16(x0);
    a, b := WidenStep(a, b, x1);
    ghost var a1, b1 := a, b;
    a, b := WidenStep(a, b, x2);
    FlatRowIs(x0, x1, x2, y, a1, b1, a, b);
    RenderOne(HLine(U16(a), y, U16(b as int - a + 1)), Rgb565ToRgb666(color), d.width, d.height);
    DrawHLine(d, U16(a), y, U16(b as int - a + 1), color);
  }

  /** The pair the two comparisons leave gives the one-row span. */
  lemma FlatRowIs(x0: u16, x1: u16, x2: u16, y: u16, a1: i16, b1: i16, a: i16, b: i16)
    requires (a1, b1) == Widen(I16(x0), I16(x0), x1) && (a, b) == Widen(a1, b1, x2)
    ensures FlatRow(x0, x1, x2, y) == HLine(U16(a), y, U16(b as int - a + 1))
  {
  }

  /** The two loops for corners sorted by row, not all on one row. */
  method TriangleFill(d: Display, x0: u16, y0: u16, x1: u16, y1: u16, x2: u16, y2: u16, color: u16)
    requires y0 <= y1 <= y2 < 0x7FFF && y0 < y2
    modifies d.bus`cs, d.bus`dc, d.bus`log
    ensures d.bus.log == old(d.bus.log)
      + Render(TriangleRows(Vertex(x0, y0), Vertex(x1, y1), Vertex(x2, y2)), Rgb565ToRgb666(color), d.width, d.height)
  {
    var dx01: i16, dy01: i16, dx02: i16, dy02: i16 := I16(x1 - x0), y1 - y0, I16(x2 - x0), y2 - y0;
    var dx12: i16, dy12: i16 := I16(x2 - x1), y2 - y1;
    var last: i16;
    if y1 == y2 {
      last := y1;
    } else {
      last := y1 - 1;
    }
    ghost var c, w, h := Rgb565ToRgb666(color), d.width, d.height;
    var y := EdgeLoop(d, y0, last, x0, 0, dx01, dy01, x0, 0, dx02, dy02, color);
    ghost var between := d.bus.log;
    var sa, sb := I32(Times(dx12, y as int - y1)), I32(Times(dx02, y as int - y0));
    TriangleLoops(x0, y0, x1, y1, x2, y2, last, dx01, dy01, dx02, dy02, dx12, dy12, y, sa, sb);
    ghost var upper := LoopRows(y0, last, x0, 0, dx01, dy01, x0, 0, dx02, dy02);
    ghost var lower := LoopRows(y, y2, x1, sa, dx12, dy12, x0, sb, dx02, dy02);
    y := EdgeLoop(d, y, y2, x1, sa, dx12, dy12, x0, sb, dx02, dy02, color);
    RenderInTwo(old(d.bus.log), between, d.bus.log, TriangleRows(Vertex(x0, y0), Vertex(x1, y1), Vertex(x2, y2)),
                upper, lower, c, w, h);
  }

  /** Two calls that log the rows us and then ls log the rows us + ls. */
  lemma RenderInTwo(before: seq<Event>, between: seq<Event>, after: seq<Event>,
                    ps: seq<Prim>, us: seq<Prim>, ls: seq<Prim>, c: Rgb, w: u16, h: u16)
    requires ps == us + ls
    requires between == before + Render(us, c, w, h) && after == between + Render(ls, c, w, h)
    ensures after == before + Render(ps, c, w, h)
  {
    RenderAppend(us, ls, c, w, h);
    AppendAssoc(before, Render(us, c, w, h), Render(ls, c, w, h));
  }

  /** The two loops of fill_triangle, with the slopes and the last row of
      the upper loop as it computes them, draw the triangle's rows. */
  lemma TriangleLoops(x0: u16, y0: u16, x1: u16, y1: u16, x2: u16, y2: u16, last: i16,
                      dx01: i16, dy01: i16, dx02: i16, dy02: i16, dx12: i16, dy12: i16,
                      mid: i16, sa: i32, sb: i32)
    requires y0 <= y1 <= y2 < 0x7FFF && y0 < y2
    requires last == if y1 == y2 then y1 else y1 - 1
    requires dx01 == I16(x1 - x0) && dy01 == y1 - y0 && dx02 == I16(x2 - x0) && dy02 == y2 - y0
    requires dx12 == I16(x2 - x1) && dy12 == y2 - y1
    requires mid == RowEnd(y0, last) && sa == I32(Times(dx12, mid - y1)) && sb == I32(Times(dx02, mid - y0))
    ensures TriangleRows(Vertex(x0, y0), Vertex(x1, y1), Vertex(x2, y2))
      == LoopRows(y0, last, x0, 0, dx01, dy01, x0, 0, dx02, dy02) + LoopRows(mid, y2, x1, sa, dx12, dy12, x0, sb, dx02, dy02)
  {
    var p, q, s := Vertex(x0, y0), Vertex(x1, y1), Vertex(x2, y2);
    assert last == UpperLast(q, s);
    TabulateSplit(TriangleRow(p, q, s), y0, last, y2);
    UpperLoopRows(x0, y0, x1, y1, x2, y2, last, dx01, dy01, dx02, dy02);
    LowerLoopRows(x0, y0, x1, y1, x2, y2, last, dx12, dy12, dx02, dy02, mid, sa, sb);
  }

  /** The upper loop, from the top corner with both sums at zero, draws the
      triangle's rows down to its last row. */
  lemma UpperLoopRows(x0: u16, y0: u16, x1: u16, y1: u16, x2: u16, y2: u16, last: i16,
                       dx01: i16, dy01: i16, dx02: i16, dy02: i16)
    requires y0 <= y1 <= y2 < 0x7FFF && y0 < y2
    requires last == if y1 == y2 then y1 else y1 - 1
    requires dx01 == I16(x1 - x0) && dy01 == y1 - y0 && dx02 == I16(x2 - x0) && dy02 == y2 - y0
    ensures Tabulate(TriangleRow(Vertex(x0, y0), Vertex(x1, y1), Vertex(x2, y2)), y0, last)
      == LoopRows(y0, last, x0, 0, dx01, dy01, x0, 0, dx02, dy02)
  {
    var p, q, s := Vertex(x0, y0), Vertex(x1, y1), Vertex(x2, y2);
    assert EdgeOf(p, q) == Edge(p.x, p.y, dx01, dy01) && EdgeOf(p, s) == Edge(p.x, p.y, dx02, dy02);
    assert last == UpperLast(q, s);
    UpperAgree(p, q, s, last);
    LoopRowsClosed(p.y, last, p.x, 0, dx01, dy01, p.x, 0, dx02, dy02, p.y, p.y);
  }

  /** The lower loop, from the row the upper one ends on with the sums it
      starts from, draws the triangle's remaining rows. */
  lemma LowerLoopRows(x0: u16, y0: u16, x1: u16, y1: u16, x2: u16, y2: u16, last: i16,
                       dx12: i16, dy12: i16, dx02: i16, dy02: i16, mid: i16, sa: i32, sb: i32)
    requires y0 <= y1 <= y2 < 0x7FFF && y0 < y2
    requires last == if y1 == y2 then y1 else y1 - 1
    requires dx12 == I16(x2 - x1) && dy12 == y2 - y1 && dx02 == I16(x2 - x0) && dy02 == y2 - y0
    requires mid == RowEnd(y0, last) && sa == I32(Times(dx12, mid - y1)) && sb == I32(Times(dx02, mid - y0))
    ensures Tabulate(TriangleRow(Vertex(x0, y0), Vertex(x1, y1), Vertex(x2, y2)), mid, y2)
      == LoopRows(mid, y2, x1, sa, dx12, dy12, x0, sb, dx02, dy02)
  {
    assert sa == Times(dx12, mid - y1) by { SumStart(dx12, mid - y1); }
    assert sb == Times(dx02, mid - y0) by { SumStart(dx02, mid - y0); }
    var p, q, s := Vertex(x0, y0), Vertex(x1, y1), Vertex(x2, y2);
    assert last == UpperLast(q, s);
    assert EdgeOf(q, s) == Edge(q.x, q.y, dx12, dy12) && EdgeOf(p, s) == Edge(p.x, p.y, dx02, dy02);
    LowerAgree(p, q, s, last);
    LoopRowsClosed(mid, y2, x1, sa, dx12, dy12, x0, sb, dx02, dy02, y1, y0);
  }

  /** Down to the upper loop's last row, the triangle's rows are those
      between the edges p-q and p-s. */
  lemma UpperAgree(p: Vertex, q: Vertex, s: Vertex, last: int)
    requires p.y <= q.y <= s.y < 0x7FFF && p.y < s.y && last == UpperLast(q, s)
    ensures Tabulate(TriangleRow(p, q, s), p.y, last) == Tabulate(EdgeRow(EdgeOf(p, q), EdgeOf(p, s)), p.y, last)
  {
    var f, g := TriangleRow(p, q, s), EdgeRow(EdgeOf(p, q), EdgeOf(p, s));
    forall k | p.y <= k <= last
      ensures f.requires(k) && g.requires(k) && f(k) == g(k)
    {
      assert f(k) == RowSpan(ShortX(p, q, s, k), LongX(p, s, k), k);
    }
    TabulateAgree(f, g, p.y, last);
  }

  /** From the row the upper loop ends on, the triangle's rows are those
      between the edges q-s and p-s. */
  lemma LowerAgree(p: Vertex, q: Vertex, s: Vertex, last: int)
    requires p.y <= q.y <= s.y < 0x7FFF && p.y < s.y && last == UpperLast(q, s)
    ensures Tabulate(TriangleRow(p, q, s), RowEnd(p.y, last), s.y)
      == Tabulate(EdgeRow(EdgeOf(q, s), EdgeOf(p, s)), RowEnd(p.y, last), s.y)
  {
    var f, g := TriangleRow(p, q, s), EdgeRow(EdgeOf(q, s), EdgeOf(p, s));
    var mid := RowEnd(p.y, last);
    forall k | mid <= k <= s.y
      ensures f.requires(k) && g.requires(k) && f(k) == g(k)
    {
      assert f(k) == RowSpan(ShortX(p, q, s, k), LongX(p, s, k), k);
    }
    TabulateAgree(f, g, mid, s.y);
  }

  /** A sum the loops keep in int32_t never wraps: |dx| <= 2^15 and k < 2^15. */
  lemma ProductBound(dx: i16, k: int)
    requires 0 <= k <= 0x7FFF
    ensures -0x8000_0000 <= Times(dx, k) < 0x8000_0000
  {
    TimesIsProduct(dx, k);
    if dx >= 0 {
      MulLe(dx, k, 0x8000);
      MulLe(k, 0x8000, 0x7FFF);
    } else {
      var m: int := -(dx as int);
      MulLe(m, k, 0x8000);
      MulLe(k, 0x8000, 0x7FFF);
      assert dx * k == -(m * k);
    }
  }

  /** The int32_t sum a loop starts from is exact. */
  lemma SumStart(dx: i16, k: int)
    requires 0 <= k <= 0x7FFF
    ensures I32(Times(dx, k)) == Times(dx, k)
  {
    ProductBound(dx, k);
  }

  /** One row further on, the int32_t sum dx k + dx is still exact. */
  lemma SumStep(dx: i16, sum: i32, k: int)
    requires 0 <= k < 0x7FFF && sum == Times(dx, k)
    ensures I32(sum + dx) == Times(dx, k + 1)
  {
    ProductBound(dx, k + 1);
  }

  /** The rows one of fill_triangle's loops draws, step by step as the
      loop computes them: from row y to row last, the crossings xa + sa /
      dya and xb + sb / dyb in int16_t, the int32_t sums growing by dxa and
      dxb per row. */
  function LoopRows(y: i16, last: int, xa: u16, sa: i32, dxa: i16, dya: i16, xb: u16, sb: i32, dxb: i16, dyb: i16): seq<Prim>
    requires last < 0x7FFF
    requires y <= last ==> dya != 0 && dyb != 0
    decreases last - y
  {
    if y <= last then
      var a := I16(xa + TDiv(sa, dya));
      var b := I16(xb + TDiv(sb, dyb));
      [RowSpan(a, b, y)] + LoopRows(y + 1, last, xa, I32(sa + dxa), dxa, dya, xb, I32(sb + dxb), dxb, dyb)
    else []
  }

  /** The sums never wrap, so a loop whose sums start at dxa (y - ya) and
      dxb (y - yb) draws the rows between the edges from (xa, ya) and
      (xb, yb). */
  lemma {:induction false} LoopRowsClosed(y: i16, last: int, xa: u16, sa: i32, dxa: i16, dya: i16,
                                          xb: u16, sb: i32, dxb: i16, dyb: i16, ya: u16, yb: u16)
    requires last < 0x7FFF && (y <= last ==> dya != 0 && dyb != 0) && ya <= y && yb <= y
    requires sa == Times(dxa, y - ya) && sb == Times(dxb, y - yb)
    ensures LoopRows(y, last, xa, sa, dxa, dya, xb, sb, dxb, dyb) == Tabulate(EdgeRow(Edge(xa, ya, dxa, dya), Edge(xb, yb, dxb, dyb)), y, last)
    decreases last - y
  {
    if y <= last {
      var ea, eb := Edge(xa, ya, dxa, dya), Edge(xb, yb, dxb, dyb);
      var f := EdgeRow(ea, eb);
      CrossingIs(ea, y, sa);
      CrossingIs(eb, y, sb);
      assert f(y) == RowSpan(I16(xa + TDiv(sa, dya)), I16(xb + TDiv(sb, dyb)), y);
      SumStep(dxa, sa, y - ya);
      SumStep(dxb, sb, y - yb);
      LoopRowsClosed(y + 1, last, xa, I32(sa + dxa), dxa, dya, xb, I32(sb + dxb), dxb, dyb, ya, yb);
      TabulateCons(f, y, last);
    }
  }

  /** One of fill_triangle's loops: from row y0 to row last, one span per
      row between xa + sa / dya and xb + sb / dyb, the sums growing by dxa
      and dxb. Returns the row counter at the end. */
  method EdgeLoop(d: Display, y0: i16, last: int, xa: u16, sa0: i32, dxa: i16, dya: i16,
                  xb: u16, sb0: i32, dxb: i16, dyb: i16, color: u16) returns (y: i16)
    requires last < 0x7FFF && (y0 <= last ==> dya != 0 && dyb != 0)
    modifies d.bus`cs, d.bus`dc, d.bus`log
    ensures y == RowEnd(y0, last)
    ensures d.bus.log == old(d.bus.log)
      + Render(LoopRows(y0, last, xa, sa0, dxa, dya, xb, sb0, dxb, dyb), Rgb565ToRgb666(color), d.width, d.height)
  {
    ghost var c, w, h := Rgb565ToRgb666(color), d.width, d.height;
    ghost var goal := old(d.bus.log) + Render(LoopRows(y0, last, xa, sa0, dxa, dya, xb, sb0, dxb, dyb), c, w, h);
    y := y0;
    var sa, sb := sa0, sb0;
    while y as int <= last
      invariant y0 <= y <= RowEnd(y0, last)
      invariant goal == d.bus.log + Render(LoopRows(y, last, xa, sa, dxa, dya, xb, sb, dxb, dyb), c, w, h)
      decreases last - y
    {
      ghost var before, osa, osb := d.bus.log, sa, sb;
      var a: i16 := I16(xa as int + TDiv(sa, dya));
      var b: i16 := I16(xb as int + TDiv(sb, dyb));
      ghost var a0, b0 := a, b;
      sa := I32(sa as int + dxa);
      sb := I32(sb as int + dxb);
      if a > b {
        a, b := b, a;
      }
      DrawHLine(d, U16(a), U16(y), U16(b as int - a + 1), color);
      RowSpanSorted(a0, b0, y);
      LoopStep(goal, before, d.bus.log, y, last, xa, osa, dxa, dya, xb, osb, dxb, dyb, c, w, h);
      y := y + 1;
    }
  }

  /** With the sum at dx (y - y0), the loop's crossing is the edge's. */
  lemma CrossingIs(e: Edge, y: int, sum: int)
    requires e.dy != 0 && e.y <= y && sum == Times(e.dx, y - e.y)
    ensures EdgeX(e, y) == I16(e.x + TDiv(sum, e.dy))
  {
  }

  /** The span of a row is the horizontal line from the smaller crossing
      to the larger one. */
  lemma RowSpanSorted(a: i16, b: i16, y: i16)
    ensures RowSpan(a, b, y) == HLine(U16(Min(a, b)), U16(y), U16(Max(a, b) - Min(a, b) + 1))
  {
  }

  /** The bookkeeping of one pass of EdgeLoop. */
  lemma LoopStep(goal: seq<Event>, before: seq<Event>, after: seq<Event>, y: i16, last: int,
                 xa: u16, sa: i32, dxa: i16, dya: i16, xb: u16, sb: i32, dxb: i16, dyb: i16, c: Rgb, w: u16, h: u16)
    requires last < 0x7FFF && y <= last && dya != 0 && dyb != 0
    requires goal == before + Render(LoopRows(y, last, xa, sa, dxa, dya, xb, sb, dxb, dyb), c, w, h)
    requires after == before + PrimEvents(RowSpan(I16(xa + TDiv(sa, dya)), I16(xb + TDiv(sb, dyb)), y), c, w, h)
    ensures goal == after + Render(LoopRows(y + 1, last, xa, I32(sa + dxa), dxa, dya, xb, I32(sb + dxb), dxb, dyb), c, w, h)
  {
    var row := RowSpan(I16(xa + TDiv(sa, dya)), I16(xb + TDiv(sb, dyb)), y);
    var rest := LoopRows(y + 1, last, xa, I32(sa + dxa), dxa, dya, xb, I32(sb + dxb), dxb, dyb);
    assert LoopRows(y, last, xa, sa, dxa, dya, xb, sb, dxb, dyb) == [row] + rest;
    RenderCons(row, rest, c, w, h);
    AppendStep(before, PrimEvents(row, c, w, h), Render(rest, c, w, h), Render([row] + rest, c, w, h), goal);
  }
}
