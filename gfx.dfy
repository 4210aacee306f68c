/** The rasterizer of src/ili9488_gfx.c. Every routine is an integer
    algorithm that reaches the controller only through the engine's
    draw_pixel, set_window and write_data_buffer; its effect is therefore
    stated as the list of engine-level drawing calls it makes (a Prim), and
    that list's bus events come from the engine's own event functions. */
module Gfx {
  import opened Ints
  import opened Hal
  import opened Driver

  /** One drawing call the rasterizer makes: ili9488_draw_pixel, or one of
      the span routines draw_hline / draw_vline. The colour is the same for
      every call of one routine and is kept outside. */
  datatype Prim =
    | Pixel(x: u16, y: u16)
    | HLine(x: u16, y: u16, w: u16)
    | VLine(x: u16, y: u16, h: u16)

  /** A span: nothing when its length is zero, otherwise the window over the
      span (its far end converted to uint16_t) and the pixel once per cell,
      one 3-byte buffer write each. */
  function SpanEvents(x0: u16, y0: u16, x1: u16, y1: u16, px: Rgb, n: u16): seq<Event>
  {
    if n == 0 then [] else WindowEvents(x0, y0, x1, y1) + PixelBatches(Solid(px, n), 1)
  }

  function HLineEvents(x: u16, y: u16, w: u16, px: Rgb): seq<Event>
  {
    SpanEvents(x, y, U16(x + w - 1), y, px, w)
  }

  function VLineEvents(x: u16, y: u16, h: u16, px: Rgb): seq<Event>
  {
    SpanEvents(x, y, x, U16(y + h - 1), px, h)
  }

  /** The bus events of one drawing call on a panel of the given size. */
  function PrimEvents(p: Prim, px: Rgb, width: u16, height: u16): seq<Event>
  {
    match p
    case Pixel(x, y) => PixelEvents(x, y, px, width, height)
    case HLine(x, y, w) => HLineEvents(x, y, w, px)
    case VLine(x, y, h) => VLineEvents(x, y, h, px)
  }

  /** The bus events of a list of drawing calls, in order. */
  function Render(ps: seq<Prim>, px: Rgb, width: u16, height: u16): seq<Event>
    decreases |ps|
  {
    if ps == [] then [] else PrimEvents(ps[0], px, width, height) + Render(ps[1..], px, width, height)
  }

  lemma {:induction false} RenderAppend(a: seq<Prim>, b: seq<Prim>, px: Rgb, width: u16, height: u16)
    ensures Render(a + b, px, width, height) == Render(a, px, width, height) + Render(b, px, width, height)
    decreases |a|
  {
    if a == [] {
      assert a + b == b;
    } else {
      assert (a + b)[0] == a[0] && (a + b)[1..] == a[1..] + b;
      RenderAppend(a[1..], b, px, width, height);
      AppendAssoc(PrimEvents(a[0], px, width, height), Render(a[1..], px, width, height), Render(b, px, width, height));
    }
  }

  lemma RenderCons(p: Prim, rest: seq<Prim>, px: Rgb, width: u16, height: u16)
    ensures Render([p] + rest, px, width, height) == PrimEvents(p, px, width, height) + Render(rest, px, width, height)
  {
    assert ([p] + rest)[1..] == rest;
  }

  lemma RenderOne(p: Prim, px: Rgb, width: u16, height: u16)
    ensures Render([p], px, width, height) == PrimEvents(p, px, width, height)
  {
    assert [p][1..] == [];
  }

  lemma RenderSnoc(ps: seq<Prim>, p: Prim, px: Rgb, width: u16, height: u16)
    ensures Render(ps + [p], px, width, height) == Render(ps, px, width, height) + PrimEvents(p, px, width, height)
  {
    RenderAppend(ps, [p], px, width, height);
    RenderOne(p, px, width, height);
  }

  /** On the wire a span is the window over it followed by exactly n copies
      of the pixel; a zero-length span sends nothing. */
  lemma SpanWire(x0: u16, y0: u16, x1: u16, y1: u16, px: Rgb, n: u16)
    ensures n == 0 ==> SpanEvents(x0, y0, x1, y1, px, n) == []
    ensures n > 0 ==>
      var w := Wire(SpanEvents(x0, y0, x1, y1, px, n));
      |w| >= 11 && DecodeWindow(w[..11]) == Some((x0, y0, x1, y1)) && w[11..] == DataWords(Flatten(Solid(px, n)))
  {
    if n > 0 {
      PixelBatchesWire(Solid(px, n), 1);
      WindowThenPixels(x0, y0, x1, y1, PixelBatches(Solid(px, n), 1), Solid(px, n));
    }
  }

  /** draw_hline: the window runs from x to x + w - 1 (mod 2^16) on row y. */
  lemma HLineWire(x: u16, y: u16, w: u16, px: Rgb)
    ensures w == 0 ==> HLineEvents(x, y, w, px) == []
    ensures w > 0 ==>
      var ws := Wire(HLineEvents(x, y, w, px));
      |ws| >= 11 && DecodeWindow(ws[..11]) == Some((x, y, U16(x + w - 1), y))
      && ws[11..] == DataWords(Flatten(Solid(px, w)))
  {
    SpanWire(x, y, U16(x + w - 1), y, px, w);
  }

  /** draw_vline: the window runs from y to y + h - 1 (mod 2^16) in column x. */
  lemma VLineWire(x: u16, y: u16, h: u16, px: Rgb)
    ensures h == 0 ==> VLineEvents(x, y, h, px) == []
    ensures h > 0 ==>
      var ws := Wire(VLineEvents(x, y, h, px));
      |ws| >= 11 && DecodeWindow(ws[..11]) == Some((x, y, x, U16(y + h - 1)))
      && ws[11..] == DataWords(Flatten(Solid(px, h)))
  {
    SpanWire(x, y, x, U16(y + h - 1), px, h);
  }

  /** The sides of draw_rect, in the order it draws them. */
  function RectPrims(x: u16, y: u16, w: u16, h: u16): seq<Prim>
  {
    [HLine(x, y, w), HLine(x, U16(y + h - 1), w), VLine(x, y, h), VLine(U16(x + w - 1), y, h)]
  }

  /** draw_rect's events are its four spans' events in order. */
  lemma RectRender(x: u16, y: u16, w: u16, h: u16, px: Rgb, width: u16, height: u16)
    ensures Render(RectPrims(x, y, w, h), px, width, height)
      == HLineEvents(x, y, w, px) + HLineEvents(x, U16(y + h - 1), w, px)
      + VLineEvents(x, y, h, px) + VLineEvents(U16(x + w - 1), y, h, px)
  {
    var ps := RectPrims(x, y, w, h);
    var e0, e1 := HLineEvents(x, y, w, px), HLineEvents(x, U16(y + h - 1), w, px);
    var e2, e3 := VLineEvents(x, y, h, px), VLineEvents(U16(x + w - 1), y, h, px);
    assert ps == [ps[0]] + ([ps[1]] + ([ps[2]] + [ps[3]]));
    RenderCons(ps[0], [ps[1]] + ([ps[2]] + [ps[3]]), px, width, height);
    RenderCons(ps[1], [ps[2]] + [ps[3]], px, width, height);
    RenderCons(ps[2], [ps[3]], px, width, height);
    RenderOne(ps[3], px, width, height);
    AppendAssoc(e0, e1, e2 + e3);
    AppendAssoc(e0 + e1, e2, e3);
  }

  /** The four sides of a rectangle meet at its corners: the top and bottom
      spans start in the left column and end in the right column, the side
      spans start on the top row and end on the bottom row. */
  lemma RectCorners(x: u16, y: u16, w: u16, h: u16)
    requires w > 0 && h > 0 && x + w <= 0x1_0000 && y + h <= 0x1_0000
    ensures var ps := RectPrims(x, y, w, h);
      && ps[0].x == ps[1].x == ps[2].x == x && ps[0].y == ps[2].y == ps[3].y == y
      && ps[0].x + ps[0].w - 1 == ps[3].x == x + w - 1
      && ps[2].y + ps[2].h - 1 == ps[1].y == y + h - 1
      && ps[0].w == ps[1].w == w && ps[2].h == ps[3].h == h
  {
  }

  /** fill_rect: the window over the rectangle, then (uint32_t)w * h copies of
      the pixel, one 3-byte buffer write each. The multiplication never wraps
      and there is no zero check: w = 0 still sets a window. */
  function FillRectEvents(x: u16, y: u16, w: u16, h: u16, px: Rgb): seq<Event>
  {
    WindowEvents(x, y, U16(x + w - 1), U16(y + h - 1)) + PixelBatches(Solid(px, U32(w * h)), 1)
  }

  lemma ProductU16(w: u16, h: u16)
    ensures 0 <= w * h <= 0xFFFF * 0xFFFF
  {
    MulLe(0, h, w);
    MulLe(w, h, 0xFFFF);
  }

  /** The controller receives the rectangle's window and exactly w * h
      pixels: the uint32_t product never wraps. */
  lemma FillRectWire(x: u16, y: u16, w: u16, h: u16, px: Rgb)
    ensures U32(w * h) == w * h
    ensures var ws := Wire(FillRectEvents(x, y, w, h, px));
      |ws| >= 11 && DecodeWindow(ws[..11]) == Some((x, y, U16(x + w - 1), U16(y + h - 1)))
      && ws[11..] == DataWords(Flatten(Solid(px, U32(w * h))))
  {
    ProductU16(w, h);
    var n := U32(w * h);
    PixelBatchesWire(Solid(px, n), 1);
    WindowThenPixels(x, y, U16(x + w - 1), U16(y + h - 1), PixelBatches(Solid(px, n), 1), Solid(px, n));
  }

  /** A zero-width rectangle still programs a window, whose right edge
      wraps to x - 1, and sends no pixel. */
  lemma FillRectZeroWidth(x: u16, y: u16, h: u16, px: Rgb)
    requires x > 0
    ensures FillRectEvents(x, y, 0, h, px) == WindowEvents(x, y, x - 1, U16(y + h - 1))
  {
    assert Solid(px, 0) == [];
  }

  // ---------------------------------------------------------------------------
  // Spans and rectangles

  /** draw_hline. */
  method DrawHLine(d: Display, x: u16, y: u16, w: u16, color: u16)
    modifies d.bus`cs, d.bus`dc, d.bus`log
    ensures d.bus.log == old(d.bus.log) + HLineEvents(x, y, w, Rgb565ToRgb666(color))
  {
    Span(d, x, y, U16(x + w - 1), y, Rgb565ToRgb666(color), w);
  }

  /** draw_vline. */
  method DrawVLine(d: Display, x: u16, y: u16, h: u16, color: u16)
    modifies d.bus`cs, d.bus`dc, d.bus`log
    ensures d.bus.log == old(d.bus.log) + VLineEvents(x, y, h, Rgb565ToRgb666(color))
  {
    Span(d, x, y, x, U16(y + h - 1), Rgb565ToRgb666(color), h);
  }

  /** draw_hline_rgb24. */
  method DrawHLineRgb24(d: Display, x: u16, y: u16, w: u16, color24: u32)
    modifies d.bus`cs, d.bus`dc, d.bus`log
    ensures d.bus.log == old(d.bus.log) + HLineEvents(x, y, w, Rgb24ToRgb666(color24))
  {
    Span(d, x, y, U16(x + w - 1), y, Rgb24ToRgb666(color24), w);
  }

  /** draw_vline_rgb24. */
  method DrawVLineRgb24(d: Display, x: u16, y: u16, h: u16, color24: u32)
    modifies d.bus`cs, d.bus`dc, d.bus`log
    ensures d.bus.log == old(d.bus.log) + VLineEvents(x, y, h, Rgb24ToRgb666(color24))
  {
    Span(d, x, y, x, U16(y + h - 1), Rgb24ToRgb666(color24), h);
  }

  /** The body the four span routines share: return on a zero length, set
      the window, then write the converted pixel n times. The per-pixel loop
      is the engine's. */
  method Span(d: Display, x0: u16, y0: u16, x1: u16, y1: u16, px: Rgb, n: u16)
    modifies d.bus`cs, d.bus`dc, d.bus`log
    ensures d.bus.log == old(d.bus.log) + SpanEvents(x0, y0, x1, y1, px, n)
  {
    if n == 0 {
      return;
    }
    d.SetWindow(x0, y0, x1, y1);
    d.WritePixelByPixel(px, n);
    AppendAssoc(old(d.bus.log), WindowEvents(x0, y0, x1, y1), PixelBatches(Solid(px, n), 1));
  }

  /** A fixed run of drawing calls, made in order: the unrolled pixel
      sequences of draw_circle. */
  method DrawAll(d: Display, ps: seq<Prim>, color: u16)
    modifies d.bus`cs, d.bus`dc, d.bus`log
    ensures d.bus.log == old(d.bus.log) + Render(ps, Rgb565ToRgb666(color), d.width, d.height)
    decreases |ps|
  {
    if ps == [] {
      return;
    }
    ghost var before := d.bus.log;
    DrawPrim(d, ps[0], color);
    ghost var mid := d.bus.log;
    DrawAll(d, ps[1..], color);
    AppendAssoc(before, PrimEvents(ps[0], Rgb565ToRgb666(color), d.width, d.height), Render(ps[1..], Rgb565ToRgb666(color), d.width, d.height));
  }

  /** One drawing call: ili9488_draw_pixel, draw_hline or draw_vline. */
  method DrawPrim(d: Display, p: Prim, color: u16)
    modifies d.bus`cs, d.bus`dc, d.bus`log
    ensures d.bus.log == old(d.bus.log) + PrimEvents(p, Rgb565ToRgb666(color), d.width, d.height)
  {
    if p.Pixel? {
      d.DrawPixel(p.x, p.y, color);
    } else if p.HLine? {
      DrawHLine(d, p.x, p.y, p.w, color);
    } else {
      DrawVLine(d, p.x, p.y, p.h, color);
    }
  }

  /** draw_rect: top, bottom, left and right side. */
  method DrawRect(d: Display, x: u16, y: u16, w: u16, h: u16, color: u16)
    modifies d.bus`cs, d.bus`dc, d.bus`log
    ensures d.bus.log == old(d.bus.log) + Render(RectPrims(x, y, w, h), Rgb565ToRgb666(color), d.width, d.height)
  {
    ghost var l0 := d.bus.log;
    DrawHLine(d, x, y, w, color);
    DrawHLine(d, x, U16(y + h - 1), w, color);
    DrawVLine(d, x, y, h, color);
    DrawVLine(d, U16(x + w - 1), y, h, color);
    ghost var px := Rgb565ToRgb666(color);
    ghost var e0, e1 := HLineEvents(x, y, w, px), HLineEvents(x, U16(y + h - 1), w, px);
    ghost var e2, e3 := VLineEvents(x, y, h, px), VLineEvents(U16(x + w - 1), y, h, px);
    RectRender(x, y, w, h, px, d.width, d.height);
    AppendAssoc(l0, e0 + e1 + e2, e3);
    AppendAssoc(l0, e0 + e1, e2);
    AppendAssoc(l0, e0, e1);
  }

  /** fill_rect. */
  method FillRect(d: Display, x: u16, y: u16, w: u16, h: u16, color: u16)
    modifies d.bus`cs, d.bus`dc, d.bus`log
    ensures d.bus.log == old(d.bus.log) + FillRectEvents(x, y, w, h, Rgb565ToRgb666(color))
  {
    FillRectWith(d, x, y, w, h, Rgb565ToRgb666(color));
  }

  /** fill_rect_rgb24. */
  method FillRectRgb24(d: Display, x: u16, y: u16, w: u16, h: u16, color24: u32)
    modifies d.bus`cs, d.bus`dc, d.bus`log
    ensures d.bus.log == old(d.bus.log) + FillRectEvents(x, y, w, h, Rgb24ToRgb666(color24))
  {
    FillRectWith(d, x, y, w, h, Rgb24ToRgb666(color24));
  }

  /** The body fill_rect and fill_rect_rgb24 share once the colour is
      converted. */
  method FillRectWith(d: Display, x: u16, y: u16, w: u16, h: u16, px: Rgb)
    modifies d.bus`cs, d.bus`dc, d.bus`log
    ensures d.bus.log == old(d.bus.log) + FillRectEvents(x, y, w, h, px)
  {
    d.SetWindow(x, y, U16(x + w - 1), U16(y + h - 1));
    var total := U32(w * h);
    d.WritePixelByPixel(px, total);
    AppendAssoc(old(d.bus.log), WindowEvents(x, y, U16(x + w - 1), U16(y + h - 1)), PixelBatches(Solid(px, total), 1));
  }

  // ---------------------------------------------------------------------------
  // Lines

  /** draw_line's steep test, on the int differences of the coordinates. */
  function Steep(x0: u16, y0: u16, x1: u16, y1: u16): bool
  {
    Abs(y1 - y0) > Abs(x1 - x0)
  }

  /** The end points after the steep swap and the left-to-right swap, as
      (a0, b0, a1, b1): a is the coordinate the loop advances, b the one the
      error term steps. */
  function Normalise(x0: u16, y0: u16, x1: u16, y1: u16): (r: (u16, u16, u16, u16))
    ensures r.0 <= r.2
    ensures r.2 - r.0 == Max(Abs(x1 - x0), Abs(y1 - y0)) && Abs(r.3 - r.1) == Min(Abs(x1 - x0), Abs(y1 - y0))
    ensures var p, q := PlotPoint((r.0, r.1), Steep(x0, y0, x1, y1)), PlotPoint((r.2, r.3), Steep(x0, y0, x1, y1));
      (p == Pixel(x0, y0) && q == Pixel(x1, y1)) || (p == Pixel(x1, y1) && q == Pixel(x0, y0))
  {
    var (a0, b0, a1, b1) := if Steep(x0, y0, x1, y1) then (y0, x0, y1, x1) else (x0, y0, x1, y1);
    if a0 > a1 then (a1, b1, a0, b0) else (a0, b0, a1, b1)
  }

  /** The loop of the general case stops only if the normalised end is below
      65535: x0 is a uint16_t, so x0 <= 65535 always holds. */
  predicate LineTerminates(x0: u16, y0: u16, x1: u16, y1: u16)
  {
    y0 == y1 || x0 == x1 || Normalise(x0, y0, x1, y1).2 < 0xFFFF
  }

  /** One step of the error term, in int16_t, and of the minor coordinate,
      in uint16_t. */
  function BresenhamNext(b: u16, err: i16, dx: i16, dy: i16, ystep: int): (u16, i16)
  {
    var e := I16(err - dy);
    if e < 0 then (U16(b + ystep), I16(e + dx)) else (b, e)
  }

  /** The points the loop plots from a up to and including a1. */
  function BresenhamPoints(a: u16, a1: u16, b: u16, err: i16, dx: i16, dy: i16, ystep: int): seq<(u16, u16)>
    requires a1 < 0xFFFF
    decreases a1 + 1 - a
  {
    if a > a1 then []
    else
      var (nb, ne) := BresenhamNext(b, err, dx, dy, ystep);
      [(a, b)] + BresenhamPoints(a + 1, a1, nb, ne, dx, dy, ystep)
  }

  /** A plotted point, with the steep swap undone. */
  function PlotPoint(p: (u16, u16), steep: bool): Prim
  {
    if steep then Pixel(p.1, p.0) else Pixel(p.0, p.1)
  }

  function Plot(pts: seq<(u16, u16)>, steep: bool): (ps: seq<Prim>)
    ensures |ps| == |pts|
    decreases |pts|
  {
    if pts == [] then [] else [PlotPoint(pts[0], steep)] + Plot(pts[1..], steep)
  }

  lemma {:induction false} PlotIndex(pts: seq<(u16, u16)>, steep: bool, i: nat)
    requires i < |pts|
    ensures Plot(pts, steep)[i] == PlotPoint(pts[i], steep)
    decreases i
  {
    if i > 0 {
      PlotIndex(pts[1..], steep, i - 1);
    }
  }

  /** The drawing calls of draw_line: a horizontal or vertical span when the
      end points share a row or a column, otherwise one pixel per Bresenham
      step. */
  function LinePrims(x0: u16, y0: u16, x1: u16, y1: u16): seq<Prim>
    requires LineTerminates(x0, y0, x1, y1)
  {
    if y0 == y1 then [HLine(Min(x0, x1), y0, U16(Abs(x1 - x0) + 1))]
    else if x0 == x1 then [VLine(x0, Min(y0, y1), U16(Abs(y1 - y0) + 1))]
    else
      var r := Normalise(x0, y0, x1, y1);
      Plot(BresenhamLine(r.0, r.1, r.2, r.3), Steep(x0, y0, x1, y1))
  }

  /** The general case once the end points are normalised: dx, dy and the
      initial error dx / 2 in int16_t, and the direction of the minor step. */
  function BresenhamLine(a0: u16, b0: u16, a1: u16, b1: u16): seq<(u16, u16)>
    requires a1 < 0xFFFF
  {
    var dx := I16(a1 - a0);
    BresenhamPoints(a0, a1, b0, I16(TDiv(dx, 2)), dx, I16(Abs(b1 - b0)), if b0 < b1 then 1 else -1)
  }

  /** The first point of a non-empty stretch, then the rest from the next
      column with the stepped error term. */
  lemma BresenhamUnfold(a: u16, a1: u16, b: u16, err: i16, dx: i16, dy: i16, ystep: int)
    requires a <= a1 < 0xFFFF
    ensures var next := BresenhamNext(b, err, dx, dy, ystep);
      BresenhamPoints(a, a1, b, err, dx, dy, ystep) == [(a, b)] + BresenhamPoints(a + 1, a1, next.0, next.1, dx, dy, ystep)
  {
  }

  /** Consecutive points: the minor coordinate stays or moves by one ystep
      (mod 2^16). */
  predicate Adjacent(p: (u16, u16), q: (u16, u16), ystep: int)
  {
    q.1 == p.1 || q.1 == U16(p.1 + ystep)
  }

  /** The loop plots one point per value of the advancing coordinate, that
      coordinate goes up by one per point, and the other one moves by at most
      one ystep (mod 2^16) per point. */
  lemma {:induction false} BresenhamShape(a: u16, a1: u16, b: u16, err: i16, dx: i16, dy: i16, ystep: int)
    requires a1 < 0xFFFF
    ensures var pts := BresenhamPoints(a, a1, b, err, dx, dy, ystep);
      && |pts| == (if a <= a1 then a1 - a + 1 else 0)
      && (forall i :: 0 <= i < |pts| ==> pts[i].0 == a + i)
      && (|pts| > 0 ==> pts[0].1 == b)
      && (forall i :: 0 <= i < |pts| - 1 ==> Adjacent(pts[i], pts[i + 1], ystep))
    decreases a1 + 1 - a
  {
    if a <= a1 {
      var next := BresenhamNext(b, err, dx, dy, ystep);
      var rest := BresenhamPoints(a + 1, a1, next.0, next.1, dx, dy, ystep);
      BresenhamShape(a + 1, a1, next.0, next.1, dx, dy, ystep);
      BresenhamUnfold(a, a1, b, err, dx, dy, ystep);
      var pts := [(a, b)] + rest;
      assert forall i :: 1 <= i < |pts| ==> pts[i] == rest[i - 1];
      assert |rest| > 0 ==> Adjacent(pts[0], pts[1], ystep);
    }
  }

  /** One step when the error term stays non-negative: same minor coordinate. */
  lemma NextDown(b: u16, err: i16, dx: i16, dy: i16, ystep: int)
    requires 0 <= dy <= dx && 0 <= err && err - dy >= 0
    ensures BresenhamNext(b, err, dx, dy, ystep) == (b, err - dy)
  {
  }

  /** One step when the error term goes negative: the minor coordinate moves. */
  lemma NextAcross(b: u16, err: i16, dx: i16, dy: i16, ystep: int)
    requires 0 <= dy <= dx && 0 <= err < dx && err - dy < 0 && 0 <= b + ystep <= 0xFFFF
    ensures BresenhamNext(b, err, dx, dy, ystep) == (b + ystep, err - dy + dx)
  {
  }

  /** The error-term invariant: with n steps left and t steps of the minor
      coordinate still to take, err = h + n * dy - t * dx, 0 <= err < dx and
      0 <= h < dx; then the last point lies t steps away from b. No int16_t
      or uint16_t operation wraps on the way. */
  lemma {:induction false} BresenhamReaches(a: u16, a1: u16, b: u16, err: i16, dx: i16, dy: i16, ystep: int, h: int, t: int)
    requires a <= a1 < 0xFFFF && (ystep == 1 || ystep == -1)
    requires 0 <= dy <= dx && 0 <= h < dx && 0 <= err < dx
    requires err == h + (a1 - a) * dy - t * dx
    requires 0 <= b + t * ystep <= 0xFFFF
    ensures t >= 0
    ensures var pts := BresenhamPoints(a, a1, b, err, dx, dy, ystep);
      |pts| > 0 && pts[|pts| - 1] == (a1, b + t * ystep)
    decreases a1 - a
  {
    NoNegativeSteps(a1 - a, dy, dx, h, err, t);
    BresenhamUnfold(a, a1, b, err, dx, dy, ystep);
    var next := BresenhamNext(b, err, dx, dy, ystep);
    var rest := BresenhamPoints(a + 1, a1, next.0, next.1, dx, dy, ystep);
    if a == a1 {
      NoStepsLeft(dy, dx, h, err, t);
      assert rest == [];
      assert b + t * ystep == b;
    } else {
      var t' := NextState(a, a1, b, err, dx, dy, ystep, h, t);
      BresenhamReaches(a + 1, a1, next.0, next.1, dx, dy, ystep, h, t');
      LastAfterFirst((a, b), rest);
    }
  }

  /** One step keeps the invariant, with t' minor steps left: one fewer when
      the error term went negative. */
  lemma NextState(a: u16, a1: u16, b: u16, err: i16, dx: i16, dy: i16, ystep: int, h: int, t: int) returns (t': int)
    requires a < a1 < 0xFFFF && (ystep == 1 || ystep == -1)
    requires 0 <= dy <= dx && 0 <= h < dx && 0 <= err < dx
    requires err == h + (a1 - a) * dy - t * dx
    requires 0 <= b + t * ystep <= 0xFFFF
    ensures var next := BresenhamNext(b, err, dx, dy, ystep);
      && 0 <= next.1 < dx && next.1 == h + (a1 - (a + 1)) * dy - t' * dx
      && next.0 + t' * ystep == b + t * ystep
  {
    NoNegativeSteps(a1 - a, dy, dx, h, err, t);
    BresenhamStep(a, a1, dy, dx, h, err, t);
    if err - dy < 0 {
      t' := t - 1;
      NoNegativeSteps(a1 - (a + 1), dy, dx, h, err - dy + dx, t - 1);
      StepToward(b, t, ystep);
      NextAcross(b, err, dx, dy, ystep);
    } else {
      t' := t;
      NextDown(b, err, dx, dy, ystep);
    }
  }

  /** The last element of a sequence with one more element in front. */
  lemma LastAfterFirst<T>(x: T, rest: seq<T>)
    requires |rest| > 0
    ensures ([x] + rest)[|rest|] == rest[|rest| - 1]
  {
  }

  /** On the last column no step of the minor coordinate is left. */
  lemma NoStepsLeft(dy: int, dx: int, h: int, err: int, t: int)
    requires 0 <= h < dx && 0 <= err < dx && 0 <= t
    requires err == h + 0 * dy - t * dx
    ensures t == 0
  {
    if t >= 1 {
      MulSign(t, dx);
    }
  }

  /** With one minor step taken, t - 1 steps from b + ystep end where t steps
      from b do, and the first of them stays in range. */
  lemma StepToward(b: int, t: int, ystep: int)
    requires ystep == 1 || ystep == -1
    requires 1 <= t && 0 <= b && b <= 0xFFFF && 0 <= b + t * ystep <= 0xFFFF
    ensures b + ystep + (t - 1) * ystep == b + t * ystep
    ensures 0 <= b + ystep <= 0xFFFF
  {
  }

  /** The invariant after one step, for both outcomes of the error test. */
  lemma BresenhamStep(a: int, a1: int, dy: int, dx: int, h: int, err: int, t: int)
    requires err == h + (a1 - a) * dy - t * dx
    ensures err - dy == h + (a1 - (a + 1)) * dy - t * dx
    ensures err - dy + dx == h + (a1 - (a + 1)) * dy - (t - 1) * dx
  {
    assert (a1 - (a + 1)) * dy == (a1 - a) * dy - dy;
    assert (t - 1) * dx == t * dx - dx;
  }

  /** The invariant forbids a negative number of steps still to take. */
  lemma NoNegativeSteps(n: nat, dy: int, dx: int, h: int, err: int, t: int)
    requires 0 <= dy && 0 <= h && 0 < dx && err < dx
    requires err == h + n * dy - t * dx
    ensures t >= 0
  {
    MulLe(0, dy, n);
    if t <= -1 {
      MulSign(t, dx);
    }
  }

  /** In normalised coordinates, when the driving distance fits an int16_t,
      the loop plots one point per column from (a0, b0) to exactly (a1, b1). */
  lemma BresenhamEnds(a0: u16, b0: u16, a1: u16, b1: u16)
    requires a0 < a1 < 0xFFFF && a1 - a0 <= 0x7FFF && Abs(b1 - b0) <= a1 - a0
    ensures var pts := BresenhamLine(a0, b0, a1, b1);
      |pts| == a1 - a0 + 1 && pts[0] == (a0, b0) && pts[|pts| - 1] == (a1, b1)
  {
    var dx := I16(a1 - a0);
    var dy := I16(Abs(b1 - b0));
    var ystep := if b0 < b1 then 1 else -1;
    var h := TDiv(dx, 2);
    assert 0 <= h < dx;
    var pts := BresenhamPoints(a0, a1, b0, I16(h), dx, dy, ystep);
    BresenhamShape(a0, a1, b0, I16(h), dx, dy, ystep);
    var n: int, t: int := dx, dy;
    assert b1 == b0 + t * ystep;
    assert n * t == t * n;
    BresenhamReaches(a0, a1, b0, I16(h), dx, dy, ystep, h, dy);
  }

  /** In the general case, when the driving distance fits an int16_t, the
      pixels run from one end point to the other: one pixel per step of the
      driving coordinate, the first at one end point and the last at the
      other. */
  lemma LineEndpoints(x0: u16, y0: u16, x1: u16, y1: u16)
    requires x0 != x1 && y0 != y1 && LineTerminates(x0, y0, x1, y1)
    requires Abs(x1 - x0) <= 0x7FFF && Abs(y1 - y0) <= 0x7FFF
    ensures var ps := LinePrims(x0, y0, x1, y1);
      && |ps| == Max(Abs(x1 - x0), Abs(y1 - y0)) + 1
      && ((ps[0] == Pixel(x0, y0) && ps[|ps| - 1] == Pixel(x1, y1))
       || (ps[0] == Pixel(x1, y1) && ps[|ps| - 1] == Pixel(x0, y0)))
  {
    var r := Normalise(x0, y0, x1, y1);
    var steep := Steep(x0, y0, x1, y1);
    var pts := BresenhamLine(r.0, r.1, r.2, r.3);
    BresenhamEnds(r.0, r.1, r.2, r.3);
    PlotIndex(pts, steep, 0);
    PlotIndex(pts, steep, |pts| - 1);
  }

  // ---------------------------------------------------------------------------
  // draw_line

  /** The pixels the loop of the general case draws from column a to a1,
      point by point. */
  function PlotRun(a: u16, a1: u16, b: u16, err: i16, dx: i16, dy: i16, ystep: int, steep: bool): seq<Prim>
    requires a1 < 0xFFFF
    decreases a1 + 1 - a
  {
    if a > a1 then []
    else
      var next := BresenhamNext(b, err, dx, dy, ystep);
      [PlotPoint((a, b), steep)] + PlotRun(a + 1, a1, next.0, next.1, dx, dy, ystep, steep)
  }

  /** Drawing point by point plots the Bresenham points. */
  lemma {:induction false} PlotRunIs(a: u16, a1: u16, b: u16, err: i16, dx: i16, dy: i16, ystep: int, steep: bool)
    requires a1 < 0xFFFF
    ensures PlotRun(a, a1, b, err, dx, dy, ystep, steep) == Plot(BresenhamPoints(a, a1, b, err, dx, dy, ystep), steep)
    decreases a1 + 1 - a
  {
    if a <= a1 {
      var next := BresenhamNext(b, err, dx, dy, ystep);
      PlotRunIs(a + 1, a1, next.0, next.1, dx, dy, ystep, steep);
      BresenhamUnfold(a, a1, b, err, dx, dy, ystep);
      var pts := BresenhamPoints(a, a1, b, err, dx, dy, ystep);
      assert pts[1..] == BresenhamPoints(a + 1, a1, next.0, next.1, dx, dy, ystep);
    }
  }

  /** draw_line: a span for a horizontal or vertical line, otherwise one
      ili9488_draw_pixel per Bresenham step. */
  method DrawLine(d: Display, x0: u16, y0: u16, x1: u16, y1: u16, color: u16)
    requires LineTerminates(x0, y0, x1, y1)
    modifies d.bus`cs, d.bus`dc, d.bus`log
    ensures d.bus.log == old(d.bus.log) + Render(LinePrims(x0, y0, x1, y1), Rgb565ToRgb666(color), d.width, d.height)
  {
    if y0 == y1 {
      HorizontalLine(d, x0, x1, y0, color);
    } else if x0 == x1 {
      VerticalLine(d, x0, y0, y1, color);
    } else {
      SlopedLine(d, x0, y0, x1, y1, color);
    }
  }

  /** draw_line's horizontal case: order the ends, then one draw_hline. */
  method HorizontalLine(d: Display, x0: u16, x1: u16, y: u16, color: u16)
    modifies d.bus`cs, d.bus`dc, d.bus`log
    ensures d.bus.log == old(d.bus.log) + Render(LinePrims(x0, y, x1, y), Rgb565ToRgb666(color), d.width, d.height)
  {
    var a, b := x0, x1;
    if a > b {
      a, b := b, a;
    }
    DrawHLine(d, a, y, U16(b as int - a + 1), color);
    HorizontalPrims(x0, x1, y);
    RenderOne(HLine(a, y, U16(b as int - a + 1)), Rgb565ToRgb666(color), d.width, d.height);
  }

  /** End points on one row give one horizontal span from the left one. */
  lemma HorizontalPrims(x0: u16, x1: u16, y: u16)
    ensures LinePrims(x0, y, x1, y) == [HLine(Min(x0, x1), y, U16(Abs(x1 - x0) + 1))]
  {
  }

  /** draw_line's vertical case: order the ends, then one draw_vline. */
  method VerticalLine(d: Display, x: u16, y0: u16, y1: u16, color: u16)
    requires y0 != y1
    modifies d.bus`cs, d.bus`dc, d.bus`log
    ensures d.bus.log == old(d.bus.log) + Render(LinePrims(x, y0, x, y1), Rgb565ToRgb666(color), d.width, d.height)
  {
    var a, b := y0, y1;
    if a > b {
      a, b := b, a;
    }
    DrawVLine(d, x, a, U16(b as int - a + 1), color);
    VerticalPrims(x, y0, y1);
    RenderOne(VLine(x, a, U16(b as int - a + 1)), Rgb565ToRgb666(color), d.width, d.height);
  }

  /** End points in one column, on different rows, give one vertical span
      from the upper one. */
  lemma VerticalPrims(x: u16, y0: u16, y1: u16)
    requires y0 != y1
    ensures LinePrims(x, y0, x, y1) == [VLine(x, Min(y0, y1), U16(Abs(y1 - y0) + 1))]
  {
  }

  /** draw_line's general case: the steep swap, the left-to-right swap, the
      int16_t set-up and the loop. */
  method SlopedLine(d: Display, x0: u16, y0: u16, x1: u16, y1: u16, color: u16)
    requires x0 != x1 && y0 != y1 && LineTerminates(x0, y0, x1, y1)
    modifies d.bus`cs, d.bus`dc, d.bus`log
    ensures d.bus.log == old(d.bus.log) + Render(LinePrims(x0, y0, x1, y1), Rgb565ToRgb666(color), d.width, d.height)
  {
    var steep := Abs(y1 - y0) > Abs(x1 - x0);
    var ax0, ay0, ax1, ay1 := x0, y0, x1, y1;
    if steep {
      ax0, ay0 := ay0, ax0;
      ax1, ay1 := ay1, ax1;
    }
    if ax0 > ax1 {
      ax0, ax1 := ax1, ax0;
      ay0, ay1 := ay1, ay0;
    }
    assert (ax0, ay0, ax1, ay1) == Normalise(x0, y0, x1, y1);
    assert LinePrims(x0, y0, x1, y1) == Plot(BresenhamLine(ax0, ay0, ax1, ay1), steep);
    var dx := I16(ax1 - ax0);
    var dy := I16(Abs(ay1 as int - ay0));
    var err := I16(TDiv(dx, 2));
    var ystep := if ay0 < ay1 then 1 else -1;
    BresenhamLineIs(ax0, ay0, ax1, ay1, err, dx, dy, ystep);
    PlotRunIs(ax0, ax1, ay0, err, dx, dy, ystep, steep);
    BresenhamLoop(d, ax0, ax1, ay0, err, dx, dy, ystep, steep, color);
  }

  /** BresenhamLine with its locals named. */
  lemma BresenhamLineIs(a0: u16, b0: u16, a1: u16, b1: u16, err: i16, dx: i16, dy: i16, ystep: int)
    requires a1 < 0xFFFF && dx == I16(a1 - a0) && dy == I16(Abs(b1 - b0)) && err == I16(TDiv(dx, 2))
    requires ystep == if b0 < b1 then 1 else -1
    ensures BresenhamLine(a0, b0, a1, b1) == BresenhamPoints(a0, a1, b0, err, dx, dy, ystep)
  {
  }

  /** The loop of draw_line's general case, from column a to a1. */
  method BresenhamLoop(d: Display, a: u16, a1: u16, b: u16, err: i16, dx: i16, dy: i16, ystep: int, steep: bool, color: u16)
    requires a <= a1 < 0xFFFF
    modifies d.bus`cs, d.bus`dc, d.bus`log
    ensures d.bus.log == old(d.bus.log) + Render(PlotRun(a, a1, b, err, dx, dy, ystep, steep), Rgb565ToRgb666(color), d.width, d.height)
  {
    ghost var px, w, h := Rgb565ToRgb666(color), d.width, d.height;
    ghost var goal := old(d.bus.log) + Render(PlotRun(a, a1, b, err, dx, dy, ystep, steep), px, w, h);
    var x, y, e := a, b, err;
    while x <= a1
      invariant x <= a1 + 1
      invariant goal == d.bus.log + Render(PlotRun(x, a1, y, e, dx, dy, ystep, steep), px, w, h)
      decreases a1 + 1 - x
    {
      ghost var before, pred, py, pe := d.bus.log, x, y, e;
      y, e := BresenhamTurn(d, x, y, e, dx, dy, ystep, steep, color);
      x := x + 1;
      LoopStep(goal, before, d.bus.log, pred, x, a1, py, pe, y, e, dx, dy, ystep, steep, px, w, h);
    }
  }

  /** One turn of draw_line's loop: plot the point (transposed back when
      steep), then step the error term and, when it goes negative, the minor
      coordinate. */
  method BresenhamTurn(d: Display, x: u16, y: u16, e: i16, dx: i16, dy: i16, ystep: int, steep: bool, color: u16)
      returns (y': u16, e': i16)
    modifies d.bus`cs, d.bus`dc, d.bus`log
    ensures (y', e') == BresenhamNext(y, e, dx, dy, ystep)
    ensures d.bus.log == old(d.bus.log) + PrimEvents(PlotPoint((x, y), steep), Rgb565ToRgb666(color), d.width, d.height)
  {
    if steep {
      d.DrawPixel(y, x, color);
    } else {
      d.DrawPixel(x, y, color);
    }
    y', e' := y, I16(e as int - dy);
    if e' < 0 {
      y' := U16(y as int + ystep);
      e' := I16(e' as int + dx);
    }
  }

  /** The loop invariant of BresenhamLoop survives drawing the first
      remaining point. */
  lemma LoopStep(goal: seq<Event>, before: seq<Event>, after: seq<Event>,
                 a: u16, a': u16, a1: u16, b: u16, err: i16, b': u16, err': i16,
                 dx: i16, dy: i16, ystep: int, steep: bool, px: Rgb, width: u16, height: u16)
    requires a <= a1 < 0xFFFF && a' == a + 1 && (b', err') == BresenhamNext(b, err, dx, dy, ystep)
    requires goal == before + Render(PlotRun(a, a1, b, err, dx, dy, ystep, steep), px, width, height)
    requires after == before + PrimEvents(PlotPoint((a, b), steep), px, width, height)
    ensures goal == after + Render(PlotRun(a', a1, b', err', dx, dy, ystep, steep), px, width, height)
  {
    var rest := PlotRun(a', a1, b', err', dx, dy, ystep, steep);
    RenderCons(PlotPoint((a, b), steep), rest, px, width, height);
    AppendAssoc(before, PrimEvents(PlotPoint((a, b), steep), px, width, height), Render(rest, px, width, height));
  }
}
