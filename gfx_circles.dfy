/** draw_circle, fill_circle and the fill_circle helper of src/ili9488_gfx.c:
    the midpoint circle walk over the first octant, in int16_t, and the
    drawing calls it makes. */
module GfxCircles {
  import opened Ints
  import opened Hal
  import opened Driver
  import opened Gfx

  /** The walk's int16_t state: the decision value f, its increments
      ddF_x and ddF_y, and the octant point (x, y). */
  datatype Midpoint = Midpoint(f: i16, ddx: i16, ddy: i16, x: i16, y: i16)

  /** The state before the loop: f = 1 - r, ddF_y = -2 * r and y = r, each
      converted to int16_t. */
  function CircleStart(r: u16): Midpoint
  {
    Midpoint(I16(1 - r), 1, I16(-2 * r), 0, I16(r))
  }

  /** The first half of a turn: when f >= 0, y goes down and f takes the
      new ddF_y. */
  function StepY(s: Midpoint): Midpoint
  {
    if s.f >= 0 then
      var ddy := I16(s.ddy as int + 2);
      Midpoint(I16(s.f as int + ddy), s.ddx, ddy, s.x, I16(s.y as int - 1))
    else s
  }

  /** The second half: x goes up and f takes the new ddF_x. */
  function StepX(s: Midpoint): Midpoint
  {
    var ddx := I16(s.ddx as int + 2);
    Midpoint(I16(s.f as int + ddx), ddx, s.ddy, I16(s.x as int + 1), s.y)
  }

  function MidpointNext(s: Midpoint): Midpoint
  {
    StepX(StepY(s))
  }

  /** Below the diagonal a turn moves x one column right and y at most one
      row up, with no int16_t wrap-around. */
  lemma NextMoves(s: Midpoint)
    ensures var n := MidpointNext(s);
      s.x < s.y ==> n.x as int == s.x as int + 1 && (n.y == s.y || n.y as int == s.y as int - 1)
  {
    if s.x < s.y {
      assert StepY(s).x == s.x && StepY(s).y in {s.y, s.y - 1};
    }
  }

  /** The octant points the loop visits: one per turn while x < y, each
      taken after the turn's update. */
  function MidpointPoints(s: Midpoint): seq<(int, int)>
    decreases s.y - s.x
  {
    if s.x < s.y then
      var n := MidpointNext(s);
      [(n.x as int, n.y as int)] + MidpointPoints(n)
    else []
  }

  // ---------------------------------------------------------------------------
  // The midpoint invariant

  /** (x, y) lies on or outside the midpoint boundary: (y + 1/2)^2 >= r^2 - x^2 + 1/4. */
  predicate Outer(x: int, y: int, r: int)
  {
    x * x + y * (y + 1) >= r * r
  }

  /** (x, y) lies strictly inside it from above: (y - 1/2)^2 < r^2 - x^2 + 1/4. */
  predicate Inner(x: int, y: int, r: int)
  {
    x * x + y * (y - 1) < r * r
  }

  /** What holds at the head of the loop for a radius r < 2^14: the
      increments are 2x + 1 and -2y, f is (x + 1)^2 + y(y - 1) - r^2, and the
      point is the one nearest the circle in its column. */
  ghost predicate Inv(s: Midpoint, r: int)
  {
    && 0 <= r <= 0x3FFF
    && 0 <= s.x && 0 <= s.y <= r
    && s.ddx == 2 * s.x + 1 && s.ddy == -2 * s.y
    && s.f == (s.x + 1) * (s.x + 1) + s.y * (s.y - 1) - r * r
    && Outer(s.x, s.y, r)
    && (0 < s.y && s.x <= s.y ==> Inner(s.x, s.y, r))
  }

  lemma StartInv(r: u16)
    requires r <= 0x3FFF
    ensures Inv(CircleStart(r), r)
  {
    var s := CircleStart(r);
    assert s == Midpoint(1 - r, 1, -2 * r, 0, r);
    var k: int := r;
    assert k * (k - 1) == k * k - k && k * (k + 1) == k * k + k;
    assert s.f == (s.x + 1) * (s.x + 1) + s.y * (s.y - 1) - k * k;
    assert Outer(s.x, s.y, k);
    assert 0 < s.y ==> Inner(s.x, s.y, k);
  }

  /** One turn keeps the invariant, moves x up by one and y down by at most
      one, and no int16_t operation wraps. */
  lemma NextInv(s: Midpoint, r: int)
    requires Inv(s, r) && s.x < s.y
    ensures var n := MidpointNext(s);
      && Inv(n, r) && n.x == s.x + 1 && (n.y == s.y || n.y == s.y - 1)
      && (n.y == s.y - 1 <==> s.f >= 0)
  {
    if s.f >= 0 {
      InvDown(s, r);
    } else {
      InvAcross(s, r);
    }
  }

  lemma InvDown(s: Midpoint, r: int)
    requires Inv(s, r) && s.x < s.y && s.f >= 0
    ensures var n := MidpointNext(s); Inv(n, r) && n.x == s.x + 1 && n.y == s.y - 1
  {
    var x: int, y: int, f: int := s.x, s.y, s.f;
    DecisionBounds(x, y, f, r);
    StepDown(x, y, f, r);
    NextDown(s, r);
  }

  lemma InvAcross(s: Midpoint, r: int)
    requires Inv(s, r) && s.x < s.y && s.f < 0
    ensures var n := MidpointNext(s); Inv(n, r) && n.x == s.x + 1 && n.y == s.y
  {
    var x: int, y: int, f: int := s.x, s.y, s.f;
    DecisionBounds(x, y, f, r);
    StepAcross(x, y, f, r);
    NextAcross(s, r);
  }

  /** The state after a turn that steps y down, with no int16_t wrap. */
  lemma NextDown(s: Midpoint, r: int)
    requires 0 <= s.x < s.y <= 0x3FFF && s.f >= 0 && s.ddx == 2 * s.x + 1 && s.ddy == -2 * s.y
    requires -0x8000 <= s.f - 2 * s.y + 2 + 2 * s.x + 3 < 0x8000
    ensures MidpointNext(s) == Midpoint(s.f - 2 * s.y + 2 + 2 * s.x + 3, 2 * s.x + 3, -2 * s.y + 2, s.x + 1, s.y - 1)
  {
    assert StepY(s) == Midpoint(s.f - 2 * s.y + 2, s.ddx, -2 * s.y + 2, s.x, s.y - 1);
  }

  /** The state after a turn that keeps y, with no int16_t wrap. */
  lemma NextAcross(s: Midpoint, r: int)
    requires 0 <= s.x < s.y <= 0x3FFF && s.f < 0 && s.ddx == 2 * s.x + 1
    requires -0x8000 <= s.f + 2 * s.x + 3 < 0x8000
    ensures MidpointNext(s) == Midpoint(s.f + 2 * s.x + 3, 2 * s.x + 3, s.ddy, s.x + 1, s.y)
  {
  }

  /** Between the two boundaries the decision value stays within
      [2x + 1 - 2y, 2x]. */
  lemma DecisionBounds(x: int, y: int, f: int, r: int)
    requires f == (x + 1) * (x + 1) + y * (y - 1) - r * r
    requires Outer(x, y, r) && Inner(x, y, r)
    ensures 2 * x + 1 - 2 * y <= f < 2 * x + 1
  {
    assert (x + 1) * (x + 1) == x * x + 2 * x + 1;
    assert y * (y + 1) == y * (y - 1) + 2 * y;
  }

  /** The arithmetic of a turn that steps y down. */
  lemma StepDown(x: int, y: int, f: int, r: int)
    requires 0 <= x < y <= r <= 0x3FFF && 0 <= f < 2 * x + 1
    requires f == (x + 1) * (x + 1) + y * (y - 1) - r * r
    ensures var f1 := f - 2 * y + 2; var f2 := f1 + 2 * x + 3;
      && -0x8000 <= f1 < 0x8000 && -0x8000 <= f2 < 0x8000
      && f2 == (x + 2) * (x + 2) + (y - 1) * (y - 2) - r * r
      && Outer(x + 1, y - 1, r)
      && (x + 1 <= y - 1 ==> Inner(x + 1, y - 1, r))
  {
    assert (y - 1) * (y - 2) == y * (y - 1) - 2 * y + 2;
    assert (x + 2) * (x + 2) == (x + 1) * (x + 1) + 2 * x + 3;
    assert (y - 1) * y == y * (y - 1);
  }

  /** The arithmetic of a turn that keeps y. */
  lemma StepAcross(x: int, y: int, f: int, r: int)
    requires 0 <= x < y <= r <= 0x3FFF && 2 * x + 1 - 2 * y <= f < 0
    requires f == (x + 1) * (x + 1) + y * (y - 1) - r * r
    requires Outer(x, y, r)
    ensures var f2 := f + 2 * x + 3;
      && -0x8000 <= f2 < 0x8000
      && f2 == (x + 2) * (x + 2) + y * (y - 1) - r * r
      && Outer(x + 1, y, r)
      && (x + 1 <= y ==> Inner(x + 1, y, r))
  {
    assert (x + 2) * (x + 2) == (x + 1) * (x + 1) + 2 * x + 3;
    assert (x + 1) * (x + 1) >= x * x;
  }

  // ---------------------------------------------------------------------------
  // The octant walk

  /** A pixel at offsets (a, b) from the centre, a and b taken as distances,
      is on the rasterised circle of radius r: along its major axis it is the
      integer nearest the circle, with a tie going outward. */
  predicate OnCircle(a: int, b: int, r: int)
  {
    Outer(Min(a, b), Max(a, b), r) && Inner(Min(a, b), Max(a, b), r)
  }

  /** The walk visits one point per column from s.x + 1 on, and it visits
      some point exactly when it starts above the diagonal. */
  lemma {:induction false} OctantColumns(s: Midpoint, r: int)
    requires Inv(s, r)
    ensures var pts := MidpointPoints(s);
      && (s.x < s.y <==> |pts| > 0)
      && (forall i :: 0 <= i < |pts| ==> pts[i].0 == s.x + i + 1)
    decreases s.y - s.x
  {
    if s.x < s.y {
      var n := MidpointNext(s);
      NextInv(s, r);
      OctantColumns(n, r);
      var pts, rest := MidpointPoints(s), MidpointPoints(n);
      assert pts == [(n.x as int, n.y as int)] + rest;
      assert forall i :: 0 < i < |pts| ==> pts[i] == rest[i - 1];
    }
  }

  /** Along the walk y never goes up and drops by at most one per column,
      every point but the last is strictly above the diagonal, and the last
      one is on it or one below. */
  lemma {:induction false} OctantRows(s: Midpoint)
    ensures var pts := MidpointPoints(s);
      && (|pts| > 0 ==> pts[0].1 == s.y || pts[0].1 == s.y - 1)
      && (forall i :: 0 <= i < |pts| - 1 ==> RowStep(pts[i], pts[i + 1]))
      && (forall i :: 0 <= i < |pts| - 1 ==> pts[i].0 < pts[i].1)
      && (|pts| > 0 ==> pts[|pts| - 1].1 <= pts[|pts| - 1].0 <= pts[|pts| - 1].1 + 1)
    decreases s.y - s.x
  {
    if s.x < s.y {
      var n := MidpointNext(s);
      NextMoves(s);
      OctantRows(n);
      var pts, rest := MidpointPoints(s), MidpointPoints(n);
      assert pts == [(n.x as int, n.y as int)] + rest;
      forall i | 1 <= i < |pts| - 1
        ensures RowStep(pts[i], pts[i + 1]) && pts[i].0 < pts[i].1
      {
        assert pts[i] == rest[i - 1] && pts[i + 1] == rest[i];
      }
      if rest != [] {
        assert RowStep(pts[0], pts[1]);
        LastAfterFirst((n.x as int, n.y as int), rest);
      }
    }
  }

  /** From one point of the walk to the next, y stays or drops by one. */
  predicate RowStep(p: (int, int), q: (int, int))
  {
    q.1 == p.1 || q.1 == p.1 - 1
  }

  /** Every point of the walk is on the rasterised circle. The last point
      may cross the diagonal; it is then the mirror image of the point
      before it. */
  lemma {:induction false} OctantOnCircle(s: Midpoint, r: int)
    requires Inv(s, r)
    ensures forall p :: p in MidpointPoints(s) ==> 0 <= p.0 && 0 <= p.1 && OnCircle(p.0, p.1, r)
    decreases s.y - s.x
  {
    if s.x < s.y {
      var n := MidpointNext(s);
      NextInv(s, r);
      OctantOnCircle(n, r);
      assert MidpointPoints(s) == [(n.x as int, n.y as int)] + MidpointPoints(n);
      if n.x > n.y {
        assert (n.y as int, n.x as int) == (s.x as int, s.y as int);
      }
    }
  }

  // ---------------------------------------------------------------------------
  // draw_circle

  /** The four pixels draw_circle plots before the loop: below, above, right
      and left of the centre, at distance r (mod 2^16). */
  function AxisPixels(x0: u16, y0: u16, r: u16): seq<Prim>
  {
    [Pixel(x0, U16(y0 + r)), Pixel(x0, U16(y0 - r)), Pixel(U16(x0 + r), y0), Pixel(U16(x0 - r), y0)]
  }

  /** The eight reflections of an octant point, in the order the loop plots
      them. */
  function OctantPixels(x0: u16, y0: u16, x: int, y: int): seq<Prim>
  {
    [ Pixel(U16(x0 + x), U16(y0 + y)), Pixel(U16(x0 - x), U16(y0 + y)),
      Pixel(U16(x0 + x), U16(y0 - y)), Pixel(U16(x0 - x), U16(y0 - y)),
      Pixel(U16(x0 + y), U16(y0 + x)), Pixel(U16(x0 - y), U16(y0 + x)),
      Pixel(U16(x0 + y), U16(y0 - x)), Pixel(U16(x0 - y), U16(y0 - x)) ]
  }

  function CircleOctants(x0: u16, y0: u16, pts: seq<(int, int)>): seq<Prim>
    decreases |pts|
  {
    if pts == [] then [] else OctantPixels(x0, y0, pts[0].0, pts[0].1) + CircleOctants(x0, y0, pts[1..])
  }

  /** The drawing calls of draw_circle. */
  function CirclePrims(x0: u16, y0: u16, r: u16): seq<Prim>
  {
    AxisPixels(x0, y0, r) + CircleOctants(x0, y0, MidpointPoints(CircleStart(r)))
  }

  lemma {:induction false} CircleOctantsMember(x0: u16, y0: u16, pts: seq<(int, int)>, p: Prim)
    requires p in CircleOctants(x0, y0, pts)
    ensures exists q :: q in pts && p in OctantPixels(x0, y0, q.0, q.1)
    decreases |pts|
  {
    var o := OctantPixels(x0, y0, pts[0].0, pts[0].1);
    if p !in o {
      CircleOctantsMember(x0, y0, pts[1..], p);
      var q :| q in pts[1..] && p in OctantPixels(x0, y0, q.0, q.1);
      assert q in pts;
    }
  }

  /** For a radius below 2^14 whose circle fits the 16-bit plane, every
      pixel draw_circle plots lies on the rasterised circle round (x0, y0). */
  lemma CircleOnCircle(x0: u16, y0: u16, r: u16)
    requires 0 < r <= 0x3FFF && r <= x0 && x0 + r <= 0xFFFF && r <= y0 && y0 + r <= 0xFFFF
    ensures forall p :: p in CirclePrims(x0, y0, r) ==> p.Pixel? && OnCircle(Abs(p.x - x0), Abs(p.y - y0), r)
  {
    var s := CircleStart(r);
    StartInv(r);
    OctantOnCircle(s, r);
    forall p | p in CirclePrims(x0, y0, r)
      ensures p.Pixel? && OnCircle(Abs(p.x - x0), Abs(p.y - y0), r)
    {
      if p in AxisPixels(x0, y0, r) {
        AxisOnCircle(x0, y0, r, p);
      } else {
        CircleOctantsMember(x0, y0, MidpointPoints(s), p);
        var q :| q in MidpointPoints(s) && p in OctantPixels(x0, y0, q.0, q.1);
        OnCircleBounds(q.0, q.1, r);
        ReflectionOnCircle(x0, y0, q.0, q.1, r, p);
      }
    }
  }

  lemma AxisOnCircle(x0: u16, y0: u16, r: u16, p: Prim)
    requires 0 < r && r <= x0 && x0 + r <= 0xFFFF && r <= y0 && y0 + r <= 0xFFFF
    requires p in AxisPixels(x0, y0, r)
    ensures p.Pixel? && OnCircle(Abs(p.x - x0), Abs(p.y - y0), r)
  {
    assert r * (r + 1) >= r * r && r * (r - 1) < r * r;
  }

  /** The eight reflections of a point on the circle are on the circle. */
  lemma ReflectionOnCircle(x0: u16, y0: u16, x: int, y: int, r: int, p: Prim)
    requires 0 <= x <= r && 0 <= y <= r && r <= x0 && x0 + r <= 0xFFFF && r <= y0 && y0 + r <= 0xFFFF
    requires OnCircle(x, y, r) && p in OctantPixels(x0, y0, x, y)
    ensures p.Pixel? && OnCircle(Abs(p.x - x0), Abs(p.y - y0), r)
  {
    assert OnCircle(y, x, r);
  }

  /** A pixel on the circle is no further than r from the centre along
      either axis. */
  lemma OnCircleBounds(a: int, b: int, r: int)
    requires 0 <= a && 0 <= b && 0 <= r && OnCircle(a, b, r)
    ensures a <= r && b <= r
  {
    var lo, hi := Min(a, b), Max(a, b);
    assert lo * lo >= 0;
    if hi > r {
      MulLe(r, r, hi - 1);
      MulLe(r, hi - 1, hi);
    }
  }

  /** The walk from s draws the turn's eight reflections, then the rest. */
  lemma CircleOctantsStep(x0: u16, y0: u16, s: Midpoint)
    requires s.x < s.y
    ensures var n := MidpointNext(s);
      CircleOctants(x0, y0, MidpointPoints(s))
      == OctantPixels(x0, y0, n.x as int, n.y as int) + CircleOctants(x0, y0, MidpointPoints(n))
  {
    var n := MidpointNext(s);
    var pts := MidpointPoints(s);
    assert pts == [(n.x as int, n.y as int)] + MidpointPoints(n);
    assert pts[1..] == MidpointPoints(n);
  }

  /** The update at the top of the loop body that draw_circle and the
      fill_circle helper share. */
  method MidpointTurn(f0: i16, ddx0: i16, ddy0: i16, x0: i16, y0: i16) returns (f: i16, ddx: i16, ddy: i16, x: i16, y: i16)
    ensures Midpoint(f, ddx, ddy, x, y) == MidpointNext(Midpoint(f0, ddx0, ddy0, x0, y0))
    ensures x0 < y0 ==> x as int == x0 as int + 1 && (y == y0 || y as int == y0 as int - 1)
  {
    NextMoves(Midpoint(f0, ddx0, ddy0, x0, y0));
    f, ddx, ddy, x, y := f0, ddx0, ddy0, x0, y0;
    if f >= 0 {
      y := I16(y as int - 1);
      ddy := I16(ddy as int + 2);
      f := I16(f as int + ddy);
    }
    x := I16(x as int + 1);
    ddx := I16(ddx as int + 2);
    f := I16(f as int + ddx);
  }

  /** draw_circle. */
  method DrawCircle(d: Display, x0: u16, y0: u16, r: u16, color: u16)
    modifies d.bus`cs, d.bus`dc, d.bus`log
    ensures d.bus.log == old(d.bus.log) + Render(CirclePrims(x0, y0, r), Rgb565ToRgb666(color), d.width, d.height)
  {
    ghost var px, w, h := Rgb565ToRgb666(color), d.width, d.height;
    var f := I16(1 - r);
    var ddx: i16 := 1;
    var ddy := I16(-2 * r);
    var x: i16 := 0;
    var y := I16(r);
    DrawAll(d, AxisPixels(x0, y0, r), color);
    ghost var mid := d.bus.log;
    OctantLoop(d, x0, y0, f, ddx, ddy, x, y, color);
    RenderAppend(AxisPixels(x0, y0, r), CircleOctants(x0, y0, MidpointPoints(CircleStart(r))), px, w, h);
    AppendAssoc(old(d.bus.log), Render(AxisPixels(x0, y0, r), px, w, h), Render(CircleOctants(x0, y0, MidpointPoints(CircleStart(r))), px, w, h));
  }

  /** draw_circle's loop from the given state. */
  method OctantLoop(d: Display, x0: u16, y0: u16, f0: i16, ddx0: i16, ddy0: i16, x1: i16, y1: i16, color: u16)
    requires 0 <= x1
    modifies d.bus`cs, d.bus`dc, d.bus`log
    ensures d.bus.log == old(d.bus.log)
      + Render(CircleOctants(x0, y0, MidpointPoints(Midpoint(f0, ddx0, ddy0, x1, y1))), Rgb565ToRgb666(color), d.width, d.height)
  {
    ghost var px, w, h := Rgb565ToRgb666(color), d.width, d.height;
    ghost var goal := old(d.bus.log) + Render(CircleOctants(x0, y0, MidpointPoints(Midpoint(f0, ddx0, ddy0, x1, y1))), px, w, h);
    var f, ddx, ddy, x, y := f0, ddx0, ddy0, x1, y1;
    while x < y
      invariant 0 <= x
      invariant goal == d.bus.log + Render(CircleOctants(x0, y0, MidpointPoints(Midpoint(f, ddx, ddy, x, y))), px, w, h)
      decreases y as int - x
    {
      ghost var s := Midpoint(f, ddx, ddy, x, y);
      f, ddx, ddy, x, y := MidpointTurn(f, ddx, ddy, x, y);
      ghost var before := d.bus.log;
      DrawAll(d, OctantPixels(x0, y0, x as int, y as int), color);
      OctantLoopStep(goal, before, d.bus.log, x0, y0, s, Midpoint(f, ddx, ddy, x, y), px, w, h);
    }
  }

  lemma OctantLoopStep(goal: seq<Event>, before: seq<Event>, after: seq<Event>, x0: u16, y0: u16, s: Midpoint, n: Midpoint,
                       px: Rgb, w: u16, h: u16)
    requires s.x < s.y && n == MidpointNext(s)
    requires goal == before + Render(CircleOctants(x0, y0, MidpointPoints(s)), px, w, h)
    requires after == before + Render(OctantPixels(x0, y0, n.x as int, n.y as int), px, w, h)
    ensures goal == after + Render(CircleOctants(x0, y0, MidpointPoints(n)), px, w, h)
  {
    CircleOctantsStep(x0, y0, s);
    RenderAppend(OctantPixels(x0, y0, n.x as int, n.y as int), CircleOctants(x0, y0, MidpointPoints(n)), px, w, h);
    AppendAssoc(before, Render(OctantPixels(x0, y0, n.x as int, n.y as int), px, w, h), Render(CircleOctants(x0, y0, MidpointPoints(n)), px, w, h));
  }

  // ---------------------------------------------------------------------------
  // fill_circle

  /** The helper's `if (corners & 1) a; if (corners & 2) b;`: bit 0 picks
      the right-hand call, bit 1 the left-hand one. */
  function CornerPair(corners: u8, a: Prim, b: Prim): seq<Prim>
  {
    (if corners % 2 == 1 then [a] else []) + (if (corners / 2) % 2 == 1 then [b] else [])
  }

  /** The span the helper draws at column x from row top for a point at
      height k above the centre. As written it is a horizontal run of
      2k + 1 - delta pixels; corrected, a vertical run of 2k + delta pixels,
      the chord down to the mirror point. delta is the already incremented
      delta, and the length is converted to uint16_t as it is passed. */
  function CircleSpan(corrected: bool, x: u16, top: u16, k: int, delta: u16): Prim
  {
    if corrected then VLine(x, top, U16(2 * k + delta)) else HLine(x, top, U16(2 * k + 1 - delta))
  }

  /** The spans at column x0 +- x of the point (x, y) a turn has reached,
      drawn while it is not below the diagonal. */
  function PointSpans(corrected: bool, x0: u16, y0: u16, x: i16, y: i16, corners: u8, delta: u16): seq<Prim>
  {
    if x as int < y as int + 1 then
      CornerPair(corners, CircleSpan(corrected, U16(x0 + x), U16(y0 - y), y as int, delta),
                          CircleSpan(corrected, U16(x0 - x), U16(y0 - y), y as int, delta))
    else []
  }

  /** The spans at column x0 +- py of the mirror image of the remembered
      point (px, py). */
  function MirrorSpans(corrected: bool, x0: u16, y0: u16, px: i16, py: i16, corners: u8, delta: u16): seq<Prim>
  {
    CornerPair(corners, CircleSpan(corrected, U16(x0 + py), U16(y0 - px), px as int, delta),
                        CircleSpan(corrected, U16(x0 - py), U16(y0 - px), px as int, delta))
  }

  /** The spans one turn of the helper draws after the update to (x, y):
      the mirror spans come only when the turn moved y. */
  function HelperTurnPrims(corrected: bool, x0: u16, y0: u16, x: i16, y: i16, px: i16, py: i16, corners: u8, delta: u16): seq<Prim>
  {
    PointSpans(corrected, x0, y0, x, y, corners, delta)
      + (if y != py then MirrorSpans(corrected, x0, y0, px, py, corners, delta) else [])
  }

  /** The drawing calls of the helper's loop from state s with the
      remembered point (px, py): py follows y only when a turn moves y, and
      px follows x on every turn. */
  function HelperPrims(corrected: bool, x0: u16, y0: u16, s: Midpoint, px: i16, py: i16, corners: u8, delta: u16): seq<Prim>
    decreases s.y - s.x
  {
    if s.x < s.y then
      var n := MidpointNext(s);
      HelperTurnPrims(corrected, x0, y0, n.x, n.y, px, py, corners, delta)
        + HelperPrims(corrected, x0, y0, n, n.x, if n.y != py then n.y else py, corners, delta)
    else []
  }

  lemma HelperUnfold(corrected: bool, x0: u16, y0: u16, s: Midpoint, px: i16, py: i16, corners: u8, delta: u16)
    requires s.x < s.y
    ensures var n := MidpointNext(s);
      HelperPrims(corrected, x0, y0, s, px, py, corners, delta)
      == HelperTurnPrims(corrected, x0, y0, n.x, n.y, px, py, corners, delta)
         + HelperPrims(corrected, x0, y0, n, n.x, if n.y != py then n.y else py, corners, delta)
  {
  }

  /** The drawing calls of fill_circle_helper(x0, y0, r, corners, delta): the
      walk of draw_circle with the remembered point starting at (0, r) and
      delta incremented (mod 2^16) before the loop. */
  function FillHelperPrims(corrected: bool, x0: u16, y0: u16, r: u16, corners: u8, delta: u16): seq<Prim>
  {
    HelperPrims(corrected, x0, y0, CircleStart(r), 0, I16(r), corners, U16(delta + 1))
  }

  /** The drawing calls of fill_circle: the centre column, then the helper
      for both halves with delta 0. */
  function FillCirclePrims(corrected: bool, x0: u16, y0: u16, r: u16): seq<Prim>
  {
    [VLine(x0, U16(y0 - r), U16(2 * r + 1))] + FillHelperPrims(corrected, x0, y0, r, 3, 0)
  }

  /** Every pixel the primitive covers is within r of (x0, y0) along both
      axes, i.e. inside the square the circle of radius r is drawn in. */
  predicate InSquare(p: Prim, x0: int, y0: int, r: int)
  {
    match p
    case Pixel(x, y) => Abs(x - x0) <= r && Abs(y - y0) <= r
    case HLine(x, y, w) => w == 0 || (x0 - r <= x && x + w - 1 <= x0 + r && Abs(y - y0) <= r)
    case VLine(x, y, h) => h == 0 || (Abs(x - x0) <= r && y0 - r <= y && y + h - 1 <= y0 + r)
  }

  /** p is the vertical chord of the disk at its column: it runs from a
      pixel of the rasterised circle k rows above the centre down to the
      mirror pixel k rows below. */
  predicate Chord(p: Prim, x0: int, y0: int, r: int)
  {
    && p.VLine? && 0 <= y0 - p.y && p.h == 2 * (y0 - p.y) + 1
    && OnCircle(Abs(p.x - x0), y0 - p.y, r)
  }

  /** As written, fill_circle(x0, y0, r) draws, right after the centre
      column, a horizontal run of 2r pixels from (x0 + 1, y0 - r): it ends r
      columns right of the circle. For fill_circle(100, 100, 10) that is a
      20-pixel run from (101, 90) to (120, 90). */
  lemma FillCircleOverreach(x0: u16, y0: u16, r: u16)
    requires 2 <= r <= 0x3FFF && r <= y0 && x0 + 2 * r <= 0xFFFF
    ensures var ps := FillCirclePrims(false, x0, y0, r);
      |ps| >= 2 && ps[1] == HLine(x0 + 1, y0 - r, 2 * r) && !InSquare(ps[1], x0, y0, r)
  {
    var n := MidpointNext(CircleStart(r));
    FirstTurn(r);
    FirstSpans(x0, y0, r);
    assert I16(r) == r && U16(0 + 1) == 1;
    HelperUnfold(false, x0, y0, CircleStart(r), 0, r as i16, 3, 1);
    var helper := FillHelperPrims(false, x0, y0, r, 3, 0);
    assert helper == [HLine(x0 + 1, y0 - r, 2 * r), HLine(U16(x0 - 1), y0 - r, 2 * r)] + HelperPrims(false, x0, y0, n, 1, r as i16, 3, 1);
    var ps := FillCirclePrims(false, x0, y0, r);
    assert ps == [VLine(x0, U16(y0 - r), U16(2 * r + 1))] + helper;
    assert ps[1] == helper[0];
  }

  lemma FirstTurn(r: u16)
    requires 2 <= r <= 0x3FFF
    ensures MidpointNext(CircleStart(r)) == Midpoint(4 - r, 3, -2 * r, 1, r)
  {
    assert CircleStart(r) == Midpoint(1 - r, 1, -2 * r, 0, r);
  }

  lemma FirstSpans(x0: u16, y0: u16, r: u16)
    requires 2 <= r <= 0x3FFF && r <= y0 && x0 + 2 * r <= 0xFFFF
    ensures HelperTurnPrims(false, x0, y0, 1, r as i16, 0, r as i16, 3, 1) == [HLine(x0 + 1, y0 - r, 2 * r), HLine(U16(x0 - 1), y0 - r, 2 * r)]
  {
    var right, left := HLine(x0 + 1, y0 - r, 2 * r), HLine(U16(x0 - 1), y0 - r, 2 * r);
    assert PointSpans(false, x0, y0, 1, r as i16, 3, 1) == CornerPair(3, right, left) == [right, left];
  }

  /** Corrected as vertical runs of 2y + delta pixels, fill_circle draws
      only chords of the disk, all inside the circle's square, for a radius
      below 2^14 whose circle fits the 16-bit plane. */
  lemma FillCircleChords(x0: u16, y0: u16, r: u16)
    requires 0 < r <= 0x3FFF && r <= x0 && x0 + r <= 0xFFFF && r <= y0 && y0 + r <= 0xFFFF
    ensures forall p :: p in FillCirclePrims(true, x0, y0, r) ==> Chord(p, x0, y0, r) && InSquare(p, x0, y0, r)
  {
    var s := CircleStart(r);
    StartInv(r);
    HelperChords(x0, y0, s, r, 3);
    var centre := VLine(x0, U16(y0 - r), U16(2 * r + 1));
    CentreChord(x0, y0, r);
    assert FillCirclePrims(true, x0, y0, r) == [centre] + FillHelperPrims(true, x0, y0, r, 3, 0);
    forall p | p in FillCirclePrims(true, x0, y0, r)
      ensures Chord(p, x0, y0, r) && InSquare(p, x0, y0, r)
    {
      ChordInSquare(p, x0, y0, r);
    }
  }

  /** The centre column fill_circle draws first is the vertical diameter. */
  lemma CentreChord(x0: u16, y0: u16, r: u16)
    requires 0 < r <= 0x3FFF && r <= y0 && y0 + r <= 0xFFFF
    ensures Chord(VLine(x0, U16(y0 - r), U16(2 * r + 1)), x0, y0, r)
  {
    assert r * (r + 1) >= r * r && r * (r - 1) < r * r;
  }

  lemma ChordInSquare(p: Prim, x0: int, y0: int, r: int)
    requires 0 <= r && Chord(p, x0, y0, r)
    ensures InSquare(p, x0, y0, r)
  {
    OnCircleBounds(Abs(p.x - x0), y0 - p.y, r);
  }

  /** Every corrected span of the helper's walk from s is a chord. */
  lemma {:induction false} HelperChords(x0: u16, y0: u16, s: Midpoint, r: int, corners: u8)
    requires Inv(s, r) && r <= x0 && x0 + r <= 0xFFFF && r <= y0
    ensures forall p :: p in HelperPrims(true, x0, y0, s, s.x, s.y, corners, 1) ==> Chord(p, x0, y0, r)
    decreases s.y - s.x
  {
    if s.x < s.y {
      var n := MidpointNext(s);
      NextInv(s, r);
      HelperChords(x0, y0, n, r, corners);
      var turn := HelperTurnPrims(true, x0, y0, n.x, n.y, s.x, s.y, corners, 1);
      assert HelperPrims(true, x0, y0, s, s.x, s.y, corners, 1) == turn + HelperPrims(true, x0, y0, n, n.x, n.y, corners, 1);
      InvOnCircle(s, r);
      if n.x <= n.y {
        InvOnCircle(n, r);
      }
      forall p | p in turn
        ensures Chord(p, x0, y0, r)
      {
        TurnChord(x0, y0, n.x, n.y, s.x, s.y, r, corners, p);
      }
    }
  }

  /** The corrected spans of a turn from the circle pixel (px, py) to the
      point (x, y) are chords. */
  lemma TurnChord(x0: u16, y0: u16, x: i16, y: i16, px: i16, py: i16, r: int, corners: u8, p: Prim)
    requires 0 <= px < py <= r <= 0x3FFF && 0 <= x && 0 <= y <= r && r <= x0 && x0 + r <= 0xFFFF && r <= y0
    requires OnCircle(px as int, py as int, r) && (x <= y ==> OnCircle(x as int, y as int, r))
    requires p in HelperTurnPrims(true, x0, y0, x, y, px, py, corners, 1)
    ensures Chord(p, x0, y0, r)
  {
    if p in PointSpans(true, x0, y0, x, y, corners, 1) {
      SpansChords(x0, y0, x, y, r, corners, p);
    } else {
      assert p in MirrorSpans(true, x0, y0, px, py, corners, 1);
      assert OnCircle(py as int, px as int, r);
      SpansChords(x0, y0, py, px, r, corners, p);
    }
  }

  /** Both corrected spans for the pixel (c, k) of the circle are chords. */
  lemma SpansChords(x0: u16, y0: u16, c: i16, k: i16, r: int, corners: u8, p: Prim)
    requires 0 <= c <= r && 0 <= k <= r <= 0x3FFF && r <= x0 && x0 + r <= 0xFFFF && r <= y0
    requires OnCircle(c as int, k as int, r)
    requires p in CornerPair(corners, CircleSpan(true, U16(x0 + c), U16(y0 - k), k as int, 1),
                                      CircleSpan(true, U16(x0 - c), U16(y0 - k), k as int, 1))
    ensures Chord(p, x0, y0, r)
  {
    CornerPairMember(corners, CircleSpan(true, U16(x0 + c), U16(y0 - k), k as int, 1), CircleSpan(true, U16(x0 - c), U16(y0 - k), k as int, 1), p);
    SpanChord(x0, y0, c as int, k as int, r, true);
    SpanChord(x0, y0, c as int, k as int, r, false);
  }

  lemma InvOnCircle(s: Midpoint, r: int)
    requires Inv(s, r) && 0 < s.y && s.x <= s.y
    ensures OnCircle(s.x as int, s.y as int, r)
  {
  }

  lemma CornerPairMember(corners: u8, a: Prim, b: Prim, p: Prim)
    requires p in CornerPair(corners, a, b)
    ensures p == a || p == b
  {
  }

  /** The corrected span right or left of the centre at column offset c
      for height k is a chord when the pixel (c, k) is on the circle. */
  lemma SpanChord(x0: u16, y0: u16, c: int, k: int, r: int, right: bool)
    requires 0 <= c <= r && 0 <= k <= r <= 0x3FFF && r <= x0 && x0 + r <= 0xFFFF && r <= y0
    requires OnCircle(c, k, r)
    ensures Chord(CircleSpan(true, U16(if right then x0 + c else x0 - c), U16(y0 - k), k, 1), x0, y0, r)
  {
    var x := if right then x0 + c else x0 - c;
    assert U16(x) == x && U16(y0 - k) == y0 - k && U16(2 * k + 1) == 2 * k + 1;
    assert Abs(x - x0) == c;
  }

  /** k is the highest row above the centre at which column offset c has a
      pixel of the rasterised circle. */
  ghost predicate Topmost(c: int, k: int, r: int)
  {
    OnCircle(c, k, r) && forall k' :: k < k' ==> !OnCircle(c, k', r)
  }

  /** Among ps, column x has its full chord of the disk: a chord whose top
      pixel is the highest pixel of the circle in that column. */
  ghost predicate Filled(ps: seq<Prim>, x: int, x0: int, y0: int, r: int)
  {
    exists p :: p in ps && p.x as int == x && Chord(p, x0, y0, r) && Topmost(Abs(x - x0), y0 - p.y, r)
  }

  /** Both columns at offset c from the centre have their full chords. */
  ghost predicate ColumnsFilled(ps: seq<Prim>, x0: int, y0: int, r: int, c: int)
  {
    Filled(ps, x0 + c, x0, y0, r) && Filled(ps, x0 - c, x0, y0, r)
  }

  /** Corrected, fill_circle draws the full chord of every column of the
      disk: each column x0 +- c with c <= r gets a vertical run from the
      highest pixel of the circle in that column down to its mirror image,
      so the spans cover the whole rasterised disk. */
  lemma FillCircleColumns(x0: u16, y0: u16, r: u16)
    requires 0 < r <= 0x3FFF && r <= x0 && x0 + r <= 0xFFFF && r <= y0 && y0 + r <= 0xFFFF
    ensures forall c :: 0 <= c <= r ==> ColumnsFilled(FillCirclePrims(true, x0, y0, r), x0, y0, r, c)
  {
    var s := CircleStart(r);
    StartInv(r);
    var centre := VLine(x0, U16(y0 - r), U16(2 * r + 1));
    var helper := FillHelperPrims(true, x0, y0, r, 3, 0);
    var ps := FillCirclePrims(true, x0, y0, r);
    assert ps == [centre] + helper;
    assert helper == HelperPrims(true, x0, y0, s, s.x, s.y, 3, 1);
    forall c | 0 <= c <= r
      ensures ColumnsFilled(ps, x0, y0, r, c)
    {
      if c == 0 {
        CentreFilled(x0, y0, r);
      } else {
        HelperColumns(x0, y0, s, r, c);
      }
      ColumnsAppend([centre], helper, x0, y0, r, c);
    }
  }

  /** The centre column is the full chord of column offset 0. */
  lemma CentreFilled(x0: u16, y0: u16, r: u16)
    requires 0 < r <= 0x3FFF && r <= y0 && y0 + r <= 0xFFFF
    ensures ColumnsFilled([VLine(x0, U16(y0 - r), U16(2 * r + 1))], x0, y0, r, 0)
  {
    var centre := VLine(x0, U16(y0 - r), U16(2 * r + 1));
    CentreChord(x0, y0, r);
    TopYMajor(0, r, r);
    assert y0 - centre.y == r && Abs(x0 - x0) == 0;
    assert centre in [centre];
  }

  /** The corrected helper's walk from s fills every column offset c from
      s.x + 1 to s.y: each turn fills column x + 1 from its new point, and
      a turn that moves y down fills the column y it leaves from the mirror
      image of the last point in it. */
  lemma {:induction false} HelperColumns(x0: u16, y0: u16, s: Midpoint, r: int, c: int)
    requires Inv(s, r) && r <= x0 && x0 + r <= 0xFFFF && r <= y0
    requires s.x < c <= s.y
    ensures ColumnsFilled(HelperPrims(true, x0, y0, s, s.x, s.y, 3, 1), x0, y0, r, c)
    decreases s.y - s.x
  {
    var n := MidpointNext(s);
    NextInv(s, r);
    var turn := HelperTurnPrims(true, x0, y0, n.x, n.y, s.x, s.y, 3, 1);
    var rest := HelperPrims(true, x0, y0, n, n.x, n.y, 3, 1);
    assert HelperPrims(true, x0, y0, s, s.x, s.y, 3, 1) == turn + rest;
    if n.x < c <= n.y {
      HelperColumns(x0, y0, n, r, c);
    } else {
      TurnColumns(x0, y0, s, r, c);
    }
    ColumnsAppend(turn, rest, x0, y0, r, c);
  }

  /** One turn of the walk from s fills column offset s.x + 1 when its new
      point is on or above the diagonal, and column offset s.y when it moves
      y down. */
  lemma TurnColumns(x0: u16, y0: u16, s: Midpoint, r: int, c: int)
    requires Inv(s, r) && r <= x0 && x0 + r <= 0xFFFF && r <= y0
    requires s.x < c <= s.y
    requires var n := MidpointNext(s); !(n.x < c <= n.y)
    ensures var n := MidpointNext(s);
      ColumnsFilled(HelperTurnPrims(true, x0, y0, n.x, n.y, s.x, s.y, 3, 1), x0, y0, r, c)
  {
    var n := MidpointNext(s);
    NextInv(s, r);
    if c == n.x && n.x <= n.y {
      InvOnCircle(n, r);
      TopYMajor(n.x as int, n.y as int, r);
      PointFilled(x0, y0, n.x, n.y, s.x, s.y, r);
    } else {
      assert c == s.y && n.y == s.y - 1 && s.f >= 0;
      InvOnCircle(s, r);
      var px: int, py: int := s.x, s.y;
      assert (px + 1) * (px + 1) + py * (py - 1) >= r * r;
      TopMirror(px, py, r);
      MirrorFilled(x0, y0, n.x, n.y, s.x, s.y, r);
    }
  }

  lemma ColumnsAppend(a: seq<Prim>, b: seq<Prim>, x0: int, y0: int, r: int, c: int)
    requires ColumnsFilled(a, x0, y0, r, c) || ColumnsFilled(b, x0, y0, r, c)
    ensures ColumnsFilled(a + b, x0, y0, r, c)
  {
    FilledAppend(a, b, x0 + c, x0, y0, r);
    FilledAppend(a, b, x0 - c, x0, y0, r);
  }

  /** A turn that reaches (x, y) on or above the diagonal fills column
      offset x when y is the highest circle pixel there. */
  lemma PointFilled(x0: u16, y0: u16, x: i16, y: i16, px: i16, py: i16, r: int)
    requires 0 <= x <= y <= r <= 0x3FFF && r <= x0 && x0 + r <= 0xFFFF && r <= y0
    requires Topmost(x as int, y as int, r)
    ensures ColumnsFilled(HelperTurnPrims(true, x0, y0, x, y, px, py, 3, 1), x0, y0, r, x as int)
  {
    var a := CircleSpan(true, U16(x0 + x), U16(y0 - y), y as int, 1);
    var b := CircleSpan(true, U16(x0 - x), U16(y0 - y), y as int, 1);
    var turn := HelperTurnPrims(true, x0, y0, x, y, px, py, 3, 1);
    assert PointSpans(true, x0, y0, x, y, 3, 1) == [a, b];
    assert a in turn && b in turn;
    SpanFilled(turn, x0, y0, x as int, y as int, r);
  }

  /** A turn that moves y down from the circle pixel (px, py) fills column
      offset py when px is the highest circle pixel there. */
  lemma MirrorFilled(x0: u16, y0: u16, x: i16, y: i16, px: i16, py: i16, r: int)
    requires 0 <= px < py <= r <= 0x3FFF && r <= x0 && x0 + r <= 0xFFFF && r <= y0 && y != py
    requires Topmost(py as int, px as int, r)
    ensures ColumnsFilled(HelperTurnPrims(true, x0, y0, x, y, px, py, 3, 1), x0, y0, r, py as int)
  {
    var a := CircleSpan(true, U16(x0 + py), U16(y0 - px), px as int, 1);
    var b := CircleSpan(true, U16(x0 - py), U16(y0 - px), px as int, 1);
    var turn := HelperTurnPrims(true, x0, y0, x, y, px, py, 3, 1);
    assert MirrorSpans(true, x0, y0, px, py, 3, 1) == [a, b];
    assert a in turn && b in turn;
    SpanFilled(turn, x0, y0, py as int, px as int, r);
  }

  /** The two corrected spans for height k at column offset c fill both
      columns when k is the highest circle pixel there. */
  lemma SpanFilled(ps: seq<Prim>, x0: u16, y0: u16, c: int, k: int, r: int)
    requires 0 <= c <= r && 0 <= k <= r <= 0x3FFF && r <= x0 && x0 + r <= 0xFFFF && r <= y0
    requires Topmost(c, k, r)
    requires CircleSpan(true, U16(x0 + c), U16(y0 - k), k, 1) in ps
    requires CircleSpan(true, U16(x0 - c), U16(y0 - k), k, 1) in ps
    ensures ColumnsFilled(ps, x0, y0, r, c)
  {
    SpanChord(x0, y0, c, k, r, true);
    SpanChord(x0, y0, c, k, r, false);
    assert U16(x0 + c) == x0 + c && U16(x0 - c) == x0 - c && U16(y0 - k) == y0 - k;
    assert Abs(x0 + c - x0) == c && Abs(x0 - c - x0) == c;
  }

  lemma FilledAppend(a: seq<Prim>, b: seq<Prim>, x: int, x0: int, y0: int, r: int)
    requires Filled(a, x, x0, y0, r) || Filled(b, x, x0, y0, r)
    ensures Filled(a + b, x, x0, y0, r)
  {
    var p :| (p in a || p in b) && p.x as int == x && Chord(p, x0, y0, r) && Topmost(Abs(x - x0), y0 - p.y, r);
    assert p in a + b;
  }

  /** Above the diagonal the circle pixel (c, k) is the highest in its
      column: any higher row lies outside the circle's outer boundary. */
  lemma TopYMajor(c: int, k: int, r: int)
    requires 0 <= c <= k && OnCircle(c, k, r)
    ensures Topmost(c, k, r)
  {
    forall k' | k < k'
      ensures !OnCircle(c, k', r)
    {
      assert Min(c, k') == c && Max(c, k') == k';
      MulMonotone(k + 1, k', k, k' - 1);
    }
  }

  /** The mirror image (py, px) of a circle pixel, taken where the walk
      moves y down, is the highest circle pixel in column py. */
  lemma TopMirror(px: int, py: int, r: int)
    requires 0 <= px < py && OnCircle(px, py, r)
    requires (px + 1) * (px + 1) + py * (py - 1) >= r * r
    ensures Topmost(py, px, r)
  {
    assert Outer(px, py, r);
    forall k' | px < k'
      ensures !OnCircle(py, k', r)
    {
      MirrorAbove(px, py, k', r);
    }
  }

  lemma MirrorAbove(px: int, py: int, k': int, r: int)
    requires 0 <= px < py && px < k' && Outer(px, py, r)
    requires (px + 1) * (px + 1) + py * (py - 1) >= r * r
    ensures !OnCircle(py, k', r)
  {
    if k' <= py {
      assert Min(py, k') == k' && Max(py, k') == py;
      MulMonotone(px + 1, k', px + 1, k');
      assert !Inner(k', py, r);
    } else {
      assert Min(py, k') == py && Max(py, k') == k';
      MulMonotone(py + 1, k', py, k' - 1);
      MulMonotone(px, py, px, py);
      assert !Inner(py, k', r);
    }
  }

  /** fill_circle. */
  method FillCircle(d: Display, x0: u16, y0: u16, r: u16, color: u16)
    modifies d.bus`cs, d.bus`dc, d.bus`log
    ensures d.bus.log == old(d.bus.log) + Render(FillCirclePrims(false, x0, y0, r), Rgb565ToRgb666(color), d.width, d.height)
  {
    ghost var px, w, h := Rgb565ToRgb666(color), d.width, d.height;
    DrawVLine(d, x0, U16(y0 - r), U16(2 * r + 1), color);
    ghost var mid := d.bus.log;
    FillCircleHelper(d, x0, y0, r, 3, 0, color);
    RenderCons(VLine(x0, U16(y0 - r), U16(2 * r + 1)), FillHelperPrims(false, x0, y0, r, 3, 0), px, w, h);
    AppendAssoc(old(d.bus.log), VLineEvents(x0, U16(y0 - r), U16(2 * r + 1), px), Render(FillHelperPrims(false, x0, y0, r, 3, 0), px, w, h));
  }

  /** fill_circle_helper. */
  method FillCircleHelper(d: Display, x0: u16, y0: u16, r: u16, corners: u8, delta0: u16, color: u16)
    modifies d.bus`cs, d.bus`dc, d.bus`log
    ensures d.bus.log == old(d.bus.log) + Render(FillHelperPrims(false, x0, y0, r, corners, delta0), Rgb565ToRgb666(color), d.width, d.height)
  {
    var f := I16(1 - r);
    var ddx: i16 := 1;
    var ddy := I16(-2 * r);
    var x: i16 := 0;
    var y := I16(r);
    var px, py := x, y;
    var delta := U16(delta0 + 1);
    HelperLoop(d, x0, y0, f, ddx, ddy, x, y, px, py, corners, delta, color);
  }

  /** The helper's loop from the given state. */
  method HelperLoop(d: Display, x0: u16, y0: u16, f0: i16, ddx0: i16, ddy0: i16, x1: i16, y1: i16, px1: i16, py1: i16,
                    corners: u8, delta: u16, color: u16)
    requires 0 <= x1
    modifies d.bus`cs, d.bus`dc, d.bus`log
    ensures d.bus.log == old(d.bus.log)
      + Render(HelperPrims(false, x0, y0, Midpoint(f0, ddx0, ddy0, x1, y1), px1, py1, corners, delta), Rgb565ToRgb666(color), d.width, d.height)
  {
    ghost var c, w, h := Rgb565ToRgb666(color), d.width, d.height;
    ghost var goal := old(d.bus.log) + Render(HelperPrims(false, x0, y0, Midpoint(f0, ddx0, ddy0, x1, y1), px1, py1, corners, delta), c, w, h);
    var f, ddx, ddy, x, y, px, py := f0, ddx0, ddy0, x1, y1, px1, py1;
    while x < y
      invariant 0 <= x
      invariant goal == d.bus.log + Render(HelperPrims(false, x0, y0, Midpoint(f, ddx, ddy, x, y), px, py, corners, delta), c, w, h)
      decreases y as int - x
    {
      ghost var s, opx, opy := Midpoint(f, ddx, ddy, x, y), px, py;
      ghost var before := d.bus.log;
      f, ddx, ddy, x, y := MidpointTurn(f, ddx, ddy, x, y);
      py := HelperSpans(d, x0, y0, x, y, px, py, corners, delta, color);
      px := x;
      HelperLoopStep(goal, before, d.bus.log, x0, y0, s, Midpoint(f, ddx, ddy, x, y), opx, opy, px, py, corners, delta, c, w, h);
    }
  }

  lemma HelperLoopStep(goal: seq<Event>, before: seq<Event>, after: seq<Event>, x0: u16, y0: u16, s: Midpoint, n: Midpoint,
                       px: i16, py: i16, px': i16, py': i16, corners: u8, delta: u16, c: Rgb, w: u16, h: u16)
    requires s.x < s.y && n == MidpointNext(s) && px' == n.x && py' == (if n.y != py then n.y else py)
    requires goal == before + Render(HelperPrims(false, x0, y0, s, px, py, corners, delta), c, w, h)
    requires after == before + Render(HelperTurnPrims(false, x0, y0, n.x, n.y, px, py, corners, delta), c, w, h)
    ensures goal == after + Render(HelperPrims(false, x0, y0, n, px', py', corners, delta), c, w, h)
  {
    var turn, rest := HelperTurnPrims(false, x0, y0, n.x, n.y, px, py, corners, delta), HelperPrims(false, x0, y0, n, px', py', corners, delta);
    assert HelperPrims(false, x0, y0, s, px, py, corners, delta) == turn + rest;
    RenderAppend(turn, rest, c, w, h);
    AppendAssoc(before, Render(turn, c, w, h), Render(rest, c, w, h));
  }

  /** The spans of one turn of the helper; the result is the new py. */
  method HelperSpans(d: Display, x0: u16, y0: u16, x: i16, y: i16, px: i16, py0: i16, corners: u8, delta: u16, color: u16)
    returns (py: i16)
    modifies d.bus`cs, d.bus`dc, d.bus`log
    ensures py == if y != py0 then y else py0
    ensures d.bus.log == old(d.bus.log) + Render(HelperTurnPrims(false, x0, y0, x, y, px, py0, corners, delta), Rgb565ToRgb666(color), d.width, d.height)
  {
    ghost var c, w, h := Rgb565ToRgb666(color), d.width, d.height;
    py := py0;
    ghost var first: seq<Prim> := [];
    if x as int < y as int + 1 {
      CornerSpans(d, corners, CircleSpan(false, U16(x0 as int + x), U16(y0 as int - y), y as int, delta),
                              CircleSpan(false, U16(x0 as int - x), U16(y0 as int - y), y as int, delta), color);
      first := PointSpans(false, x0, y0, x, y, corners, delta);
    }
    assert first == PointSpans(false, x0, y0, x, y, corners, delta);
    ghost var mid := d.bus.log;
    assert mid == old(d.bus.log) + Render(first, c, w, h);
    ghost var mirror: seq<Prim> := [];
    if y != py {
      CornerSpans(d, corners, CircleSpan(false, U16(x0 as int + py), U16(y0 as int - px), px as int, delta),
                              CircleSpan(false, U16(x0 as int - py), U16(y0 as int - px), px as int, delta), color);
      mirror := MirrorSpans(false, x0, y0, px, py0, corners, delta);
      py := y;
    }
    assert d.bus.log == mid + Render(mirror, c, w, h);
    assert HelperTurnPrims(false, x0, y0, x, y, px, py0, corners, delta) == first + mirror;
    RenderAppend(first, mirror, c, w, h);
    AppendAssoc(old(d.bus.log), Render(first, c, w, h), Render(mirror, c, w, h));
  }

  /** `if (corners & 1) a; if (corners & 2) b;` for two spans a and b. */
  method CornerSpans(d: Display, corners: u8, a: Prim, b: Prim, color: u16)
    modifies d.bus`cs, d.bus`dc, d.bus`log
    ensures d.bus.log == old(d.bus.log) + Render(CornerPair(corners, a, b), Rgb565ToRgb666(color), d.width, d.height)
  {
    ghost var c, w, h := Rgb565ToRgb666(color), d.width, d.height;
    ghost var first: seq<Prim> := [];
    if corners % 2 == 1 {
      DrawPrim(d, a, color);
      first := [a];
      RenderOne(a, c, w, h);
    }
    ghost var mid := d.bus.log;
    ghost var second: seq<Prim> := [];
    if (corners / 2) % 2 == 1 {
      DrawPrim(d, b, color);
      second := [b];
      RenderOne(b, c, w, h);
    }
    RenderAppend(first, second, c, w, h);
    AppendAssoc(old(d.bus.log), Render(first, c, w, h), Render(second, c, w, h));
  }

}
