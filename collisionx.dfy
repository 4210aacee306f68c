/** The rules of the CollisionX game (examples/CollisionX.cpp) on the 480 x 320
    landscape screen. A 30-pixel block is steered around and stamped onto the
    board. Dots wander, bounce off the screen edges and off the stamps, and
    the game is lost when a dot touches one of the two red lines, at the top
    (rows 25 to 32) and at the bottom (rows 287 to 294). */
module CollisionX {
  import opened Ints

  const SCREEN_WIDTH: int := 480
  const SCREEN_HEIGHT: int := 320
  const BLOCK_SIZE: int := 30
  const MOVE_STEP: int := 8
  const LINE_WIDTH: int := 8
  const TOP_LINE_Y: int := 25
  /** SCREEN_HEIGHT - 25 - LINE_WIDTH */
  const BOTTOM_LINE_Y: int := 287
  const MAX_STAMPS: int := 50
  const MAX_DOTS: int := 10

  datatype BlockPosition = BlockPosition(x: i16, y: i16)

  datatype Stamp = Stamp(pos: BlockPosition, isIron: bool)

  datatype WanderingDot = WanderingDot(pos: BlockPosition, speedX: i16, speedY: i16, active: bool, isYellow: bool)

  // ---------------------------------------------------------------------------
  // Areas

  /** checkLineCollision: the block at pos reaches the top red line or the
      bottom one. */
  predicate LineCollision(pos: BlockPosition)
  {
    pos.y <= TOP_LINE_Y + LINE_WIDTH || pos.y + BLOCK_SIZE >= BOTTOM_LINE_Y
  }

  /** isPositionInValidArea: the block at pos is between the lines with five
      pixels to spare on either side. */
  predicate InValidArea(pos: BlockPosition)
  {
    pos.y > TOP_LINE_Y + LINE_WIDTH + 5 && pos.y + BLOCK_SIZE < BOTTOM_LINE_Y - 5
  }

  /** A block may only be stamped where it touches neither line, and whether
      the block touches a line depends on its row alone: rows 34 to 256 are
      clear of both lines, rows 39 to 251 are where stamping is allowed. */
  lemma ValidAreaClearOfLines(pos: BlockPosition)
    ensures InValidArea(pos) ==> !LineCollision(pos)
    ensures !LineCollision(pos) <==> 34 <= pos.y <= 256
    ensures InValidArea(pos) <==> 39 <= pos.y <= 251
  {
  }

  /** The two blocks overlap: closer than a block width on both axes. */
  predicate Near(p: BlockPosition, q: BlockPosition)
  {
    Abs(p.x - q.x) < BLOCK_SIZE && Abs(p.y - q.y) < BLOCK_SIZE
  }

  /** The test of isPositionOccupied and checkStampCollision: some stamp
      overlaps the block at pos. */
  predicate Occupied(pos: BlockPosition, stamps: seq<Stamp>)
  {
    exists i :: 0 <= i < |stamps| && Near(pos, stamps[i].pos)
  }

  // ---------------------------------------------------------------------------
  // Stamps

  /** StampPositions: a fixed array of 50 stamps, the first count in use. */
  class StampPositions {
    var stamps: array<Stamp>
    var count: u8

    predicate Valid()
      reads this`stamps, this`count
    {
      stamps.Length == MAX_STAMPS && count as int <= MAX_STAMPS
    }

    /** The stamps in use. */
    function Placed(): seq<Stamp>
      reads this`stamps, this`count, stamps
      requires Valid()
    {
      stamps[..count]
    }

    /** The zero-initialised static of the game: no stamps. */
    constructor ()
      ensures Valid() && count == 0 && fresh(stamps)
    {
      stamps := new Stamp[MAX_STAMPS](_ => Stamp(BlockPosition(0, 0), false));
      count := 0;
    }

    /** addStamp: the stamp goes in at index count, which grows by one, but
        only while there is room; at 50 stamps nothing changes. */
    method AddStamp(pos: BlockPosition, isIron: bool)
      requires Valid()
      modifies this`count, stamps
      ensures Valid()
      ensures old(count) as int < MAX_STAMPS ==>
        count == old(count) + 1 && stamps[..] == old(stamps[..])[old(count) as int := Stamp(pos, isIron)]
      ensures old(count) as int >= MAX_STAMPS ==> count == old(count) && stamps[..] == old(stamps[..])
    {
      if (count as int) < MAX_STAMPS {
        stamps[count] := Stamp(pos, isIron);
        count := count + 1;
      }
    }

    /** checkStampCollision: scans the stamps in use for one overlapping the
        block at pos. */
    method CheckStampCollision(pos: BlockPosition) returns (hit: bool)
      requires Valid()
      ensures hit <==> Occupied(pos, Placed())
    {
      var i: u8 := 0;
      while i < count
        invariant i <= count
        invariant forall k :: 0 <= k < i ==> !Near(pos, stamps[k].pos)
      {
        if Abs(pos.x - stamps[i].pos.x) < BLOCK_SIZE && Abs(pos.y - stamps[i].pos.y) < BLOCK_SIZE {
          assert Placed()[i] == stamps[i];
          return true;
        }
        i := i + 1;
      }
      assert forall k :: 0 <= k < |Placed()| ==> Placed()[k] == stamps[k];
      return false;
    }

    /** isPositionOccupied: the source repeats the scan of
        checkStampCollision line for line, so both answer the same question. */
    method IsPositionOccupied(pos: BlockPosition) returns (occupied: bool)
      requires Valid()
      ensures occupied <==> Occupied(pos, Placed())
    {
      occupied := CheckStampCollision(pos);
    }
  }

  /** Stamping does not move the stamps already placed: every block that
      overlapped a stamp still does after addStamp. */
  lemma StampsOnlyAccumulate(placed: seq<Stamp>, s: Stamp, pos: BlockPosition)
    ensures Occupied(pos, placed) ==> Occupied(pos, placed + [s])
    ensures Occupied(pos, placed + [s]) <==> Occupied(pos, placed) || Near(pos, s.pos)
  {
    var all := placed + [s];
    if Occupied(pos, placed) {
      var i :| 0 <= i < |placed| && Near(pos, placed[i].pos);
      assert all[i] == placed[i];
    }
    if Near(pos, s.pos) {
      assert all[|placed|] == s;
    }
    if Occupied(pos, all) {
      var i :| 0 <= i < |all| && Near(pos, all[i].pos);
      if i < |placed| {
        assert all[i] == placed[i];
      }
    }
  }

  // ---------------------------------------------------------------------------
  // Wandering dots

  /** The corrections of updateDots after a boundary hit: x into [0, 449],
      y into [0, 289]. */
  function Clamp(p: BlockPosition): (r: BlockPosition)
    ensures 0 <= r.x < SCREEN_WIDTH - BLOCK_SIZE && 0 <= r.y < SCREEN_HEIGHT - BLOCK_SIZE
    ensures 0 <= p.x < SCREEN_WIDTH - BLOCK_SIZE ==> r.x == p.x
    ensures 0 <= p.y < SCREEN_HEIGHT - BLOCK_SIZE ==> r.y == p.y
  {
    var x := if p.x < 0 then 0 else p.x;
    var x := if x >= SCREEN_WIDTH - BLOCK_SIZE then (SCREEN_WIDTH - BLOCK_SIZE - 1) as i16 else x;
    var y := if p.y < 0 then 0 else p.y;
    var y := if y >= SCREEN_HEIGHT - BLOCK_SIZE then (SCREEN_HEIGHT - BLOCK_SIZE - 1) as i16 else y;
    BlockPosition(x, y)
  }

  /** The position a dot tries: one step of its speeds, in int16_t. */
  function Moved(d: WanderingDot): BlockPosition
  {
    BlockPosition(I16(d.pos.x + d.speedX), I16(d.pos.y + d.speedY))
  }

  /** The tried position is at or beyond a vertical edge of the screen. */
  predicate HitsSide(p: BlockPosition)
  {
    p.x <= 0 || p.x >= SCREEN_WIDTH - BLOCK_SIZE
  }

  /** The tried position is at or beyond a horizontal edge of the screen. */
  predicate HitsEnd(p: BlockPosition)
  {
    p.y <= 0 || p.y >= SCREEN_HEIGHT - BLOCK_SIZE
  }

  /** One dot in one pass of updateDots. An inactive dot is left alone. An
      active one tries one step; a speed is reversed (in int16_t) on an edge
      hit along its axis. If the tried position overlaps a stamp, the dot
      goes back to where it was and both speeds are reversed once more.
      After an edge hit, the position is clamped onto the screen. */
  function DotStep(d: WanderingDot, stamps: seq<Stamp>): WanderingDot
  {
    if !d.active then d else ActiveDotStep(d, stamps)
  }

  /** The step of an active dot. */
  function ActiveDotStep(d: WanderingDot, stamps: seq<Stamp>): WanderingDot
  {
    var moved := Moved(d);
    var sx := if HitsSide(moved) then Neg16(d.speedX) else d.speedX;
    var sy := if HitsEnd(moved) then Neg16(d.speedY) else d.speedY;
    var bounce := Occupied(moved, stamps);
    var pos := if bounce then d.pos else moved;
    var sx := if bounce then Neg16(sx) else sx;
    var sy := if bounce then Neg16(sy) else sy;
    var pos := if HitsSide(moved) || HitsEnd(moved) then Clamp(pos) else pos;
    d.(pos := pos, speedX := sx, speedY := sy)
  }

  /** Unary minus on an int16_t: only -32768 wraps, onto itself. */
  function Neg16(v: i16): (r: i16)
    ensures v != -0x8000 ==> r == -(v as int)
    ensures v == -0x8000 ==> r == v
  {
    I16(-(v as int))
  }

  /** Negating an int16_t twice gives it back. */
  lemma NegateTwice(v: i16)
    ensures Neg16(Neg16(v)) == v
  {
  }

  /** Inactive dots never move, and a step keeps the colour and the active
      flag. */
  lemma DotStepFrame(d: WanderingDot, stamps: seq<Stamp>)
    ensures !d.active ==> DotStep(d, stamps) == d
    ensures DotStep(d, stamps).active == d.active && DotStep(d, stamps).isYellow == d.isYellow
  {
  }

  /** A dot whose step would overlap a stamp goes back to its old position
      (clamped if it also hit an edge), and each speed is reversed once for
      the stamp on top of any reversal for an edge: along an axis with no edge
      hit it ends up reversed, along one with an edge hit it ends up as it
      was. */
  lemma DotBounce(d: WanderingDot, stamps: seq<Stamp>)
    requires d.active && Occupied(Moved(d), stamps)
    ensures var r := DotStep(d, stamps);
      && r.pos == (if HitsSide(Moved(d)) || HitsEnd(Moved(d)) then Clamp(d.pos) else d.pos)
      && r.speedX == (if HitsSide(Moved(d)) then d.speedX else Neg16(d.speedX))
      && r.speedY == (if HitsEnd(Moved(d)) then d.speedY else Neg16(d.speedY))
  {
    NegateTwice(d.speedX);
    NegateTwice(d.speedY);
  }

  /** After an edge hit the dot lies on the screen, in [0, 449] x [0, 289]. */
  lemma DotAfterEdge(d: WanderingDot, stamps: seq<Stamp>)
    requires d.active && (HitsSide(Moved(d)) || HitsEnd(Moved(d)))
    ensures var r := DotStep(d, stamps);
      0 <= r.pos.x <= SCREEN_WIDTH - BLOCK_SIZE - 1 && 0 <= r.pos.y <= SCREEN_HEIGHT - BLOCK_SIZE - 1
  {
  }

  /** Speeds keep their size: a dot that starts with speeds in [-4, 4]
      without zero keeps them there, since every change is a reversal. */
  lemma DotSpeedsKeepSize(d: WanderingDot, stamps: seq<Stamp>)
    requires -4 <= d.speedX <= 4 && -4 <= d.speedY <= 4
    ensures var r := DotStep(d, stamps);
      && Abs(r.speedX) == Abs(d.speedX) && Abs(r.speedY) == Abs(d.speedY)
  {
  }

  /** The work updateDots does for one active dot, on its own copy of the
      dot. */
  method UpdateDot(d: WanderingDot, stamps: StampPositions) returns (r: WanderingDot)
    requires d.active && stamps.Valid()
    ensures r == ActiveDotStep(d, stamps.Placed())
  {
    r := d;
    var oldPos := r.pos;
    r := r.(pos := BlockPosition(I16(r.pos.x + r.speedX), I16(r.pos.y + r.speedY)));
    assert r.pos == Moved(d);
    var hitBoundary;
    r, hitBoundary := ReverseAtEdges(r);
    var hit := stamps.CheckStampCollision(r.pos);
    if hit {
      r := r.(speedX := Neg16(r.speedX), speedY := Neg16(r.speedY), pos := oldPos);
    }
    if hitBoundary {
      var p := ClampOnScreen(r.pos);
      r := r.(pos := p);
    }
  }

  /** The edge tests of updateDots on a dot that has just moved: each speed
      is reversed when its axis crossed an edge, and hit tells whether either
      did. */
  method ReverseAtEdges(d: WanderingDot) returns (r: WanderingDot, hit: bool)
    ensures hit == (HitsSide(d.pos) || HitsEnd(d.pos))
    ensures r == d.(speedX := if HitsSide(d.pos) then Neg16(d.speedX) else d.speedX,
                    speedY := if HitsEnd(d.pos) then Neg16(d.speedY) else d.speedY)
  {
    r := d;
    hit := false;
    if r.pos.x <= 0 || r.pos.x >= SCREEN_WIDTH - BLOCK_SIZE {
      r := r.(speedX := Neg16(r.speedX));
      hit := true;
    }
    if r.pos.y <= 0 || r.pos.y >= SCREEN_HEIGHT - BLOCK_SIZE {
      r := r.(speedY := Neg16(r.speedY));
      hit := true;
    }
  }

  /** The corrections of updateDots after an edge hit, done field by field. */
  method ClampOnScreen(p: BlockPosition) returns (q: BlockPosition)
    ensures q == Clamp(p)
  {
    q := p;
    if q.x < 0 {
      q := q.(x := 0);
    }
    if q.x >= SCREEN_WIDTH - BLOCK_SIZE {
      q := q.(x := (SCREEN_WIDTH - BLOCK_SIZE - 1) as i16);
    }
    if q.y < 0 {
      q := q.(y := 0);
    }
    if q.y >= SCREEN_HEIGHT - BLOCK_SIZE {
      q := q.(y := (SCREEN_HEIGHT - BLOCK_SIZE - 1) as i16);
    }
  }

  /** The dot addWanderingDot creates from four values of rand(): a position
      within the middle of the board, columns 50 to 399 and rows 75 to 236,
      and each speed in [-4, 3] with 0 replaced by 1. */
  function NewDot(r1: nat, r2: nat, r3: nat, r4: nat, isYellow: bool): (d: WanderingDot)
    ensures d.active && d.isYellow == isYellow
    ensures 50 <= d.pos.x <= 399 && 75 <= d.pos.y <= 236
    ensures -4 <= d.speedX <= 3 && d.speedX != 0 && -4 <= d.speedY <= 3 && d.speedY != 0
  {
    // The moduli are SCREEN_WIDTH - BLOCK_SIZE - 100 and BOTTOM_LINE_Y - TOP_LINE_Y - 100.
    var start := BlockPosition((r1 % 350 + 50) as i16, (r2 % 162 + TOP_LINE_Y + 50) as i16);
    var sx: i16 := (r3 % 8 - 4) as i16;
    var sy: i16 := (r4 % 8 - 4) as i16;
    var sx := if sx == 0 then 1 else sx;
    var sy := if sy == 0 then 1 else sy;
    WanderingDot(start, sx, sy, true, isYellow)
  }

  /** WanderingDots: a fixed array of 10 dots, the first count in use. */
  class WanderingDots {
    var dots: array<WanderingDot>
    var count: u8

    predicate Valid()
      reads this`dots, this`count
    {
      dots.Length == MAX_DOTS && count as int <= MAX_DOTS
    }

    /** The zero-initialised local of the game: no dots. */
    constructor ()
      ensures Valid() && count == 0 && fresh(dots)
    {
      dots := new WanderingDot[MAX_DOTS](_ => WanderingDot(BlockPosition(0, 0), 0, 0, false, false));
      count := 0;
    }

    /** updateDots: every dot in use takes its step against the stamps; the
        unused slots are untouched. */
    method UpdateDots(stamps: StampPositions)
      requires Valid() && stamps.Valid()
      modifies dots
      ensures forall k :: 0 <= k < count ==> dots[k] == DotStep(old(dots[k]), stamps.Placed())
      ensures forall k :: count <= k < dots.Length ==> dots[k] == old(dots[k])
    {
      ghost var placed, before := stamps.Placed(), dots[..];
      var i: u8 := 0;
      while i < count
        invariant i <= count
        invariant forall k :: 0 <= k < i ==> dots[k] == DotStep(before[k], placed)
        invariant forall k :: i <= k < dots.Length ==> dots[k] == before[k]
      {
        var d := dots[i];
        if d.active {
          d := UpdateDot(d, stamps);
          dots[i] := d;
        }
        i := i + 1;
      }
    }

    /** addWanderingDot: at 10 dots nothing changes; otherwise the new dot
        goes in at index count, which grows by one. r1 to r4 are the values
        rand() returns, in order. */
    method AddWanderingDot(isYellow: bool, r1: nat, r2: nat, r3: nat, r4: nat)
      requires Valid()
      modifies this`count, dots
      ensures Valid()
      ensures old(count) as int >= MAX_DOTS ==> count == old(count) && dots[..] == old(dots[..])
      ensures old(count) as int < MAX_DOTS ==>
        count == old(count) + 1 && dots[..] == old(dots[..])[old(count) as int := NewDot(r1, r2, r3, r4, isYellow)]
    {
      if count as int >= MAX_DOTS {
        return;
      }
      var startPos := BlockPosition((r1 % 350 + 50) as i16, (r2 % 162 + TOP_LINE_Y + 50) as i16);
      var speedX: i16 := (r3 % 8 - 4) as i16;
      var speedY: i16 := (r4 % 8 - 4) as i16;
      if speedX == 0 {
        speedX := 1;
      }
      if speedY == 0 {
        speedY := 1;
      }
      dots[count] := WanderingDot(startPos, speedX, speedY, true, isYellow);
      count := count + 1;
    }
  }

  // ---------------------------------------------------------------------------
  // The block

  /** The block lies wholly on the screen. */
  predicate OnScreen(pos: BlockPosition)
  {
    0 <= pos.x <= SCREEN_WIDTH - BLOCK_SIZE && 0 <= pos.y <= SCREEN_HEIGHT - BLOCK_SIZE
  }

  /** The switch of the game loop: the block moved MOVE_STEP in the joystick
      direction (1 up, 2 down, 3 left, 4 right), the coordinate computed in
      int16_t; any other direction leaves it where it is. */
  function Target(pos: BlockPosition, direction: int): (t: BlockPosition)
    ensures direction == 1 ==> t.x == pos.x && t.y == I16(pos.y - MOVE_STEP)
    ensures direction == 2 ==> t.x == pos.x && t.y == I16(pos.y + MOVE_STEP)
    ensures direction == 3 ==> t.y == pos.y && t.x == I16(pos.x - MOVE_STEP)
    ensures direction == 4 ==> t.y == pos.y && t.x == I16(pos.x + MOVE_STEP)
    ensures !(1 <= direction <= 4) ==> t == pos
  {
    if direction == 1 then pos.(y := I16(pos.y - MOVE_STEP))
    else if direction == 2 then pos.(y := I16(pos.y + MOVE_STEP))
    else if direction == 3 then pos.(x := I16(pos.x - MOVE_STEP))
    else if direction == 4 then pos.(x := I16(pos.x + MOVE_STEP))
    else pos
  }

  /** The block move of the game loop: the switch's target is taken when the
      block lies wholly on the screen there, in [0, 450] x [0, 290], and the
      block stays where it was otherwise. A move is therefore exactly one
      step along one axis or none, and a block on the screen stays on it. */
  function MoveBlock(pos: BlockPosition, direction: int): (n: BlockPosition)
    ensures OnScreen(Target(pos, direction)) ==> n == Target(pos, direction)
    ensures !OnScreen(Target(pos, direction)) ==> n == pos
    ensures n == pos || (OnScreen(n) && ((n.x == pos.x && Abs(n.y - pos.y) == MOVE_STEP) || (n.y == pos.y && Abs(n.x - pos.x) == MOVE_STEP)))
    ensures OnScreen(pos) ==> OnScreen(n)
  {
    var next := Target(pos, direction);
    if OnScreen(next) then next else pos
  }

  /** For a block on the screen, each direction moves it one step that way
      unless the step would cross that edge of the screen, in which case it
      stays; no int16_t wrap can occur. */
  lemma MoveBlockOnScreen(pos: BlockPosition, direction: int)
    requires OnScreen(pos)
    ensures var n := MoveBlock(pos, direction);
      && (direction == 1 ==> n.x == pos.x && n.y as int == (if pos.y >= MOVE_STEP then pos.y - MOVE_STEP else pos.y))
      && (direction == 2 ==> n.x == pos.x && n.y as int == (if pos.y + MOVE_STEP <= SCREEN_HEIGHT - BLOCK_SIZE then pos.y + MOVE_STEP else pos.y))
      && (direction == 3 ==> n.y == pos.y && n.x as int == (if pos.x >= MOVE_STEP then pos.x - MOVE_STEP else pos.x))
      && (direction == 4 ==> n.y == pos.y && n.x as int == (if pos.x + MOVE_STEP <= SCREEN_WIDTH - BLOCK_SIZE then pos.x + MOVE_STEP else pos.x))
      && (!(1 <= direction <= 4) ==> n == pos)
  {
    assert I16(pos.y - MOVE_STEP) == pos.y - MOVE_STEP && I16(pos.y + MOVE_STEP) == pos.y + MOVE_STEP;
    assert I16(pos.x - MOVE_STEP) == pos.x - MOVE_STEP && I16(pos.x + MOVE_STEP) == pos.x + MOVE_STEP;
  }
}
