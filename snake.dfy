/** The rules of the Snake game (examples/SnakeGame.cpp). The board is a grid
    of 16-pixel cells, 20 columns by 30 rows, whose outer ring is the wall.
    The snake is held in a fixed array of at most 200 segments, with the head
    at index 0. Food is placed by trying random cells until one is off the
    snake. rand() is an oracle: the caller supplies the values it will return. */
module Snake {
  import opened Ints

  const GRID_SIZE: int := 16
  /** SCREEN_WIDTH / GRID_SIZE and SCREEN_HEIGHT / GRID_SIZE for the 320 x 480
      portrait screen. */
  const GRID_WIDTH: int := 20
  const GRID_HEIGHT: int := 30
  const MAX_SNAKE_LENGTH: int := 200
  const INITIAL_SNAKE_LENGTH: int := 3

  datatype Direction = NoDirection | Up | Down | Left | Right

  /** A grid cell, with the int16_t coordinates of the source. */
  datatype Position = Position(x: i16, y: i16)

  // ---------------------------------------------------------------------------
  // Directions

  /** isOppositeDirection: the move from current to next reverses it. */
  predicate IsOpposite(current: Direction, next: Direction)
  {
    || (current == Up && next == Down)
    || (current == Down && next == Up)
    || (current == Left && next == Right)
    || (current == Right && next == Left)
  }

  /** The cell offset of one move in a direction; none for NoDirection. */
  function Delta(d: Direction): (int, int)
  {
    match d
    case NoDirection => (0, 0)
    case Up => (0, -1)
    case Down => (0, 1)
    case Left => (-1, 0)
    case Right => (1, 0)
  }

  /** Two directions are opposite exactly when they are moves whose offsets
      cancel: the pairs up/down and left/right in either order. So the
      relation is symmetric and never holds with NoDirection. */
  lemma OppositeCancels(current: Direction, next: Direction)
    ensures IsOpposite(current, next) <==>
      current != NoDirection && Delta(current).0 + Delta(next).0 == 0 && Delta(current).1 + Delta(next).1 == 0
    ensures IsOpposite(current, next) == IsOpposite(next, current)
  {
  }

  /** The direction moveSnake takes: the requested one, unless no direction is
      requested or it would reverse the snake. */
  function Turn(current: Direction, next: Direction): (d: Direction)
    ensures d == current || d == next
    ensures !IsOpposite(current, d)
  {
    if next != NoDirection && !IsOpposite(current, next) then next else current
  }

  /** The new head of moveSnake: one cell from the head in the direction, with
      int16_t wrap-around; nothing for NoDirection, where moveSnake returns at
      once. */
  function Advance(head: Position, d: Direction): (r: Option<Position>)
    ensures r.None? <==> d == NoDirection
    ensures r.Some? ==> r.value == Position(I16(head.x + Delta(d).0), I16(head.y + Delta(d).1))
  {
    match d
    case NoDirection => None
    case Up => Some(head.(y := I16(head.y - 1)))
    case Down => Some(head.(y := I16(head.y + 1)))
    case Left => Some(head.(x := I16(head.x - 1)))
    case Right => Some(head.(x := I16(head.x + 1)))
  }

  // ---------------------------------------------------------------------------
  // Cells

  /** A cell strictly inside the wall ring. */
  predicate InField(p: Position)
  {
    0 < p.x < 19 && 0 < p.y < 29
  }

  /** moveSnake's game-over test: the new head is on the wall ring or on a
      segment of the snake, the tail included. */
  predicate Blocked(p: Position, body: seq<Position>)
  {
    !InField(p) || p in body
  }

  /** A body on which no two segments share a cell, all inside the wall. */
  predicate WellFormed(body: seq<Position>)
  {
    && (forall i :: 0 <= i < |body| ==> InField(body[i]))
    && (forall i, j :: 0 <= i < j < |body| ==> body[i] != body[j])
  }

  /** The segments after a move: the new head first, then the first len - 1
      old segments, each moved one place down; cells from len on keep what
      they held. */
  function Shift(s: seq<Position>, len: nat, head: Position): (r: seq<Position>)
    requires 1 <= len <= |s|
    ensures |r| == |s| && r[0] == head
    ensures forall i :: 1 <= i < len ==> r[i] == s[i - 1]
    ensures forall i :: len <= i < |s| ==> r[i] == s[i]
  {
    [head] + s[..len - 1] + s[len..]
  }

  /** A move keeps the body well formed: the head is a free cell inside the
      wall, and what follows it is a prefix of the old body. On growth the
      stale cell at the old length is overwritten, so it never joins the body. */
  lemma ShiftKeepsBody(s: seq<Position>, len: nat, newLen: nat, head: Position)
    requires 1 <= len <= newLen <= len + 1 && newLen <= |s|
    requires WellFormed(s[..len]) && InField(head) && head !in s[..len]
    ensures WellFormed(Shift(s, newLen, head)[..newLen])
    ensures Shift(s, newLen, head)[..newLen] == [head] + s[..newLen - 1]
  {
    var body := Shift(s, newLen, head)[..newLen];
    assert body == [head] + s[..newLen - 1];
    forall i, j | 0 <= i < j < |body|
      ensures body[i] != body[j]
    {
      if i == 0 {
        assert body[j] == s[..len][j - 1];
      } else {
        assert body[i] == s[..len][i - 1] && body[j] == s[..len][j - 1];
      }
    }
    forall i | 0 <= i < |body|
      ensures InField(body[i])
    {
      if i > 0 {
        assert body[i] == s[..len][i - 1];
      }
    }
  }

  /** On growth the old tail stays the last segment. */
  lemma GrowthKeepsTail(s: seq<Position>, len: nat, head: Position)
    requires 1 <= len < |s|
    ensures Shift(s, len + 1, head)[len] == s[len - 1]
  {
  }

  // ---------------------------------------------------------------------------
  // Food

  /** The cell one attempt of generateFood picks from two values of rand():
      inside the wall, columns 1 to 18 and rows 1 to 28 (the moduli are
      GRID_WIDTH - 2 and GRID_HEIGHT - 2). */
  function FoodCell(a: nat, b: nat): Position
  {
    Position(a % 18 + 1, b % 28 + 1)
  }

  /** Some attempt, each taking the next two values of rand(), lands off the
      body. Without one, generateFood never returns. */
  predicate Reachable(draws: seq<nat>, body: seq<Position>)
    decreases |draws|
  {
    |draws| >= 2 && (FoodCell(draws[0], draws[1]) !in body || Reachable(draws[2..], body))
  }

  /** The cell generateFood settles on, and how many values of rand() it
      uses: the first attempt off the body. */
  function PlaceFood(draws: seq<nat>, body: seq<Position>): (r: (Position, nat))
    requires Reachable(draws, body)
    ensures InField(r.0) && r.0 !in body
    ensures 2 <= r.1 <= |draws|
    decreases |draws|
  {
    var cell := FoodCell(draws[0], draws[1]);
    if cell !in body then (cell, 2)
    else
      var r := PlaceFood(draws[2..], body);
      (r.0, r.1 + 2)
  }

  /** The food is the cell of the last attempt generateFood makes. */
  lemma {:induction false} PlaceFoodIsLastAttempt(draws: seq<nat>, body: seq<Position>)
    requires Reachable(draws, body)
    ensures var r := PlaceFood(draws, body); r.0 == FoodCell(draws[r.1 - 2], draws[r.1 - 1])
    decreases |draws|
  {
    if FoodCell(draws[0], draws[1]) in body {
      PlaceFoodIsLastAttempt(draws[2..], body);
    }
  }

  /** A failed attempt leaves the outcome to the remaining values. */
  lemma PlaceFoodRetry(draws: seq<nat>, body: seq<Position>)
    requires Reachable(draws, body) && FoodCell(draws[0], draws[1]) in body
    ensures Reachable(draws[2..], body)
    ensures PlaceFood(draws, body) == (PlaceFood(draws[2..], body).0, PlaceFood(draws[2..], body).1 + 2)
  {
  }

  /** generateFood looks at the segments before the move, so it can put the
      new food under the head that has just eaten: the snake of three at
      (10, 15), (9, 15), (8, 15) eats at (11, 15), the stale fourth cell holds
      (0, 0), and rand() returning 10 and 14 gives (11, 15) again. */
  lemma FoodUnderNewHead()
    ensures var before := [Position(10, 15), Position(9, 15), Position(8, 15), Position(0, 0)];
      var head := Advance(before[0], Right).value;
      Reachable([10, 14], before) && PlaceFood([10, 14], before).0 == head
  {
    var before := [Position(10, 15), Position(9, 15), Position(8, 15), Position(0, 0)];
    assert FoodCell(10, 14) == Position(11, 15);
    assert Position(11, 15) !in before;
  }

  // ---------------------------------------------------------------------------
  // One move, on values

  /** The part of the game state a move reads and writes: the segment array,
      the snake's length, the score and the food. */
  datatype Board = Board(cells: seq<Position>, length: u16, score: u16, food: Position)
  {
    predicate Ready()
    {
      1 <= length as int <= |cells| == MAX_SNAKE_LENGTH
    }

    /** The segments of the snake, head first. */
    function Body(): seq<Position>
      requires Ready()
    {
      cells[..length]
    }
  }

  /** The length after eating: one more, but never above 200. */
  function Grow(length: u16): (n: u16)
    requires length as int <= MAX_SNAKE_LENGTH
    ensures n as int == Min(length as int + 1, MAX_SNAKE_LENGTH)
  {
    if (length as int) < MAX_SNAKE_LENGTH then length + 1 else length
  }

  /** The move in direction d eats the food, so generateFood runs, over the
      segments up to the grown length. */
  predicate Feeds(b: Board, d: Direction)
    requires b.Ready()
  {
    var h := Advance(b.cells[0], d);
    h.Some? && !Blocked(h.value, b.Body()) && h.value == b.food
  }

  /** What moveSnake does once it has its direction d: whether the game goes
      on, the new board, and the values of rand() left. */
  function Step(b: Board, d: Direction, draws: seq<nat>): (bool, Board, seq<nat>)
    requires b.Ready()
    requires Feeds(b, d) ==> Reachable(draws, b.cells[..Grow(b.length)])
  {
    var h := Advance(b.cells[0], d);
    if h.None? then (true, b, draws)
    else if Blocked(h.value, b.Body()) then (false, b, draws)
    else
      var r := Landed(b, h.value, draws);
      (true, r.0, r.1)
  }

  /** The board after the head has moved onto the free cell head: the body
      shifts behind it, and on the food the snake grows, scores and gets new
      food. Also the values of rand() left. */
  function Landed(b: Board, head: Position, draws: seq<nat>): (Board, seq<nat>)
    requires b.Ready()
    requires head == b.food ==> Reachable(draws, b.cells[..Grow(b.length)])
  {
    if head != b.food then (b.(cells := Shift(b.cells, b.length as int, head)), draws)
    else
      var n := Grow(b.length);
      var f := PlaceFood(draws, b.cells[..n]);
      (Board(Shift(b.cells, n as int, head), n, U16(b.score + 10), f.0), draws[f.1..])
  }

  /** Without a direction nothing moves and the game goes on. */
  lemma StillStep(b: Board, draws: seq<nat>)
    requires b.Ready()
    ensures Step(b, NoDirection, draws) == (true, b, draws)
  {
  }

  /** The game ends exactly when the new head is on the wall ring or on a
      segment, the tail included; then the board and rand() are untouched. */
  lemma StepEnds(b: Board, d: Direction, draws: seq<nat>)
    requires b.Ready() && d != NoDirection
    requires Feeds(b, d) ==> Reachable(draws, b.cells[..Grow(b.length)])
    ensures var r := Step(b, d, draws);
      && (!r.0 <==> Blocked(Advance(b.cells[0], d).value, b.Body()))
      && (!r.0 ==> r.1 == b && r.2 == draws)
  {
  }

  /** A move onto a free cell without food keeps the length and the score:
      the new head is segment 0 and segment i is the old segment i - 1. */
  lemma StepPlain(b: Board, d: Direction, draws: seq<nat>)
    requires b.Ready() && d != NoDirection
    requires var h := Advance(b.cells[0], d).value; !Blocked(h, b.Body()) && h != b.food
    ensures var r := Step(b, d, draws);
      var h := Advance(b.cells[0], d).value;
      && r.0 && r.1.length == b.length && r.1.score == b.score && r.1.food == b.food && r.2 == draws
      && r.1.Ready() && r.1.Body()[0] == h
      && (forall i :: 1 <= i < b.length ==> r.1.Body()[i] == b.Body()[i - 1])
  {
  }

  /** A move onto the food scores 10 (in uint16_t), grows the snake by one up
      to 200, keeps the old tail as the last segment when it grows, and puts
      new food off the segments as they were before the move, up to the
      grown length. */
  lemma StepEats(b: Board, d: Direction, draws: seq<nat>)
    requires b.Ready() && Feeds(b, d) && Reachable(draws, b.cells[..Grow(b.length)])
    ensures var r := Step(b, d, draws);
      var n := Grow(b.length);
      && r.0 && r.1.Ready() && r.1.length == n && r.1.score == U16(b.score + 10)
      && r.1.Body()[0] == b.food
      && (forall i :: 1 <= i < n ==> r.1.Body()[i] == b.Body()[i - 1])
      && (n > b.length ==> r.1.Body()[n - 1] == b.Body()[b.length - 1])
      && InField(r.1.food) && r.1.food !in b.cells[..n]
  {
    var n := Grow(b.length);
    var r := Step(b, d, draws);
    assert r.1.Body() == Shift(b.cells, n as int, b.food)[..n];
  }

  /** Moves keep the snake inside the wall with no two segments on one cell:
      a well-formed body stays well formed while the game goes on. */
  lemma StepKeepsWellFormed(b: Board, d: Direction, draws: seq<nat>)
    requires b.Ready() && WellFormed(b.Body())
    requires Feeds(b, d) ==> Reachable(draws, b.cells[..Grow(b.length)])
    ensures var r := Step(b, d, draws); r.1.Ready() && WellFormed(r.1.Body())
  {
    var h := Advance(b.cells[0], d);
    if h.Some? && !Blocked(h.value, b.Body()) {
      var n := if h.value == b.food then Grow(b.length) else b.length;
      ShiftKeepsBody(b.cells, b.length as int, n as int, h.value);
    }
  }

  // ---------------------------------------------------------------------------
  // rand() and the game state

  /** The values rand() has yet to return. */
  class Rand {
    var pending: seq<nat>

    constructor (values: seq<nat>)
      ensures pending == values
    {
      pending := values;
    }

    method Next() returns (v: nat)
      requires |pending| > 0
      modifies this
      ensures v == old(pending[0]) && pending == old(pending[1..])
    {
      v := pending[0];
      pending := pending[1..];
    }
  }

  /** GameState together with its Snake. */
  class Game {
    var segments: array<Position>
    var length: u16
    var direction: Direction
    var nextDirection: Direction
    var food: Position
    var score: u16
    var gameOver: bool
    var gamePaused: bool
    var gameStarted: bool
    var waitingToRestart: bool
    var gameOverTime: u32

    predicate Valid()
      reads this`segments, this`length
    {
      segments.Length == MAX_SNAKE_LENGTH && length as int <= MAX_SNAKE_LENGTH
    }

    /** The current segments, head first. */
    function Body(): seq<Position>
      reads this`segments, this`length, segments
      requires Valid()
    {
      segments[..length]
    }

    /** The board a move works on. */
    function State(): Board
      reads this`segments, this`length, this`score, this`food, segments
    {
      Board(segments[..], length, score, food)
    }

    /** A game before initializeGame: the segment array exists, nothing is
        set up yet. */
    constructor ()
      ensures Valid() && length == 0 && fresh(segments)
    {
      segments := new Position[MAX_SNAKE_LENGTH](_ => Position(0, 0));
      length := 0;
      direction, nextDirection := NoDirection, NoDirection;
      food := Position(0, 0);
      score := 0;
      gameOver, gamePaused, gameStarted, waitingToRestart := false, false, false, false;
      gameOverTime := 0;
    }

    /** The scan shared by generateFood and moveSnake: some segment below
        length is on cell p. */
    method Occupied(p: Position) returns (hit: bool)
      requires Valid()
      ensures hit <==> p in Body()
    {
      var i := 0;
      while i < length
        invariant 0 <= i <= length
        invariant p !in segments[..i]
      {
        if segments[i] == p {
          assert p == Body()[i];
          return true;
        }
        i := i + 1;
      }
      assert segments[..i] == Body();
      return false;
    }

    /** One pass of generateFood's retry loop: two values of rand() pick the
        cell, and the attempt succeeds when it is off the body. */
    method TryFood(rng: Rand) returns (valid: bool)
      requires Valid() && |rng.pending| >= 2
      modifies this`food, rng
      ensures food == FoodCell(old(rng.pending[0]), old(rng.pending[1])) && rng.pending == old(rng.pending[2..])
      ensures valid <==> food !in Body()
    {
      var a := rng.Next();
      var b := rng.Next();
      food := Position(a % 18 + 1, b % 28 + 1);
      var hit := Occupied(food);
      valid := !hit;
    }

    /** generateFood: draws cells until one is off the current segments. */
    method GenerateFood(rng: Rand)
      requires Valid() && Reachable(rng.pending, Body())
      modifies this`food, rng
      ensures food == PlaceFood(old(rng.pending), old(Body())).0
      ensures rng.pending == old(rng.pending)[PlaceFood(old(rng.pending), old(Body())).1..]
    {
      ghost var start, body := rng.pending, Body();
      ghost var goal := PlaceFood(start, body);
      var valid := false;
      while !valid
        invariant Valid() && Body() == body
        invariant |rng.pending| <= |start| && rng.pending == start[|start| - |rng.pending|..]
        invariant !valid ==> Reachable(rng.pending, body)
        invariant !valid ==> goal.0 == PlaceFood(rng.pending, body).0
        invariant !valid ==> goal.1 == PlaceFood(rng.pending, body).1 + (|start| - |rng.pending|)
        invariant valid ==> goal.0 == food && goal.1 == |start| - |rng.pending|
        decreases |rng.pending| + (if valid then 0 else 1)
      {
        ghost var before := rng.pending;
        valid := TryFood(rng);
        if !valid {
          PlaceFoodRetry(before, body);
        }
      }
    }

    /** initializeGame: a snake of three heading right from the centre of the
        grid, score and flags cleared, then the first food. */
    method InitializeGame(rng: Rand)
      requires Valid() && Reachable(rng.pending, InitialBody())
      modifies this`length, this`direction, this`nextDirection, this`food, this`score,
        this`gameOver, this`gamePaused, this`gameStarted, this`waitingToRestart, this`gameOverTime,
        segments, rng
      ensures Valid() && segments[..] == InitialBody() + old(segments[INITIAL_SNAKE_LENGTH..])
      ensures length as int == INITIAL_SNAKE_LENGTH && direction == Right && nextDirection == Right
      ensures score == 0 && !gameOver && !gamePaused && !gameStarted && !waitingToRestart && gameOverTime == 0
      ensures food == PlaceFood(old(rng.pending), InitialBody()).0
      ensures rng.pending == old(rng.pending)[PlaceFood(old(rng.pending), InitialBody()).1..]
    {
      length := INITIAL_SNAKE_LENGTH as u16;
      direction, nextDirection := Right, Right;
      PlaceInitialSnake();
      score := 0;
      gameOver, gamePaused, gameStarted, waitingToRestart := false, false, false, false;
      gameOverTime := 0;
      assert Body() == InitialBody();
      GenerateFood(rng);
    }

    /** The loop of initializeGame: segment i at column 10 - i of row 15. */
    method PlaceInitialSnake()
      requires Valid()
      modifies segments
      ensures segments[..] == InitialBody() + old(segments[INITIAL_SNAKE_LENGTH..])
    {
      var startX: i16, startY: i16 := 10, 15;  // GRID_WIDTH / 2 and GRID_HEIGHT / 2
      var i := 0;
      while i < INITIAL_SNAKE_LENGTH
        invariant 0 <= i <= INITIAL_SNAKE_LENGTH
        invariant forall k :: 0 <= k < i ==> segments[k] == Position(startX - k as i16, startY)
        invariant segments[INITIAL_SNAKE_LENGTH..] == old(segments[INITIAL_SNAKE_LENGTH..])
      {
        segments[i] := Position(startX - i as i16, startY);
        i := i + 1;
      }
      assert segments[..] == segments[..INITIAL_SNAKE_LENGTH] + segments[INITIAL_SNAKE_LENGTH..];
    }

    /** moveSnake: adopt the requested direction unless it is none or a
        reversal, then make the move Step describes. Returns false exactly
        when the game is over. */
    method MoveSnake(rng: Rand) returns (alive: bool)
      requires Valid() && length > 0
      requires Feeds(State(), Turn(direction, nextDirection)) ==> Reachable(rng.pending, segments[..Grow(length)])
      modifies this`direction, this`length, this`score, this`food, segments, rng
      ensures Valid() && length > 0
      ensures direction == Turn(old(direction), nextDirection)
      ensures (alive, State(), rng.pending) == Step(old(State()), direction, old(rng.pending))
    {
      if nextDirection != NoDirection && !IsOpposite(direction, nextDirection) {
        direction := nextDirection;
      }
      ghost var b, draws := State(), rng.pending;
      var next := NewHead(segments[0], direction);
      if next.None? {
        return true;
      }
      var head := next.value;
      if head.x <= 0 || head.x >= GRID_WIDTH - 1 || head.y <= 0 || head.y >= GRID_HEIGHT - 1 {
        return false;
      }
      var hit := Occupied(head);
      if hit {
        return false;
      }
      Land(head, rng);
      return true;
    }

    /** The end of moveSnake, once the new head is known to be free: grow and
        place new food if it is on the food, then shift the body behind it. */
    method Land(head: Position, rng: Rand)
      requires Valid() && length > 0 && InField(head) && head !in Body()
      requires head == food ==> Reachable(rng.pending, segments[..Grow(length)])
      modifies this`length, this`score, this`food, segments, rng
      ensures Valid() && length > 0
      ensures (State(), rng.pending) == Landed(old(State()), head, old(rng.pending))
    {
      if head == food {
        if length as int < MAX_SNAKE_LENGTH {
          length := length + 1;
        }
        score := U16(score + 10);
        GenerateFood(rng);
      }
      ShiftBody(head);
    }

    /** The switch of moveSnake: the head moved one cell in the direction,
        or nothing when there is no direction. */
    static method NewHead(head: Position, d: Direction) returns (next: Option<Position>)
      ensures next == Advance(head, d)
    {
      var h := head;
      if d == Up {
        h := h.(y := I16(h.y - 1));
      } else if d == Down {
        h := h.(y := I16(h.y + 1));
      } else if d == Left {
        h := h.(x := I16(h.x - 1));
      } else if d == Right {
        h := h.(x := I16(h.x + 1));
      } else {
        return None;
      }
      return Some(h);
    }

    /** The loop at the end of moveSnake: every segment below length moves one
        place down, from the tail up, and the head goes in at index 0. */
    method ShiftBody(head: Position)
      requires Valid() && length > 0
      modifies segments
      ensures segments[..] == Shift(old(segments[..]), length as int, head)
    {
      var i := length - 1;
      while i > 0
        invariant 0 <= i < length
        invariant forall k :: i < k < length ==> segments[k] == old(segments[k - 1])
        invariant forall k :: 0 <= k < segments.Length && (k <= i || length <= k) ==> segments[k] == old(segments[k])
      {
        segments[i] := segments[i - 1];
        i := i - 1;
      }
      segments[0] := head;
    }
  }

  /** The snake initializeGame sets up: (10, 15), (9, 15), (8, 15). */
  function InitialBody(): (body: seq<Position>)
    ensures WellFormed(body) && |body| == INITIAL_SNAKE_LENGTH
  {
    [Position(10, 15), Position(9, 15), Position(8, 15)]
  }
}
