/** The snake game of the "page not found" view.

    The component keeps `score`, `highScore`, `gameOver` and `gameStarted` as
    component state, and `snake`, `food` and `direction` as variables local to
    an effect that React re-creates whenever `gameStarted` or `gameOver`
    changes. The pure functions below give the meaning of each handler on a
    snapshot of all seven; the class `SnakeGame` performs the same steps in
    place and is proved against them. */
module NotFound {
  import opened Sequences

  /** An `{x, y}` object: a grid cell or a direction vector. */
  datatype Vec = Vec(x: int, y: int)

  /** Pixel size of one cell. */
  const GridSize: nat := 20

  /** The effect's initial `snake`, `food` and `direction`. */
  const StartCell := Vec(10, 10)
  const StartFood := Vec(15, 15)
  const Still := Vec(0, 0)

  const Up := Vec(0, -1)
  const Down := Vec(0, 1)
  const Left := Vec(-1, 0)
  const Right := Vec(1, 0)

  /** The value of `e.key` as far as the game distinguishes it. */
  datatype Key = ArrowUp | ArrowDown | ArrowLeft | ArrowRight | OtherKey

  predicate IsArrow(k: Key)
  {
    !k.OtherKey?
  }

  /** The vector an arrow key asks for. */
  function KeyVector(k: Key): Vec
    requires IsArrow(k)
  {
    match k
    case ArrowUp => Up
    case ArrowDown => Down
    case ArrowLeft => Left
    case ArrowRight => Right
  }

  function Opposite(d: Vec): Vec
  {
    Vec(-d.x, -d.y)
  }

  /** The directions the game ever holds: standing still or one of the four unit vectors. */
  predicate IsDirection(d: Vec)
  {
    d == Still || d == Up || d == Down || d == Left || d == Right
  }

  datatype GameState = GameState(
    snake: seq<Vec>,
    food: Vec,
    direction: Vec,
    score: int,
    highScore: int,
    gameStarted: bool,
    gameOver: bool)

  /** The three phases the two flags encode. */
  predicate Idle(g: GameState)    { !g.gameStarted && !g.gameOver }
  predicate Running(g: GameState) { g.gameStarted && !g.gameOver }
  predicate Ended(g: GameState)   { !g.gameStarted && g.gameOver }

  /** The state on mount: the stored best (a missing entry reads as 0) and the effect's initial values. */
  function Initial(storedHighScore: nat): (g: GameState)
    ensures Idle(g) && g.score == 0 && g.highScore == storedHighScore
    ensures g.snake == [StartCell] && g.food == StartFood && g.direction == Still
    ensures Consistent(g)
  {
    GameState([StartCell], StartFood, Still, 0, storedHighScore, false, false)
  }

  // ---------------------------------------------------------------- grid

  function Cols(width: nat): nat
  {
    width / GridSize
  }

  function Rows(height: nat): nat
  {
    height / GridSize
  }

  predicate InGrid(c: Vec, cols: int, rows: int)
  {
    0 <= c.x < cols && 0 <= c.y < rows
  }

  /** One coordinate of the new head after the two edge tests of `update`. On a
      grid at least one cell wide the result lies on it, and for a step of at
      most one cell it is the toroidal position `v mod n`. */
  function Wrap(v: int, n: nat): (r: int)
    ensures n >= 1 ==> 0 <= r < n
    ensures n >= 1 && -1 <= v <= n ==> r == v % n
  {
    var a := if v < 0 then n - 1 else v;
    if a >= n then 0 else a
  }

  /** The head after one step in direction `d`, wrapped to the grid. */
  function NextHead(head: Vec, d: Vec, cols: nat, rows: nat): (r: Vec)
    ensures cols >= 1 && rows >= 1 ==> InGrid(r, cols, rows)
    ensures InGrid(head, cols, rows) && IsDirection(d) ==>
              r == Vec((head.x + d.x) % cols, (head.y + d.y) % rows)
  {
    Vec(Wrap(head.x + d.x, cols), Wrap(head.y + d.y, rows))
  }

  /** The cell the snake's head moves to on the next tick of a canvas of this size. */
  function NewHead(g: GameState, width: nat, height: nat): Vec
    requires g.snake != []
  {
    NextHead(g.snake[0], g.direction, Cols(width), Rows(height))
  }

  // ---------------------------------------------------------------- food

  /** One coordinate of a relocated food cell, `Math.floor(Math.random() * (size / GridSize))`
      for a draw `rnd` in [0, 1). The quotient is not floored first, so the
      coordinate can reach the column count itself when `size` is not a
      multiple of the cell size. */
  function FoodAxis(rnd: real, size: nat): (r: int)
    requires 0.0 <= rnd < 1.0
    ensures 0 <= r <= size / GridSize
    ensures size % GridSize == 0 && size > 0 ==> r < size / GridSize
  {
    CellQuotient(size);
    ScaledFloor(rnd, size as real / GridSize as real, size / GridSize)
  }

  /** `size / GridSize` as a real lies in [n, n + 1) for the whole number of
      cells n, and is n itself when the size is a multiple of the cell size. */
  lemma CellQuotient(size: nat)
    ensures 0.0 <= size as real / GridSize as real < (size / GridSize + 1) as real
    ensures size % GridSize == 0 ==> size as real / GridSize as real == (size / GridSize) as real
  {
    var whole := size / GridSize;
    assert size == GridSize * whole + size % GridSize;
  }

  /** `Math.floor(rnd * q)` for a draw in [0, 1) and `0 <= q < n + 1`. */
  function ScaledFloor(rnd: real, q: real, n: int): (r: int)
    requires 0.0 <= rnd < 1.0 && 0.0 <= q < (n + 1) as real
    ensures 0 <= r <= n
    ensures q == n as real && q > 0.0 ==> r < n
  {
    ScaledDraw(rnd, q);
    (rnd * q).Floor
  }

  /** A draw in [0, 1) scales a non-negative quantity to at most itself, and
      strictly below itself when the quantity is positive. */
  lemma ScaledDraw(rnd: real, q: real)
    requires 0.0 <= rnd < 1.0 && 0.0 <= q
    ensures 0.0 <= rnd * q <= q
    ensures q > 0.0 ==> rnd * q < q
  {
    assert q - rnd * q == (1.0 - rnd) * q;
  }

  function PlaceFood(rx: real, ry: real, width: nat, height: nat): (c: Vec)
    requires 0.0 <= rx < 1.0 && 0.0 <= ry < 1.0
    ensures 0 <= c.x <= Cols(width) && 0 <= c.y <= Rows(height)
  {
    Vec(FoodAxis(rx, width), FoodAxis(ry, height))
  }

  // ---------------------------------------------------------------- handlers

  /** `update` together with `handleGameOver`: one tick of the game. */
  function Updated(g: GameState, width: nat, height: nat, newFood: Vec): (r: GameState)
    requires g.snake != []
    // no-op unless running
    ensures !Running(g) ==> r == g
    // collision with any segment, the tail included: the game ends, direction
    // resets, and snake, food and score stay as they were
    ensures Running(g) && NewHead(g, width, height) in g.snake ==>
              r == g.(gameOver := true, gameStarted := false, direction := Still)
    // eating: grows by the new head, scores exactly 10, relocates the food
    ensures Running(g) && NewHead(g, width, height) !in g.snake && NewHead(g, width, height) == g.food ==>
              && r.snake == [NewHead(g, width, height)] + g.snake
              && |r.snake| == |g.snake| + 1
              && r.score == g.score + 10
              && r.food == newFood
              && r.highScore == (if r.score > g.highScore then r.score else g.highScore)
              && r.direction == g.direction && Running(r)
    // moving: the new head in front, the tail dropped, the length unchanged
    ensures Running(g) && NewHead(g, width, height) !in g.snake && NewHead(g, width, height) != g.food ==>
              && r == g.(snake := [NewHead(g, width, height)] + g.snake[..|g.snake| - 1])
              && |r.snake| == |g.snake|
    // the best score never falls, and changes only to a new score above it
    ensures r.highScore >= g.highScore
    ensures r.highScore != g.highScore ==> r.highScore == r.score > g.highScore
  {
    if !Running(g) then g
    else
      var head := NewHead(g, width, height);
      if head in g.snake then
        g.(gameOver := true, gameStarted := false, direction := Still)
      else if head == g.food then
        var newScore := g.score + 10;
        g.(snake := [head] + g.snake, food := newFood, score := newScore,
           highScore := if newScore > g.highScore then newScore else g.highScore)
      else
        g.(snake := [head] + g.snake[..|g.snake| - 1])
  }

  /** `handleKey`: an arrow key starts the game when it is not started, then
      turns the snake unless that would reverse it. */
  function KeyHandled(g: GameState, k: Key): (r: GameState)
    ensures !IsArrow(k) ==> r == g
    ensures IsArrow(k) && !g.gameStarted ==>
              Running(r) && r.score == 0 && r.snake == [StartCell]
    ensures g.gameStarted ==>
              && r.snake == g.snake && r.score == g.score
              && r.gameStarted == g.gameStarted && r.gameOver == g.gameOver
    ensures r.food == g.food && r.highScore == g.highScore
    // the no-reversal rule, both ways
    ensures IsArrow(k) && KeyVector(k) == Opposite(g.direction) ==> r.direction == g.direction
    ensures IsArrow(k) && IsDirection(g.direction) && KeyVector(k) != Opposite(g.direction) ==>
              r.direction == KeyVector(k)
  {
    var s := if !g.gameStarted && IsArrow(k)
             then g.(gameStarted := true, gameOver := false, score := 0, snake := [StartCell])
             else g;
    var d := s.direction;
    match k
    case ArrowUp    => if d.y != 1 then s.(direction := Up) else s
    case ArrowDown  => if d.y != -1 then s.(direction := Down) else s
    case ArrowLeft  => if d.x != 1 then s.(direction := Left) else s
    case ArrowRight => if d.x != -1 then s.(direction := Right) else s
    case OtherKey   => s
  }

  /** The canvas `onClick`: restart after a game over, start when idle, nothing while running. */
  function ClickHandled(g: GameState): (r: GameState)
    ensures g.gameOver ==> Running(r) && r.score == 0
    ensures Idle(g) ==> Running(r) && r.score == g.score
    ensures Running(g) ==> r == g
    ensures r.snake == g.snake && r.food == g.food && r.direction == g.direction
    ensures r.highScore == g.highScore
  {
    if g.gameOver then g.(gameOver := false, gameStarted := true, score := 0)
    else if !g.gameStarted then g.(gameStarted := true)
    else g
  }

  /** The effect re-run: when the flags differ from those the effect was created
      with, React discards its local snake, food and direction and starts over
      from their initial values; the component state is kept. */
  function Rerun(wasStarted: bool, wasOver: bool, g: GameState): (r: GameState)
    ensures wasStarted == g.gameStarted && wasOver == g.gameOver ==> r == g
    ensures wasStarted != g.gameStarted || wasOver != g.gameOver ==>
              r.snake == [StartCell] && r.food == StartFood && r.direction == Still
    ensures r.score == g.score && r.highScore == g.highScore
    ensures r.gameStarted == g.gameStarted && r.gameOver == g.gameOver
  {
    if wasStarted == g.gameStarted && wasOver == g.gameOver then g
    else g.(snake := [StartCell], food := StartFood, direction := Still)
  }

  // ---------------------------------------------------------------- events

  /** What reaches the game: a timer tick (with the food cell a relocation would
      pick), a key press, or a click on the canvas. */
  datatype Event = Timer(newFood: Vec) | KeyDown(key: Key) | CanvasClick

  /** One event: its handler, then the effect re-run if the flags changed. */
  function Step(g: GameState, width: nat, height: nat, e: Event): (r: GameState)
    requires g.snake != []
    ensures r.highScore >= g.highScore
  {
    var next := match e
      case Timer(f) => Updated(g, width, height, f)
      case KeyDown(k) => KeyHandled(g, k)
      case CanvasClick => ClickHandled(g);
    Rerun(g.gameStarted, g.gameOver, next)
  }

  /** How `Step` unfolds for each kind of event. */
  lemma StepOfTimer(g: GameState, width: nat, height: nat, f: Vec)
    requires g.snake != []
    ensures Step(g, width, height, Timer(f)) == Rerun(g.gameStarted, g.gameOver, Updated(g, width, height, f))
  {
  }

  lemma StepOfKey(g: GameState, width: nat, height: nat, k: Key)
    requires g.snake != []
    ensures Step(g, width, height, KeyDown(k)) == Rerun(g.gameStarted, g.gameOver, KeyHandled(g, k))
  {
  }

  lemma StepOfClick(g: GameState, width: nat, height: nat)
    requires g.snake != []
    ensures Step(g, width, height, CanvasClick) == Rerun(g.gameStarted, g.gameOver, ClickHandled(g))
  {
  }

  /** What every state reached from mount satisfies. */
  predicate Consistent(g: GameState)
  {
    && !(g.gameStarted && g.gameOver)
    && g.snake != []
    && Distinct(g.snake)
    && IsDirection(g.direction)
    && 0 <= g.score <= g.highScore
    && g.score % 10 == 0
    && (g.gameStarted ==> |g.snake| == g.score / 10 + 1)
    && (Idle(g) ==> g.score == 0)
  }

  /** Every segment lies on the grid, except possibly the fixed start cell
      (which is off the grid on a canvas narrower than 220 pixels). */
  predicate OnBoard(g: GameState, cols: nat, rows: nat)
  {
    forall c :: c in g.snake ==> c == StartCell || InGrid(c, cols, rows)
  }

  lemma StepPreservesConsistent(g: GameState, width: nat, height: nat, e: Event)
    requires Consistent(g)
    ensures Consistent(Step(g, width, height, e))
  {
    if e.Timer? && Running(g) {
      var head := NewHead(g, width, height);
      if head !in g.snake {
        DistinctPrepend(head, g.snake);
      }
    }
  }

  lemma UpdatedStaysOnBoard(g: GameState, width: nat, height: nat, newFood: Vec)
    requires g.snake != [] && OnBoard(g, Cols(width), Rows(height))
    requires Cols(width) >= 1 && Rows(height) >= 1
    ensures OnBoard(Updated(g, width, height, newFood), Cols(width), Rows(height))
  {
    var head := NewHead(g, width, height);
    var u := Updated(g, width, height, newFood);
    if Running(g) && head !in g.snake {
      assert u.snake == [head] + u.snake[1..];
      assert forall c :: c in u.snake[1..] ==> c in g.snake;
    }
  }

  lemma StepPreservesOnBoard(g: GameState, width: nat, height: nat, e: Event)
    requires g.snake != [] && OnBoard(g, Cols(width), Rows(height))
    requires Cols(width) >= 1 && Rows(height) >= 1
    ensures OnBoard(Step(g, width, height, e), Cols(width), Rows(height))
  {
    if e.Timer? {
      UpdatedStaysOnBoard(g, width, height, e.newFood);
    }
  }

  /** The state after a sequence of events. */
  function Run(g: GameState, width: nat, height: nat, events: seq<Event>): (r: GameState)
    requires Consistent(g)
    ensures Consistent(r)
    ensures r.highScore >= g.highScore
    decreases |events|
  {
    if events == [] then g
    else
      StepPreservesConsistent(g, width, height, events[0]);
      Run(Step(g, width, height, events[0]), width, height, events[1..])
  }

  /** On a canvas at least one cell across, the snake never leaves the grid
      except by sitting on the start cell. */
  lemma {:induction false} RunStaysOnBoard(g: GameState, width: nat, height: nat, events: seq<Event>)
    requires Consistent(g) && OnBoard(g, Cols(width), Rows(height))
    requires Cols(width) >= 1 && Rows(height) >= 1
    ensures OnBoard(Run(g, width, height, events), Cols(width), Rows(height))
    decreases |events|
  {
    if events != [] {
      StepPreservesConsistent(g, width, height, events[0]);
      StepPreservesOnBoard(g, width, height, events[0]);
      RunStaysOnBoard(Step(g, width, height, events[0]), width, height, events[1..]);
    }
  }

  /** The start cell is on the grid exactly when both sides are at least 220 pixels. */
  lemma StartCellOnGrid(width: nat, height: nat)
    ensures InGrid(StartCell, Cols(width), Rows(height)) <==> width >= 220 && height >= 220
  {
  }

  /** With direction (0, 0) the new head is the head itself, a segment: a
      running tick always ends the game. */
  lemma StillSnakeCollides(g: GameState, width: nat, height: nat, newFood: Vec)
    requires Running(g) && g.snake != [] && g.direction == Still
    requires InGrid(g.snake[0], Cols(width), Rows(height))
    ensures Ended(Updated(g, width, height, newFood))
  {
    assert NewHead(g, width, height) == g.snake[0];
  }

  /** Stepping right off the last column re-enters at column 0 on the same row. */
  lemma RightEdgeWraps(head: Vec, cols: nat, rows: nat)
    requires InGrid(head, cols, rows) && head.x == cols - 1
    ensures NextHead(head, Right, cols, rows) == Vec(0, head.y)
  {
  }

  /** Food placed off the grid is never reached: the score cannot change while it stays there. */
  lemma OffGridFoodIsNeverEaten(g: GameState, width: nat, height: nat, newFood: Vec)
    requires g.snake != [] && Cols(width) >= 1 && Rows(height) >= 1
    requires !InGrid(g.food, Cols(width), Rows(height))
    ensures Updated(g, width, height, newFood).score == g.score
    ensures Updated(g, width, height, newFood).food == g.food
  {
  }

  /** A 390-pixel canvas has 19 columns, yet a draw of 0.99 puts the food in column 19. */
  lemma FoodCanLandOffGrid()
    ensures Cols(390) == 19 && FoodAxis(0.99, 390) == 19
  {
  }

  /** Starting by key: the effect re-run drops the key's direction, so unless
      another arrow arrives first, the next tick (on a canvas where the start
      cell is on the grid) ends the game. */
  lemma StartKeyThenTickEndsGame(g: GameState, width: nat, height: nat, k: Key, newFood: Vec)
    requires Consistent(g) && !g.gameStarted && IsArrow(k)
    requires width >= 220 && height >= 220
    ensures var s := Step(g, width, height, KeyDown(k));
            && Running(s) && s.score == 0 && s.snake == [StartCell] && s.direction == Still
            && Ended(Step(s, width, height, Timer(newFood)))
  {
    var s := Step(g, width, height, KeyDown(k));
    StillSnakeCollides(s, width, height, newFood);
  }

  /** While running, an arrow that is not a reversal takes effect at once and
      the next tick moves the head one cell that way. */
  lemma TurnThenTick(g: GameState, width: nat, height: nat, k: Key, newFood: Vec)
    requires Consistent(g) && Running(g) && IsArrow(k)
    requires KeyVector(k) != Opposite(g.direction)
    requires InGrid(g.snake[0], Cols(width), Rows(height))
    ensures var s := Step(g, width, height, KeyDown(k));
            && s.direction == KeyVector(k)
            && NewHead(s, width, height) ==
               Vec((g.snake[0].x + KeyVector(k).x) % Cols(width), (g.snake[0].y + KeyVector(k).y) % Rows(height))
  {
  }

  /** A key applies to `direction` at once rather than at the next tick, so two
      turns between ticks reverse the snake: moving right, Up then Left leaves
      it heading left. */
  lemma TwoTurnsReverse(g: GameState, width: nat, height: nat)
    requires Consistent(g) && Running(g) && g.direction == Right
    ensures var s := Step(Step(g, width, height, KeyDown(ArrowUp)), width, height, KeyDown(ArrowLeft));
            s.direction == Left == Opposite(g.direction) && s.snake == g.snake
  {
  }

  /** A click after a game over restarts with score 0 from the initial snake, food and direction. */
  lemma ClickRestarts(g: GameState, width: nat, height: nat)
    requires Consistent(g) && Ended(g)
    ensures var s := Step(g, width, height, CanvasClick);
            && Running(s) && s.score == 0 && s.snake == [StartCell]
            && s.food == StartFood && s.direction == Still && s.highScore == g.highScore
  {
  }

  /** A collision ends the game; the re-run then shows the initial snake and
      food, while score and best score keep their pre-collision values. */
  lemma CollisionThenRerun(g: GameState, width: nat, height: nat, newFood: Vec)
    requires Consistent(g) && Running(g) && NewHead(g, width, height) in g.snake
    ensures var s := Step(g, width, height, Timer(newFood));
            && Ended(s) && s.score == g.score && s.highScore == g.highScore
            && s.snake == [StartCell] && s.food == StartFood && s.direction == Still
  {
  }

  // ---------------------------------------------------------------- the component

  /** The component with its state updated in place, as the handlers do. */
  class SnakeGame {
    const width: nat
    const height: nat
    var snake: seq<Vec>
    var food: Vec
    var direction: Vec
    var score: int
    var highScore: int
    var gameStarted: bool
    var gameOver: bool

    function State(): GameState
      reads this
    {
      GameState(snake, food, direction, score, highScore, gameStarted, gameOver)
    }

    ghost predicate Valid()
      reads this
    {
      Consistent(State())
    }

    /** Mount, with the canvas size and the stored best score. */
    constructor (width: nat, height: nat, storedHighScore: nat)
      ensures this.width == width && this.height == height
      ensures State() == Initial(storedHighScore)
      ensures Valid()
    {
      this.width := width;
      this.height := height;
      snake := [StartCell];
      food := StartFood;
      direction := Still;
      score := 0;
      highScore := storedHighScore;
      gameStarted := false;
      gameOver := false;
    }

    /** `update`; the random draws `rx`, `ry` choose the new food cell when the snake eats. */
    method Update(rx: real, ry: real)
      requires snake != []
      requires 0.0 <= rx < 1.0 && 0.0 <= ry < 1.0
      modifies this
      ensures State() == Updated(old(State()), width, height, PlaceFood(rx, ry, width, height))
    {
      if gameOver || !gameStarted {
        return;
      }
      var head := Vec(snake[0].x + direction.x, snake[0].y + direction.y);
      var cols := width / GridSize;
      var rows := height / GridSize;
      if head.x < 0 { head := head.(x := cols - 1); }
      if head.x >= cols { head := head.(x := 0); }
      if head.y < 0 { head := head.(y := rows - 1); }
      if head.y >= rows { head := head.(y := 0); }

      if head in snake {
        HandleGameOver();
        return;
      }
      snake := [head] + snake;
      if head == food {
        var newScore := score + 10;
        if newScore > highScore {
          highScore := newScore;
        }
        score := newScore;
        food := PlaceFood(rx, ry, width, height);
      } else {
        snake := snake[..|snake| - 1];
      }
    }

    /** `handleGameOver`. */
    method HandleGameOver()
      modifies this
      ensures State() == old(State()).(gameOver := true, gameStarted := false, direction := Still)
    {
      gameOver := true;
      gameStarted := false;
      direction := Still;
    }

    /** `handleKey`. */
    method HandleKey(k: Key)
      modifies this
      ensures State() == KeyHandled(old(State()), k)
    {
      if !gameStarted && IsArrow(k) {
        gameStarted := true;
        gameOver := false;
        score := 0;
        snake := [StartCell];
      }
      match k
      case ArrowUp    => if direction.y != 1 { direction := Up; }
      case ArrowDown  => if direction.y != -1 { direction := Down; }
      case ArrowLeft  => if direction.x != 1 { direction := Left; }
      case ArrowRight => if direction.x != -1 { direction := Right; }
      case OtherKey   =>
    }

    /** The canvas `onClick`. */
    method HandleClick()
      modifies this
      ensures State() == ClickHandled(old(State()))
    {
      if gameOver {
        gameOver := false;
        gameStarted := true;
        score := 0;
      } else if !gameStarted {
        gameStarted := true;
      }
    }

    /** The effect re-run after the flags had the values `wasStarted`, `wasOver`. */
    method RerunEffect(wasStarted: bool, wasOver: bool)
      modifies this
      ensures State() == Rerun(wasStarted, wasOver, old(State()))
    {
      if wasStarted != gameStarted || wasOver != gameOver {
        snake := [StartCell];
        food := StartFood;
        direction := Still;
      }
    }

    /** One timer tick. */
    method Tick(rx: real, ry: real)
      requires Valid()
      requires 0.0 <= rx < 1.0 && 0.0 <= ry < 1.0
      modifies this
      ensures Valid()
      ensures State() == Step(old(State()), width, height, Timer(PlaceFood(rx, ry, width, height)))
    {
      ghost var before := State();
      var wasStarted, wasOver := gameStarted, gameOver;
      Update(rx, ry);
      ghost var handled := State();
      RerunEffect(wasStarted, wasOver);
      assert State() == Rerun(before.gameStarted, before.gameOver, handled);
      assert handled == Updated(before, width, height, PlaceFood(rx, ry, width, height));
      StepOfTimer(before, width, height, PlaceFood(rx, ry, width, height));
      StepPreservesConsistent(before, width, height, Timer(PlaceFood(rx, ry, width, height)));
    }

    /** One key press. */
    method Key(k: Key)
      requires Valid()
      modifies this
      ensures Valid()
      ensures State() == Step(old(State()), width, height, KeyDown(k))
    {
      ghost var before := State();
      var wasStarted, wasOver := gameStarted, gameOver;
      HandleKey(k);
      ghost var handled := State();
      RerunEffect(wasStarted, wasOver);
      assert State() == Rerun(before.gameStarted, before.gameOver, handled);
      assert handled == KeyHandled(before, k);
      StepOfKey(before, width, height, k);
      StepPreservesConsistent(before, width, height, KeyDown(k));
    }

    /** One click on the canvas. */
    method Click()
      requires Valid()
      modifies this
      ensures Valid()
      ensures State() == Step(old(State()), width, height, CanvasClick)
    {
      ghost var before := State();
      var wasStarted, wasOver := gameStarted, gameOver;
      HandleClick();
      ghost var handled := State();
      RerunEffect(wasStarted, wasOver);
      assert State() == Rerun(before.gameStarted, before.gameOver, handled);
      assert handled == ClickHandled(before);
      StepOfClick(before, width, height);
      StepPreservesConsistent(before, width, height, CanvasClick);
    }
  }
}
