module SnakeConstants {
  /** The grid is 25 by 25 tiles of 25 pixels. */
  const ROWS := 25
  const COLS := 25
  const TILE_SIZE := 25
  const WINDOW_WIDTH := TILE_SIZE * COLS
  const WINDOW_HEIGHT := TILE_SIZE * ROWS
}

/**
  The snake game (docs/snake/script.js): a head tile, a body of tiles following it, a food
  tile, the requested velocity and the one committed by the last step, the score and the
  high score.  The game's global variables are the fields of one `Game` object; the random
  food position and the stored high score are inputs.
 */
module Snake {
  import opened SnakeConstants

  /** A `Tile` of the game: pixel coordinates of its top-left corner. */
  datatype Cell = Cell(x: int, y: int)

  /** A velocity: one of the four unit steps, or standing still. */
  datatype Velocity = Velocity(dx: int, dy: int)

  predicate Unit(v: Velocity) {
    -1 <= v.dx <= 1 && -1 <= v.dy <= 1 && (v.dx == 0 || v.dy == 0)
  }

  /** The velocity opposite to v. */
  function Reverse(v: Velocity): Velocity {
    Velocity(-v.dx, -v.dy)
  }

  /** The requested velocity `v` and the committed one `c` are unit steps and `v` does
      not turn a moving snake straight back. */
  predicate Heading(v: Velocity, c: Velocity) {
    Unit(v) && Unit(c) && (v != Reverse(c) || c == Velocity(0, 0))
  }

  /** What a key asks of `changeDirection`. */
  datatype Request = Up | Down | Left | Right | NoTurn

  /** The `switch (e.key)` of `changeDirection`: arrows and w, s, a, d. */
  function KeyRequest(key: string): Request {
    if key == "ArrowUp" || key == "w" then Up
    else if key == "ArrowDown" || key == "s" then Down
    else if key == "ArrowLeft" || key == "a" then Left
    else if key == "ArrowRight" || key == "d" then Right
    else NoTurn
  }

  /** `changeDirection` while the game runs: a direction is requested unless the committed
      direction `current` points the opposite way; any other key changes nothing. */
  function Steer(req: Request, requested: Velocity, current: Velocity): Velocity {
    match req
    case Up => if current.dy != 1 then Velocity(0, -1) else requested
    case Down => if current.dy != -1 then Velocity(0, 1) else requested
    case Left => if current.dx != 1 then Velocity(-1, 0) else requested
    case Right => if current.dx != -1 then Velocity(1, 0) else requested
    case NoTurn => requested
  }

  /** Steering keeps the requested velocity a unit step (or standing still). */
  lemma SteerStaysUnit(req: Request, requested: Velocity, current: Velocity)
    requires Unit(current) && Unit(requested)
    ensures Unit(Steer(req, requested, current))
  {
  }

  /** Steering never requests the reverse of the committed direction: a key either leaves
      the request alone or replaces it by a moving step that does not turn back. */
  lemma SteerNeverReverses(req: Request, requested: Velocity, current: Velocity)
    requires Unit(current) && Unit(requested)
    ensures Steer(req, requested, current) == requested
            || (Steer(req, requested, current) != Reverse(current) && Steer(req, requested, current) != Velocity(0, 0))
  {
    match req
    case Up =>
    case Down =>
    case Left =>
    case Right =>
    case NoTurn =>
  }

  /** Steering keeps a heading. */
  lemma SteerKeepsHeading(req: Request, requested: Velocity, current: Velocity)
    requires Heading(requested, current)
    ensures Heading(Steer(req, requested, current), current)
  {
    SteerStaysUnit(req, requested, current);
    SteerNeverReverses(req, requested, current);
  }

  /** Committing the requested velocity keeps a heading: a moving unit step is never its
      own reverse. */
  lemma CommitKeepsHeading(v: Velocity, c: Velocity)
    requires Heading(v, c)
    ensures Heading(v, v)
  {
  }

  /** The body after a step: segment 0 takes the old head, each later segment the old
      place of the one before it. */
  function Shift(body: seq<Cell>, head: Cell): (r: seq<Cell>)
    ensures |r| == |body|
    ensures |r| > 0 ==> r[0] == head
    ensures forall i :: 0 < i < |r| ==> r[i] == body[i - 1]
  {
    if body == [] then [] else [head] + body[..|body| - 1]
  }

  /** A head on the food grows the body by one segment: the food tile is pushed and the
      shift then leaves the old head in front of the whole old body. */
  lemma ShiftAfterEating(body: seq<Cell>, head: Cell, food: Cell)
    ensures Shift(body + [food], head) == [head] + body
  {
    assert (body + [food])[..|body|] == body;
  }

  /** A pixel coordinate on the tile grid. */
  predicate OnGrid(n: int) {
    n % TILE_SIZE == 0
  }

  predicate CellOnGrid(c: Cell) {
    OnGrid(c.x) && OnGrid(c.y)
  }

  /** Every tile of a body lies on the grid. */
  predicate AllOnGrid(body: seq<Cell>) {
    forall c <- body :: CellOnGrid(c)
  }

  /** The shifted body of a body and a head on the grid lies on the grid. */
  lemma ShiftOnGrid(body: seq<Cell>, head: Cell)
    requires AllOnGrid(body) && CellOnGrid(head)
    ensures AllOnGrid(Shift(body, head))
  {
    var r := Shift(body, head);
    forall c | c in r
      ensures CellOnGrid(c)
    {
      var i :| 0 <= i < |r| && r[i] == c;
      if i > 0 {
        assert c == body[i - 1];
      }
    }
  }

  /** Tile k lies on the grid. */
  lemma TileOnGrid(k: int)
    ensures OnGrid(k * TILE_SIZE)
  {
  }

  /** A step of d tiles from a grid coordinate stays on the grid. */
  lemma StepOnGrid(n: int, d: int)
    requires OnGrid(n)
    ensures OnGrid(n + d * TILE_SIZE)
  {
  }

  /** The head is off the canvas. */
  predicate Outside(head: Cell) {
    head.x < 0 || head.x >= WINDOW_WIDTH || head.y < 0 || head.y >= WINDOW_HEIGHT
  }

  /** `max` of the high score and the score: what `setGameOver` leaves in `highscore`. */
  function Best(highscore: int, score: int): (r: int)
    ensures r >= highscore && r >= score && (r == highscore || r == score)
  {
    if score > highscore then score else highscore
  }

  class Game {
    var snake: Cell
    var food: Cell
    var snakeBody: seq<Cell>
    var velocity: Velocity
    var current: Velocity
    var gameOver: bool
    var score: int
    var highscore: int

    /** What holds between any two calls: every tile is on the grid, the food on the canvas,
        both velocities unit steps, the requested velocity never turns a moving snake
        straight back, and while the game runs the score counts the body's segments. */
    ghost predicate Valid()
      reads this
    {
      CellOnGrid(snake) && CellOnGrid(food) && AllOnGrid(snakeBody)
      && 0 <= food.x < WINDOW_WIDTH && 0 <= food.y < WINDOW_HEIGHT
      && Heading(velocity, current)
      && (!gameOver ==> |snakeBody| == score)
    }

    /** `initGame()`: the head on tile (5, 5), the food on tile (foodCol, foodRow) drawn by
        `randInt`, no body, standing still, score 0, the stored high score. */
    method InitGame(foodCol: int, foodRow: int, storedHighscore: int)
      requires 0 <= foodCol <= COLS - 1 && 0 <= foodRow <= ROWS - 1
      modifies this
      ensures Valid()
      ensures snake == Cell(5 * TILE_SIZE, 5 * TILE_SIZE) && food == Cell(foodCol * TILE_SIZE, foodRow * TILE_SIZE)
      ensures snakeBody == [] && velocity == Velocity(0, 0) && current == Velocity(0, 0)
      ensures !gameOver && score == 0 && highscore == storedHighscore
    {
      TileOnGrid(5);
      TileOnGrid(foodCol);
      TileOnGrid(foodRow);
      snake := Cell(5 * TILE_SIZE, 5 * TILE_SIZE);
      food := Cell(foodCol * TILE_SIZE, foodRow * TILE_SIZE);
      snakeBody := [];
      velocity := Velocity(0, 0);
      current := Velocity(0, 0);
      gameOver := false;
      score := 0;
      highscore := storedHighscore;
    }

    /** `changeDirection(e)`: nothing once the game is over, else `Steer`. */
    method ChangeDirection(key: string)
      requires Valid()
      modifies this
      ensures Valid()
      ensures velocity == if old(gameOver) then old(velocity) else Steer(KeyRequest(key), old(velocity), current)
      ensures snake == old(snake) && food == old(food) && snakeBody == old(snakeBody) && current == old(current)
      ensures gameOver == old(gameOver) && score == old(score) && highscore == old(highscore)
    {
      if gameOver {
        return;
      }
      var req := KeyRequest(key);
      Turn(req);
      SteerKeepsHeading(req, old(velocity), current);
    }

    /** The `switch` of `changeDirection` once the key is decoded: a turn is taken unless
        the committed direction points the opposite way. */
    method Turn(req: Request)
      modifies this
      ensures velocity == Steer(req, old(velocity), current)
      ensures snake == old(snake) && food == old(food) && snakeBody == old(snakeBody) && current == old(current)
      ensures gameOver == old(gameOver) && score == old(score) && highscore == old(highscore)
    {
      match req {
        case Up =>
          if current.dy != 1 {
            velocity := Velocity(0, -1);
          }
        case Down =>
          if current.dy != -1 {
            velocity := Velocity(0, 1);
          }
        case Left =>
          if current.dx != 1 {
            velocity := Velocity(-1, 0);
          }
        case Right =>
          if current.dx != -1 {
            velocity := Velocity(1, 0);
          }
        case NoTurn =>
      }
    }

    /** `setGameOver()`: the game ends and the high score becomes the larger of the two. */
    method SetGameOver()
      modifies this
      ensures gameOver && highscore == Best(old(highscore), score)
      ensures snake == old(snake) && food == old(food) && snakeBody == old(snakeBody)
      ensures velocity == old(velocity) && current == old(current) && score == old(score)
    {
      gameOver := true;
      if score > highscore {
        highscore := score;
      }
    }

    /** `triggerCheat()`, bound to F12: the score becomes 60 and the game ends. */
    method TriggerCheat()
      requires Valid()
      modifies this
      ensures Valid()
      ensures score == 60 && gameOver && highscore == Best(old(highscore), 60)
      ensures snake == old(snake) && food == old(food) && snakeBody == old(snakeBody)
      ensures velocity == old(velocity) && current == old(current)
    {
      score := 60;
      SetGameOver();
    }

    /** `move()`: nothing once the game is over; a head off the canvas or on its own body
        ends the game; otherwise a head on the food grows the body and the score and the
        food moves to tile (foodCol, foodRow); the body follows the head, the head takes a
        step of the requested velocity and that velocity is committed. */
    method Move(foodCol: int, foodRow: int)
      requires Valid()
      requires 0 <= foodCol <= COLS - 1 && 0 <= foodRow <= ROWS - 1
      modifies this
      ensures Valid()
      ensures old(gameOver) ==> unchanged(this)
      ensures !old(gameOver) && (Outside(old(snake)) || old(snake) in old(snakeBody)) ==>
                gameOver && highscore == Best(old(highscore), old(score))
                && snake == old(snake) && food == old(food) && snakeBody == old(snakeBody)
                && velocity == old(velocity) && current == old(current) && score == old(score)
      ensures !old(gameOver) && !Outside(old(snake)) && old(snake) !in old(snakeBody) ==>
                && !gameOver && highscore == old(highscore)
                && snakeBody == (if old(snake) == old(food) then [old(snake)] + old(snakeBody) else Shift(old(snakeBody), old(snake)))
                && score == old(score) + (if old(snake) == old(food) then 1 else 0)
                && food == (if old(snake) == old(food) then Cell(foodCol * TILE_SIZE, foodRow * TILE_SIZE) else old(food))
                && snake == Cell(old(snake).x + old(velocity).dx * TILE_SIZE, old(snake).y + old(velocity).dy * TILE_SIZE)
                && velocity == old(velocity) && current == old(velocity)
    {
      if gameOver {
        return;
      }
      if snake.x < 0 || snake.x >= WINDOW_WIDTH || snake.y < 0 || snake.y >= WINDOW_HEIGHT {
        SetGameOver();
        return;
      }
      var hit := HitsBody();
      if hit {
        SetGameOver();
        return;
      }
      Advance(foodCol, foodRow);
    }

    /** The rest of `move` once the head is on the canvas and off the body: eating, the body
        following the head and the head's step. */
    method Advance(foodCol: int, foodRow: int)
      requires Valid()
      requires 0 <= foodCol <= COLS - 1 && 0 <= foodRow <= ROWS - 1
      modifies this
      ensures Valid()
      ensures snakeBody == (if old(snake) == old(food) then [old(snake)] + old(snakeBody) else Shift(old(snakeBody), old(snake)))
      ensures score == old(score) + (if old(snake) == old(food) then 1 else 0)
      ensures food == (if old(snake) == old(food) then Cell(foodCol * TILE_SIZE, foodRow * TILE_SIZE) else old(food))
      ensures snake == Cell(old(snake).x + old(velocity).dx * TILE_SIZE, old(snake).y + old(velocity).dy * TILE_SIZE)
      ensures velocity == old(velocity) && current == old(velocity)
      ensures gameOver == old(gameOver) && highscore == old(highscore)
    {
      if snake.x == food.x && snake.y == food.y {
        Eat(foodCol, foodRow);
        ShiftAfterEating(old(snakeBody), old(snake), old(food));
      }
      FollowHead();
      Step();
    }

    /** The eating block of `move`: a copy of the food tile is pushed onto the body, the food
        moves to tile (foodCol, foodRow) and the score grows by one. */
    method Eat(foodCol: int, foodRow: int)
      requires Valid()
      requires 0 <= foodCol <= COLS - 1 && 0 <= foodRow <= ROWS - 1
      modifies this
      ensures Valid()
      ensures snakeBody == old(snakeBody) + [old(food)] && score == old(score) + 1
      ensures food == Cell(foodCol * TILE_SIZE, foodRow * TILE_SIZE)
      ensures snake == old(snake) && velocity == old(velocity) && current == old(current)
      ensures gameOver == old(gameOver) && highscore == old(highscore)
    {
      snakeBody := snakeBody + [Cell(food.x, food.y)];
      TileOnGrid(foodCol);
      TileOnGrid(foodRow);
      food := Cell(foodCol * TILE_SIZE, foodRow * TILE_SIZE);
      score := score + 1;
    }

    /** The last lines of `move`: the head takes a step of the requested velocity, which
        becomes the committed one. */
    method Step()
      requires Valid()
      modifies this
      ensures Valid()
      ensures snake == Cell(old(snake).x + old(velocity).dx * TILE_SIZE, old(snake).y + old(velocity).dy * TILE_SIZE)
      ensures current == old(velocity) && velocity == old(velocity)
      ensures food == old(food) && snakeBody == old(snakeBody)
      ensures gameOver == old(gameOver) && score == old(score) && highscore == old(highscore)
    {
      var next := Cell(snake.x + velocity.dx * TILE_SIZE, snake.y + velocity.dy * TILE_SIZE);
      StepOnGrid(snake.x, velocity.dx);
      StepOnGrid(snake.y, velocity.dy);
      assert CellOnGrid(next);
      CommitKeepsHeading(velocity, current);
      snake := next;
      current := velocity;
    }

    /** The self-collision loop of `move`: whether the head is on a body tile. */
    method HitsBody() returns (hit: bool)
      ensures hit == (snake in snakeBody)
    {
      for i := 0 to |snakeBody|
        invariant snake !in snakeBody[..i]
      {
        if snake.x == snakeBody[i].x && snake.y == snakeBody[i].y {
          return true;
        }
      }
      assert snakeBody[..|snakeBody|] == snakeBody;
      return false;
    }

    /** The body loop of `move`, from the tail to segment 0: each segment takes the place of
        the one before it, segment 0 the place of the head. */
    method FollowHead()
      requires Valid()
      modifies this
      ensures Valid()
      ensures snakeBody == Shift(old(snakeBody), snake)
      ensures snake == old(snake) && food == old(food) && velocity == old(velocity) && current == old(current)
      ensures gameOver == old(gameOver) && score == old(score) && highscore == old(highscore)
    {
      var i := |snakeBody| - 1;
      while i >= 0
        invariant -1 <= i < |snakeBody| && |snakeBody| == |old(snakeBody)|
        invariant snakeBody[..i + 1] == old(snakeBody)[..i + 1]
        invariant forall k :: i < k < |snakeBody| ==> snakeBody[k] == Shift(old(snakeBody), snake)[k]
        invariant snake == old(snake) && food == old(food) && velocity == old(velocity) && current == old(current)
        invariant gameOver == old(gameOver) && score == old(score) && highscore == old(highscore)
      {
        if i == 0 {
          snakeBody := snakeBody[i := Cell(snake.x, snake.y)];
        } else {
          snakeBody := snakeBody[i := Cell(snakeBody[i - 1].x, snakeBody[i - 1].y)];
        }
        i := i - 1;
      }
      ShiftOnGrid(old(snakeBody), snake);
    }
  }
}
