/**
 * The recycling snake game (SustainabilityGame/static/SustainabilityGame/js/game.js): a snake of
 * 25-pixel cells on a 600 by 400 board, steered by keys and swipes that never reverse it, that
 * collects trash for points and ends when it leaves the board or runs into itself.
 */
module Snake {

  const CellSize: int := 25
  const Width: int := 600
  const Height: int := 400

  datatype Point = Point(x: int, y: int)
  datatype Direction = Up | Down | Left | Right

  /** The four trash types of `CONFIG.trash`. */
  datatype TrashKind = Plastic | Paper | Metal | Glass

  function Points(k: TrashKind): int
  {
    match k
    case Plastic => 10
    case Paper => 5
    case Metal => 15
    case Glass => 20
  }

  datatype Trash = Trash(x: int, y: int, kind: TrashKind)

  function Opposite(d: Direction): Direction
  {
    match d
    case Up => Down
    case Down => Up
    case Left => Right
    case Right => Left
  }

  /** The head position one move in direction d (`getNextPosition`). */
  function Step(p: Point, d: Direction): Point
  {
    match d
    case Up => Point(p.x, p.y - CellSize)
    case Down => Point(p.x, p.y + CellSize)
    case Left => Point(p.x - CellSize, p.y)
    case Right => Point(p.x + CellSize, p.y)
  }

  predicate OutOfBounds(p: Point)
  {
    p.x < 0 || p.y < 0 || p.x >= Width || p.y >= Height
  }

  /** A cell of the board: inside it, at a multiple of the cell size. */
  predicate OnBoard(p: Point)
  {
    !OutOfBounds(p) && p.x % CellSize == 0 && p.y % CellSize == 0
  }

  /** The initial snake of `reset`: three cells in row 10, head at column 5, heading right. */
  const StartSnake: seq<Point> := [Point(125, 250), Point(100, 250), Point(75, 250)]

  /** Taking a step from a cell of the board lands either outside the board or on another cell. */
  lemma StepStaysOnGrid(p: Point, d: Direction)
    requires OnBoard(p)
    ensures !OutOfBounds(Step(p, d)) ==> OnBoard(Step(p, d))
    ensures Step(p, d) != p
  {
  }

  /** Reversing is impossible: a step and its opposite return to the start. */
  lemma OppositeUndoes(p: Point, d: Direction)
    ensures Step(Step(p, d), Opposite(d)) == p
    ensures Opposite(Opposite(d)) == d && Opposite(d) != d
  {
  }

  class GameState {
    var snake: seq<Point>
    var direction: Direction
    var nextDirection: Direction
    var score: int
    var trashCollected: int
    var isRunning: bool
    var trash: Trash

    /**
     * The snake is non-empty and lies on board cells, the trash is on a board cell, the pending
     * direction never reverses the committed one, and the counters are non-negative.
     */
    ghost predicate Valid()
      reads this
    {
      |snake| >= 1 &&
      (forall i :: 0 <= i < |snake| ==> OnBoard(snake[i])) &&
      OnBoard(Point(trash.x, trash.y)) &&
      nextDirection != Opposite(direction) &&
      score >= 0 && trashCollected >= 0
    }

    /** `new GameState()`; (col, row, kind) is the random trash cell and type. */
    constructor (col: nat, row: nat, kind: TrashKind)
      requires col < Width / CellSize && row < Height / CellSize
      ensures Valid()
      ensures snake == StartSnake && direction == Right && nextDirection == Right
      ensures score == 0 && trashCollected == 0 && !isRunning
      ensures trash == Trash(col * CellSize, row * CellSize, kind)
    {
      snake := StartSnake;
      direction, nextDirection := Right, Right;
      score, trashCollected := 0, 0;
      isRunning := false;
      trash := Trash(col * CellSize, row * CellSize, kind);
    }

    /** `reset`: the initial snake heading right, counters at 0, stopped, and new trash. */
    method Reset(col: nat, row: nat, kind: TrashKind)
      requires col < Width / CellSize && row < Height / CellSize
      modifies this
      ensures Valid()
      ensures snake == StartSnake && direction == Right && nextDirection == Right
      ensures score == 0 && trashCollected == 0 && !isRunning
      ensures trash == Trash(col * CellSize, row * CellSize, kind)
    {
      snake := StartSnake;
      direction, nextDirection := Right, Right;
      score, trashCollected := 0, 0;
      isRunning := false;
      PlaceNewTrash(col, row, kind);
    }

    /**
     * `placeNewTrash`: (col, row) is the random cell `Math.floor(Math.random() * 24)`,
     * `Math.floor(Math.random() * 16)`, and kind the random type.
     */
    method PlaceNewTrash(col: nat, row: nat, kind: TrashKind)
      requires col < Width / CellSize && row < Height / CellSize
      modifies this
      ensures trash == Trash(col * CellSize, row * CellSize, kind)
      ensures OnBoard(Point(trash.x, trash.y))
      ensures snake == old(snake) && direction == old(direction) && nextDirection == old(nextDirection)
      ensures score == old(score) && trashCollected == old(trashCollected) && isRunning == old(isRunning)
    {
      trash := Trash(col * CellSize, row * CellSize, kind);
    }

    /** `getNextPosition`: commits the pending direction and returns the head moved one cell. */
    method GetNextPosition() returns (p: Point)
      requires Valid()
      modifies this
      ensures Valid()
      ensures direction == old(nextDirection) && direction != Opposite(old(direction))
      ensures p == Step(snake[0], direction)
      ensures snake == old(snake) && nextDirection == old(nextDirection) && trash == old(trash)
      ensures score == old(score) && trashCollected == old(trashCollected) && isRunning == old(isRunning)
    {
      direction := nextDirection;
      p := Step(snake[0], direction);
    }

    /** `hasCollectedTrash`. */
    predicate HasCollectedTrash(p: Point)
      reads this
    {
      Collects(trash, p)
    }

    /** `moveSnake`: the new head goes in front; the tail is dropped unless the head lands on the trash. */
    method MoveSnake(p: Point)
      modifies this
      ensures snake == if HasCollectedTrash(p) then [p] + old(snake) else ([p] + old(snake))[..|old(snake)|]
      ensures direction == old(direction) && nextDirection == old(nextDirection) && trash == old(trash)
      ensures score == old(score) && trashCollected == old(trashCollected) && isRunning == old(isRunning)
    {
      snake := [p] + snake;
      if !HasCollectedTrash(p) {
        snake := snake[..|snake| - 1];
      }
    }

    /** `updateScore`: the trash type's points, and one more trash collected. */
    method UpdateScore()
      requires Valid()
      modifies this
      ensures Valid()
      ensures score == old(score) + Points(trash.kind) && trashCollected == old(trashCollected) + 1
      ensures snake == old(snake) && direction == old(direction) && nextDirection == old(nextDirection)
      ensures trash == old(trash) && isRunning == old(isRunning)
    {
      score := score + Points(trash.kind);
      trashCollected := trashCollected + 1;
    }
  }

  /** A key of `handleInput`. */
  datatype Key = ArrowUp | ArrowDown | ArrowLeft | ArrowRight | Space | OtherKey

  predicate IsArrow(key: Key)
  {
    key != Space && key != OtherKey
  }

  /** The direction an arrow key asks for. */
  function ArrowDirection(key: Key): Direction
    requires IsArrow(key)
  {
    match key
    case ArrowUp => Up
    case ArrowDown => Down
    case ArrowLeft => Left
    case ArrowRight => Right
  }

  /** The `Game` object: its state, without the canvas and the page elements. */
  class Game {
    const state: GameState

    ghost predicate Valid()
      reads this, state
    {
      state.Valid()
    }

    constructor (col: nat, row: nat, kind: TrashKind)
      requires col < Width / CellSize && row < Height / CellSize
      ensures Valid() && fresh(state)
      ensures state.snake == StartSnake && !state.isRunning
    {
      state := new GameState(col, row, kind);
    }

    /** Sets the pending direction to d unless d reverses the committed direction. */
    method Turn(d: Direction)
      requires Valid()
      modifies state
      ensures Valid()
      ensures state.nextDirection == if state.direction != Opposite(d) then d else old(state.nextDirection)
      ensures state.snake == old(state.snake) && state.direction == old(state.direction)
      ensures state.isRunning == old(state.isRunning) && state.score == old(state.score)
      ensures state.trashCollected == old(state.trashCollected) && state.trash == old(state.trash)
    {
      if state.direction != Opposite(d) {
        state.nextDirection := d;
      }
    }

    /** `handleInput`: arrows turn, space pauses or resumes, other keys do nothing. */
    method HandleInput(key: Key)
      requires Valid()
      modifies state
      ensures Valid()
      ensures state.snake == old(state.snake) && state.direction == old(state.direction)
      ensures state.score == old(state.score) && state.trashCollected == old(state.trashCollected)
      ensures state.trash == old(state.trash)
      ensures IsArrow(key) ==>
                state.isRunning == old(state.isRunning) &&
                state.nextDirection == (if old(state.direction) != Opposite(ArrowDirection(key)) then ArrowDirection(key)
                                        else old(state.nextDirection))
      ensures key == Space ==> state.isRunning == !old(state.isRunning) && state.nextDirection == old(state.nextDirection)
      ensures key == OtherKey ==> state.isRunning == old(state.isRunning) && state.nextDirection == old(state.nextDirection)
    {
      match key
      case ArrowUp => Turn(Up);
      case ArrowDown => Turn(Down);
      case ArrowLeft => Turn(Left);
      case ArrowRight => Turn(Right);
      case Space => TogglePause();
      case OtherKey =>
    }

    /**
     * `handleSwipe` for a swipe of (dx, dy): the longer axis picks the direction, which is taken
     * as an arrow key would be; a swipe that does not move does nothing.
     */
    method HandleSwipe(dx: int, dy: int)
      requires Valid()
      modifies state
      ensures Valid()
      ensures state.snake == old(state.snake) && state.direction == old(state.direction)
      ensures state.isRunning == old(state.isRunning) && state.score == old(state.score)
      ensures state.trashCollected == old(state.trashCollected) && state.trash == old(state.trash)
      ensures dx == 0 && dy == 0 ==> state.nextDirection == old(state.nextDirection)
      ensures dx != 0 || dy != 0 ==>
                state.nextDirection == (if old(state.direction) != Opposite(SwipeDirection(dx, dy)) then SwipeDirection(dx, dy)
                                        else old(state.nextDirection))
    {
      if Abs(dx) > Abs(dy) {
        if dx > 0 && state.direction != Left {
          state.nextDirection := Right;
        } else if dx < 0 && state.direction != Right {
          state.nextDirection := Left;
        }
      } else {
        if dy > 0 && state.direction != Up {
          state.nextDirection := Down;
        } else if dy < 0 && state.direction != Down {
          state.nextDirection := Up;
        }
      }
    }

    /** `start`: a running game is left alone; otherwise the game is reset and set running. */
    method Start(col: nat, row: nat, kind: TrashKind)
      requires Valid()
      requires col < Width / CellSize && row < Height / CellSize
      modifies state
      ensures Valid()
      ensures old(state.isRunning) ==>
                state.snake == old(state.snake) && state.direction == old(state.direction) &&
                state.nextDirection == old(state.nextDirection) && state.score == old(state.score) &&
                state.trashCollected == old(state.trashCollected) && state.trash == old(state.trash) && state.isRunning
      ensures !old(state.isRunning) ==>
                state.snake == StartSnake && state.direction == Right && state.nextDirection == Right &&
                state.score == 0 && state.trashCollected == 0 &&
                state.trash == Trash(col * CellSize, row * CellSize, kind) && state.isRunning
    {
      if state.isRunning {
        return;
      }
      state.Reset(col, row, kind);
      state.isRunning := true;
    }

    method TogglePause()
      requires Valid()
      modifies state
      ensures Valid()
      ensures state.isRunning == !old(state.isRunning)
      ensures state.snake == old(state.snake) && state.direction == old(state.direction)
      ensures state.nextDirection == old(state.nextDirection) && state.score == old(state.score)
      ensures state.trashCollected == old(state.trashCollected) && state.trash == old(state.trash)
    {
      state.isRunning := !state.isRunning;
    }

    /** `checkCollision`: a wall, or any cell of the snake. */
    predicate CheckCollision(p: Point)
      reads this, state
    {
      CollidesAt(state.snake, p)
    }

    /** `handleTrashCollection`: score the trash, repeat the last segment, and place new trash. */
    method HandleTrashCollection(col: nat, row: nat, kind: TrashKind)
      requires Valid()
      requires col < Width / CellSize && row < Height / CellSize
      modifies state
      ensures Valid()
      ensures state.snake == old(state.snake) + [old(state.snake)[|old(state.snake)| - 1]]
      ensures state.score == old(state.score) + Points(old(state.trash.kind))
      ensures state.trashCollected == old(state.trashCollected) + 1
      ensures state.trash == Trash(col * CellSize, row * CellSize, kind)
      ensures state.direction == old(state.direction) && state.nextDirection == old(state.nextDirection)
      ensures state.isRunning == old(state.isRunning)
    {
      state.UpdateScore();
      state.snake := state.snake + [state.snake[|state.snake| - 1]];
      state.PlaceNewTrash(col, row, kind);
    }

    /**
     * One tick of `update`, with (col, row, kind) the trash placed if this tick collects one.
     * A collision stops the game and leaves the snake where it was.
     */
    method Update(col: nat, row: nat, kind: TrashKind) returns (ended: bool)
      requires Valid()
      requires col < Width / CellSize && row < Height / CellSize
      modifies state
      ensures Valid()
      ensures state.direction == old(state.nextDirection)
      ensures ended <==> CollidesAt(old(state.snake), Step(old(state.snake)[0], old(state.nextDirection)))
      ensures state.nextDirection == old(state.nextDirection)
      ensures ended ==>
                state.snake == old(state.snake) && !state.isRunning && state.score == old(state.score) &&
                state.trashCollected == old(state.trashCollected) && state.trash == old(state.trash)
      ensures !ended ==> state.snake[0] == Step(old(state.snake)[0], old(state.nextDirection))
      ensures !ended && !Collects(old(state.trash), state.snake[0]) ==>
                state.snake == [Step(old(state.snake)[0], old(state.nextDirection))] + old(state.snake)[..|old(state.snake)| - 1] &&
                |state.snake| == |old(state.snake)| && state.score == old(state.score) &&
                state.trashCollected == old(state.trashCollected) && state.trash == old(state.trash)
      ensures !ended && Collects(old(state.trash), state.snake[0]) ==>
                state.snake == [Step(old(state.snake)[0], old(state.nextDirection))] + old(state.snake) +
                               [old(state.snake)[|old(state.snake)| - 1]] &&
                |state.snake| == |old(state.snake)| + 2 &&
                state.score == old(state.score) + Points(old(state.trash).kind) &&
                state.trashCollected == old(state.trashCollected) + 1 &&
                state.trash == Trash(col * CellSize, row * CellSize, kind)
      ensures !ended ==> state.isRunning == old(state.isRunning)
    {
      var next := state.GetNextPosition();
      if CheckCollision(next) {
        state.isRunning := false;
        return true;
      }
      StepStaysOnGrid(old(state.snake)[0], state.direction);
      state.MoveSnake(next);
      if state.HasCollectedTrash(next) {
        HandleTrashCollection(col, row, kind);
      }
      ended := false;
    }
  }

  function Abs(n: int): int
  {
    if n < 0 then -n else n
  }

  /** The direction a swipe asks for, on its longer axis (vertical on a tie). */
  function SwipeDirection(dx: int, dy: int): Direction
  {
    if Abs(dx) > Abs(dy) then (if dx > 0 then Right else Left)
    else (if dy > 0 then Down else Up)
  }

  /** The head would leave the board or enter a cell of the snake, its current tail included. */
  predicate CollidesAt(snake: seq<Point>, p: Point)
  {
    OutOfBounds(p) || p in snake
  }

  predicate Collects(t: Trash, p: Point)
  {
    p.x == t.x && p.y == t.y
  }

  /** Every trash type scores 5, 10, 15 or 20 points, so the score only grows. */
  lemma PointsPositive(k: TrashKind)
    ensures Points(k) in {5, 10, 15, 20}
  {
  }
}
