/**
 * The playing field of the star trail game: a square board of GridCount by
 * GridCount cells, integer cell coordinates, unit headings and the arrow keys
 * that select them. Screen coordinates grow downwards, so "up" is (0, -1).
 */
module Grid {

  const WindowSize: int := 600
  const GridSize: int := 30
  /** 600 / 30 = 20 cells per side. */
  const GridCount: int := WindowSize / GridSize
  /** Seconds a respawn lasts. */
  const RespawnTime: int := 3
  /** Lives at the start of every session. */
  const StartingLives: int := 2

  /** A grid cell (column, row), also used for the heading vector. */
  datatype Cell = Cell(x: int, y: int)

  const Center: Cell := Cell(GridCount / 2, GridCount / 2)

  const North: Cell := Cell(0, -1)
  const South: Cell := Cell(0, 1)
  const West: Cell := Cell(-1, 0)
  const East: Cell := Cell(1, 0)

  function Add(c: Cell, d: Cell): Cell
  {
    Cell(c.x + d.x, c.y + d.y)
  }

  function Opposite(d: Cell): Cell
  {
    Cell(-d.x, -d.y)
  }

  /** A cell inside [0, GridCount-1] x [0, GridCount-1]. */
  predicate OnBoard(c: Cell)
  {
    0 <= c.x < GridCount && 0 <= c.y < GridCount
  }

  predicate AllOnBoard(cells: seq<Cell>)
  {
    forall i :: 0 <= i < |cells| ==> OnBoard(cells[i])
  }

  /** One of the four unit headings. */
  predicate IsHeading(d: Cell)
  {
    d == North || d == South || d == West || d == East
  }

  /** The keys the game reacts to; any other key is OtherKey. */
  datatype Key = Up | Down | Left | Right | Space | OtherKey

  predicate IsArrow(k: Key)
  {
    k == Up || k == Down || k == Left || k == Right
  }

  function KeyHeading(k: Key): Cell
    requires IsArrow(k)
  {
    match k
    case Up => North
    case Down => South
    case Left => West
    case Right => East
  }

  /**
   * The heading after one arrow key press while playing: an arrow key whose
   * heading is the exact reverse of the current one is ignored, as is every
   * key that is not an arrow.
   */
  function Turn(dir: Cell, k: Key): (r: Cell)
    ensures IsArrow(k) && KeyHeading(k) != Opposite(dir) ==> r == KeyHeading(k)
    ensures !(IsArrow(k) && KeyHeading(k) != Opposite(dir)) ==> r == dir
    ensures IsHeading(dir) ==> IsHeading(r) && r != Opposite(dir)
  {
    if k == Up && dir != South then North
    else if k == Down && dir != North then South
    else if k == Left && dir != East then West
    else if k == Right && dir != West then East
    else dir
  }
}
