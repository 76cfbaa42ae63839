/** Grid and window constants of the snake game, and the cells food can occupy.
    Coordinates are pixel units; one grid cell is SIZE pixels on a side. */
module Geometry {

  const SIZE: int := 25
  const WINDOW_WIDTH: int := 1000
  const WINDOW_HEIGHT: int := 600

  /** Number of cell columns and rows in the window (integer division, as in the game). */
  const COLUMNS: int := WINDOW_WIDTH / SIZE
  const ROWS: int := WINDOW_HEIGHT / SIZE

  /** The placeholder coordinate a freshly grown tail segment holds until the next walk. */
  const SENTINEL: int := -1

  /** A drawn cell index pair; the game draws each index uniformly at random. */
  datatype Cell = Cell(col: int, row: int)

  /** The range of the random draw: 1..COLUMNS-1 and 1..ROWS-1, both ends included. */
  predicate ValidCell(c: Cell) {
    1 <= c.col <= COLUMNS - 1 && 1 <= c.row <= ROWS - 1
  }

  predicate Aligned(v: int) {
    v % SIZE == 0
  }

  /** A grid-aligned position strictly inside the window, one cell away from every edge. */
  predicate FoodSpot(x: int, y: int) {
    Aligned(x) && SIZE <= x <= WINDOW_WIDTH - SIZE &&
    Aligned(y) && SIZE <= y <= WINDOW_HEIGHT - SIZE
  }

  /** Pixel x coordinate of a drawn column. */
  function CellX(c: Cell): (x: int)
    requires ValidCell(c)
    ensures Aligned(x) && SIZE <= x <= WINDOW_WIDTH - SIZE
  {
    c.col * SIZE
  }

  /** Pixel y coordinate of a drawn row. */
  function CellY(c: Cell): (y: int)
    requires ValidCell(c)
    ensures Aligned(y) && SIZE <= y <= WINDOW_HEIGHT - SIZE
  {
    c.row * SIZE
  }

  /** The food spots are exactly the positions some valid draw produces. */
  lemma FoodSpotIffDrawn(x: int, y: int)
    ensures FoodSpot(x, y) <==> exists c :: ValidCell(c) && CellX(c) == x && CellY(c) == y
  {
    if FoodSpot(x, y) {
      var c := Cell(x / SIZE, y / SIZE);
      assert ValidCell(c) && CellX(c) == x && CellY(c) == y;
    }
  }
}
