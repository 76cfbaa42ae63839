/** The food item: one position, drawn from the interior grid cells. The random draw is
    the caller's `Cell` argument, constrained to the range the game draws from. */
module Foods {
  import opened Geometry

  class Food {
    var x: int
    var y: int

    /** Place the food on the drawn cell. */
    constructor (c: Cell)
      requires ValidCell(c)
      ensures x == CellX(c) && y == CellY(c) && FoodSpot(x, y)
    {
      x := c.col * SIZE;
      y := c.row * SIZE;
    }

    /** Relocate the food to the drawn cell; same computation as the constructor. */
    method Move(c: Cell)
      requires ValidCell(c)
      modifies this
      ensures x == CellX(c) && y == CellY(c) && FoodSpot(x, y)
    {
      x := c.col * SIZE;
      y := c.row * SIZE;
    }
  }
}
