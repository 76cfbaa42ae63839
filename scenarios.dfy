/** Concrete instances of the tick and of the collision test. */
module Scenarios {
  import opened Geometry
  import opened Snakes
  import opened Games

  /** A fresh snake walks down one cell; with the food elsewhere nothing else happens. */
  lemma FirstTickMovesDown(eat: Cell)
    requires ValidCell(eat)
    ensures Tick(World(Spawn(), 500, 300), eat) == (World(SnakeState([25], [50], Down), 500, 300), Continue)
  {
    var moved := Walked(Spawn());
    assert moved.xs == [25] && moved.ys == [50];
    assert !HitsSelf(moved);
  }

  /** Food one cell below a fresh snake is eaten on the first tick, whatever cell the food
      is redrawn at: two segments, the new tail still the sentinel, the food on the drawn cell. */
  lemma FirstTickEats(eat: Cell)
    requires ValidCell(eat)
    ensures Tick(World(Spawn(), 25, 50), eat) ==
      (World(SnakeState([25, SENTINEL], [50, SENTINEL], Down), CellX(eat), CellY(eat)), Continue)
  {
    var moved := Walked(Spawn());
    assert moved.xs == [25] && moved.ys == [50];
    assert Eats(moved, 25, 50);
    assert Grown(moved) == SnakeState([25, SENTINEL], [50, SENTINEL], Down);
    assert !Collides(Grown(moved));
  }

  /** The tick after that first meal fills the tail with the old head cell, unless the food
      was redrawn onto the next head cell (25, 75), in which case the snake grows again. */
  lemma SecondTickFillsTail(eat: Cell, next: Cell)
    requires ValidCell(eat) && ValidCell(next)
    ensures eat != Cell(1, 3) ==>
      Tick(Tick(World(Spawn(), 25, 50), eat).0, next).0.snake == SnakeState([25, 25], [75, 50], Down)
  {
    FirstTickEats(eat);
    var t := Tick(World(Spawn(), 25, 50), eat).0;
    var w := Walked(t.snake);
    assert w.xs == [25, 25] && w.ys == [75, 50];
    if eat != Cell(1, 3) {
      assert !Eats(w, t.foodX, t.foodY);
    }
  }

  /** The reversal guard acts per key press: heading down, Left then Up in one poll leave
      the snake heading up, the exact reverse, before the next walk. */
  lemma TwoArrowsReverse()
    ensures ApplyEvents(Control(false, true, Down), [KeyDown(Arrow(Left)), KeyDown(Arrow(Up))]).heading == Up
  {
    var es := [KeyDown(Arrow(Left)), KeyDown(Arrow(Up))];
    assert es[..1] == [KeyDown(Arrow(Left))] && es[..1][..0] == [];
  }

  /** After such a reversal the next walk puts the head on segment 2, which the collision
      test skips: a four-segment snake that was heading down and now heads up does not
      collide. */
  lemma ReversedWalkSkipsCollision()
    ensures var r := Walked(SnakeState([100, 100, 100, 100], [100, 75, 50, 25], Up));
      r.xs[0] == r.xs[2] && r.ys[0] == r.ys[2] && !Collides(r)
  {
    var r := Walked(SnakeState([100, 100, 100, 100], [100, 75, 50, 25], Up));
    assert r.xs == [100, 100, 100, 100] && r.ys == [75, 100, 75, 50];
  }

  /** A five-segment snake whose segment 4 lies on the head has collided; one whose only
      match is segment 2 has not. */
  lemma FiveSegmentCollision()
    ensures Collides(SnakeState([100, 125, 125, 100, 100], [100, 100, 125, 125, 100], Up))
    ensures !Collides(SnakeState([100, 125, 100, 75, 75], [100, 100, 100, 125, 150], Up))
  {
    var s := SnakeState([100, 125, 125, 100, 100], [100, 100, 125, 125, 100], Up);
    assert s.xs[4] == s.xs[0] && s.ys[4] == s.ys[0];
  }

  /** The boundary test at the edges: on an edge is a collision, one cell inside is not. */
  lemma BoundaryEdges()
    ensures HitsBoundary(0, 300) && HitsBoundary(WINDOW_WIDTH, 300)
    ensures HitsBoundary(500, 0) && HitsBoundary(500, WINDOW_HEIGHT)
    ensures !HitsBoundary(SIZE, 300) && !HitsBoundary(WINDOW_WIDTH - SIZE, 300)
    ensures !HitsBoundary(500, SIZE) && !HitsBoundary(500, WINDOW_HEIGHT - SIZE)
  {
  }
}
