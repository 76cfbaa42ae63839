/** The snake: two parallel coordinate lists (index 0 is the head), a heading and a
    segment count. The value type SnakeState is the specification; class Snake is the
    object the game mutates in place. */
module Snakes {
  import opened Geometry

  datatype Direction = Left | Right | Up | Down

  function Opposite(d: Direction): Direction {
    match d
    case Left => Right
    case Right => Left
    case Up => Down
    case Down => Up
  }

  /** The heading after asking to turn towards `requested`: an exact reversal is refused. */
  function Turn(current: Direction, requested: Direction): (r: Direction)
    ensures r != Opposite(current)
    ensures r == requested <==> requested != Opposite(current)
    ensures r != requested ==> r == current
  {
    if requested == Opposite(current) then current else requested
  }

  /** Pixel offset of the head per walk along each axis. */
  function DeltaX(d: Direction): int {
    match d
    case Left => -SIZE
    case Right => SIZE
    case _ => 0
  }

  function DeltaY(d: Direction): int {
    match d
    case Up => -SIZE
    case Down => SIZE
    case _ => 0
  }

  function Abs(v: int): nat {
    if v < 0 then -v else v
  }

  datatype SnakeState = SnakeState(xs: seq<int>, ys: seq<int>, heading: Direction) {
    /** One coordinate per segment on each axis, and at least the head. */
    predicate Valid() {
      |xs| == |ys| >= 1
    }

    function Length(): nat {
      |xs|
    }
  }

  /** A new snake: one segment at (SIZE, SIZE), heading down. */
  function Spawn(): (s: SnakeState)
    ensures s.Valid() && s.Length() == 1 && s.heading == Down
    ensures s.xs[0] == SIZE && s.ys[0] == SIZE
  {
    SnakeState([SIZE], [SIZE], Down)
  }

  /** Every segment but the head takes the place of the one before it. */
  function Shifted(s: seq<int>): (r: seq<int>)
    requires |s| >= 1
    ensures |r| == |s| && r[0] == s[0]
    ensures forall i :: 1 <= i < |s| ==> r[i] == s[i - 1]
  {
    [s[0]] + s[..|s| - 1]
  }

  /** One walk: the body follows the head and the head moves one cell along the heading. */
  function Walked(s: SnakeState): (r: SnakeState)
    requires s.Valid()
    ensures r.Valid() && r.Length() == s.Length() && r.heading == s.heading
    ensures forall i :: 1 <= i < s.Length() ==> r.xs[i] == s.xs[i - 1] && r.ys[i] == s.ys[i - 1]
    ensures r.xs[0] == s.xs[0] + DeltaX(s.heading) && r.ys[0] == s.ys[0] + DeltaY(s.heading)
  {
    var xs := Shifted(s.xs);
    var ys := Shifted(s.ys);
    SnakeState(xs[0 := s.xs[0] + DeltaX(s.heading)], ys[0 := s.ys[0] + DeltaY(s.heading)], s.heading)
  }

  /** Growth: one more segment at the tail, holding the sentinel on both axes. */
  function Grown(s: SnakeState): (r: SnakeState)
    requires s.Valid()
    ensures r.Valid() && r.Length() == s.Length() + 1 && r.heading == s.heading
    ensures r.xs[..s.Length()] == s.xs && r.ys[..s.Length()] == s.ys
    ensures r.xs[s.Length()] == SENTINEL && r.ys[s.Length()] == SENTINEL
  {
    SnakeState(s.xs + [SENTINEL], s.ys + [SENTINEL], s.heading)
  }

  predicate OnGrid(x: int, y: int) {
    Aligned(x) && Aligned(y)
  }

  /** Every segment sits on the grid. */
  predicate Settled(s: SnakeState) {
    s.Valid() && forall i :: 0 <= i < |s.xs| ==> OnGrid(s.xs[i], s.ys[i])
  }

  /** Every segment sits on the grid, except that the tail may still hold the sentinel. */
  predicate Sane(s: SnakeState) {
    s.Valid() && OnGrid(s.xs[0], s.ys[0]) &&
    (forall i :: 0 <= i < |s.xs| - 1 ==> OnGrid(s.xs[i], s.ys[i])) &&
    (OnGrid(s.xs[|s.xs| - 1], s.ys[|s.xs| - 1]) ||
     (s.xs[|s.xs| - 1] == SENTINEL && s.ys[|s.xs| - 1] == SENTINEL))
  }

  /** The head moves exactly one cell, along one axis only, in the heading's sense. */
  lemma WalkMovesHeadOneCell(s: SnakeState)
    requires s.Valid()
    ensures var dx, dy := Walked(s).xs[0] - s.xs[0], Walked(s).ys[0] - s.ys[0];
      (dx == 0) != (dy == 0) && Abs(dx) + Abs(dy) == SIZE &&
      (s.heading == Left ==> dx < 0) && (s.heading == Right ==> dx > 0) &&
      (s.heading == Up ==> dy < 0) && (s.heading == Down ==> dy > 0)
  {
  }

  /** A walk from a sane snake overwrites the sentinel: afterwards every segment is on the grid. */
  lemma WalkSettles(s: SnakeState)
    requires Sane(s)
    ensures Settled(Walked(s))
  {
  }

  /** Growing a settled snake leaves it sane. */
  lemma GrowKeepsSane(s: SnakeState)
    requires Settled(s)
    ensures Sane(Grown(s))
  {
  }

  /** A sane snake's head is on the grid, so it never equals the sentinel. */
  lemma SaneHeadIsNotSentinel(s: SnakeState)
    requires Sane(s)
    ensures s.xs[0] != SENTINEL && s.ys[0] != SENTINEL
  {
  }

  /** The walk after a growth fills the new tail with the old last segment; the rest is
      exactly the walk of the snake before it grew. */
  lemma GrowThenWalkFillsTail(s: SnakeState)
    requires s.Valid()
    ensures Walked(Grown(s)).xs == Walked(s).xs + [s.xs[s.Length() - 1]]
    ensures Walked(Grown(s)).ys == Walked(s).ys + [s.ys[s.Length() - 1]]
  {
  }

  /** The snake object: `x` and `y` are the parallel coordinate lists, index 0 the head. */
  class Snake {
    var direction: Direction
    var length: int
    var x: seq<int>
    var y: seq<int>

    ghost predicate Valid()
      reads this
    {
      |x| == |y| == length >= 1
    }

    function Model(): SnakeState
      reads this
    {
      SnakeState(x, y, direction)
    }

    constructor ()
      ensures Valid() && Model() == Spawn() && length == 1
    {
      direction := Down;
      length := 1;
      x := [SIZE];
      y := [SIZE];
    }

    method MoveLeft()
      modifies this`direction
      ensures direction == Turn(old(direction), Left)
    {
      if direction != Right {
        direction := Left;
      }
    }

    method MoveRight()
      modifies this`direction
      ensures direction == Turn(old(direction), Right)
    {
      if direction != Left {
        direction := Right;
      }
    }

    method MoveUp()
      modifies this`direction
      ensures direction == Turn(old(direction), Up)
    {
      if direction != Down {
        direction := Up;
      }
    }

    method MoveDown()
      modifies this`direction
      ensures direction == Turn(old(direction), Down)
    {
      if direction != Up {
        direction := Down;
      }
    }

    /** Shift the body from the tail down to index 1, then move the head one cell. */
    method Walk()
      requires Valid()
      modifies this`x, this`y
      ensures Valid() && Model() == Walked(old(Model()))
    {
      var i := length - 1;
      while i > 0
        invariant 0 <= i < length && |x| == |y| == length
        invariant forall k :: 0 <= k <= i ==> x[k] == old(x[k]) && y[k] == old(y[k])
        invariant forall k :: i < k < length ==> x[k] == old(x[k - 1]) && y[k] == old(y[k - 1])
      {
        x := x[i := x[i - 1]];
        y := y[i := y[i - 1]];
        i := i - 1;
      }
      if direction == Left {
        x := x[0 := x[0] - SIZE];
      }
      if direction == Right {
        x := x[0 := x[0] + SIZE];
      }
      if direction == Up {
        y := y[0 := y[0] - SIZE];
      }
      if direction == Down {
        y := y[0 := y[0] + SIZE];
      }
      assert x == Walked(old(Model())).xs;
      assert y == Walked(old(Model())).ys;
    }

    /** Count one more segment and append the sentinel to both coordinate lists. */
    method IncreaseLength()
      requires Valid()
      modifies this`length, this`x, this`y
      ensures Valid() && length == old(length) + 1 && Model() == Grown(old(Model()))
    {
      length := length + 1;
      x := x + [SENTINEL];
      y := y + [SENTINEL];
    }
  }
}
