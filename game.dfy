/** The game controller: one snake, one food item, the per-tick algorithm (walk, eat,
    collide), the event handling of the main loop and the pause / game-over / restart
    state machine. The functions give the meaning of each step on values; class Game
    performs the same steps on its objects and is proved to agree with them. */
module Games {
  import opened Geometry
  import opened Snakes
  import opened Foods

  datatype Key = Escape | Space | Arrow(dir: Direction) | OtherKey

  /** A polled input event: a key press, the window's close button, or anything else. */
  datatype Event = KeyDown(key: Key) | WindowClose | OtherEvent

  /** The outcome of one tick; the game signals a collision by raising, caught by the loop. */
  datatype TickResult = Continue | Collided

  /** Everything one tick reads and writes: the snake and the food position. */
  datatype World = World(snake: SnakeState, foodX: int, foodY: int)

  /** The flags and the heading that event handling updates. */
  datatype Control = Control(paused: bool, running: bool, heading: Direction)

  /** The state at the end of one pass of the main loop. */
  datatype Frame = Frame(world: World, paused: bool, running: bool)

  // ---------------------------------------------------------------- one tick

  predicate HitsBoundary(x: int, y: int) {
    x <= 0 || x >= WINDOW_WIDTH || y <= 0 || y >= WINDOW_HEIGHT
  }

  /** Some segment at index 3 or beyond lies on the head; the three nearest are exempt. */
  predicate HitsSelf(s: SnakeState)
    requires s.Valid()
  {
    exists i :: 3 <= i < |s.xs| && s.xs[i] == s.xs[0] && s.ys[i] == s.ys[0]
  }

  predicate Collides(s: SnakeState)
    requires s.Valid()
  {
    HitsBoundary(s.xs[0], s.ys[0]) || HitsSelf(s)
  }

  predicate Eats(s: SnakeState, foodX: int, foodY: int)
    requires s.Valid()
  {
    s.xs[0] == foodX && s.ys[0] == foodY
  }

  /** The invariant of a running game: a sane snake and food on an interior cell. */
  predicate WorldOk(w: World) {
    Sane(w.snake) && FoodSpot(w.foodX, w.foodY)
  }

  /** The world right after construction or a restart. */
  function Fresh(c: Cell): (w: World)
    requires ValidCell(c)
    ensures WorldOk(w) && w.snake == Spawn()
    ensures w.foodX == CellX(c) && w.foodY == CellY(c)
  {
    World(Spawn(), CellX(c), CellY(c))
  }

  /** One tick: walk, then eat (grow and relocate the food to `eat`), then test for a collision. */
  function Tick(w: World, eat: Cell): (r: (World, TickResult))
    requires w.snake.Valid() && ValidCell(eat)
    ensures r.0.snake.Valid() && r.0.snake.heading == w.snake.heading
    ensures var ate := Eats(Walked(w.snake), w.foodX, w.foodY);
      r.0.snake.Length() == w.snake.Length() + (if ate then 1 else 0) &&
      (ate ==> r.0.foodX == CellX(eat) && r.0.foodY == CellY(eat)) &&
      (!ate ==> r.0.foodX == w.foodX && r.0.foodY == w.foodY)
    ensures var n, s := w.snake.Length(), r.0.snake;
      s.xs[0] == w.snake.xs[0] + DeltaX(w.snake.heading) &&
      s.ys[0] == w.snake.ys[0] + DeltaY(w.snake.heading) &&
      (forall i :: 1 <= i < n ==> s.xs[i] == w.snake.xs[i - 1] && s.ys[i] == w.snake.ys[i - 1]) &&
      (s.Length() > n ==> s.xs[n] == SENTINEL && s.ys[n] == SENTINEL)
    ensures r.1 == Collided <==> Collides(r.0.snake)
  {
    var moved := Walked(w.snake);
    var fed :=
      if Eats(moved, w.foodX, w.foodY) then World(Grown(moved), CellX(eat), CellY(eat))
      else World(moved, w.foodX, w.foodY);
    (fed, if Collides(fed.snake) then Collided else Continue)
  }

  /** A tick keeps the game invariant: the sentinel of a growth is gone by the next growth. */
  lemma TickKeepsWorldOk(w: World, eat: Cell)
    requires WorldOk(w) && ValidCell(eat)
    ensures WorldOk(Tick(w, eat).0)
  {
    WalkSettles(w.snake);
    var moved := Walked(w.snake);
    if Eats(moved, w.foodX, w.foodY) {
      GrowKeepsSane(moved);
    }
  }

  /** Food lies inside the window, so a tick that eats can only end in a self-collision. */
  lemma EatingNeverHitsBoundary(w: World, eat: Cell)
    requires w.snake.Valid() && ValidCell(eat) && FoodSpot(w.foodX, w.foodY)
    requires Eats(Walked(w.snake), w.foodX, w.foodY)
    ensures var s := Tick(w, eat).0.snake; !HitsBoundary(s.xs[0], s.ys[0])
    ensures Tick(w, eat).1 == Collided ==> HitsSelf(Tick(w, eat).0.snake)
  {
  }

  /** A snake of three segments or fewer never collides with itself. */
  lemma ShortSnakeNeverHitsSelf(s: SnakeState)
    requires s.Valid() && s.Length() <= 3
    ensures !HitsSelf(s)
  {
  }

  // ---------------------------------------------------------------- event handling

  /** The effect of one event: Escape and window close clear `running`, Space toggles
      `paused`, and an arrow turns the snake only when the game is (still) unpaused. */
  function ApplyEvent(c: Control, e: Event): (r: Control)
    ensures r.paused == (c.paused != (e == KeyDown(Space)))
    ensures r.running == (c.running && e != KeyDown(Escape) && e != WindowClose)
    ensures r.heading != Opposite(c.heading)
    ensures r.paused ==> r.heading == c.heading
    ensures !r.paused && e.KeyDown? && e.key.Arrow? ==> r.heading == Turn(c.heading, e.key.dir)
    ensures !(e.KeyDown? && e.key.Arrow?) ==> r.heading == c.heading
  {
    match e
    case KeyDown(k) =>
      var running := if k == Escape then false else c.running;
      var paused := if k == Space then !c.paused else c.paused;
      var heading := if !paused && k.Arrow? then Turn(c.heading, k.dir) else c.heading;
      Control(paused, running, heading)
    case WindowClose => c.(running := false)
    case OtherEvent => c
  }

  /** The events of one poll, applied in order. */
  function ApplyEvents(c: Control, es: seq<Event>): (r: Control)
    ensures r.running ==> c.running
    ensures (forall i :: 0 <= i < |es| ==> !(es[i].KeyDown? && es[i].key.Arrow?)) ==> r.heading == c.heading
    decreases |es|
  {
    if es == [] then c else ApplyEvent(ApplyEvents(c, es[..|es| - 1]), es[|es| - 1])
  }

  function SpaceCount(es: seq<Event>): nat
    decreases |es|
  {
    if es == [] then 0
    else SpaceCount(es[..|es| - 1]) + (if es[|es| - 1] == KeyDown(Space) then 1 else 0)
  }

  /** The game ends up paused exactly when it started paused and saw an even number of
      Space presses, or started unpaused and saw an odd number. */
  lemma {:induction false} PauseParity(c: Control, es: seq<Event>)
    ensures ApplyEvents(c, es).paused == (c.paused != (SpaceCount(es) % 2 == 1))
    decreases |es|
  {
    if es != [] {
      PauseParity(c, es[..|es| - 1]);
    }
  }

  /** Still running after a poll exactly when running before it and no Escape or close came. */
  lemma {:induction false} RunningUntilQuit(c: Control, es: seq<Event>)
    ensures ApplyEvents(c, es).running <==>
      c.running && forall i :: 0 <= i < |es| ==> es[i] != KeyDown(Escape) && es[i] != WindowClose
    decreases |es|
  {
    if es != [] {
      var init := es[..|es| - 1];
      RunningUntilQuit(c, init);
      assert forall i :: 0 <= i < |init| ==> init[i] == es[i];
    }
  }

  /** While paused, a poll without Space keeps the game paused and the heading unchanged:
      arrow keys are ignored. */
  lemma {:induction false} PausedPollKeepsHeading(c: Control, es: seq<Event>)
    requires c.paused
    requires forall i :: 0 <= i < |es| ==> es[i] != KeyDown(Space)
    ensures ApplyEvents(c, es).paused && ApplyEvents(c, es).heading == c.heading
    decreases |es|
  {
    if es != [] {
      var init := es[..|es| - 1];
      assert forall i :: 0 <= i < |init| ==> init[i] == es[i];
      PausedPollKeepsHeading(c, init);
    }
  }

  // ---------------------------------------------------------------- the main loop

  /** One pass of the main loop: handle the poll's events (the loop starts each pass
      running), then tick unless paused; a collision pauses the game and restarts it
      with a fresh snake and food drawn at `respawn`. */
  function Iterate(w: World, paused: bool, events: seq<Event>, eat: Cell, respawn: Cell): (f: Frame)
    requires w.snake.Valid() && ValidCell(eat) && ValidCell(respawn)
    ensures f.world.snake.Valid()
    ensures f.running == ApplyEvents(Control(paused, true, w.snake.heading), events).running
  {
    var c := ApplyEvents(Control(paused, true, w.snake.heading), events);
    var steered := w.(snake := w.snake.(heading := c.heading));
    if c.paused then Frame(steered, true, c.running)
    else
      var t := Tick(steered, eat);
      if t.1 == Collided then Frame(Fresh(respawn), true, c.running)
      else Frame(t.0, false, c.running)
  }

  lemma IterateKeepsWorldOk(w: World, paused: bool, events: seq<Event>, eat: Cell, respawn: Cell)
    requires WorldOk(w) && ValidCell(eat) && ValidCell(respawn)
    ensures WorldOk(Iterate(w, paused, events, eat, respawn).world)
  {
    var c := ApplyEvents(Control(paused, true, w.snake.heading), events);
    TickKeepsWorldOk(w.(snake := w.snake.(heading := c.heading)), eat);
  }

  /** The main case of a pass: the poll's heading is applied to the snake; if the poll
      leaves the game paused the world stays so and the game stays paused, otherwise the
      pass ticks that steered world and, unless the tick collides, ends unpaused with the
      ticked world. */
  lemma UnpausedPassTicks(w: World, paused: bool, events: seq<Event>, eat: Cell, respawn: Cell)
    requires w.snake.Valid() && ValidCell(eat) && ValidCell(respawn)
    ensures var c := ApplyEvents(Control(paused, true, w.snake.heading), events);
      var s := w.(snake := w.snake.(heading := c.heading));
      var f := Iterate(w, paused, events, eat, respawn);
      (c.paused ==> f.world == s && f.paused) &&
      (!c.paused && Tick(s, eat).1 == Continue ==> f.world == Tick(s, eat).0 && !f.paused)
  {
  }

  /** While paused, a poll without Space freezes the snake and the food and stays paused. */
  lemma PausedPollFreezes(w: World, events: seq<Event>, eat: Cell, respawn: Cell)
    requires w.snake.Valid() && ValidCell(eat) && ValidCell(respawn)
    requires forall i :: 0 <= i < |events| ==> events[i] != KeyDown(Space)
    ensures var f := Iterate(w, true, events, eat, respawn); f.world == w && f.paused
  {
    PausedPollKeepsHeading(Control(true, true, w.snake.heading), events);
  }

  /** A pass whose tick collides ends paused, with a fresh snake and fresh food. */
  lemma CollisionRestarts(w: World, paused: bool, events: seq<Event>, eat: Cell, respawn: Cell)
    requires w.snake.Valid() && ValidCell(eat) && ValidCell(respawn)
    requires var c := ApplyEvents(Control(paused, true, w.snake.heading), events);
      !c.paused && Tick(w.(snake := w.snake.(heading := c.heading)), eat).1 == Collided
    ensures var f := Iterate(w, paused, events, eat, respawn);
      f.paused && f.world == Fresh(respawn) && f.world.snake.Length() == 1
  {
  }

  /** Pressing Space pauses without any movement, and pressing it again in a later poll
      acts exactly as if the game had never been paused. */
  lemma PauseThenResume(w: World, eat: Cell, respawn: Cell)
    requires w.snake.Valid() && ValidCell(eat) && ValidCell(respawn)
    ensures Iterate(w, false, [KeyDown(Space)], eat, respawn) == Frame(w, true, true)
    ensures Iterate(w, true, [KeyDown(Space)], eat, respawn) == Iterate(w, false, [], eat, respawn)
  {
  }

  /** Escape or a window close only clears `running`: the pass still ticks, as the loop
      condition is tested only before the next pass. */
  lemma EscapeStillTicks(w: World, paused: bool, events: seq<Event>, quit: Event, eat: Cell, respawn: Cell)
    requires w.snake.Valid() && ValidCell(eat) && ValidCell(respawn)
    requires quit == KeyDown(Escape) || quit == WindowClose
    ensures var f := Iterate(w, paused, events + [quit], eat, respawn);
      var g := Iterate(w, paused, events, eat, respawn);
      !f.running && f.world == g.world && f.paused == g.paused
  {
  }

  /** The main loop over a finite series of polls: it stops after the pass in which the
      game quits, or when the polls run out. `eats[i]` and `respawns[i]` are the draws
      pass `i` uses. */
  function RunFrom(w: World, paused: bool, polls: seq<seq<Event>>, eats: seq<Cell>, respawns: seq<Cell>): (f: Frame)
    requires w.snake.Valid() && |eats| == |polls| && |respawns| == |polls|
    requires forall i :: 0 <= i < |polls| ==> ValidCell(eats[i]) && ValidCell(respawns[i])
    ensures f.world.snake.Valid()
    decreases |polls|
  {
    if polls == [] then Frame(w, paused, true)
    else
      var f := Iterate(w, paused, polls[0], eats[0], respawns[0]);
      if !f.running then f
      else RunFrom(f.world, f.paused, polls[1..], eats[1..], respawns[1..])
  }

  /** However many passes run, the snake stays sane and the food on an interior cell. */
  lemma {:induction false} RunKeepsWorldOk(w: World, paused: bool, polls: seq<seq<Event>>, eats: seq<Cell>, respawns: seq<Cell>)
    requires WorldOk(w) && |eats| == |polls| && |respawns| == |polls|
    requires forall i :: 0 <= i < |polls| ==> ValidCell(eats[i]) && ValidCell(respawns[i])
    ensures WorldOk(RunFrom(w, paused, polls, eats, respawns).world)
    decreases |polls|
  {
    if polls != [] {
      IterateKeepsWorldOk(w, paused, polls[0], eats[0], respawns[0]);
      var f := Iterate(w, paused, polls[0], eats[0], respawns[0]);
      if f.running {
        RunKeepsWorldOk(f.world, f.paused, polls[1..], eats[1..], respawns[1..]);
      }
    }
  }

  /** The loop stops on its own exactly when some poll holds Escape or a window close. */
  lemma {:induction false} RunEndsOnlyOnQuit(w: World, paused: bool, polls: seq<seq<Event>>, eats: seq<Cell>, respawns: seq<Cell>)
    requires w.snake.Valid() && |eats| == |polls| && |respawns| == |polls|
    requires forall i :: 0 <= i < |polls| ==> ValidCell(eats[i]) && ValidCell(respawns[i])
    ensures RunFrom(w, paused, polls, eats, respawns).running <==>
      forall i, j :: 0 <= i < |polls| && 0 <= j < |polls[i]| ==>
        polls[i][j] != KeyDown(Escape) && polls[i][j] != WindowClose
    decreases |polls|
  {
    if polls != [] {
      RunningUntilQuit(Control(paused, true, w.snake.heading), polls[0]);
      var f := Iterate(w, paused, polls[0], eats[0], respawns[0]);
      if f.running {
        RunEndsOnlyOnQuit(f.world, f.paused, polls[1..], eats[1..], respawns[1..]);
        assert forall i :: 1 <= i < |polls| ==> polls[i] == polls[1..][i - 1];
      }
    }
  }

  // ---------------------------------------------------------------- the game object

  class Game {
    var snake: Snake
    var food: Food

    ghost function State(): World
      reads this, snake, food
    {
      World(snake.Model(), food.x, food.y)
    }

    ghost predicate Valid()
      reads this, snake, food
    {
      snake.Valid() && WorldOk(State())
    }

    /** A game with a fresh snake and food on the drawn cell. */
    constructor (c: Cell)
      requires ValidCell(c)
      ensures Valid() && State() == Fresh(c)
    {
      snake := new Snake();
      food := new Food(c);
    }

    /** If the head is on the food, grow the snake and move the food to the drawn cell. */
    method SnakeEatApple(c: Cell)
      requires snake.Valid() && ValidCell(c)
      modifies snake`length, snake`x, snake`y, food
      ensures snake.Valid()
      ensures var ate := Eats(old(snake.Model()), old(food.x), old(food.y));
        snake.Model() == (if ate then Grown(old(snake.Model())) else old(snake.Model())) &&
        food.x == (if ate then CellX(c) else old(food.x)) &&
        food.y == (if ate then CellY(c) else old(food.y))
    {
      if snake.x[0] == food.x && snake.y[0] == food.y {
        snake.IncreaseLength();
        food.Move(c);
      }
    }

    /** Collided when the head is on or past an edge of the window, or on a segment at
        index 3 or beyond. */
    method IsSnakeCollide() returns (r: TickResult)
      requires snake.Valid()
      ensures r == Collided <==> Collides(snake.Model())
    {
      if snake.x[0] <= 0 || snake.x[0] >= WINDOW_WIDTH || snake.y[0] <= 0 || snake.y[0] >= WINDOW_HEIGHT {
        return Collided;
      }
      var i := 3;
      while i < snake.length
        invariant 3 <= i
        invariant forall k :: 3 <= k < i && k < snake.length ==> !(snake.x[k] == snake.x[0] && snake.y[k] == snake.y[0])
      {
        var x1, y1 := snake.x[0], snake.y[0];
        var x2, y2 := snake.x[i], snake.y[i];
        if x1 == x2 && y1 == y2 {
          return Collided;
        }
        i := i + 1;
      }
      return Continue;
    }

    /** One tick on the objects: walk, eat, then test for a collision. */
    method Play(eat: Cell) returns (r: TickResult)
      requires Valid() && ValidCell(eat)
      modifies snake`length, snake`x, snake`y, food
      ensures Valid() && (State(), r) == Tick(old(State()), eat)
    {
      ghost var w := State();
      snake.Walk();
      SnakeEatApple(eat);
      r := IsSnakeCollide();
      TickKeepsWorldOk(w, eat);
    }

    /** Replace the snake and the food with fresh ones. */
    method RestartGame(c: Cell)
      requires ValidCell(c)
      modifies this
      ensures Valid() && State() == Fresh(c) && fresh(snake) && fresh(food)
    {
      snake := new Snake();
      food := new Food(c);
    }

    /** The event loop of one pass: each event in turn may quit, toggle the pause, or
        (when unpaused) steer the snake. */
    method HandleEvents(events: seq<Event>, paused: bool) returns (nowPaused: bool, running: bool)
      requires Valid()
      modifies snake`direction
      ensures Valid() && State() == old(State()).(snake := old(State()).snake.(heading := snake.direction))
      ensures Control(nowPaused, running, snake.direction) ==
              ApplyEvents(Control(paused, true, old(snake.direction)), events)
    {
      nowPaused, running := paused, true;
      for k := 0 to |events|
        invariant Control(nowPaused, running, snake.direction) ==
                  ApplyEvents(Control(paused, true, old(snake.direction)), events[..k])
      {
        match events[k] {
        case KeyDown(key) =>
          if key == Escape {
            running := false;
          }
          if key == Space {
            nowPaused := !nowPaused;
          }
          if !nowPaused {
            if key == Arrow(Left) {
              snake.MoveLeft();
            }
            if key == Arrow(Right) {
              snake.MoveRight();
            }
            if key == Arrow(Up) {
              snake.MoveUp();
            }
            if key == Arrow(Down) {
              snake.MoveDown();
            }
          }
        case WindowClose =>
          running := false;
        case OtherEvent =>
        }
        assert events[..k + 1][..k] == events[..k];
      }
      assert events[..|events|] == events;
    }

    /** One pass of the main loop: handle the poll, then tick unless paused; a collision
        pauses the game and restarts it. */
    method Pass(paused: bool, events: seq<Event>, eat: Cell, respawn: Cell) returns (nowPaused: bool, running: bool)
      requires Valid() && ValidCell(eat) && ValidCell(respawn)
      modifies this, snake, food
      ensures Valid() && Frame(State(), nowPaused, running) == Iterate(old(State()), paused, events, eat, respawn)
      ensures snake == old(snake) || fresh(snake)
      ensures food == old(food) || fresh(food)
    {
      nowPaused, running := HandleEvents(events, paused);
      if !nowPaused {
        var r := Play(eat);
        if r == Collided {
          nowPaused := true;
          RestartGame(respawn);
        }
      }
    }

    /** The main loop over a finite series of polls, starting unpaused. */
    method Run(polls: seq<seq<Event>>, eats: seq<Cell>, respawns: seq<Cell>) returns (paused: bool, running: bool)
      requires Valid() && |eats| == |polls| && |respawns| == |polls|
      requires forall i :: 0 <= i < |polls| ==> ValidCell(eats[i]) && ValidCell(respawns[i])
      modifies this, snake, food
      ensures Valid() && Frame(State(), paused, running) == RunFrom(old(State()), false, polls, eats, respawns)
    {
      running, paused := true, false;
      var k := 0;
      while running && k < |polls|
        invariant 0 <= k <= |polls| && Valid()
        invariant snake == old(snake) || fresh(snake)
        invariant food == old(food) || fresh(food)
        invariant running ==> RunFrom(State(), paused, polls[k..], eats[k..], respawns[k..]) ==
                              RunFrom(old(State()), false, polls, eats, respawns)
        invariant !running ==> Frame(State(), paused, false) == RunFrom(old(State()), false, polls, eats, respawns)
      {
        paused, running := Pass(paused, polls[k], eats[k], respawns[k]);
        assert polls[k..][1..] == polls[k + 1..];
        assert eats[k..][1..] == eats[k + 1..];
        assert respawns[k..][1..] == respawns[k + 1..];
        k := k + 1;
      }
    }
  }
}
