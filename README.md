# Snake game: a verified model of the game loop

This project models the logic of a small pygame snake game (`SnakeGame2.py`) in Dafny. The
model leaves out drawing, sound and timing and keeps the discrete state machine that
remains, over integer pixel coordinates:

- **Snake** (`snake.dfy`, module `Snakes`). Class `Snake` keeps the game's own fields: the
  parallel coordinate lists `x` and `y` (index 0 is the head), `length` and `direction`.
  `Walk` is the tail-first shifting loop followed by a one-cell head move. `IncreaseLength`
  appends the `(-1, -1)` sentinel segment. The four `MoveX` methods turn the snake but refuse
  an exact reversal. The value type `SnakeState` and the functions `Walked`, `Grown` and
  `Turn` give the meaning of each step. The methods are proved to agree with them.
- **Food** (`food.dfy`, module `Foods`). Class `Food` holds one position. `random.randint`
  becomes a caller-supplied `Cell` (column and row index). Its precondition `ValidCell` is
  the range the game draws from: `1..WINDOW_WIDTH//SIZE-1` and `1..WINDOW_HEIGHT//SIZE-1`.
- **Grid** (`geometry.dfy`, module `Geometry`). The constants `SIZE = 25`,
  `WINDOW_WIDTH = 1000` and `WINDOW_HEIGHT = 600`, the sentinel `-1`, and the interior cells
  food can occupy.
- **Game** (`game.dfy`, module `Games`). Class `Game` owns one `Snake` and one `Food`:
  - `Play` is one tick: walk, then the eat check, then the collision check.
  - `IsSnakeCollide` tests the boundary first and then segments `3..length-1`. It returns
    `Continue` or `Collided` instead of raising.
  - `HandleEvents` is the `for` loop over one poll of events.
  - `Pass` is the body of the main loop, and `Run` is the main `while` loop over a finite
    series of polls.
  - A collision pauses the game and replaces the snake and the food (`RestartGame`).
  - The value-level functions `Tick`, `ApplyEvent`/`ApplyEvents`, `Iterate` (one pass of the
    main loop) and `RunFrom` (the whole loop) specify these methods. The state-machine
    properties are lemmas about those functions.
- **Scenarios** (`scenarios.dfy`). Concrete instances of a tick, stated as lemmas: a first move, a first meal
  and the walk that fills the new tail, a five-segment self-collision, and the boundary edges.

Behaviour kept exactly as the code has it:
- There is no separate game-over state. A collision sets the same pause flag that Space
  toggles, and the next Space resumes with the fresh snake.
- `running` is tested only at the top of the main loop. An Escape or a window close in a
  poll still lets that pass's tick run (`EscapeStillTicks`).
- Two Space presses in one poll cancel out, and that pass then ticks as usual.
- Food may be redrawn onto a snake segment. A tick that eats can therefore still end in a
  self-collision, but never in a boundary collision (`EatingNeverHitsBoundary`).
- The sentinel tail stays in the game's state until the next walk fills it, and a Space
  press can put that walk off for any number of passes (`FirstTickEats`,
  `SecondTickFillsTail`). It is dropped early only when a self-collision follows the meal
  in the same tick, because the restart then replaces the snake. It can never match the
  head, because the head is always grid-aligned.
- The no-reversal guard compares with the current heading on each key press only. Two
  arrow keys in one poll can therefore reverse the heading between two walks, for example
  Left then Up while heading down (`TwoArrowsReverse`). The reversed head lands on segment 2,
  which the collision test skips, so the snake just doubles back (`ReversedWalkSkipsCollision`).

## Model

| member | source | states |
|---|---|---|
| Geometry.CellX | SnakeGame2.py:15 | a drawn column gives an x that is a multiple of SIZE in [SIZE, WINDOW_WIDTH-SIZE] |
| Geometry.CellY | SnakeGame2.py:16 | a drawn row gives a y that is a multiple of SIZE in [SIZE, WINDOW_HEIGHT-SIZE] |
| Geometry.FoodSpotIffDrawn | SnakeGame2.py:15-16 | the positions a draw can produce are exactly the grid-aligned interior cells (both directions) |
| Foods.Food.constructor | SnakeGame2.py:13-16 | new food sits on the drawn cell, an aligned interior spot |
| Foods.Food.Move | SnakeGame2.py:23-25 | relocated food sits on the drawn cell, an aligned interior spot |
| Snakes.Turn | SnakeGame2.py:39-53 | the new heading is never the reverse of the old one; the request is taken exactly when it is not the reverse, otherwise the heading is kept |
| Snakes.Snake.MoveLeft | SnakeGame2.py:39-41 | heading becomes Left unless it was Right; nothing else changes |
| Snakes.Snake.MoveRight | SnakeGame2.py:43-45 | heading becomes Right unless it was Left; nothing else changes |
| Snakes.Snake.MoveUp | SnakeGame2.py:47-49 | heading becomes Up unless it was Down; nothing else changes |
| Snakes.Snake.MoveDown | SnakeGame2.py:51-53 | heading becomes Down unless it was Up; nothing else changes |
| Snakes.Spawn | SnakeGame2.py:33-37 | a new snake has one segment at (SIZE, SIZE) and heads down |
| Snakes.Snake.constructor | SnakeGame2.py:31-37 | the object starts as the spawn snake, with length 1 and the list invariant holding |
| Snakes.Shifted | SnakeGame2.py:57-59 | the shift keeps the head and gives each later index the old value of the index before it |
| Snakes.Walked | SnakeGame2.py:55-69 | a walk keeps length and heading, moves every body segment to its predecessor's old place, and offsets the head by the heading's step |
| Snakes.Snake.Walk | SnakeGame2.py:55-69 | the tail-first in-place loop and the head update leave exactly the walked snake; length and heading are untouched |
| Snakes.WalkMovesHeadOneCell | SnakeGame2.py:61-69 | the head moves exactly SIZE along one axis only, in the heading's sense |
| Snakes.WalkSettles | SnakeGame2.py:57-69 | from a sane snake, a walk puts every segment, the former sentinel included, on the grid |
| Snakes.Grown | SnakeGame2.py:83-86 | growth adds exactly one segment holding the sentinel on both axes and keeps every existing segment |
| Snakes.Snake.IncreaseLength | SnakeGame2.py:83-86 | length goes up by one and both lists get the sentinel appended |
| Snakes.GrowKeepsSane | SnakeGame2.py:83-86 | growing a snake whose segments are all on the grid leaves only the tail off the grid, as the sentinel |
| Snakes.SaneHeadIsNotSentinel | SnakeGame2.py:36-37 | the head of a sane snake never equals the sentinel |
| Snakes.GrowThenWalkFillsTail | SnakeGame2.py:57-59 | the walk after a growth is the ordinary walk plus a tail copied from the old last segment |
| Games.Fresh | SnakeGame2.py:156-158 | a restarted world has the spawn snake and the food on the drawn cell, and satisfies the game invariant |
| Games.Game.constructor | SnakeGame2.py:91-102 | a new game holds a fresh snake and fresh food |
| Games.Game.RestartGame | SnakeGame2.py:156-158 | restart replaces the snake and the food by new objects in the fresh state |
| Games.Game.SnakeEatApple | SnakeGame2.py:120-124 | if the head is on the food, the snake grows by one and the food moves to the drawn cell; otherwise both are unchanged |
| Games.Game.IsSnakeCollide | SnakeGame2.py:126-138 | Collided exactly when the head is on or beyond a window edge or equals some segment with index 3..length-1 |
| Games.ShortSnakeNeverHitsSelf | SnakeGame2.py:133-138 | a snake of at most three segments never collides with itself |
| Games.Tick | SnakeGame2.py:161-171 | a tick keeps the heading, moves the head one step along it and each body segment to its predecessor's old place, grows the snake by one (a sentinel tail) exactly when the walked head is on the food, moves the food only then, and reports Collided exactly when the resulting snake collides |
| Games.Game.Play | SnakeGame2.py:161-171 | walk, eat and collision test on the objects give exactly the value-level tick, and keep the game invariant |
| Games.TickKeepsWorldOk | SnakeGame2.py:161-171 | a tick keeps every segment aligned except a sentinel tail, and the food on an interior cell |
| Games.EatingNeverHitsBoundary | SnakeGame2.py:120-138 | a tick that eats never ends outside the window; if it collides, the cause is a self-collision |
| Games.ApplyEvent | SnakeGame2.py:189-212 | Space toggles pause, Escape and window close clear running, an arrow turns only while unpaused, and no event reverses the heading; only an arrow key can change the heading |
| Games.ApplyEvents | SnakeGame2.py:188-212 | the events of a poll in order never set running again once cleared, and a poll without arrow keys leaves the heading unchanged |
| Games.PauseParity | SnakeGame2.py:193-196 | after a poll the game is paused exactly when the start state and the parity of Space presses say so |
| Games.RunningUntilQuit | SnakeGame2.py:189-212 | a poll leaves the game running exactly when no Escape or window close is in it |
| Games.PausedPollKeepsHeading | SnakeGame2.py:198-209 | while paused, a poll without Space keeps the game paused and ignores arrow keys |
| Games.Game.HandleEvents | SnakeGame2.py:188-212 | the event loop gives the flags and heading of the event fold and changes nothing but the heading |
| Games.Iterate | SnakeGame2.py:187-220 | one pass keeps the snake well formed and ends running exactly when its poll had no quit event |
| Games.IterateKeepsWorldOk | SnakeGame2.py:213-220 | a pass, restart included, keeps the game invariant |
| Games.UnpausedPassTicks | SnakeGame2.py:188-220 | a pass applies the poll's heading; a poll that leaves the game paused leaves the world as it was and the game paused, otherwise the steered world is ticked and, without a collision, the pass ends unpaused with the ticked world |
| Games.PausedPollFreezes | SnakeGame2.py:213-215 | while paused, a poll without Space leaves snake and food frozen and the game paused |
| Games.CollisionRestarts | SnakeGame2.py:217-220 | a pass whose tick collides ends paused with a one-segment spawn snake and fresh food |
| Games.PauseThenResume | SnakeGame2.py:193-215 | Space pauses without movement, and a later Space resumes exactly as if no pause had happened |
| Games.EscapeStillTicks | SnakeGame2.py:187-215 | an Escape or a window close at the end of a poll clears running but the pass still ticks as without it |
| Games.Game.Pass | SnakeGame2.py:188-220 | one pass on the objects (event loop, tick unless paused, restart on a collision) ends in exactly the frame of the value-level pass, with the game invariant kept |
| Games.RunFrom | SnakeGame2.py:183-222 | the loop over the polls keeps the snake well formed; its behaviour is stated by RunKeepsWorldOk and RunEndsOnlyOnQuit, and Game.Run is proved equal to it |
| Games.RunKeepsWorldOk | SnakeGame2.py:183-222 | any number of passes keep the game invariant |
| Games.RunEndsOnlyOnQuit | SnakeGame2.py:183-222 | the loop ends with running cleared exactly when some poll holds Escape or a window close |
| Games.Game.Run | SnakeGame2.py:183-222 | the main loop on the objects ends in the state, pause flag and running flag of the value-level run |
| Scenarios.FirstTickMovesDown | SnakeGame2.py:161-171 | a fresh snake with food elsewhere moves to (25, 50) and stays one segment long |
| Scenarios.FirstTickEats | SnakeGame2.py:120-124 | food at (25, 50) is eaten on the first tick for every redraw: length 2, sentinel tail, food on the drawn cell, no collision |
| Scenarios.SecondTickFillsTail | SnakeGame2.py:55-59 | the tick after that meal fills the tail with (25, 50), unless the food was redrawn onto the next head cell (25, 75) |
| Scenarios.TwoArrowsReverse | SnakeGame2.py:39-53 | heading down, Left then Up in one poll leave the snake heading up, the exact reverse |
| Scenarios.ReversedWalkSkipsCollision | SnakeGame2.py:133-138 | after such a reversal the head lands on segment 2 and the snake does not collide |
| Scenarios.FiveSegmentCollision | SnakeGame2.py:133-138 | segment 4 on the head is a collision; segment 2 on the head is not |
| Scenarios.BoundaryEdges | SnakeGame2.py:128 | a head on an edge collides; one cell inside each edge does not |

## Left out

- Drawing (`draw` methods, `renderBackground`, `displayScore`, the `gameOver` and `pauseGame` overlays, `display.flip`): foreign library calls with no effect on the game state.
- Audio (`playBackgroundMusic`, `playSound`, music pause and unpause): output side effects with no effect on the game state.
- `pygame.init`, window and mixer set-up in `Game.__init__`: library initialisation; the constructor models only the snake and the food it creates.
- `time.sleep(.22)`: timing, not logic.
- `pygame.event.get()`: each poll is given as a sequence of abstract events; event types and keys the game ignores are `OtherEvent` and `OtherKey`.
- `random.randint`: each draw is a `Cell` argument whose precondition is the draw's range, not a random choice.
- Exceptions: the collision `raise` and the broad `except Exception` become the `TickResult` value. No other exception can arise in the modelled code, so nothing else the handler might catch is modelled.
- Games.Game.Run: the game's loop never ends on its own input; the model runs over a finite series of polls and stops with `running` still set when they run out.
