# Crossy Roads: a model of the per-tick simulation

This project models the game logic of a small pygame arcade game. A 40×40
player crosses four road lanes on an 800×600 screen. Eight 40×50 "cars" drive
across those lanes. Each car is good food or bad food. Touching good food adds
5 to the score and removes it. Touching bad food ends the run.

Everything is pure functions over immutable records:

- `Geometry`: the screen constants and pygame-style rectangles. It defines
  `Overlaps` (the collision test) and `WithCenter` (the `rect.center = …`
  assignment, with C's truncating division).
- `PlayerMotion`: `Player.update`. The four guarded 10-pixel steps run in the
  order left, right, up, down. Each guard looks at the box as already moved by
  the steps before it.
- `CarMotion`: `Car.__init__` and `Car.update`. The random draws are
  parameters. The wrap-around sends a car back to the entry side for the sign
  of its speed. The module proves that every car is periodic.
- `Collision`: the collision block. First comes the list of hits that
  `spritecollide` returns, in group order. Then the loop runs over those hits
  and never breaks. The source calls `kill()` inside the loop body. The model
  instead records the killed positions and removes them after the loop. That
  is equivalent, because the loop runs over the list `spritecollide` already
  returned, so a removal cannot change which cars the loop visits. Lemmas tie
  these stages to a reference filter (`Kept`). They also prove that the
  visiting order does not matter.
- `GameLoop`: the initial state, one tick (quit flag, player move, car moves,
  collisions, crossing reset) and the `while not game_over` loop. A game
  invariant covers the player grid, car validity, lanes and the score.

Facts about the code that the model keeps:

- `Player.update` tests whether the current edge is strictly inside the
  screen, not whether the moved box would stay inside. Off the 10-pixel grid
  that lets the player leave the screen. `UpdateKeepsOnGrid` gives the bounds
  for reachable states, which are all on the grid.
- The four directions are applied in sequence, and each guard reads the box
  already moved by the steps before it. `LeftAndRightHeld` and `UpAndDownHeld`
  show the visible effect. Holding left and right at the left wall moves the
  player right. Holding up and down at the top edge moves the player down.
- `rect.center = (400, 550)` on a 40×40 box puts its top-left at (380, 530).

## Model

| member | source | states |
|---|---|---|
| Geometry.WithCenter | src/crossyroads.py:154 | setting the centre keeps the size and places the box symmetrically around the given point (the odd extra pixel goes right/bottom) |
| Geometry.OverlapsIffSharedPixel | src/crossyroads.py:141 | for boxes of positive size, the collision test holds exactly when some pixel lies in both boxes |
| PlayerMotion.Spawn | src/crossyroads.py:62-66 | the start box is 40×40 with top-left (380, 530), horizontally centred, bottom edge 30 px above the screen bottom |
| PlayerMotion.Update | src/crossyroads.py:68-80 | size kept; no keys means no move; each axis moves by -10, 0 or +10 and only when one of its keys is held; a single held direction moves exactly 10 iff its edge is strictly inside the screen, otherwise not at all |
| PlayerMotion.SpawnOnGrid | src/crossyroads.py:66 | the start position is on the 10-pixel grid inside the screen |
| PlayerMotion.UpdateKeepsOnGrid | src/crossyroads.py:68-80 | from an on-grid position inside the screen, every key combination stays on the grid and inside [0,760]×[0,560] |
| PlayerMotion.AxesIndependent | src/crossyroads.py:68-80 | the new x depends only on left/right and the new y only on up/down |
| PlayerMotion.LeftAndRightHeld | src/crossyroads.py:70-74 | on the grid, holding left and right cancels out except at the left wall, where the player moves right by 10 |
| PlayerMotion.UpAndDownHeld | src/crossyroads.py:76-80 | on the grid, holding up and down cancels out except at the top edge, where the player moves down by 10 |
| CarMotion.New | src/crossyroads.py:84-95 | x is -40 or 800 by the coin flip; the speed magnitude is the draw in 5..10; speed > 0 exactly when x = -width; y is the lane when it is truthy, else the random draw; the new car is valid |
| CarMotion.Update | src/crossyroads.py:97-102 | only x changes; afterwards -width <= x <= 800 for any start and speed; without a wrap x advances by the speed; with a wrap x is -width for positive speed, else 800 |
| CarMotion.UpdatePreservesValid | src/crossyroads.py:97-102 | size, bounds and speed range of a car are kept by every update |
| CarMotion.WrapsOnLeadingSide | src/crossyroads.py:100-102 | a valid car wraps only on the side it is heading to: right-moving when x passes 800, left-moving when its right edge passes 0 |
| CarMotion.Advance | src/crossyroads.py:97-102 | any number of updates keeps a car's lane, speed and kind, and keeps a valid car valid |
| CarMotion.StraightUntilWrap | src/crossyroads.py:98-102 | from its entry point, after k ticks before the wrap, a car is at entry + k·speed |
| CarMotion.CarIsPeriodic | src/crossyroads.py:98-102 | from its entry point, a valid car is back in exactly its starting state after (840 div abs(speed)) + 1 ticks, and never at the entry point in between |
| Collision.Hits | src/crossyroads.py:141 | the hit list holds exactly the positions of the cars that overlap the player, strictly increasing (group order, no duplicates) |
| Collision.Visit | src/crossyroads.py:142-146 | a good car adds exactly 5 and is killed with the flag untouched; a bad car only sets game-over, with score and kills untouched |
| Collision.Loop | src/crossyroads.py:141-146 | over any hit list the score never falls and grows by a multiple of 5, kills only grow and only by listed positions of good cars, and a set game-over flag stays set |
| Collision.LoopClosedForm | src/crossyroads.py:141-146 | for any duplicate-free hit list the loop adds 5 per good hit, kills exactly the good hits, and sets game-over exactly when some bad car is hit |
| Collision.OrderIrrelevant | src/crossyroads.py:141-146 | two orderings of the same hits give the same score, flag and kills |
| Collision.Kept | src/crossyroads.py:141-146 | a car remains exactly when it was there and is not a good car overlapping the player |
| Collision.KeptLength | src/crossyroads.py:141-146 | the remaining group is shorter than the original by exactly the number of good hits |
| Collision.SurvivorsAreKept | src/crossyroads.py:144 | removing the good hits by position yields the reference group, in order |
| Collision.Survivors | src/crossyroads.py:144 | removing the killed positions keeps every car at an unkilled position, adds no car, and shortens the group by exactly the number of killed positions inside it |
| Collision.Resolve | src/crossyroads.py:141-146 | the remaining cars are the reference group; the score grows by 5 times the number of removed cars; game-over is set iff it was set already or some overlapping car is bad |
| GameLoop.InitialCars | src/crossyroads.py:111-118 | eight valid cars, car i in lane i div 2 (lanes 150, 270, 390, 510), each at its entry point with its drawn kind and speed |
| GameLoop.InitialGameInv | src/crossyroads.py:106-122 | the initial state satisfies the game invariant, score 0, not over, two cars in each lane |
| GameLoop.InitialGame | src/crossyroads.py:106-122 | the run starts with the player box at (380, 530), score 0, not over, and eight cars |
| GameLoop.MoveCars | src/crossyroads.py:138 | every car of the group is updated exactly once, in place, so the group keeps its length and order |
| GameLoop.CrossingReset | src/crossyroads.py:153-154 | size kept; a 40×40 box whose top edge reached 0 goes back to the start box; a box below the top is unchanged |
| GameLoop.Tick | src/crossyroads.py:132-154 | cars after the tick are the moved cars without the good ones the moved player touches; score rises by 5 per removed car and never falls; over iff already over, quit, or a moved bad car is hit; the player is the moved player, or the start box if its top reached 0 and it is 40×40 |
| GameLoop.TickPreservesInv | src/crossyroads.py:132-154 | every tick keeps the player on the grid inside the screen, the cars valid and in their lanes, the score a non-negative multiple of 5, and leaves the player's top edge strictly below the top of the screen |
| GameLoop.QuitStillRunsTick | src/crossyroads.py:132-138 | a quit event changes nothing in its tick but the game-over flag |
| GameLoop.Run | src/crossyroads.py:124-154 | a finished game takes no more ticks; the loop keeps the invariant; the score never falls and equals the start score plus 5 per car removed |
| GameLoop.RunStopsAtGameOver | src/crossyroads.py:124 | after a tick that sets game-over, no later input is read |

## Left out

- `resource_path` and the PyInstaller lookup: packaging plumbing with no game logic.
- Display, asset loading and scaling, fonts and all drawing (`fill`, `draw.rect`, `blit`, `display.update`, the game-over screen): presentation only. The sizes they fix (player 40×40, cars 40×50) are constants of the model.
- `clock.tick(30)` and `pygame.time.wait(2000)`: real-time pacing, with no effect on state.
- Event polling and key state: these are inputs to `GameLoop.Tick`, a quit flag and four held-direction booleans.
- `random.choice` and `random.randint`: the drawn values are parameters. Their library ranges are stated as preconditions (speed 5..10, random y 0..550). The image variant choice is visual only and is not modelled.
- `pygame.sprite.Group` internals: the group is a sequence in iteration order, and `kill()` is removal by position.
- `colliderect`: pygame's own code is not part of this model. `Geometry.Overlaps` states the assumed strict-inequality test on half-open boxes. pygame's special case for zero-sized boxes does not arise, since every box has a positive size.
- The player sprite as a record: the player is just its `Rect`, because the image has no effect on logic.
- 32-bit coordinates inside pygame's `Rect`: not modelled. All reachable coordinates lie between -50 and 850.
