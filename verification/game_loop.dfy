/**
 The game loop: the initial player and car group, one tick (quit event,
 player move, car moves, collisions, crossing reset), and the loop that runs
 ticks until the game is over.
 */
module GameLoop {
  import opened Optional
  import opened Geometry
  import opened CarMotion
  import PlayerMotion
  import Collision

  /** Tops of the four road lanes. */
  const LANES: seq<int> := [HEIGHT / 5 + 30, 2 * HEIGHT / 5 + 30, 3 * HEIGHT / 5 + 30, 4 * HEIGHT / 5 + 30]
  const CARS_PER_LANE: nat := 2

  /** What the loop reads from the event queue and the keyboard in one tick. */
  datatype Input = Input(quit: bool, keys: PlayerMotion.Keys)

  /** Everything the loop carries from one tick to the next. */
  datatype Game = Game(player: Rect, cars: seq<Car>, score: int, over: bool)

  /** The random draws for one car of the initial group. */
  datatype CarDraw = CarDraw(good: bool, fromLeft: bool, magnitude: int)

  /** One draw per car, two cars per lane, each speed drawn from 5..10. */
  predicate DrawsOk(draws: seq<CarDraw>) {
    && |draws| == |LANES| * CARS_PER_LANE
    && forall i :: 0 <= i < |draws| ==> MIN_SPEED <= draws[i].magnitude <= MAX_SPEED
  }

  /** The car group built before the loop: lane by lane, two cars in each. */
  function InitialCars(draws: seq<CarDraw>): (cars: seq<Car>)
    requires DrawsOk(draws)
    ensures |cars| == 8
    ensures forall i :: 0 <= i < |cars| ==>
      && cars[i].rect.y == LANES[i / CARS_PER_LANE]
      && cars[i].good == draws[i].good
      && Abs(cars[i].speed) == draws[i].magnitude
      && cars[i].rect.x == Entry(cars[i])
      && Valid(cars[i])
  {
    seq(|draws|, i requires 0 <= i < |draws| && DrawsOk(draws) =>
      New(draws[i].good, Some(LANES[i / CARS_PER_LANE]), 0, draws[i].fromLeft, draws[i].magnitude))
  }

  /** The state before the first tick: the player at the start, score 0, the game running. */
  function InitialGame(draws: seq<CarDraw>): (g: Game)
    requires DrawsOk(draws)
    ensures g.player == Rect(380, 530, PlayerMotion.PLAYER_SIZE, PlayerMotion.PLAYER_SIZE)
    ensures g.score == 0 && !g.over
    ensures |g.cars| == |LANES| * CARS_PER_LANE
  {
    Game(PlayerMotion.Spawn(), InitialCars(draws), 0, false)
  }

  /**
   What holds before and after every tick: the player is on the grid inside
   the screen, every car is valid and in one of the lanes, and the score is a
   non-negative multiple of 5.
   */
  predicate Inv(g: Game) {
    PlayerMotion.OnGrid(g.player) && CarsInLanes(g.cars) && ScoreOk(g.score)
  }

  predicate CarsInLanes(cars: seq<Car>) {
    forall c :: c in cars ==> Valid(c) && c.rect.y in LANES
  }

  predicate ScoreOk(score: int) {
    score >= 0 && score % Collision.GOOD_REWARD == 0
  }

  /** The initial state satisfies the invariant and has two cars in each lane. */
  lemma InitialGameInv(draws: seq<CarDraw>)
    requires DrawsOk(draws)
    ensures Inv(InitialGame(draws))
    ensures !InitialGame(draws).over && InitialGame(draws).score == 0
    ensures forall l :: 0 <= l < |LANES| ==>
      |set i | 0 <= i < |InitialGame(draws).cars| && InitialGame(draws).cars[i].rect.y == LANES[l]| == CARS_PER_LANE
  {
    var cars := InitialCars(draws);
    forall l | 0 <= l < |LANES|
      ensures |set i | 0 <= i < |cars| && cars[i].rect.y == LANES[l]| == CARS_PER_LANE
    {
      var s := set i | 0 <= i < |cars| && cars[i].rect.y == LANES[l];
      assert s == {2 * l, 2 * l + 1};
    }
  }

  /** `cars.update()`: every car of the group moves once. */
  function MoveCars(cars: seq<Car>): (r: seq<Car>)
    ensures |r| == |cars|
    ensures forall i :: 0 <= i < |cars| ==> r[i] == Update(cars[i])
  {
    seq(|cars|, i requires 0 <= i < |cars| => Update(cars[i]))
  }

  /**
   Once the player's top edge reaches the top of the screen, it goes back to
   the start; below the top it stays where it is.
   */
  function CrossingReset(p: Rect): (r: Rect)
    ensures r.w == p.w && r.h == p.h
    ensures p.w == PlayerMotion.PLAYER_SIZE && p.h == PlayerMotion.PLAYER_SIZE && p.Top() <= 0
            ==> r == PlayerMotion.Spawn()
    ensures p.Top() > 0 ==> r == p
  {
    if p.Top() <= 0 then WithCenter(p, WIDTH / 2, HEIGHT - 50) else p
  }

  /**
   One pass of the `while not game_over` body. A quit event only sets the
   flag: the moves, the collisions and the crossing reset of the tick still
   happen, and the reset touches neither the cars nor the score.
   */
  function Tick(g: Game, input: Input): (r: Game)
    ensures var moved := PlayerMotion.Update(g.player, input.keys);
            var cars := MoveCars(g.cars);
            && r.cars == Collision.Kept(moved, cars)
            && r.score == g.score + Collision.GOOD_REWARD * (|g.cars| - |r.cars|)
            && (r.over <==> g.over || input.quit
                            || exists i :: 0 <= i < |cars| && Collision.Hit(moved, cars[i]) && !cars[i].good)
            && (moved.Top() > 0 ==> r.player == moved)
            && (moved.Top() <= 0 && g.player.w == PlayerMotion.PLAYER_SIZE && g.player.h == PlayerMotion.PLAYER_SIZE
                ==> r.player == PlayerMotion.Spawn())
    ensures r.score >= g.score
  {
    var moved := PlayerMotion.Update(g.player, input.keys);
    var o := Collision.Resolve(moved, MoveCars(g.cars), g.score, g.over || input.quit);
    Game(CrossingReset(moved), o.cars, o.score, o.over)
  }

  /**
   Every tick keeps the invariant, and leaves the player strictly below the
   top edge: a crossing is never visible at the end of a tick.
   */
  lemma TickPreservesInv(g: Game, input: Input)
    ensures Inv(g) ==> Inv(Tick(g, input)) && Tick(g, input).player.Top() > 0
  {
    if Inv(g) {
      TickPlayer(g, input);
      TickCars(g, input);
      TickScore(g, input);
    }
  }

  lemma TickCars(g: Game, input: Input)
    requires CarsInLanes(g.cars)
    ensures CarsInLanes(Tick(g, input).cars)
  {
    MovedCarsStayInLanes(g.cars, Tick(g, input).cars, PlayerMotion.Update(g.player, input.keys));
  }

  lemma TickScore(g: Game, input: Input)
    requires ScoreOk(g.score)
    ensures ScoreOk(Tick(g, input).score)
  {
    var r := Tick(g, input);
    ScoreStaysMultiple(g.score, r.score, |g.cars| - |r.cars|);
  }

  lemma TickPlayer(g: Game, input: Input)
    requires PlayerMotion.OnGrid(g.player)
    ensures PlayerMotion.OnGrid(Tick(g, input).player) && Tick(g, input).player.Top() > 0
  {
    assert Tick(g, input).player == CrossingReset(PlayerMotion.Update(g.player, input.keys));
    ResetKeepsOnGrid(g.player, input.keys);
  }

  lemma ScoreStaysMultiple(score: int, after: int, removed: int)
    requires after == score + Collision.GOOD_REWARD * removed && after >= score
    ensures ScoreOk(score) ==> ScoreOk(after)
  {
  }

  lemma ResetKeepsOnGrid(p: Rect, keys: PlayerMotion.Keys)
    requires PlayerMotion.OnGrid(p)
    ensures var moved := PlayerMotion.Update(p, keys);
            && PlayerMotion.OnGrid(CrossingReset(moved)) && CrossingReset(moved).Top() > 0
  {
    var moved := PlayerMotion.Update(p, keys);
    PlayerMotion.UpdateKeepsOnGrid(p, keys);
    PlayerMotion.SpawnOnGrid();
    PlayerMotion.GridStep(moved.y);
  }

  lemma MovedCarsStayInLanes(before: seq<Car>, after: seq<Car>, moved: Rect)
    requires CarsInLanes(before)
    requires after == Collision.Kept(moved, MoveCars(before))
    ensures CarsInLanes(after)
  {
    var cars := MoveCars(before);
    forall c | c in after ensures Valid(c) && c.rect.y in LANES {
      var i :| 0 <= i < |cars| && cars[i] == c;
      assert before[i] in before;
      UpdatePreservesValid(before[i]);
    }
  }

  /** A quit event changes nothing in the tick but the game-over flag. */
  lemma QuitStillRunsTick(g: Game, keys: PlayerMotion.Keys)
    ensures Tick(g, Input(true, keys)) == Tick(g, Input(false, keys)).(over := true)
  {
  }

  /**
   `while not game_over`: ticks are run, one input each, until the flag is
   set or the inputs run out.
   */
  function Run(g: Game, inputs: seq<Input>): (r: Game)
    ensures g.over ==> r == g
    ensures Inv(g) ==> Inv(r)
    ensures r.score >= g.score && |r.cars| <= |g.cars|
    ensures r.score == g.score + Collision.GOOD_REWARD * (|g.cars| - |r.cars|)
    decreases |inputs|
  {
    if g.over || |inputs| == 0 then g
    else
      TickPreservesInv(g, inputs[0]);
      Run(Tick(g, inputs[0]), inputs[1..])
  }

  /** A tick that ends the game is the last one: the remaining inputs are never read. */
  lemma RunStopsAtGameOver(g: Game, inputs: seq<Input>)
    requires !g.over && |inputs| > 0 && Tick(g, inputs[0]).over
    ensures Run(g, inputs) == Tick(g, inputs[0])
  {
  }
}
