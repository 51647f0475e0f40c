/**
 The player: a 40×40 box that moves 10 pixels per tick in each held arrow
 direction, as long as the edge it moves toward is still strictly inside the
 800×600 screen.
 */
module PlayerMotion {
  import opened Geometry

  const PLAYER_SIZE: int := 40
  const PLAYER_SPEED: int := 10

  /** The arrow keys held down during one tick. */
  datatype Keys = Keys(left: bool, right: bool, up: bool, down: bool)

  const NO_KEYS: Keys := Keys(false, false, false, false)

  /** Where the player starts a run and where it is put back after a crossing. */
  function Spawn(): (r: Rect)
    ensures r == Rect(380, 530, PLAYER_SIZE, PLAYER_SIZE)
    ensures r.Right() == WIDTH - r.Left() && r.Bottom() == HEIGHT - 30
  {
    WithCenter(Rect(0, 0, PLAYER_SIZE, PLAYER_SIZE), WIDTH / 2, HEIGHT - 50)
  }

  /**
   One `Player.update`. The four directions are tried in the order left,
   right, up, down, and each guard looks at the box as already moved by the
   directions before it.
   */
  function Update(p: Rect, keys: Keys): (r: Rect)
    ensures r.w == p.w && r.h == p.h
    ensures keys == NO_KEYS ==> r == p
    ensures !keys.left && !keys.right ==> r.x == p.x
    ensures !keys.up && !keys.down ==> r.y == p.y
    ensures r.x - p.x in {-PLAYER_SPEED, 0, PLAYER_SPEED}
    ensures r.y - p.y in {-PLAYER_SPEED, 0, PLAYER_SPEED}
    // a single held direction moves by exactly one step iff its edge is inside the screen
    ensures keys.left && !keys.right ==> (r.x == p.x - PLAYER_SPEED <==> p.Left() > 0) && (r.x == p.x <==> p.Left() <= 0)
    ensures keys.right && !keys.left ==> (r.x == p.x + PLAYER_SPEED <==> p.Right() < WIDTH) && (r.x == p.x <==> p.Right() >= WIDTH)
    ensures keys.up && !keys.down ==> (r.y == p.y - PLAYER_SPEED <==> p.Top() > 0) && (r.y == p.y <==> p.Top() <= 0)
    ensures keys.down && !keys.up ==> (r.y == p.y + PLAYER_SPEED <==> p.Bottom() < HEIGHT) && (r.y == p.y <==> p.Bottom() >= HEIGHT)
  {
    MoveDown(MoveUp(MoveRight(MoveLeft(p, keys.left), keys.right), keys.up), keys.down)
  }

  /** The four guarded steps of `Player.update`, each applied to the box the previous one left. */
  function MoveLeft(p: Rect, held: bool): Rect {
    if held && p.Left() > 0 then p.(x := p.x - PLAYER_SPEED) else p
  }

  function MoveRight(p: Rect, held: bool): Rect {
    if held && p.Right() < WIDTH then p.(x := p.x + PLAYER_SPEED) else p
  }

  function MoveUp(p: Rect, held: bool): Rect {
    if held && p.Top() > 0 then p.(y := p.y - PLAYER_SPEED) else p
  }

  function MoveDown(p: Rect, held: bool): Rect {
    if held && p.Bottom() < HEIGHT then p.(y := p.y + PLAYER_SPEED) else p
  }

  /**
   The player box is the right size, lies inside the screen and sits on the
   10-pixel grid that every reachable position is on.
   */
  predicate OnGrid(p: Rect) {
    && p.w == PLAYER_SIZE && p.h == PLAYER_SIZE
    && 0 <= p.Left() && p.Right() <= WIDTH
    && 0 <= p.Top() && p.Bottom() <= HEIGHT
    && p.x % PLAYER_SPEED == 0 && p.y % PLAYER_SPEED == 0
  }

  /** The start position is on the grid. */
  lemma SpawnOnGrid()
    ensures OnGrid(Spawn())
  {
  }

  /** On the grid, every key combination keeps the player on the grid and so inside the screen. */
  lemma UpdateKeepsOnGrid(p: Rect, keys: Keys)
    requires OnGrid(p)
    ensures OnGrid(Update(p, keys))
  {
    var a := MoveLeft(p, keys.left);
    assert OnGrid(a) by { GridStep(p.x); }
    var b := MoveRight(a, keys.right);
    assert OnGrid(b) by { GridStep(a.x); }
    var c := MoveUp(b, keys.up);
    assert OnGrid(c) by { GridStep(b.y); }
    assert OnGrid(MoveDown(c, keys.down)) by { GridStep(c.y); }
  }

  /** A grid coordinate strictly inside a bound is a whole step away from it. */
  lemma GridStep(v: int)
    requires v % PLAYER_SPEED == 0
    ensures (v - PLAYER_SPEED) % PLAYER_SPEED == 0 && (v + PLAYER_SPEED) % PLAYER_SPEED == 0
    ensures v > 0 ==> v >= PLAYER_SPEED
    ensures v < WIDTH - PLAYER_SIZE ==> v <= WIDTH - PLAYER_SIZE - PLAYER_SPEED
    ensures v < HEIGHT - PLAYER_SIZE ==> v <= HEIGHT - PLAYER_SIZE - PLAYER_SPEED
  {
  }

  /**
   The horizontal and vertical motions do not interact: the new x depends
   only on left/right, the new y only on up/down.
   */
  lemma AxesIndependent(p: Rect, k1: Keys, k2: Keys)
    ensures k1.left == k2.left && k1.right == k2.right ==> Update(p, k1).x == Update(p, k2).x
    ensures k1.up == k2.up && k1.down == k2.down ==> Update(p, k1).y == Update(p, k2).y
  {
  }

  /**
   Because the right guard looks at the box after the left step, holding both at the
   left wall moves the player right; anywhere else on the grid the two cancel.
   */
  lemma LeftAndRightHeld(p: Rect, keys: Keys)
    requires OnGrid(p) && keys.left && keys.right
    ensures Update(p, keys).x == (if p.Left() == 0 then p.x + PLAYER_SPEED else p.x)
  {
    GridStep(p.x);
  }

  /**
   The same holds vertically: the down guard looks at the box after the up
   step, so holding both at the top edge moves the player down, and anywhere
   else on the grid the two cancel.
   */
  lemma UpAndDownHeld(p: Rect, keys: Keys)
    requires OnGrid(p) && keys.up && keys.down
    ensures Update(p, keys).y == (if p.Top() == 0 then p.y + PLAYER_SPEED else p.y)
  {
    GridStep(p.y);
  }
}
