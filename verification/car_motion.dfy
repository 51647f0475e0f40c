/**
 The moving obstacles (good and bad food, called cars): a 40×50 box that
 enters from one side of the screen at a fixed speed and is sent back to its
 entry side once it has left the screen completely.
 */
module CarMotion {
  import opened Optional
  import opened Geometry

  const CAR_WIDTH: int := 40
  const CAR_HEIGHT: int := 50
  const MIN_SPEED: int := 5
  const MAX_SPEED: int := 10

  /** A car: its box, its signed horizontal speed, and whether it is good food. */
  datatype Car = Car(rect: Rect, speed: int, good: bool)

  function Abs(n: int): int { if n < 0 then -n else n }

  /** Python truthiness of the optional lane: `None` and `0` both count as absent. */
  predicate Truthy(lane: Option<int>) {
    lane.Some? && lane.value != 0
  }

  /** The off-screen x a car moving with its speed enters from: the left for positive speeds. */
  function Entry(c: Car): int {
    if c.speed > 0 then -c.rect.w else WIDTH
  }

  /** The box lies entirely to the left or entirely to the right of the screen. */
  predicate OffScreen(r: Rect) {
    r.Right() < 0 || r.Left() > WIDTH
  }

  /** The shape every car has from construction on. */
  predicate Valid(c: Car) {
    && c.rect.w == CAR_WIDTH && c.rect.h == CAR_HEIGHT
    && -c.rect.w <= c.rect.x <= WIDTH
    && MIN_SPEED <= Abs(c.speed) <= MAX_SPEED
  }

  /**
   `Car.__init__` with its random draws passed in: `randomY` is the
   `randint(0, HEIGHT - height)` used when no lane is given, `fromLeft` the
   coin flip for the entry side, `magnitude` the `randint(5, 10)` speed.
   */
  function New(good: bool, lane: Option<int>, randomY: int, fromLeft: bool, magnitude: int): (c: Car)
    requires 0 <= randomY <= HEIGHT - CAR_HEIGHT
    requires MIN_SPEED <= magnitude <= MAX_SPEED
    ensures c.good == good
    ensures c.rect.w == CAR_WIDTH && c.rect.h == CAR_HEIGHT
    ensures c.rect.x == -CAR_WIDTH || c.rect.x == WIDTH
    ensures fromLeft <==> c.rect.x == -CAR_WIDTH
    ensures Abs(c.speed) == magnitude
    ensures c.speed > 0 <==> c.rect.x == -c.rect.w
    ensures c.rect.x == Entry(c)
    ensures Truthy(lane) ==> c.rect.y == lane.value
    ensures !Truthy(lane) ==> c.rect.y == randomY
    ensures Valid(c)
  {
    var y := if Truthy(lane) then lane.value else randomY;
    var x := if fromLeft then -CAR_WIDTH else WIDTH;
    var speed := magnitude * (if x == WIDTH then -1 else 1);
    Car(Rect(x, y, CAR_WIDTH, CAR_HEIGHT), speed, good)
  }

  /**
   `Car.update`: move by the speed, and if the moved box is completely off
   the screen put it at the entry side chosen by the sign of the speed.
   */
  function Update(c: Car): (r: Car)
    ensures r.rect.y == c.rect.y && r.rect.w == c.rect.w && r.rect.h == c.rect.h
    ensures r.speed == c.speed && r.good == c.good
    ensures c.rect.w >= 0 ==> -c.rect.w <= r.rect.x <= WIDTH
    ensures !OffScreen(c.rect.(x := c.rect.x + c.speed)) ==> r.rect.x == c.rect.x + c.speed
    ensures OffScreen(c.rect.(x := c.rect.x + c.speed)) ==> r.rect.x == Entry(c)
  {
    var moved := c.(rect := c.rect.(x := c.rect.x + c.speed));
    if OffScreen(moved.rect) then
      moved.(rect := moved.rect.(x := if c.speed > 0 then -c.rect.w else WIDTH))
    else
      moved
  }

  /** A car keeps its shape, its bounds and its speed range under `Update`. */
  lemma UpdatePreservesValid(c: Car)
    requires Valid(c)
    ensures Valid(Update(c))
  {
  }

  /**
   A valid car only wraps on the side it is heading to: one moving right wraps
   exactly when it passes the right edge, one moving left exactly when it
   passes the left edge.
   */
  lemma WrapsOnLeadingSide(c: Car)
    requires Valid(c)
    ensures c.speed > 0 ==> (OffScreen(c.rect.(x := c.rect.x + c.speed)) <==> c.rect.x + c.speed > WIDTH)
    ensures c.speed < 0 ==> (OffScreen(c.rect.(x := c.rect.x + c.speed)) <==> c.rect.x + c.speed + c.rect.w < 0)
  {
  }

  /** `n` consecutive ticks of `Update`. */
  function Advance(c: Car, n: nat): (r: Car)
    ensures r.rect.y == c.rect.y && r.speed == c.speed && r.good == c.good
    ensures Valid(c) ==> Valid(r)
  {
    if n == 0 then c else Update(Advance(c, n - 1))
  }

  /** Ticks a car needs to cross the screen and come back to its entry point. */
  function Period(c: Car): nat
    requires Valid(c)
  {
    (WIDTH + c.rect.w) / Abs(c.speed) + 1
  }

  /** From the entry point, a car travels in a straight line until the tick it wraps. */
  lemma {:induction false} StraightUntilWrap(c: Car, k: nat)
    requires Valid(c) && c.rect.x == Entry(c)
    requires k < Period(c)
    ensures Advance(c, k).rect.x == Entry(c) + k * c.speed
  {
    if k > 0 {
      StraightUntilWrap(c, k - 1);
      var prev := Advance(c, k - 1);
      var s := Abs(c.speed);
      var q := (WIDTH + c.rect.w) / s;
      MulStep(k, c.speed);
      assert prev.rect.x + c.speed == Entry(c) + k * c.speed;
      assert 0 <= k * s <= WIDTH + c.rect.w by {
        MulMonotone(k, q, s);
        DivMul(WIDTH + c.rect.w, s);
      }
      MulAbs(k, c.speed);
      assert !OffScreen(prev.rect.(x := prev.rect.x + c.speed));
    }
  }

  /**
   The wrap-around makes every car periodic: started at its entry point, it
   is back there after exactly `Period` ticks, and not before.
   */
  lemma CarIsPeriodic(c: Car)
    requires Valid(c) && c.rect.x == Entry(c)
    ensures Advance(c, Period(c)) == c
    ensures forall k: nat :: 0 < k < Period(c) ==> Advance(c, k).rect.x != Entry(c)
  {
    BackAtPeriod(c);
    forall k: nat | 0 < k < Period(c)
      ensures Advance(c, k).rect.x != Entry(c)
    {
      NotBackEarly(c, k);
    }
  }

  lemma BackAtPeriod(c: Car)
    requires Valid(c) && c.rect.x == Entry(c)
    ensures Advance(c, Period(c)) == c
  {
    var s := Abs(c.speed);
    var q := (WIDTH + c.rect.w) / s;
    StraightUntilWrap(c, q);
    var last := Advance(c, q);
    assert Advance(c, q + 1) == Update(last);
    MulStep(q + 1, c.speed);
    MulAbs(q + 1, c.speed);
    assert (q + 1) * s > WIDTH + c.rect.w by { DivMul(WIDTH + c.rect.w, s); }
    assert last.rect.x + c.speed == Entry(c) + (q + 1) * c.speed;
    assert OffScreen(last.rect.(x := last.rect.x + c.speed));
  }

  lemma NotBackEarly(c: Car, k: nat)
    requires Valid(c) && c.rect.x == Entry(c)
    requires 0 < k < Period(c)
    ensures Advance(c, k).rect.x != Entry(c)
  {
    StraightUntilWrap(c, k);
    MulAbs(k, c.speed);
    assert k * Abs(c.speed) > 0 by { MulPositive(k, Abs(c.speed)); }
  }

  lemma MulMonotone(a: int, b: int, s: int)
    requires 0 <= a <= b && 0 < s
    ensures a * s <= b * s
  {
  }

  lemma MulStep(k: int, v: int)
    ensures (k - 1) * v + v == k * v
  {
  }

  lemma MulAbs(k: nat, v: int)
    ensures k * v == (if v < 0 then -(k * Abs(v)) else k * Abs(v))
  {
  }

  lemma MulPositive(a: int, s: int)
    requires 0 < a && 0 < s
    ensures a * s > 0
  {
  }

  lemma DivMul(n: int, s: int)
    requires 0 <= n && 0 < s
    ensures (n / s) * s <= n < (n / s + 1) * s
  {
  }
}
