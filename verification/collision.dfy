/**
 Collision and scoring for one tick: every car overlapping the player is
 visited; a good one adds 5 to the score and is removed from the group, a bad
 one ends the run. The loop never stops early, so all overlaps of the tick are
 handled.
 */
module Collision {
  import opened Geometry
  import opened CarMotion

  const GOOD_REWARD: int := 5

  predicate Below(hs: seq<nat>, n: nat) {
    forall k :: 0 <= k < |hs| ==> hs[k] < n
  }

  predicate Increasing(hs: seq<nat>) {
    forall j, k :: 0 <= j < k < |hs| ==> hs[j] < hs[k]
  }

  predicate Distinct(hs: seq<nat>) {
    forall j, k :: 0 <= j < k < |hs| ==> hs[j] != hs[k]
  }

  /** The car's box overlaps the player's box. */
  predicate Hit(p: Rect, c: Car) {
    Overlaps(p, c.rect)
  }

  function Elems(hs: seq<nat>): set<nat> {
    set i | i in hs
  }

  /**
   `spritecollide(player, cars, False)`: the positions in the group of the
   cars whose box overlaps the player's, in group order.
   */
  function Hits(p: Rect, cars: seq<Car>): (hs: seq<nat>)
    ensures Below(hs, |cars|) && Increasing(hs)
    ensures forall i :: 0 <= i < |cars| ==> (i in hs <==> Hit(p, cars[i]))
  {
    if |cars| == 0 then []
    else
      var n := |cars| - 1;
      Hits(p, cars[..n]) + (if Hit(p, cars[n]) then [n] else [])
  }

  /** What the collision loop accumulates: the score, the game-over flag, the positions killed. */
  datatype Tally = Tally(score: int, over: bool, killed: set<nat>)

  /** One pass of the loop body for the car at position `i`. */
  function Visit(cars: seq<Car>, i: nat, t: Tally): (r: Tally)
    requires i < |cars|
    // a good car is eaten: 5 points and killed, flag untouched
    ensures cars[i].good <==> r.score == t.score + GOOD_REWARD && r.killed == t.killed + {i} && r.over == t.over
    // a bad car only ends the run
    ensures !cars[i].good <==> r.score == t.score && r.killed == t.killed && r.over
  {
    if cars[i].good then Tally(t.score + GOOD_REWARD, t.over, t.killed + {i})
    else t.(over := true)
  }

  /** The collision loop over the list of hits, in the order given, without ever breaking. */
  function Loop(cars: seq<Car>, hs: seq<nat>, t: Tally): (r: Tally)
    requires Below(hs, |cars|)
    ensures t.score <= r.score && (r.score - t.score) % GOOD_REWARD == 0
    ensures t.killed <= r.killed <= t.killed + Elems(hs)
    ensures t.over ==> r.over
    ensures forall i :: i in r.killed - t.killed ==> i < |cars| && cars[i].good
  {
    if |hs| == 0 then t else Loop(cars, hs[1..], Visit(cars, hs[0], t))
  }

  /** The good cars among the positions `s`. */
  function GoodAmong(cars: seq<Car>, s: set<nat>): set<nat> {
    set i | i in s && i < |cars| && cars[i].good
  }

  /** Some bad car is among the positions `s`. */
  predicate AnyBad(cars: seq<Car>, s: set<nat>) {
    exists i :: i in s && i < |cars| && !cars[i].good
  }

  /**
   Whatever the order of a duplicate-free hit list, the loop adds 5 per good
   hit, kills exactly the good hits, and sets the flag exactly when a bad car
   is hit.
   */
  lemma {:induction false} LoopClosedForm(cars: seq<Car>, hs: seq<nat>, t: Tally)
    requires Below(hs, |cars|) && Distinct(hs)
    ensures Loop(cars, hs, t).score == t.score + GOOD_REWARD * |GoodAmong(cars, Elems(hs))|
    ensures Loop(cars, hs, t).over == (t.over || AnyBad(cars, Elems(hs)))
    ensures Loop(cars, hs, t).killed == t.killed + GoodAmong(cars, Elems(hs))
  {
    if |hs| == 0 {
      assert Elems(hs) == {};
    } else {
      var a, rest := hs[0], hs[1..];
      var t' := Visit(cars, a, t);
      assert Loop(cars, hs, t) == Loop(cars, rest, t');
      SplitHead(hs);
      LoopClosedForm(cars, rest, t');
      GoodAmongAdd(cars, a, Elems(rest));
      AnyBadAdd(cars, a, Elems(rest));
    }
  }

  /** Splitting the first hit off a duplicate-free list. */
  lemma SplitHead(hs: seq<nat>)
    requires |hs| > 0 && Distinct(hs)
    ensures Distinct(hs[1..])
    ensures Elems(hs) == {hs[0]} + Elems(hs[1..])
    ensures hs[0] !in Elems(hs[1..])
  {
    assert hs == [hs[0]] + hs[1..];
    var rest := hs[1..];
    forall j, k | 0 <= j < k < |rest| ensures rest[j] != rest[k] {
      assert rest[j] == hs[j + 1] && rest[k] == hs[k + 1];
    }
  }

  lemma GoodAmongAdd(cars: seq<Car>, a: nat, s: set<nat>)
    requires a !in s && a < |cars|
    ensures |GoodAmong(cars, {a} + s)| == |GoodAmong(cars, s)| + (if cars[a].good then 1 else 0)
    ensures GoodAmong(cars, {a} + s) == GoodAmong(cars, s) + (if cars[a].good then {a} else {})
  {
    var g := GoodAmong(cars, s);
    var own: set<nat> := if cars[a].good then {a} else {};
    assert GoodAmong(cars, {a} + s) == g + own;
    assert own !! g;
  }

  lemma AnyBadAdd(cars: seq<Car>, a: nat, s: set<nat>)
    requires a < |cars|
    ensures AnyBad(cars, {a} + s) <==> !cars[a].good || AnyBad(cars, s)
  {
    if AnyBad(cars, {a} + s) && cars[a].good {
      var i :| i in {a} + s && i < |cars| && !cars[i].good;
      assert i in s;
    }
  }

  /**
   The outcome of the collision loop does not depend on the order in which
   the hits are visited: any two duplicate-free orderings of the same hits
   give the same score, flag and kills.
   */
  lemma OrderIrrelevant(cars: seq<Car>, h1: seq<nat>, h2: seq<nat>, t: Tally)
    requires Below(h1, |cars|) && Distinct(h1)
    requires Below(h2, |cars|) && Distinct(h2)
    requires Elems(h1) == Elems(h2)
    ensures Loop(cars, h1, t) == Loop(cars, h2, t)
  {
    LoopClosedForm(cars, h1, t);
    LoopClosedForm(cars, h2, t);
  }

  /** The cars left in the group once the cars at the positions `killed` are removed, in group order. */
  function Survivors(cars: seq<Car>, killed: set<nat>): (r: seq<Car>)
    ensures |r| + |KilledAmong(killed, |cars|)| == |cars|
    ensures forall c :: c in r ==> c in cars
    ensures forall i :: 0 <= i < |cars| && i !in killed ==> cars[i] in r
  {
    if |cars| == 0 then []
    else
      var n := |cars| - 1;
      KilledAmongStep(killed, n);
      Survivors(cars[..n], killed) + (if n in killed then [] else [cars[n]])
  }

  /** The positions in `killed` that lie inside a group of `n` cars. */
  function KilledAmong(killed: set<nat>, n: nat): set<nat> {
    set i: nat | i < n && i in killed
  }

  lemma KilledAmongStep(killed: set<nat>, n: nat)
    ensures |KilledAmong(killed, n + 1)| == |KilledAmong(killed, n)| + (if n in killed then 1 else 0)
  {
    var own: set<nat> := if n in killed then {n} else {};
    assert KilledAmong(killed, n + 1) == KilledAmong(killed, n) + own;
    assert own !! KilledAmong(killed, n);
  }

  /** The positions of the good cars that overlap the player. */
  function GoodHits(p: Rect, cars: seq<Car>): set<nat> {
    set i: nat | i < |cars| && Hit(p, cars[i]) && cars[i].good
  }

  /**
   The reference outcome for the group: drop exactly the good cars that
   overlap the player and keep everything else in order.
   */
  function Kept(p: Rect, cars: seq<Car>): (r: seq<Car>)
    ensures forall c :: c in r <==> c in cars && !(Hit(p, c) && c.good)
  {
    if |cars| == 0 then []
    else
      var n := |cars| - 1;
      assert cars == cars[..n] + [cars[n]];
      Kept(p, cars[..n]) + (if Hit(p, cars[n]) && cars[n].good then [] else [cars[n]])
  }

  /** The reference outcome loses exactly one car per good hit. */
  lemma {:induction false} KeptLength(p: Rect, cars: seq<Car>)
    ensures |Kept(p, cars)| + |GoodHits(p, cars)| == |cars|
  {
    if |cars| > 0 {
      var n := |cars| - 1;
      KeptLength(p, cars[..n]);
      var own: set<nat> := if Hit(p, cars[n]) && cars[n].good then {n} else {};
      assert GoodHits(p, cars) == GoodHits(p, cars[..n]) + own;
      assert own !! GoodHits(p, cars[..n]);
    }
  }

  /** Removing the good hits by position gives the reference outcome. */
  lemma {:induction false} SurvivorsAreKept(p: Rect, cars: seq<Car>, killed: set<nat>)
    requires forall i: nat :: i < |cars| ==> (i in killed <==> Hit(p, cars[i]) && cars[i].good)
    ensures Survivors(cars, killed) == Kept(p, cars)
  {
    if |cars| > 0 {
      var n := |cars| - 1;
      SurvivorsAreKept(p, cars[..n], killed);
    }
  }

  /** The state the collision step hands back to the game loop. */
  datatype Outcome = Outcome(cars: seq<Car>, score: int, over: bool)

  /**
   The collision block of the game loop: compute the hits, run the loop over
   them, remove the killed cars from the group.
   */
  function Resolve(p: Rect, cars: seq<Car>, score: int, over: bool): (o: Outcome)
    ensures o.cars == Kept(p, cars)
    ensures o.score == score + GOOD_REWARD * (|cars| - |o.cars|)
    ensures o.over <==> over || exists i :: 0 <= i < |cars| && Hit(p, cars[i]) && !cars[i].good
  {
    var hs := Hits(p, cars);
    var t := Loop(cars, hs, Tally(score, over, {}));
    ResolveFacts(p, cars, score, over, hs, t);
    Outcome(Survivors(cars, t.killed), t.score, t.over)
  }

  lemma ResolveFacts(p: Rect, cars: seq<Car>, score: int, over: bool, hs: seq<nat>, t: Tally)
    requires hs == Hits(p, cars) && t == Loop(cars, hs, Tally(score, over, {}))
    ensures Survivors(cars, t.killed) == Kept(p, cars)
    ensures t.score == score + GOOD_REWARD * (|cars| - |Kept(p, cars)|)
    ensures t.over <==> over || exists i :: 0 <= i < |cars| && Hit(p, cars[i]) && !cars[i].good
  {
    LoopClosedForm(cars, hs, Tally(score, over, {}));
    assert GoodAmong(cars, Elems(hs)) == GoodHits(p, cars);
    SurvivorsAreKept(p, cars, t.killed);
    KeptLength(p, cars);
    if t.over && !over {
      var i :| i in Elems(hs) && i < |cars| && !cars[i].good;
      assert Hit(p, cars[i]);
    }
    if exists i :: 0 <= i < |cars| && Hit(p, cars[i]) && !cars[i].good {
      var i :| 0 <= i < |cars| && Hit(p, cars[i]) && !cars[i].good;
      assert i in Elems(hs);
    }
  }
}
