/**
  The two spawn settings the user adjusts: the number of particles per spawn
  (mouse wheel, clamped to 10..100) and the shape new particles take
  (cycled through circle, square, triangle).
 */
module Settings {
  import opened Particles

  /** p5 `constrain(v, lo, hi)`. */
  function Constrain(v: int, lo: int, hi: int): (r: int)
    requires lo <= hi
    ensures lo <= r <= hi
    ensures lo <= v <= hi ==> r == v
  {
    if v < lo then lo else if v > hi then hi else v
  }

  /** `mouseWheel` (main.js:523-530): a negative delta (wheel up) adds 7,
      anything else subtracts 7, and the result is clamped to 10..100. */
  function WheelSpawnCount(count: int, delta: real): (r: int)
    ensures MIN_SPAWN_COUNT <= r <= MAX_SPAWN_COUNT
    ensures MIN_SPAWN_COUNT <= count <= MAX_SPAWN_COUNT ==>
      (delta < 0.0 ==> count <= r) && (delta >= 0.0 ==> r <= count)
    ensures MIN_SPAWN_COUNT <= count <= MAX_SPAWN_COUNT - SPAWN_COUNT_WHEEL_DELTA && delta < 0.0 ==> r == count + SPAWN_COUNT_WHEEL_DELTA
    ensures MIN_SPAWN_COUNT + SPAWN_COUNT_WHEEL_DELTA <= count <= MAX_SPAWN_COUNT && delta >= 0.0 ==> r == count - SPAWN_COUNT_WHEEL_DELTA
  {
    var stepped := if delta < 0.0 then count + SPAWN_COUNT_WHEEL_DELTA else count - SPAWN_COUNT_WHEEL_DELTA;
    Constrain(stepped, MIN_SPAWN_COUNT, MAX_SPAWN_COUNT)
  }

  /** One notch up then one notch down restores a count that was not clamped. */
  lemma WheelUpThenDown(count: int, up: real, down: real)
    requires MIN_SPAWN_COUNT <= count <= MAX_SPAWN_COUNT - SPAWN_COUNT_WHEEL_DELTA
    requires up < 0.0 && down >= 0.0
    ensures WheelSpawnCount(WheelSpawnCount(count, up), down) == count
  {
  }

  /** Enough notches in one direction pin the count at the bound in that direction. */
  lemma {:induction false} WheelSaturates(count: int, delta: real, n: nat)
    requires MIN_SPAWN_COUNT <= count <= MAX_SPAWN_COUNT
    requires n * SPAWN_COUNT_WHEEL_DELTA >= if delta < 0.0 then MAX_SPAWN_COUNT - count else count - MIN_SPAWN_COUNT
    ensures Wheel(count, delta, n) == if delta < 0.0 then MAX_SPAWN_COUNT else MIN_SPAWN_COUNT
    decreases n
  {
    if n > 0 {
      var c := WheelSpawnCount(count, delta);
      if (delta < 0.0 && c == MAX_SPAWN_COUNT) || (delta >= 0.0 && c == MIN_SPAWN_COUNT) {
        WheelStays(c, delta, n - 1);
      } else {
        WheelSaturates(c, delta, n - 1);
      }
    }
  }

  /** `n` wheel notches in the same direction. */
  function Wheel(count: int, delta: real, n: nat): int
    decreases n
  {
    if n == 0 then count else Wheel(WheelSpawnCount(count, delta), delta, n - 1)
  }

  lemma {:induction false} WheelStays(count: int, delta: real, n: nat)
    requires count == if delta < 0.0 then MAX_SPAWN_COUNT else MIN_SPAWN_COUNT
    ensures Wheel(count, delta, n) == count
    decreases n
  {
    if n > 0 {
      WheelStays(WheelSpawnCount(count, delta), delta, n - 1);
    }
  }

  /** The `shapes` array (main.js:55). */
  const Shapes: seq<Shape> := [Circle, Square, Triangle]

  /** `shapes.indexOf(shape)`; every shape is listed, so never -1. */
  function ShapeIndex(s: Shape): (i: nat)
    ensures i < |Shapes| && Shapes[i] == s
  {
    match s
    case Circle => 0
    case Square => 1
    case Triangle => 2
  }

  /** The shape-button handlers (main.js:1140, main.js:1405): the next entry of
      `shapes`, wrapping around. */
  function NextShape(s: Shape): (r: Shape)
    ensures r != s
  {
    Shapes[(ShapeIndex(s) + 1) % |Shapes|]
  }

  /** Three presses come back to the starting shape, passing through every shape. */
  lemma NextShapeCycles(s: Shape)
    ensures NextShape(NextShape(NextShape(s))) == s
    ensures {s, NextShape(s), NextShape(NextShape(s))} == {Circle, Square, Triangle}
  {
  }
}
