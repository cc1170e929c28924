/**
  The particle world of the playground: configuration constants, the particle
  record, opaque physics-body handles, the three parallel collections
  (`particles`, `selectedParticles`, `lockedParticles`) and the session state
  the input handlers read, together with the bookkeeping invariant every
  transition is meant to keep.

  The world keeps a `store` of every particle ever created, keyed by id: a
  removed JavaScript object stays reachable (and keeps its stale flags) as
  long as some collection still refers to it, so removal never deletes from
  the store; it only takes the id out of the collections.
 */
module Particles {
  import opened Seqs

  // ---- configuration constants (main.js:1-41) ----
  const ACID_DECAY_INTERVAL: real := 100.0
  const ACID_STRENGTH: real := 0.1
  const ACID_DECAY_RATE: real := 0.025
  const MIN_PARTICLE_SIZE: real := 5.0
  const DEFAULT_SPAWN_COUNT: int := 37
  const MIN_SPAWN_COUNT: int := 10
  const MAX_SPAWN_COUNT: int := 100
  const SPAWN_COUNT_WHEEL_DELTA: int := 7
  const BASE_SIZE_MULTIPLIER: real := 0.04
  const PARTICLE_SIZE_MIN: real := 0.75
  const PARTICLE_SIZE_MAX: real := 1.5
  const SELECTION_RADIUS_MULTIPLIER: real := 2.0
  const PULSE_EFFECT_SCALE: real := 1.5
  const REMOVAL_RADIUS_MULTIPLIER: real := 0.15
  /** Long-press pick radius, in multiples of the base size (main.js:764). */
  const LONG_PRESS_RADIUS_MULTIPLIER: real := 3.0
  /** A marquee side shorter than this is an accidental drag (main.js:1044). */
  const MARQUEE_MIN_SIDE: real := 10.0
  /** A drag-select move shorter than this is ignored (main.js:708). */
  const DRAG_MIN_MOVE: real := 5.0
  /** Split fragments aim at this fraction of the original size (main.js:1623). */
  const SPLIT_SIZE_REDUCTION: real := 0.6
  /** Midpoint of the spawn-size range, in multiples of the base size: (0.75 + 1.5) / 2. */
  const SPAWN_SIZE_MIDPOINT: real := 1.125

  datatype Option<T> = None | Some(value: T)

  datatype Shape = Circle | Square | Triangle
  datatype Point = Point(x: real, y: real)
  datatype Rgb = Rgb(r: real, g: real, b: real)

  /** A physics-engine body. The engine owns its motion; the model keeps only
      its identity (a generation number, bumped whenever the body is
      recreated), the shape it was built with, its position and the static flag. */
  datatype Body = Body(gen: nat, shape: Shape, pos: Point, isStatic: bool)

  /** A body as the collision feed reports it: some particle's body of a given
      generation, or one of the boundary walls. */
  datatype BodyRef = ParticleBody(owner: Id, gen: nat) | Boundary(index: nat)

  datatype Particle = Particle(
    size: real,
    color: Rgb,
    shape: Shape,
    body: Body,
    isHovered: bool,
    isSelected: bool,
    isLocked: bool,
    isAcid: bool,
    decayTimer: real,
    pulse: Option<real>)

  /** An in-progress shift-drag rectangle. */
  datatype Marquee = Marquee(active: bool, start: Point, end: Point)

  /** The sticky key states read by the click handler: Shift (marquee),
      X (split) and V (acid). */
  datatype Latches = Latches(shift: bool, split: bool, acid: bool)

  datatype World = World(
    particles: seq<Id>,
    selected: seq<Id>,
    locked: seq<Id>,
    store: map<Id, Particle>,
    nextId: nat,
    screenMin: real,        // min(windowWidth, windowHeight)
    spawnCount: int,
    shape: Shape,           // currentShape
    marquee: Marquee,
    dragSelecting: bool,
    lastDrag: Point,
    latches: Latches)

  // ---- geometry ----

  function SqDist(a: Point, b: Point): real {
    (a.x - b.x) * (a.x - b.x) + (a.y - b.y) * (a.y - b.y)
  }

  /** `dist(a, b) < r`, compared on squares; the same test for every r >= 0. */
  predicate Within(a: Point, b: Point, r: real) {
    SqDist(a, b) < r * r
  }

  /** `dist(a, b) <= r`, compared on squares; the same test for every r >= 0. */
  predicate WithinOrOn(a: Point, b: Point, r: real) {
    SqDist(a, b) <= r * r
  }

  /** The particle's disc contains the point (`dist < size/2`, main.js:559). */
  predicate Hits(p: Particle, pt: Point) {
    Within(pt, p.body.pos, p.size / 2.0)
  }

  /** `calculateBaseSize` (main.js:88-91). */
  function BaseSize(w: World): real {
    w.screenMin * BASE_SIZE_MULTIPLIER
  }

  /** The cluster-removal radius (main.js:957). */
  function RemovalRadius(w: World): real {
    w.screenMin * REMOVAL_RADIUS_MULTIPLIER
  }

  // ---- the bookkeeping invariant ----

  /** Every id the collections mention names a particle object. */
  ghost predicate Closed(w: World) {
    && (forall id :: id in w.particles ==> id in w.store)
    && (forall id :: id in w.selected ==> id in w.store)
    && (forall id :: id in w.locked ==> id in w.store)
  }

  /** `selected` and `locked` are both subsets of `particles`. */
  ghost predicate Nested(w: World) {
    && (forall id :: id in w.selected ==> id in w.particles)
    && (forall id :: id in w.locked ==> id in w.particles)
  }

  /** A live particle's `isSelected` flag mirrors membership in `selected`. */
  ghost predicate SelectionSynced(w: World)
    requires Closed(w)
  {
    forall id :: id in w.particles ==> w.store[id].isSelected == (id in w.selected)
  }

  /** A live particle's `isLocked` flag mirrors membership in `locked`, and its
      body is static exactly when it is locked. */
  ghost predicate LockSynced(w: World)
    requires Closed(w)
  {
    forall id :: id in w.particles ==>
      w.store[id].isLocked == (id in w.locked) && w.store[id].body.isStatic == w.store[id].isLocked
  }

  /** Live particles have positive size. */
  ghost predicate SizesPositive(w: World)
    requires Closed(w)
  {
    forall id :: id in w.particles ==> w.store[id].size > 0.0
  }

  ghost predicate Valid(w: World) {
    && Distinct(w.particles) && Distinct(w.selected) && Distinct(w.locked)
    && Closed(w)
    && Nested(w)
    && SelectionSynced(w)
    && LockSynced(w)
    && SizesPositive(w)
    && (forall id :: id in w.store ==> id < w.nextId)
    && w.screenMin > 0.0
  }

  /** `Valid` carries over to `r` when only the selection and flags other than
      the lock change, provided the new selection is duplicate-free, live and
      mirrored by the `isSelected` flags. */
  lemma ReselectKeepsValid(w: World, r: World)
    ensures
      && Valid(w)
      && r.particles == w.particles && r.locked == w.locked && r.nextId == w.nextId && r.screenMin == w.screenMin
      && r.store.Keys == w.store.Keys
      && (forall x :: x in w.particles ==>
            r.store[x].isLocked == w.store[x].isLocked && r.store[x].body == w.store[x].body && r.store[x].size == w.store[x].size)
      && Distinct(r.selected) && (forall x :: x in r.selected ==> x in r.particles)
      && (forall x :: x in r.particles ==> r.store[x].isSelected == (x in r.selected))
      ==> Valid(r)
  {
  }

  /** `Valid` reads only the collections, the store, the id counter and the
      screen size: changing any other session field keeps it. */
  lemma SessionKeepsValid(w: World, r: World)
    requires Valid(w)
    requires r.particles == w.particles && r.selected == w.selected && r.locked == w.locked
    requires r.store == w.store && r.nextId == w.nextId && r.screenMin == w.screenMin
    ensures Valid(r)
  {
  }

  /** A fresh particle as the `PhysicsParticle` constructor builds it
      (main.js:335-361): every flag clear, decay timer at zero, no pulse. Its
      displayed shape is the CURRENT shape, whatever shape its body was built
      with (main.js:338 versus main.js:351). */
  function NewParticle(size: real, color: Rgb, shape: Shape, bodyShape: Shape, pos: Point): (p: Particle)
    ensures !p.isSelected && !p.isLocked && !p.isAcid && !p.isHovered && !p.body.isStatic
    ensures p.size == size && p.color == color && p.shape == shape && p.body.shape == bodyShape && p.body.pos == pos
  {
    Particle(size, color, shape, Body(0, bodyShape, pos, false), false, false, false, false, 0.0, None)
  }

  /** The centralised removal: take `id` out of all three collections, each
      with the guarded indexOf-then-splice (main.js:147-162, 380-394, 1603-1617). */
  function Excise(w: World, id: Id): (r: World)
    ensures r == w.(particles := r.particles, selected := r.selected, locked := r.locked)
    ensures Closed(w) ==> Closed(r)
    ensures Valid(w) ==> Valid(r)
    ensures Valid(w) ==> id !in r.particles && id !in r.selected && id !in r.locked
    ensures Valid(w) ==> forall x :: x != id ==>
      && (x in r.particles <==> x in w.particles)
      && (x in r.selected <==> x in w.selected)
      && (x in r.locked <==> x in w.locked)
  {
    w.(particles := Remove(w.particles, id), selected := Remove(w.selected, id), locked := Remove(w.locked, id))
  }

  /** Removing twice is removing once. */
  lemma ExciseIdempotent(w: World, id: Id)
    requires Valid(w)
    ensures Excise(Excise(w, id), id) == Excise(w, id)
  {
  }
}
