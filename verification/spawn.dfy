/**
  Creating particles: a click or tap on empty canvas spawns `spawnCount`
  particles at the pointer, and splitting replaces one particle by 4 to 7
  smaller fragments at its position. Fresh particles get fresh ids; the
  random sizes and colour are parameters.
 */
module Spawn {
  import opened Seqs
  import opened Particles

  /** The ids `start`, `start + 1`, ..., `start + n - 1`. */
  function Fresh(start: nat, n: nat): (s: seq<Id>)
    ensures |s| == n
    ensures forall k :: 0 <= k < n ==> s[k] == start + k
    ensures forall x :: x in s <==> start <= x < start + n
  {
    var s := seq(n, k => start + k);
    assert forall x :: start <= x < start + n ==> x in s by {
      forall x | start <= x < start + n ensures x in s {
        assert s[x - start] == x;
      }
    }
    s
  }

  /** A record as the constructor leaves it: no flag set, a dynamic body, a positive size. */
  predicate Newborn(p: Particle) {
    !p.isSelected && !p.isLocked && !p.body.isStatic && p.size > 0.0
  }

  /** `store` with the records `ps` entered under `start`, `start + 1`, ... */
  function Enter(store: map<Id, Particle>, start: nat, ps: seq<Particle>): (r: map<Id, Particle>)
    ensures forall x :: x in r <==> x in store || start <= x < start + |ps|
    ensures forall x :: start <= x < start + |ps| ==> r[x] == ps[x - start]
    ensures forall x :: x in store && x < start ==> r[x] == store[x]
  {
    var ids := store.Keys + Elems(Fresh(start, |ps|));
    map x | x in ids :: if start <= x < start + |ps| then ps[x - start] else store[x]
  }

  /** `particles.push(new PhysicsParticle(..))` for each record of `ps`, in
      order, under consecutive fresh ids. */
  function AddAll(w: World, ps: seq<Particle>): (r: World)
    ensures r == w.(particles := r.particles, store := r.store, nextId := r.nextId)
    ensures r.particles == w.particles + Fresh(w.nextId, |ps|) && r.nextId == w.nextId + |ps|
    ensures forall x :: x in r.store <==> x in w.store || w.nextId <= x < w.nextId + |ps|
    ensures forall x :: w.nextId <= x < w.nextId + |ps| ==> r.store[x] == ps[x - w.nextId]
    ensures forall x :: x in w.store && x < w.nextId ==> r.store[x] == w.store[x]
  {
    w.(particles := w.particles + Fresh(w.nextId, |ps|), store := Enter(w.store, w.nextId, ps), nextId := w.nextId + |ps|)
  }

  /** Adding newborn records under fresh ids keeps a valid world valid. */
  lemma AddAllKeepsValid(w: World, ps: seq<Particle>)
    requires Valid(w) && forall k :: 0 <= k < |ps| ==> Newborn(ps[k])
    ensures Valid(AddAll(w, ps))
  {
    var r := AddAll(w, ps);
    forall x | x in r.particles ensures x in r.store && (x in w.particles || w.nextId <= x < r.nextId) {
      if x !in w.particles {
        assert x in Fresh(w.nextId, |ps|);
      }
    }
    forall x | w.nextId <= x < r.nextId ensures Newborn(r.store[x]) && x !in w.particles {
      assert r.store[x] == ps[x - w.nextId];
    }
    assert Distinct(r.particles) by {
      var f := Fresh(w.nextId, |ps|);
      forall i, j | 0 <= i < j < |r.particles| ensures r.particles[i] != r.particles[j] {
        if j >= |w.particles| {
          assert r.particles[j] == f[j - |w.particles|];
          if i < |w.particles| {
            assert r.particles[i] in w.particles;
          } else {
            assert r.particles[i] == f[i - |w.particles|];
          }
        }
      }
    }
  }

  /** `n` constructor calls at `pos`: the sizes are the random draws, the
      displayed shape is `shape` and the body is built as `bodyShape`. */
  function Batch(sizes: seq<real>, color: Rgb, shape: Shape, bodyShape: Shape, pos: Point): (ps: seq<Particle>)
    ensures |ps| == |sizes|
    ensures forall k :: 0 <= k < |sizes| ==> ps[k] == NewParticle(sizes[k], color, shape, bodyShape, pos)
  {
    seq(|sizes|, k requires 0 <= k < |sizes| => NewParticle(sizes[k], color, shape, bodyShape, pos))
  }

  /** Entering a batch stores, under each fresh id, the constructor's record for the matching size. */
  lemma EnterBatch(store: map<Id, Particle>, start: nat, sizes: seq<real>, color: Rgb, shape: Shape, bodyShape: Shape, pos: Point)
    ensures var r := Enter(store, start, Batch(sizes, color, shape, bodyShape, pos));
      forall x :: start <= x < start + |sizes| ==> r[x] == NewParticle(sizes[x - start], color, shape, bodyShape, pos)
  {
    var ps := Batch(sizes, color, shape, bodyShape, pos);
    var r := Enter(store, start, ps);
    forall x | start <= x < start + |sizes| ensures r[x] == NewParticle(sizes[x - start], color, shape, bodyShape, pos) {
      assert r[x] == ps[x - start];
    }
  }

  /** How many times `for (let i = 0; i < spawnCount; i++)` runs. */
  function SpawnTimes(count: int): (n: nat)
    ensures count > 0 ==> n == count
    ensures count <= 0 ==> n == 0
  {
    if count > 0 then count else 0
  }

  /** A draw of `random(baseSize * 0.75, baseSize * 1.5)`. */
  predicate InSpawnRange(base: real, s: real) {
    base * PARTICLE_SIZE_MIN <= s < base * PARTICLE_SIZE_MAX
  }

  /** `createParticles(x, y)` (main.js:795-815): `spawnCount` new particles of
      the chosen colour and the current shape at the pointer, appended to
      `particles`; nothing else changes. */
  function CreateParticles(w: World, pos: Point, color: Rgb, sizes: seq<real>): (r: World)
    requires |sizes| == SpawnTimes(w.spawnCount)
    ensures r == w.(particles := r.particles, store := r.store, nextId := r.nextId)
    ensures r.particles == w.particles + Fresh(w.nextId, |sizes|)
  {
    AddAll(w, Batch(sizes, color, w.shape, w.shape, pos))
  }

  /** The spawned records are newborn particles of the drawn sizes, the chosen
      colour and the current shape at the pointer; every older record is untouched. */
  lemma CreatedRecords(w: World, pos: Point, color: Rgb, sizes: seq<real>)
    requires |sizes| == SpawnTimes(w.spawnCount)
    ensures var r := CreateParticles(w, pos, color, sizes);
      && (forall x :: x in r.store <==> x in w.store || w.nextId <= x < w.nextId + |sizes|)
      && (forall x :: x in w.store && x < w.nextId ==> r.store[x] == w.store[x])
      && (forall x :: w.nextId <= x < w.nextId + |sizes| ==>
            r.store[x] == NewParticle(sizes[x - w.nextId], color, w.shape, w.shape, pos))
  {
    EnterBatch(w.store, w.nextId, sizes, color, w.shape, w.shape, pos);
  }

  /** Spawning keeps a valid world valid. */
  lemma CreateKeepsValid(w: World, pos: Point, color: Rgb, sizes: seq<real>)
    requires |sizes| == SpawnTimes(w.spawnCount)
    requires forall k :: 0 <= k < |sizes| ==> InSpawnRange(BaseSize(w), sizes[k])
    ensures Valid(w) ==> Valid(CreateParticles(w, pos, color, sizes))
  {
    if Valid(w) {
      var ps := Batch(sizes, color, w.shape, w.shape, pos);
      forall k | 0 <= k < |ps| ensures Newborn(ps[k]) {
        assert BaseSize(w) * PARTICLE_SIZE_MIN > 0.0;
        assert InSpawnRange(BaseSize(w), sizes[k]);
      }
      assert CreateParticles(w, pos, color, sizes) == AddAll(w, ps);
      AddAllKeepsValid(w, ps);
    }
  }

  /** The base size `splitParticle` sets for the fragments (main.js:1627-1631),
      chosen so the middle of the spawn range is 60% of the original size. */
  function FragmentBase(size: real): real {
    size * SPLIT_SIZE_REDUCTION / SPAWN_SIZE_MIDPOINT
  }

  /** With that base size, a fragment is between 40% and 80% of the original. */
  lemma FragmentRange(size: real, s: real)
    requires InSpawnRange(FragmentBase(size), s)
    ensures 0.4 * size <= s < 0.8 * size
  {
  }

  /** `splitParticle` (main.js:1594-1653): remove the particle from all three
      collections, then add 4 to 7 fragments at its position, of its colour,
      with bodies built in its shape but displayed in the current shape. The
      base size is only borrowed: the world's scale is the same afterwards. */
  function Split(w: World, id: Id, sizes: seq<real>): (r: World)
    requires id in w.store
    requires 4 <= |sizes| <= 7
    ensures r.screenMin == w.screenMin && r.shape == w.shape && r.spawnCount == w.spawnCount
    ensures r.particles == Remove(w.particles, id) + Fresh(w.nextId, |sizes|)
    ensures r.selected == Remove(w.selected, id) && r.locked == Remove(w.locked, id)
  {
    var q := w.store[id];
    AddAll(Excise(w, id), Batch(sizes, q.color, w.shape, q.shape, q.body.pos))
  }

  /** The fragments of a split are fresh records of the original's colour
      and position, their bodies built in its shape, each between 40% and 80%
      of its size; every older record is untouched. */
  lemma SplitFragments(w: World, id: Id, sizes: seq<real>)
    requires id in w.store
    requires 4 <= |sizes| <= 7
    requires forall k :: 0 <= k < |sizes| ==> InSpawnRange(FragmentBase(w.store[id].size), sizes[k])
    ensures var r := Split(w, id, sizes);
      && (forall x :: x in r.store <==> x in w.store || w.nextId <= x < w.nextId + |sizes|)
      && (forall x :: x in w.store && x < w.nextId ==> r.store[x] == w.store[x])
    ensures var r, q := Split(w, id, sizes), w.store[id];
      forall x :: w.nextId <= x < w.nextId + |sizes| ==>
        && r.store[x] == NewParticle(r.store[x].size, q.color, w.shape, q.shape, q.body.pos)
        && 0.4 * q.size <= r.store[x].size < 0.8 * q.size
  {
    var q := w.store[id];
    var w1 := Excise(w, id);
    assert Split(w, id, sizes) == AddAll(w1, Batch(sizes, q.color, w.shape, q.shape, q.body.pos));
    EnterBatch(w1.store, w.nextId, sizes, q.color, w.shape, q.shape, q.body.pos);
    FragmentSizes(q.size, sizes);
  }

  /** Every fragment size drawn for a split is between 40% and 80% of the original. */
  lemma FragmentSizes(size: real, sizes: seq<real>)
    requires forall k :: 0 <= k < |sizes| ==> InSpawnRange(FragmentBase(size), sizes[k])
    ensures forall k :: 0 <= k < |sizes| ==> 0.4 * size <= sizes[k] < 0.8 * size
  {
    forall k | 0 <= k < |sizes| ensures 0.4 * size <= sizes[k] < 0.8 * size {
      FragmentRange(size, sizes[k]);
    }
  }

  /** Splitting a live particle of a valid world leaves a valid world: the
      particle is gone from all three collections, the others keep their
      membership, and there are `|sizes| - 1` more live particles. */
  lemma SplitKeepsValid(w: World, id: Id, sizes: seq<real>)
    requires Valid(w) && id in w.particles
    requires 4 <= |sizes| <= 7
    requires forall k :: 0 <= k < |sizes| ==> InSpawnRange(FragmentBase(w.store[id].size), sizes[k])
    ensures var r := Split(w, id, sizes);
      && Valid(r)
      && |r.particles| == |w.particles| - 1 + |sizes|
      && id !in r.particles && id !in r.selected && id !in r.locked
      && (forall x :: x != id ==> (x in r.selected <==> x in w.selected) && (x in r.locked <==> x in w.locked))
  {
    var q := w.store[id];
    var ps := Batch(sizes, q.color, w.shape, q.shape, q.body.pos);
    var w1 := Excise(w, id);
    forall k | 0 <= k < |ps| ensures Newborn(ps[k]) {
      FragmentRange(q.size, sizes[k]);
    }
    assert Split(w, id, sizes) == AddAll(w1, ps);
    AddAllKeepsValid(w1, ps);
  }
}
