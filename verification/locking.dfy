/**
  Locking: a locked particle is pinned (its body is made static) and listed in
  `lockedParticles`. The lock button flips every selected particle and then
  deselects everything; `toggleLockMode` only flips.
 */
module Locking {
  import opened Seqs
  import opened Particles
  import opened Selection

  /** `Valid` carries over to `r` when only the lock list and the lock and
      static flags of live particles change, in step with each other. */
  lemma RelockKeepsValid(w: World, r: World)
    ensures
      && Valid(w)
      && r.particles == w.particles && r.selected == w.selected && r.nextId == w.nextId && r.screenMin == w.screenMin
      && r.store.Keys == w.store.Keys
      && (forall x :: x in w.particles ==>
            r.store[x].isSelected == w.store[x].isSelected && r.store[x].size == w.store[x].size)
      && Distinct(r.locked) && (forall x :: x in r.locked ==> x in r.particles)
      && (forall x :: x in r.particles ==> r.store[x].isLocked == (x in r.locked) && r.store[x].body.isStatic == r.store[x].isLocked)
      ==> Valid(r)
  {
  }

  /** `p` with its lock flipped and its body made static exactly when it is now locked. */
  function Flipped(p: Particle): (q: Particle)
    ensures q.isLocked != p.isLocked && q.body.isStatic == q.isLocked
    ensures q.body.gen == p.body.gen && q.body.pos == p.body.pos && q.body.shape == p.body.shape
    ensures q == p.(isLocked := q.isLocked, body := q.body)
  {
    p.(isLocked := !p.isLocked, body := p.body.(isStatic := !p.isLocked))
  }

  /** Flipping twice restores a particle whose body was static exactly when it was locked. */
  lemma FlippedTwice(p: Particle)
    requires p.body.isStatic == p.isLocked
    ensures Flipped(Flipped(p)) == p
  {
  }

  /** One iteration of the lock loop (main.js:1184-1206, 1434-1456): lock an
      unlocked particle (appending it to `locked` unless already listed) or
      unlock a locked one (the guarded removal). */
  function FlipLock(w: World, id: Id): (r: World)
    requires id in w.store
    ensures r == w.(locked := r.locked, store := r.store) && r.store.Keys == w.store.Keys
    ensures r.store[id] == Flipped(w.store[id])
    ensures forall x :: x != id ==> (x in r.locked <==> x in w.locked) && (x in w.store ==> r.store[x] == w.store[x])
    ensures Valid(w) && id in w.particles ==> Valid(r) && (id in r.locked <==> id !in w.locked)
  {
    var p := w.store[id];
    var r :=
      if !p.isLocked then
        w.(store := w.store[id := Flipped(p)],
           locked := if IndexOf(w.locked, id) == -1 then w.locked + [id] else w.locked)
      else
        w.(store := w.store[id := Flipped(p)], locked := Remove(w.locked, id));
    RelockKeepsValid(w, r);
    r
  }

  /** The lock loop over `ids`, in order. */
  function FlipLocks(w: World, ids: seq<Id>): (r: World)
    requires forall x :: x in ids ==> x in w.store
    ensures r == w.(locked := r.locked, store := r.store) && r.store.Keys == w.store.Keys
    ensures forall x :: x !in ids ==> (x in r.locked <==> x in w.locked) && (x in w.store ==> r.store[x] == w.store[x])
    decreases |ids|
  {
    if |ids| == 0 then w
    else
      var w1 := FlipLock(w, ids[0]);
      var r := FlipLocks(w1, ids[1..]);
      assert forall x :: x !in ids ==> x != ids[0] && x !in ids[1..];
      r
  }

  /** Over a duplicate-free list, every listed particle is flipped exactly once. */
  lemma {:induction false} FlipLocksFlips(w: World, ids: seq<Id>)
    requires forall x :: x in ids ==> x in w.store
    requires Distinct(ids)
    ensures forall x :: x in ids ==> FlipLocks(w, ids).store[x] == Flipped(w.store[x])
    decreases |ids|
  {
    if |ids| > 0 {
      var w1 := FlipLock(w, ids[0]);
      var r := FlipLocks(w1, ids[1..]);
      DistinctTail(ids);
      FlipLocksFlips(w1, ids[1..]);
      forall x | x in ids ensures r.store[x] == Flipped(w.store[x]) {
        if x == ids[0] {
          assert r.store[x] == w1.store[x];
        } else {
          assert x in ids[1..];
          assert w1.store[x] == w.store[x];
        }
      }
    }
  }

  /** On a valid world, flipping a duplicate-free list of live particles keeps
      the world valid and toggles exactly their membership in `locked`. */
  lemma {:induction false} FlipLocksValid(w: World, ids: seq<Id>)
    requires Valid(w) && Distinct(ids) && forall x :: x in ids ==> x in w.particles
    ensures var r := FlipLocks(w, ids);
      Valid(r) && forall x :: x in ids ==> (x in r.locked <==> x !in w.locked)
    decreases |ids|
  {
    if |ids| > 0 {
      var w1 := FlipLock(w, ids[0]);
      assert ids[0] !in ids[1..];
      assert forall x :: x in ids[1..] ==> x in ids;
      FlipLocksValid(w1, ids[1..]);
    }
  }

  /** `toggleLockMode` (main.js:1432-1462): flip the lock of every selected
      particle; the selection stays. */
  function ToggleLockMode(w: World): (r: World)
    requires Closed(w)
    ensures r.particles == w.particles && r.selected == w.selected && r.store.Keys == w.store.Keys
    ensures Valid(w) ==> Valid(r)
    ensures Valid(w) ==> forall x :: x in w.particles ==>
      && (x in w.selected ==> r.store[x] == Flipped(w.store[x]) && (x in r.locked <==> x !in w.locked))
      && (x !in w.selected ==> r.store[x] == w.store[x] && (x in r.locked <==> x in w.locked))
  {
    if |w.selected| > 0 then
      var r := FlipLocks(w, w.selected);
      ToggleLockModeValid(w);
      r
    else w
  }

  /** What `ToggleLockMode` needs of the loop, stated for any world. */
  lemma ToggleLockModeValid(w: World)
    requires Closed(w)
    ensures var r := FlipLocks(w, w.selected);
      Valid(w) ==>
        && Valid(r)
        && (forall x :: x in w.selected ==> r.store[x] == Flipped(w.store[x]) && (x in r.locked <==> x !in w.locked))
  {
    if Valid(w) {
      FlipLocksFlips(w, w.selected);
      FlipLocksValid(w, w.selected);
    }
  }

  /** Toggling twice restores every particle record and the lock list as a set. */
  lemma ToggleLockModeTwice(w: World)
    requires Valid(w)
    ensures var r := ToggleLockMode(ToggleLockMode(w));
      r.store == w.store && r.particles == w.particles && r.selected == w.selected
      && forall x :: x in r.locked <==> x in w.locked
  {
    var m := ToggleLockMode(w);
    var r := ToggleLockMode(m);
    forall x | x in w.store ensures r.store[x] == w.store[x] {
      if x in w.selected {
        FlippedTwice(w.store[x]);
      }
    }
  }

  /** The lock button (main.js:1182-1218) and the `L` key that clicks it
      (main.js:872-877): flip the lock of every selected particle, then clear
      the selected and hover flags of every live particle and empty the selection. */
  function LockButton(w: World): (r: World)
    requires Closed(w)
    ensures r.particles == w.particles && r.selected == [] && r.store.Keys == w.store.Keys
    ensures Valid(w) ==> Valid(r)
    ensures Valid(w) ==> forall x :: x in w.particles ==>
      && !r.store[x].isSelected && !r.store[x].isHovered
      && r.store[x].isLocked == (x in r.locked)
      && (x in r.locked <==> (x in w.locked) != (x in w.selected))
  {
    var f := ToggleLockMode(w);
    var r := f.(store := ClearMarks(f.store, f.particles), selected := []);
    ReselectKeepsValid(f, r);
    r
  }
}
