/**
  Acid: an acid particle corrodes every non-acid, unlocked particle it
  collides with, taking a tenth off its size, and an unlocked acid particle
  shrinks by itself every 100 ms. A particle that falls below the minimum
  size is removed from all three collections; one that survives gets a new,
  resized physics body.
 */
module Acid {
  import opened Seqs
  import opened Particles

  /** `resizeBody` (main.js:412-431): a new body of the particle's displayed
      shape at the same place; the new body is not static. */
  function Resize(p: Particle, size: real): (q: Particle)
    ensures q.size == size && q.body.gen == p.body.gen + 1 && q.body.pos == p.body.pos
    ensures q.body.shape == p.shape && !q.body.isStatic
    ensures q == p.(size := size, body := q.body)
  {
    p.(size := size, body := Body(p.body.gen + 1, p.shape, p.body.pos, false))
  }

  /** `particles.find(p => p.body === ref)` (main.js:122-123): the live particle
      whose current body is `ref`. */
  function Find(w: World, ref: BodyRef): (o: Option<Id>)
    requires Closed(w)
    ensures o.Some? ==> o.value in w.particles && ref == ParticleBody(o.value, w.store[o.value].body.gen)
    ensures o.None? ==> forall x :: x in w.particles ==> ref != ParticleBody(x, w.store[x].body.gen)
  {
    match ref
    case Boundary(_) => None
    case ParticleBody(owner, gen) =>
      if owner in w.particles && w.store[owner].body.gen == gen then Some(owner) else None
  }

  /** `applyAcidEffect` (main.js:141-172): shrink the target by the acid
      strength; below the minimum size it leaves all three collections,
      otherwise it only changes size (and body). */
  function ApplyAcid(w: World, target: Id): (r: World)
    requires target in w.store
    ensures var s := w.store[target].size * (1.0 - ACID_STRENGTH);
      && r.store.Keys == w.store.Keys
      && (forall x :: x in w.store && x != target ==> r.store[x] == w.store[x])
      && (s < MIN_PARTICLE_SIZE ==> r.store == w.store)
      && (s >= MIN_PARTICLE_SIZE ==> r == w.(store := r.store) && r.store[target] == Resize(w.store[target], s))
    ensures Closed(w) ==> Closed(r)
    ensures forall x :: x in r.particles ==> x in w.particles
    ensures Valid(w) && target in w.particles && w.store[target].size * (1.0 - ACID_STRENGTH) < MIN_PARTICLE_SIZE ==>
      && target !in r.particles && target !in r.selected && target !in r.locked
      && forall x :: x != target ==>
        (x in r.particles <==> x in w.particles) && (x in r.selected <==> x in w.selected) && (x in r.locked <==> x in w.locked)
    ensures Valid(w) && target in w.particles && !w.store[target].isLocked ==> Valid(r) && r.locked == w.locked
  {
    var p := w.store[target];
    var s := p.size * (1.0 - ACID_STRENGTH);
    if s < MIN_PARTICLE_SIZE then
      var r := Excise(w, target);
      assert Valid(w) && target in w.particles && !p.isLocked ==> target !in w.locked;
      r
    else
      w.(store := w.store[target := Resize(p, s)])
  }

  /** The pair filter of `handleCollisionStart` (main.js:117-133): when both
      bodies belong to live particles and exactly one of them is acid, the other
      one is corroded unless it is locked. */
  function HandlePair(w: World, a: BodyRef, b: BodyRef): (r: World)
    requires Closed(w)
    ensures Closed(r)
    ensures Valid(w) ==> Valid(r) && r.locked == w.locked
    ensures r.store.Keys == w.store.Keys
    ensures forall x :: x in r.particles ==> x in w.particles
    ensures forall x :: x in w.store && (w.store[x].isAcid || w.store[x].isLocked) ==> r.store[x] == w.store[x]
    ensures Find(w, a).None? || Find(w, b).None? ==> r == w
    ensures Find(w, a).Some? && Find(w, b).Some? ==>
      var pa := w.store[Find(w, a).value];
      var pb := w.store[Find(w, b).value];
      && (pa.isAcid == pb.isAcid ==> r == w)
      && (pa.isAcid && !pb.isAcid ==> r == if pb.isLocked then w else ApplyAcid(w, Find(w, b).value))
      && (pb.isAcid && !pa.isAcid ==> r == if pa.isLocked then w else ApplyAcid(w, Find(w, a).value))
  {
    var fa := Find(w, a);
    var fb := Find(w, b);
    if fa.Some? && fb.Some? then
      var pa := w.store[fa.value];
      var pb := w.store[fb.value];
      if pa.isAcid && !pb.isAcid && !pb.isLocked then ApplyAcid(w, fb.value)
      else if pb.isAcid && !pa.isAcid && !pa.isLocked then ApplyAcid(w, fa.value)
      else w
    else w
  }

  /** `handleCollisionStart` (main.js:114-135): the pairs of one collision
      event, in order, each looked up against the world as the earlier pairs
      left it. */
  function HandleCollisionStart(w: World, pairs: seq<(BodyRef, BodyRef)>): (r: World)
    requires Closed(w)
    ensures Valid(w) ==> Valid(r) && r.locked == w.locked
    ensures forall x :: x in r.particles ==> x in w.particles
    ensures r.store.Keys == w.store.Keys
    ensures forall x :: x in w.store && (w.store[x].isAcid || w.store[x].isLocked) ==> r.store[x] == w.store[x]
    decreases |pairs|
  {
    if |pairs| == 0 then w
    else
      var w1 := HandlePair(w, pairs[0].0, pairs[0].1);
      HandleCollisionStart(w1, pairs[1..])
  }

  /** Once corrosion has resized a particle, its old body no longer resolves:
      a later pair of the same event that still names the old body is ignored,
      so one body is corroded at most once. */
  lemma OldBodyGone(w: World, target: Id)
    requires Valid(w) && target in w.particles
    ensures var r := ApplyAcid(w, target);
      Find(r, ParticleBody(target, w.store[target].body.gen)).None?
  {
  }

  /** A click with the V latch on a particle (main.js:560-564): it becomes acid;
      no collection and no other record changes. */
  function MakeAcid(w: World, id: Id): (r: World)
    requires id in w.store
    ensures r == w.(store := r.store) && r.store.Keys == w.store.Keys
    ensures r.store[id].isAcid
    ensures forall x :: x in w.store ==> r.store[x] == w.store[x].(isAcid := r.store[x].isAcid)
    ensures forall x :: x in w.store && x != id ==> r.store[x] == w.store[x]
    ensures Valid(w) ==> Valid(r)
  {
    w.(store := w.store[id := w.store[id].(isAcid := true)])
  }

  /** Once a particle is acid, no collision event corrodes it. */
  lemma AcidIsImmune(w: World, id: Id, pairs: seq<(BodyRef, BodyRef)>)
    requires Closed(w) && id in w.store
    ensures var m := MakeAcid(w, id);
      HandleCollisionStart(m, pairs).store[id] == m.store[id]
  {
    var m := MakeAcid(w, id);
    assert m.store[id].isAcid;
  }

  // ---- self-decay ----

  /** The acid branch of `update` (main.js:363-403) on one particle record:
      an unlocked acid particle's timer accumulates the frame time; once it
      exceeds the interval, the particle shrinks by the decay rate and the timer
      restarts. A survivor gets a resized body. */
  function Decayed(p: Particle, dt: real): (q: Particle)
    ensures p.isLocked || !p.isAcid ==> q == p
    ensures !p.isLocked && p.isAcid && p.decayTimer + dt <= ACID_DECAY_INTERVAL ==> q == p.(decayTimer := p.decayTimer + dt)
    ensures !p.isLocked && p.isAcid && p.decayTimer + dt > ACID_DECAY_INTERVAL ==>
      && q.size == p.size * (1.0 - ACID_DECAY_RATE) && q.decayTimer == 0.0
      && q.isLocked == p.isLocked && q.isSelected == p.isSelected && q.isAcid
      && (q.size >= MIN_PARTICLE_SIZE ==> q.body == Resize(p, q.size).body)
      && (q.size < MIN_PARTICLE_SIZE ==> q.body == p.body)
  {
    if p.isLocked || !p.isAcid then p
    else
      var t := p.decayTimer + dt;
      if t > ACID_DECAY_INTERVAL then
        var s := p.size * (1.0 - ACID_DECAY_RATE);
        if s < MIN_PARTICLE_SIZE then p.(size := s, decayTimer := 0.0)
        else Resize(p, s).(decayTimer := 0.0)
      else p.(decayTimer := t)
  }

  /** This frame's decay takes the particle below the minimum size. */
  predicate Dies(p: Particle, dt: real) {
    !p.isLocked && p.isAcid && p.decayTimer + dt > ACID_DECAY_INTERVAL
    && p.size * (1.0 - ACID_DECAY_RATE) < MIN_PARTICLE_SIZE
  }

  /** `particle.update()` (main.js:363-403) for the live particle `id`. */
  function Update(w: World, id: Id, dt: real): (r: World)
    requires id in w.store
    ensures r.store == w.store[id := Decayed(w.store[id], dt)]
    ensures !Dies(w.store[id], dt) ==> r == w.(store := r.store)
    ensures Dies(w.store[id], dt) ==> r.particles == Remove(w.particles, id) && r.selected == Remove(w.selected, id)
    ensures Valid(w) && id in w.particles ==> Valid(r) && r.locked == w.locked
    ensures Valid(w) && id in w.particles ==> forall x :: x != id ==>
      (x in r.particles <==> x in w.particles) && (x in r.selected <==> x in w.selected)
    ensures Valid(w) && id in w.particles ==> (id in r.particles <==> !Dies(w.store[id], dt))
  {
    var p := w.store[id];
    var w1 := w.(store := w.store[id := Decayed(p, dt)]);
    if Dies(p, dt) then
      assert Valid(w) && id in w.particles ==> Valid(w1) && id !in w.locked;
      Excise(w1, id)
    else
      assert Valid(w) && id in w.particles ==> Valid(w1);
      w1
  }

  /** The live particles that die in this frame. */
  ghost function Dying(w: World, dt: real): set<Id>
    requires Closed(w)
  {
    set x | x in w.particles && Dies(w.store[x], dt)
  }

  /** The frame loop of `draw` (main.js:256-268) as far as the model goes: walk
      `particles` from the last index down to 0 and update each particle; an
      update removes at most the particle itself, so every particle is visited
      once. Afterwards the survivors are the particles that did not die, in
      their original order. */
  function Frame(w: World, dt: real): (r: World)
    requires Valid(w)
    ensures Valid(r) && r.locked == w.locked && r.store.Keys == w.store.Keys
    ensures r.particles == Without(w.particles, Dying(w, dt))
    ensures forall x :: x in w.particles ==> r.store[x] == Decayed(w.store[x], dt)
    ensures forall x :: x in w.store && x !in w.particles ==> r.store[x] == w.store[x]
    ensures forall x :: x in w.selected ==> (x in r.selected <==> !Dies(w.store[x], dt))
  {
    FrameStart(w, dt);
    var r := FrameFrom(w, dt, w, |w.particles| - 1);
    FrameDone(w, dt, r);
    r
  }

  /** The loop of `Frame` from position `i` down to 0. */
  function FrameFrom(w: World, dt: real, r: World, i: int): (r': World)
    requires FrameInv(w, dt, r, i)
    ensures FrameInv(w, dt, r', -1)
    decreases i
  {
    if i < 0 then r
    else
      FrameStep(w, dt, r, i);
      FrameFrom(w, dt, Update(r, w.particles[i], dt), i - 1)
  }

  /** The loop invariant of `Frame` after the positions above `i` are done:
      those particles are decayed (and gone if they died), the ones at or
      below `i` are untouched. */
  ghost predicate FrameInv(w: World, dt: real, r: World, i: int) {
    && Valid(w) && -1 <= i < |w.particles|
    && Valid(r) && r.locked == w.locked && r.store.Keys == w.store.Keys
    && r.particles == w.particles[..i + 1] + Without(w.particles[i + 1..], Dying(w, dt))
    && (forall x :: x in w.particles[..i + 1] ==> r.store[x] == w.store[x])
    && (forall x :: x in w.particles[i + 1..] ==> r.store[x] == Decayed(w.store[x], dt))
    && (forall x :: x in w.store && x !in w.particles ==> r.store[x] == w.store[x])
    && (forall x :: x in w.selected ==> (x in r.selected <==> x in r.particles))
  }

  /** Before the loop, nothing is done. */
  lemma FrameStart(w: World, dt: real)
    requires Valid(w)
    ensures FrameInv(w, dt, w, |w.particles| - 1)
  {
    assert w.particles[..|w.particles|] == w.particles;
    assert w.particles[|w.particles|..] == [];
  }

  /** Updating the particle at position `i` moves the invariant from `i` to `i - 1`. */
  lemma FrameStep(w: World, dt: real, r: World, i: int)
    requires FrameInv(w, dt, r, i) && i >= 0
    ensures i < |r.particles| && r.particles[i] == w.particles[i] && r.particles[i] in r.store
    ensures FrameInv(w, dt, Update(r, w.particles[i], dt), i - 1)
  {
    var P := w.particles;
    assert r.particles[i] == P[i];
    FrameStepParticles(w, dt, r, i);
    FrameStepStore(w, dt, r, i);
  }

  /** The particle at position `i` joins the filtered suffix. */
  lemma FrameStepParticles(w: World, dt: real, r: World, i: int)
    requires FrameInv(w, dt, r, i) && i >= 0
    ensures Update(r, w.particles[i], dt).particles == w.particles[..i] + Without(w.particles[i..], Dying(w, dt))
  {
    var P := w.particles;
    assert P[i] in P[..i + 1];
    PeelLast(P, i, Dying(w, dt), r.particles);
  }

  /** The record at position `i` joins the decayed suffix. */
  lemma FrameStepStore(w: World, dt: real, r: World, i: int)
    requires FrameInv(w, dt, r, i) && i >= 0
    ensures var r1 := Update(r, w.particles[i], dt);
      && (forall x :: x in w.particles[..i] ==> r1.store[x] == w.store[x])
      && (forall x :: x in w.particles[i..] ==> r1.store[x] == Decayed(w.store[x], dt))
      && (forall x :: x in w.store && x !in w.particles ==> r1.store[x] == w.store[x])
  {
    var P := w.particles;
    assert P[i] in P[..i + 1];
    StoreStep(P, i, w.store, r.store, dt);
  }

  /** When the loop ends, its invariant is the contract of `Frame`. */
  lemma FrameDone(w: World, dt: real, r: World)
    requires FrameInv(w, dt, r, -1)
    ensures Valid(r) && r.locked == w.locked && r.store.Keys == w.store.Keys
    ensures forall x :: x in w.store && x !in w.particles ==> r.store[x] == w.store[x]
    ensures r.particles == Without(w.particles, Dying(w, dt))
    ensures forall x :: x in w.particles ==> r.store[x] == Decayed(w.store[x], dt)
    ensures forall x :: x in w.selected ==> (x in r.selected <==> !Dies(w.store[x], dt))
  {
    assert w.particles[0..] == w.particles;
    assert w.particles[..0] == [];
  }

  /** The record step of `Frame`: updating the record at position `i` extends
      the decayed suffix by one and shortens the untouched prefix by one. */
  lemma StoreStep(P: seq<Id>, i: nat, ws: map<Id, Particle>, rs: map<Id, Particle>, dt: real)
    requires Distinct(P) && i < |P| && P[i] in rs && rs.Keys == ws.Keys
    requires forall x :: x in P[..i + 1] ==> x in ws && rs[x] == ws[x]
    requires forall x :: x in P[i + 1..] ==> x in ws && rs[x] == Decayed(ws[x], dt)
    ensures var rs1 := rs[P[i] := Decayed(rs[P[i]], dt)];
      && (forall x :: x in P[..i] ==> rs1[x] == ws[x])
      && (forall x :: x in P[i..] ==> rs1[x] == Decayed(ws[x], dt))
  {
    assert P[i] in P[..i + 1];
    assert P[i] !in P[..i];
    assert forall x :: x in P[..i] ==> x in P[..i + 1];
    assert forall x :: x in P[i..] ==> x == P[i] || x in P[i + 1..];
  }

  /** The sequence step of `Frame`: the element at position `i` joins the
      filtered suffix, and leaves the sequence when it is filtered out. */
  lemma PeelLast(P: seq<Id>, i: nat, D: set<Id>, s: seq<Id>)
    requires Distinct(P) && Distinct(s) && i < |P| && s == P[..i + 1] + Without(P[i + 1..], D)
    ensures P[i] in D ==> Remove(s, P[i]) == P[..i] + Without(P[i..], D)
    ensures P[i] !in D ==> s == P[..i] + Without(P[i..], D)
  {
    assert Without(P[i..], D) == (if P[i] in D then [] else [P[i]]) + Without(P[i + 1..], D) by {
      assert P[i..][1..] == P[i + 1..];
    }
    if P[i] in D {
      PeelDropped(P, i, Without(P[i + 1..], D), s);
    } else {
      assert P[..i + 1] == P[..i] + [P[i]];
    }
  }

  /** Removing the element at position `i` of `P[..i + 1] + rest` leaves
      `P[..i] + rest`. */
  lemma PeelDropped(P: seq<Id>, i: nat, rest: seq<Id>, s: seq<Id>)
    requires Distinct(s) && i < |P| && s == P[..i + 1] + rest
    ensures Remove(s, P[i]) == P[..i] + rest
  {
    assert s[i] == P[i];
    RemoveAt(s, i);
    assert s[..i] == P[..i];
    assert s[i + 1..] == rest;
  }
}
