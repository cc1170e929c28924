/**
  Removing particles: cutting the selection (Backspace, the cut button and
  `toggleCutMode`), clearing the canvas, the random cluster removal of
  `resetParticles` (two-finger tap, Backspace with nothing selected) and the
  three-finger sweep of every unlocked particle.

  Removal takes ids out of the collections; the store keeps the records, and
  the physics bodies' `remove()` calls are not modelled.
 */
module Removal {
  import opened Seqs
  import opened Particles

  // ---- cut ----

  /** What the unguarded `particles.splice(particles.indexOf(p), 1)` does:
      on a duplicate-free list holding `x` it deletes `x`; when `x` is
      missing, `indexOf` answers -1 and the LAST element goes. */
  lemma SpliceFacts(s: seq<Id>, x: Id)
    ensures Distinct(s) && x in s ==> SpliceOne(s, IndexOf(s, x)) == Without(s, {x})
    ensures x !in s && |s| > 0 ==> SpliceOne(s, IndexOf(s, x)) == s[..|s| - 1]
  {
    if Distinct(s) && x in s {
      SpliceFound(s, x);
    }
    if x !in s && |s| > 0 {
      SpliceMissingDropsLast(s, x);
    }
  }

  /** The `particles` side of the cut loop (main.js:852, 1164, 1425): for
      each id in order, the unguarded `particles.splice(particles.indexOf(p), 1)`. */
  function SpliceEach(ps: seq<Id>, ids: seq<Id>): (r: seq<Id>)
    ensures |r| <= |ps|
    ensures forall x :: x in r ==> x in ps
    decreases |ids|
  {
    if |ids| == 0 then ps else SpliceEach(SpliceOne(ps, IndexOf(ps, ids[0])), ids[1..])
  }

  /** The `lockedParticles` side of the cut loop (main.js:845-849, 1157-1161,
      1418-1422): for each id in order, the guarded removal. */
  function RemoveEach(s: seq<Id>, ids: seq<Id>): (r: seq<Id>)
    ensures |r| <= |s|
    ensures forall x :: x in r ==> x in s
    ensures forall x :: x in s && x !in ids ==> x in r
    decreases |ids|
  {
    if |ids| == 0 then s else RemoveEach(Remove(s, ids[0]), ids[1..])
  }

  /** The elements of a non-empty sequence are its head and those of its tail. */
  lemma ElemsCons(ids: seq<Id>)
    requires |ids| > 0
    ensures Elems(ids) == {ids[0]} + Elems(ids[1..])
  {
  }

  /** Filtering out the head, then the tail, filters out every id. */
  lemma WithoutHeadThenTail(s: seq<Id>, ids: seq<Id>)
    requires |ids| > 0
    ensures Without(Without(s, {ids[0]}), Elems(ids[1..])) == Without(s, Elems(ids))
  {
    WithoutTwice(s, {ids[0]}, Elems(ids[1..]));
    ElemsCons(ids);
  }

  /** On a duplicate-free list, the guarded loop filters the ids out. */
  lemma {:induction false} RemoveEachWithout(s: seq<Id>, ids: seq<Id>)
    requires Distinct(s)
    ensures RemoveEach(s, ids) == Without(s, Elems(ids))
    decreases |ids|
  {
    if |ids| == 0 {
      assert Elems(ids) == {};
      WithoutNothing(s, {});
    } else {
      RemoveEachWithout(Remove(s, ids[0]), ids[1..]);
      WithoutHeadThenTail(s, ids);
    }
  }

  /** The rest of a duplicate-free list of live ids survives removing its head. */
  lemma TailSurvives(ps: seq<Id>, ids: seq<Id>)
    requires Distinct(ids) && |ids| > 0 && forall x :: x in ids ==> x in ps
    ensures Distinct(ids[1..]) && forall x :: x in ids[1..] ==> x in Without(ps, {ids[0]})
  {
    DistinctTail(ids);
    assert forall x :: x in ids[1..] ==> x in ids;
  }

  /** Over duplicate-free ids all present in a duplicate-free list, the
      unguarded loop filters the ids out too. */
  lemma {:induction false} SpliceEachWithout(ps: seq<Id>, ids: seq<Id>)
    requires Distinct(ps) && Distinct(ids) && forall x :: x in ids ==> x in ps
    ensures SpliceEach(ps, ids) == Without(ps, Elems(ids))
    decreases |ids|
  {
    if |ids| == 0 {
      assert Elems(ids) == {};
      WithoutNothing(ps, {});
    } else {
      SpliceFound(ps, ids[0]);
      TailSurvives(ps, ids);
      SpliceEachWithout(Without(ps, {ids[0]}), ids[1..]);
      WithoutHeadThenTail(ps, ids);
    }
  }

  /** With an id missing from the list, the unguarded splice deletes the last element. */
  lemma SpliceEachMissing(ps: seq<Id>, x: Id)
    requires x !in ps && |ps| > 0
    ensures SpliceEach(ps, [x]) == ps[..|ps| - 1]
  {
    SpliceMissingDropsLast(ps, x);
    assert [x][1..] == [];
  }

  /** Backspace with a selection, the cut button and `toggleCutMode`
      (main.js:841-855, 1154-1169, 1415-1430): run the cut loop over the
      selection, then empty it. With nothing selected nothing happens. The
      loop's two splices work on different arrays, so they are applied one
      array at a time. */
  function CutSelected(w: World): (r: World)
    ensures r == w.(particles := r.particles, locked := r.locked, selected := r.selected)
    ensures r.selected == []
    ensures |w.selected| == 0 ==> r == w
  {
    if |w.selected| > 0 then
      w.(particles := SpliceEach(w.particles, w.selected), locked := RemoveEach(w.locked, w.selected), selected := [])
    else w
  }

  /** On a valid world, cutting removes exactly the selected particles from
      `particles` and `locked`, keeps the order of the rest, and leaves a
      valid world. */
  lemma CutSelectedValid(w: World)
    requires Valid(w)
    ensures var r := CutSelected(w);
      && Valid(r)
      && r.particles == Without(w.particles, Elems(w.selected))
      && r.locked == Without(w.locked, Elems(w.selected))
  {
    if |w.selected| > 0 {
      SpliceEachWithout(w.particles, w.selected);
      RemoveEachWithout(w.locked, w.selected);
    } else {
      assert Elems(w.selected) == {};
      WithoutNothing(w.particles, {});
      WithoutNothing(w.locked, {});
    }
  }

  /** A stale selection entry (an id no longer in `particles`) makes the cut
      delete the last particle instead, which was not selected. */
  lemma StaleCutDropsLast(w: World, s: Id)
    requires w.selected == [s] && s !in w.particles && |w.particles| > 0
    ensures CutSelected(w).particles == w.particles[..|w.particles| - 1]
    ensures w.particles[|w.particles| - 1] !in w.selected
  {
    SpliceEachMissing(w.particles, s);
  }

  // ---- clear ----

  /** The clear button and `clearCanvas` (main.js:1171-1180, 1464-1473): every
      collection emptied, locked particles included; the records stay. */
  function ClearCanvas(w: World): (r: World)
    ensures r.particles == [] && r.selected == [] && r.locked == []
    ensures r == w.(particles := [], selected := [], locked := [])
    ensures Valid(w) ==> Valid(r)
  {
    w.(particles := [], selected := [], locked := [])
  }

  // ---- cluster removal ----

  /** `particles.filter(p => !p.isLocked)`. */
  function Unlocked(ids: seq<Id>, store: map<Id, Particle>): (r: seq<Id>)
    requires forall x :: x in ids ==> x in store
    ensures forall x :: x in r <==> x in ids && !store[x].isLocked
    ensures |r| <= |ids|
    decreases |ids|
  {
    if |ids| == 0 then []
    else
      var rest := Unlocked(ids[1..], store);
      if store[ids[0]].isLocked then rest else [ids[0]] + rest
  }

  /** The `toRemove` loop (main.js:963-977): the unlocked particles whose
      centre is within `radius` of `c`, boundary included. */
  function Cluster(ids: seq<Id>, store: map<Id, Particle>, c: Point, radius: real): (r: seq<Id>)
    requires forall x :: x in ids ==> x in store
    ensures forall x :: x in r <==> x in ids && !store[x].isLocked && WithinOrOn(c, store[x].body.pos, radius)
    decreases |ids|
  {
    if |ids| == 0 then []
    else
      var rest := Cluster(ids[1..], store, c, radius);
      if !store[ids[0]].isLocked && WithinOrOn(c, store[ids[0]].body.pos, radius) then [ids[0]] + rest else rest
  }

  /** The draw `floor(random(unlockParticles.length))` is a position among
      the unlocked particles whenever there is one. */
  predicate CenterOk(w: World, centerIndex: nat)
    requires Closed(w)
  {
    var u := Unlocked(w.particles, w.store);
    |u| == 0 || centerIndex < |u|
  }

  /** The particles `resetParticles` removes (main.js:942-977): none when the
      world is empty or every particle is locked; otherwise every unlocked
      particle within the removal radius of the drawn unlocked centre. */
  function ResetCluster(w: World, centerIndex: nat): (gone: seq<Id>)
    requires Closed(w) && CenterOk(w, centerIndex)
    ensures forall x :: x in gone ==> x in w.particles && !w.store[x].isLocked
  {
    if |w.particles| == 0 then []
    else
      var u := Unlocked(w.particles, w.store);
      if |u| == 0 then []
      else Cluster(w.particles, w.store, w.store[u[centerIndex]].body.pos, RemovalRadius(w))
  }

  /** The cluster is empty exactly when no particle is unlocked; otherwise it
      holds the drawn centre and exactly the unlocked particles within the
      removal radius of it. */
  lemma ResetClusterIs(w: World, centerIndex: nat)
    requires Closed(w) && CenterOk(w, centerIndex)
    ensures var u, gone := Unlocked(w.particles, w.store), ResetCluster(w, centerIndex);
      && (|u| == 0 <==> |gone| == 0)
      && (|u| > 0 ==>
            var c := w.store[u[centerIndex]].body.pos;
            && u[centerIndex] in gone
            && forall x :: x in gone <==> x in w.particles && !w.store[x].isLocked && WithinOrOn(c, w.store[x].body.pos, RemovalRadius(w)))
  {
    var u := Unlocked(w.particles, w.store);
    if |u| > 0 {
      var id := u[centerIndex];
      var c := w.store[id].body.pos;
      assert id in u;
      assert SqDist(c, c) == 0.0;
      assert WithinOrOn(c, w.store[id].body.pos, RemovalRadius(w));
    }
  }

  /** `resetParticles` as written (main.js:939-986): the cluster is filtered
      out of `particles` only; `selectedParticles` and `lockedParticles` are
      left as they were. */
  function ResetAsWritten(w: World, centerIndex: nat): (r: World)
    requires Closed(w) && CenterOk(w, centerIndex)
    ensures r == w.(particles := r.particles)
    ensures r.particles == Without(w.particles, Elems(ResetCluster(w, centerIndex)))
  {
    w.(particles := Without(w.particles, Elems(ResetCluster(w, centerIndex))))
  }

  /** A selected particle caught in the cluster stays in `selected` after it
      has left `particles`: the written reset breaks `selected ⊆ particles`. */
  lemma ResetAsWrittenStrands(w: World, centerIndex: nat, x: Id)
    requires Valid(w) && CenterOk(w, centerIndex)
    requires x in w.selected && x in ResetCluster(w, centerIndex)
    ensures var r := ResetAsWritten(w, centerIndex);
      x in r.selected && x !in r.particles && !Nested(r)
  {
  }

  /** The consequence: with that particle the only one selected and some
      particle surviving, the next Backspace deletes the last surviving
      particle, which nobody selected, and leaves the stranded one alone. */
  lemma ResetThenCutDropsBystander(w: World, centerIndex: nat, x: Id)
    requires Valid(w) && CenterOk(w, centerIndex)
    requires w.selected == [x] && x in ResetCluster(w, centerIndex)
    requires |ResetAsWritten(w, centerIndex).particles| > 0
    ensures var m := ResetAsWritten(w, centerIndex);
      && CutSelected(m).particles == m.particles[..|m.particles| - 1]
      && m.particles[|m.particles| - 1] !in w.selected
  {
    var m := ResetAsWritten(w, centerIndex);
    StaleCutDropsLast(m, x);
  }

  /** `resetParticles` corrected: the removed particles also leave the selection. */
  function ResetParticles(w: World, centerIndex: nat): (r: World)
    requires Closed(w) && CenterOk(w, centerIndex)
    ensures r == w.(particles := r.particles, selected := r.selected)
    ensures r.particles == ResetAsWritten(w, centerIndex).particles
  {
    var gone := Elems(ResetCluster(w, centerIndex));
    w.(particles := Without(w.particles, gone), selected := Without(w.selected, gone))
  }

  /** The corrected reset keeps a valid world valid: it removes exactly the
      cluster, never a locked particle, keeps the survivors in order and
      leaves the lock list alone. */
  lemma ResetKeepsValid(w: World, centerIndex: nat)
    requires Valid(w) && CenterOk(w, centerIndex)
    ensures var r, gone := ResetParticles(w, centerIndex), ResetCluster(w, centerIndex);
      && Valid(r)
      && Subsequence(r.particles, w.particles)
      && (forall x :: x in r.particles <==> x in w.particles && x !in gone)
      && (forall x :: x in w.locked ==> x in r.particles)
  {
    var gone := Elems(ResetCluster(w, centerIndex));
    WithoutIsSubsequence(w.particles, gone);
  }

  // ---- three-finger sweep ----

  /** The three-finger loop (main.js:664-669) from position `i` down to 0:
      splice out each unlocked particle. */
  function SweepFrom(ps: seq<Id>, store: map<Id, Particle>, i: int): (r: seq<Id>)
    requires -1 <= i < |ps| && forall k :: 0 <= k <= i ==> ps[k] in store
    ensures |r| <= |ps|
    decreases i + 1
  {
    if i < 0 then ps
    else
      var next := if !store[ps[i]].isLocked then SpliceOne(ps, i) else ps;
      assert forall k :: 0 <= k < i ==> next[k] == ps[k];
      SweepFrom(next, store, i - 1)
  }

  /** Filtering a list with one more element at the end. */
  lemma WithoutSnoc(a: seq<Id>, x: Id, xs: set<Id>)
    ensures Without(a + [x], xs) == Without(a, xs) + (if x in xs then [] else [x])
  {
    WithoutAppend(a, [x], xs);
    assert [x][1..] == [];
  }

  /** One step of the sweep. */
  lemma SweepStep(ps: seq<Id>, store: map<Id, Particle>, i: nat)
    requires i < |ps| && forall k :: 0 <= k <= i ==> ps[k] in store
    ensures SweepFrom(ps, store, i) == SweepFrom(if store[ps[i]].isLocked then ps else SpliceOne(ps, i), store, i - 1)
  {
  }

  /** Sweeping `a + t` down from the end of `a` filters `a` and keeps `t`. */
  lemma {:induction false} SweepSplit(a: seq<Id>, t: seq<Id>, store: map<Id, Particle>, xs: set<Id>)
    requires forall k :: 0 <= k < |a| ==> a[k] in store && (a[k] in xs <==> !store[a[k]].isLocked)
    ensures SweepFrom(a + t, store, |a| - 1) == Without(a, xs) + t
    decreases |a|
  {
    if |a| == 0 {
      assert a + t == t;
    } else {
      var a', p := a[..|a| - 1], a[|a| - 1];
      assert forall k :: 0 <= k < |a'| ==> a'[k] == a[k];
      if store[p].isLocked {
        SweepSplit(a', [p] + t, store, xs);
        SweepKeeps(a, t, store, xs);
      } else {
        SweepSplit(a', t, store, xs);
        SweepDrops(a, t, store, xs);
      }
    }
  }

  /** The sweep step over a locked last element of `a`, given the sweep of the rest. */
  lemma SweepKeeps(a: seq<Id>, t: seq<Id>, store: map<Id, Particle>, xs: set<Id>)
    requires |a| > 0 && forall k :: 0 <= k < |a| ==> a[k] in store
    requires store[a[|a| - 1]].isLocked && a[|a| - 1] !in xs
    requires var a', p := a[..|a| - 1], a[|a| - 1];
      SweepFrom(a' + ([p] + t), store, |a'| - 1) == Without(a', xs) + ([p] + t)
    ensures SweepFrom(a + t, store, |a| - 1) == Without(a, xs) + t
  {
    var a', p := a[..|a| - 1], a[|a| - 1];
    SweepStep(a + t, store, |a| - 1);
    ConcatSnoc(a, t);
    SnocKept(a, t, xs);
  }

  /** The sweep step over an unlocked last element of `a`, given the sweep of the rest. */
  lemma SweepDrops(a: seq<Id>, t: seq<Id>, store: map<Id, Particle>, xs: set<Id>)
    requires |a| > 0 && forall k :: 0 <= k < |a| ==> a[k] in store
    requires !store[a[|a| - 1]].isLocked && a[|a| - 1] in xs
    requires var a' := a[..|a| - 1];
      SweepFrom(a' + t, store, |a'| - 1) == Without(a', xs) + t
    ensures SweepFrom(a + t, store, |a| - 1) == Without(a, xs) + t
  {
    var a' := a[..|a| - 1];
    SweepStep(a + t, store, |a| - 1);
    SpliceLast(a, t);
    SnocDropped(a, xs);
  }

  /** The last element of `a` can be moved onto the front of `t`. */
  lemma ConcatSnoc(a: seq<Id>, t: seq<Id>)
    requires |a| > 0
    ensures a + t == a[..|a| - 1] + ([a[|a| - 1]] + t)
  {
    assert a == a[..|a| - 1] + [a[|a| - 1]];
  }

  /** Splicing out the last element of `a` in `a + t`. */
  lemma SpliceLast(a: seq<Id>, t: seq<Id>)
    requires |a| > 0
    ensures SpliceOne(a + t, |a| - 1) == a[..|a| - 1] + t
  {
    var ps := a + t;
    SpliceAt(ps, |a| - 1);
    assert ps[..|a| - 1] == a[..|a| - 1] && ps[|a|..] == t;
  }

  /** A kept last element moves from the filtered prefix to the tail. */
  lemma SnocKept(a: seq<Id>, t: seq<Id>, xs: set<Id>)
    requires |a| > 0 && a[|a| - 1] !in xs
    ensures Without(a[..|a| - 1], xs) + ([a[|a| - 1]] + t) == Without(a, xs) + t
  {
    var a', p := a[..|a| - 1], a[|a| - 1];
    assert a == a' + [p];
    WithoutSnoc(a', p, xs);
  }

  /** A dropped last element leaves the filtered prefix as it was. */
  lemma SnocDropped(a: seq<Id>, xs: set<Id>)
    requires |a| > 0 && a[|a| - 1] in xs
    ensures Without(a[..|a| - 1], xs) == Without(a, xs)
  {
    var a', p := a[..|a| - 1], a[|a| - 1];
    assert a == a' + [p];
    WithoutSnoc(a', p, xs);
  }

  /** The three-finger loop keeps exactly the locked particles, in order. */
  lemma SweepIsWithout(ps: seq<Id>, store: map<Id, Particle>)
    requires forall x :: x in ps ==> x in store
    ensures SweepFrom(ps, store, |ps| - 1) == Without(ps, Elems(Unlocked(ps, store)))
  {
    SweepSplit(ps, [], store, Elems(Unlocked(ps, store)));
    assert ps + [] == ps;
  }

  /** The three-finger sweep as written (main.js:662-669): only `particles`
      is touched; `selectedParticles` keeps the swept ids. */
  function SweepAsWritten(w: World): (r: World)
    requires Closed(w)
    ensures r == w.(particles := r.particles)
  {
    w.(particles := SweepFrom(w.particles, w.store, |w.particles| - 1))
  }

  /** A selected unlocked particle stays in `selected` after the sweep has
      taken it out of `particles`. */
  lemma SweepAsWrittenStrands(w: World, x: Id)
    requires Valid(w) && x in w.selected && !w.store[x].isLocked
    ensures var r := SweepAsWritten(w);
      x in r.selected && x !in r.particles && !Nested(r)
  {
    var u := Unlocked(w.particles, w.store);
    assert x in w.particles;
    assert x in u;
    assert x in Elems(u);
    SweepIsWithout(w.particles, w.store);
  }

  /** The three-finger sweep corrected: swept particles also leave the selection. */
  function RemoveUnlocked(w: World): (r: World)
    requires Closed(w)
    ensures r == w.(particles := r.particles, selected := r.selected)
    ensures r.particles == SweepAsWritten(w).particles
  {
    var swept := SweepFrom(w.particles, w.store, |w.particles| - 1);
    w.(particles := swept, selected := Without(w.selected, Elems(Unlocked(w.particles, w.store))))
  }

  /** The corrected sweep keeps a valid world valid and leaves exactly the
      locked particles, in their original order. */
  lemma RemoveUnlockedKeepsValid(w: World)
    requires Valid(w)
    ensures var r := RemoveUnlocked(w);
      && Valid(r)
      && r.locked == w.locked
      && Subsequence(r.particles, w.particles)
      && forall x :: x in r.particles <==> x in w.particles && w.store[x].isLocked
  {
    var u := Elems(Unlocked(w.particles, w.store));
    SweepIsWithout(w.particles, w.store);
    WithoutIsSubsequence(w.particles, u);
  }
}
