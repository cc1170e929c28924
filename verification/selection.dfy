/**
  The selection state machine: click/tap toggling, the shift-drag marquee,
  long-press selection and the drag-select that follows it, Escape, and the
  hover highlight. Every operation here changes only `selected` and per-particle
  flags; positions, sizes and the other two collections are untouched.
 */
module Selection {
  import opened Seqs
  import opened Particles

  // ---- hit testing ----

  /** The loop `for (let particle of particles) if (dist(..) < particle.size/2) { ...; break; }`
      (main.js:558-581, 641-654, 1008-1014): the position of the first
      particle whose disc contains `pt`, or -1 when none does. */
  function FirstHit(ids: seq<Id>, store: map<Id, Particle>, pt: Point): (i: int)
    requires forall x :: x in ids ==> x in store
    ensures -1 <= i < |ids|
    ensures 0 <= i ==> Hits(store[ids[i]], pt)
    ensures forall j :: 0 <= j < |ids| && (i == -1 || j < i) ==> !Hits(store[ids[j]], pt)
    decreases |ids|
  {
    if |ids| == 0 then -1
    else if Hits(store[ids[0]], pt) then 0
    else
      var j := FirstHit(ids[1..], store, pt);
      if j == -1 then -1 else j + 1
  }

  /** `r` differs from `w` at most in `selected` and in particles' `isSelected` flags. */
  ghost predicate Reselected(w: World, r: World) {
    && r == w.(selected := r.selected, store := r.store)
    && r.store.Keys == w.store.Keys
    && forall x :: x in w.store ==> r.store[x] == w.store[x].(isSelected := r.store[x].isSelected)
  }

  lemma ReselectedTrans(u: World, v: World, w: World)
    requires Reselected(u, v) && Reselected(v, w)
    ensures Reselected(u, w)
  {
  }

  // ---- single-particle steps ----

  /** Click or tap on a particle with no modifier latch (main.js:570-577, 643-650):
      select it if it is not selected, otherwise deselect it and drop its hover. */
  function Toggle(w: World, id: Id): (r: World)
    requires id in w.store
    ensures r == w.(selected := r.selected, store := r.store) && r.store.Keys == w.store.Keys
    ensures id !in w.selected ==> r.selected == w.selected + [id] && r.store[id] == w.store[id].(isSelected := true)
    ensures id in w.selected && Distinct(w.selected) ==>
      id !in r.selected && r.store[id] == w.store[id].(isSelected := false, isHovered := false)
    ensures forall x :: x != id ==> (x in r.selected <==> x in w.selected) && (x in w.store ==> r.store[x] == w.store[x])
    ensures Valid(w) && id in w.particles ==> Valid(r)
  {
    var r :=
      if IndexOf(w.selected, id) == -1 then
        w.(selected := w.selected + [id], store := w.store[id := w.store[id].(isSelected := true)])
      else
        w.(selected := Remove(w.selected, id), store := w.store[id := w.store[id].(isSelected := false, isHovered := false)]);
    ReselectKeepsValid(w, r);
    r
  }

  /** Toggling the same particle twice restores the selection as a set
      (its position in the order may change: it is re-appended). */
  lemma ToggleTwice(w: World, id: Id)
    requires Valid(w) && id in w.particles
    ensures var r := Toggle(Toggle(w, id), id);
      Valid(r) && (forall x :: x in r.selected <==> x in w.selected) && r.particles == w.particles
  {
  }

  /** `if (selectedParticles.indexOf(p) === -1) { selectedParticles.push(p); p.isSelected = true; }`
      (main.js:771-774, 1055-1058). */
  function AddToSelection(w: World, id: Id): (r: World)
    requires id in w.store
    ensures Reselected(w, r)
    ensures id in r.selected
    ensures forall x :: x != id ==> (x in r.selected <==> x in w.selected)
    ensures Valid(w) && id in w.particles ==> Valid(r)
  {
    var r :=
      if IndexOf(w.selected, id) == -1 then
        w.(selected := w.selected + [id], store := w.store[id := w.store[id].(isSelected := true)])
      else w;
    ReselectKeepsValid(w, r);
    r
  }

  /** `const i = selectedParticles.indexOf(p); if (i !== -1) { selectedParticles.splice(i, 1); p.isSelected = false; }`
      (main.js:1061-1065). */
  function DropFromSelection(w: World, id: Id): (r: World)
    requires id in w.store
    ensures Reselected(w, r)
    ensures Distinct(w.selected) ==> id !in r.selected
    ensures forall x :: x != id ==> (x in r.selected <==> x in w.selected)
    ensures Valid(w) ==> Valid(r)
  {
    var r :=
      if IndexOf(w.selected, id) != -1 then
        w.(selected := Remove(w.selected, id), store := w.store[id := w.store[id].(isSelected := false)])
      else w;
    ReselectKeepsValid(w, r);
    r
  }

  // ---- long press ----

  /** The particles among `ids` within `radius` of `pt`, in order (main.js:763-767). */
  function Nearby(ids: seq<Id>, store: map<Id, Particle>, pt: Point, radius: real): (r: seq<Id>)
    requires forall x :: x in ids ==> x in store
    ensures forall x :: x in r <==> x in ids && Within(pt, store[x].body.pos, radius)
    decreases |ids|
  {
    if |ids| == 0 then []
    else
      var rest := Nearby(ids[1..], store, pt, radius);
      if Within(pt, store[ids[0]].body.pos, radius) then [ids[0]] + rest else rest
  }

  /** Add each of `ids` to the selection, in order (main.js:770-775). */
  function SelectEach(w: World, ids: seq<Id>): (r: World)
    requires forall x :: x in ids ==> x in w.store
    ensures Reselected(w, r)
    ensures forall x :: x in ids ==> x in r.selected
    ensures forall x :: x !in ids ==> (x in r.selected <==> x in w.selected)
    ensures Valid(w) && (forall x :: x in ids ==> x in w.particles) ==> Valid(r)
    decreases |ids|
  {
    if |ids| == 0 then w else SelectEach(AddToSelection(w, ids[0]), ids[1..])
  }

  /** The long-press timer firing (main.js:628-632 with `handleLongPress`,
      main.js:759-788): enter drag-select mode and add every particle within
      three base sizes of the press point to the selection. */
  function LongPress(w: World, pt: Point): (r: World)
    requires Closed(w)
    ensures r.dragSelecting
    ensures r.particles == w.particles && r.locked == w.locked
    ensures Valid(w) ==> Valid(r) && forall x :: x in w.particles ==>
      (x in r.selected <==> x in w.selected || Within(pt, w.store[x].body.pos, BaseSize(w) * LONG_PRESS_RADIUS_MULTIPLIER))
  {
    var w0 := w.(dragSelecting := true);
    var near := Nearby(w.particles, w.store, pt, BaseSize(w) * LONG_PRESS_RADIUS_MULTIPLIER);
    assert Valid(w) ==> Valid(w0) by {
      ReselectKeepsValid(w, w0);
    }
    SelectEach(w0, near)
  }

  // ---- drag select ----

  /** One particle under the moving touch (main.js:716-722): picked when not
      yet selected (judged by its flag), and given a pulse. */
  function DragPick(w: World, id: Id): (r: World)
    requires id in w.store
    ensures r == w.(selected := r.selected, store := r.store) && r.store.Keys == w.store.Keys
    ensures forall x :: x != id ==> (x in r.selected <==> x in w.selected) && (x in w.store ==> r.store[x] == w.store[x])
  {
    if !w.store[id].isSelected then
      w.(selected := w.selected + [id],
         store := w.store[id := w.store[id].(isSelected := true, pulse := Some(PULSE_EFFECT_SCALE))])
    else w
  }

  /** On a valid world, picking a live particle keeps the world valid and
      leaves it selected; an already selected particle is left alone, a new
      one gets its flag and a pulse. */
  lemma DragPickValid(w: World, id: Id)
    requires Valid(w) && id in w.particles
    ensures var r := DragPick(w, id);
      && Valid(r) && id in r.selected
      && (id in w.selected ==> r == w)
      && (id !in w.selected ==> r.store[id] == w.store[id].(isSelected := true, pulse := Some(PULSE_EFFECT_SCALE)))
  {
    ReselectKeepsValid(w, DragPick(w, id));
  }

  /** The drag-select loop (main.js:713-723): pick every particle of `ids`
      within `radius` of `pt`, in order. */
  function DragScan(w: World, ids: seq<Id>, pt: Point, radius: real): (r: World)
    requires forall x :: x in ids ==> x in w.store
    ensures r == w.(selected := r.selected, store := r.store) && r.store.Keys == w.store.Keys
    ensures forall x :: x !in ids ==> (x in r.selected <==> x in w.selected) && (x in w.store ==> r.store[x] == w.store[x])
    decreases |ids|
  {
    if |ids| == 0 then w
    else
      var id := ids[0];
      var w1 := if Within(pt, w.store[id].body.pos, radius) then DragPick(w, id) else w;
      var r := DragScan(w1, ids[1..], pt, radius);
      assert forall x :: x !in ids ==> x != id && x !in ids[1..];
      r
  }

  /** On a valid world, the drag-select loop over live particles keeps the
      world valid, and afterwards a scanned particle is selected exactly when
      it was before or lies within the radius. */
  lemma {:induction false} DragScanValid(w: World, ids: seq<Id>, pt: Point, radius: real)
    requires Valid(w) && forall x :: x in ids ==> x in w.particles
    ensures var r := DragScan(w, ids, pt, radius);
      && Valid(r)
      && forall x :: x in ids ==> (x in r.selected <==> x in w.selected || Within(pt, w.store[x].body.pos, radius))
    decreases |ids|
  {
    if |ids| > 0 {
      var id := ids[0];
      var w1 := if Within(pt, w.store[id].body.pos, radius) then DragPick(w, id) else w;
      DragPickValid(w, id);
      assert forall x :: x in ids[1..] ==> x in ids;
      DragScanValid(w1, ids[1..], pt, radius);
      var r := DragScan(w1, ids[1..], pt, radius);
      assert id in w1.selected <==> id in w.selected || Within(pt, w.store[id].body.pos, radius);
      forall x | x in ids ensures x in r.selected <==> x in w.selected || Within(pt, w.store[x].body.pos, radius) {
        assert w1.store[x].body == w.store[x].body;
        if x !in ids[1..] {
          assert x == id;
        }
      }
    }
  }

  /** A particle the drag-select loop newly picks gets its flag and a pulse;
      a particle already selected keeps its record. */
  lemma {:induction false} DragScanRecords(w: World, ids: seq<Id>, pt: Point, radius: real)
    requires Valid(w) && Distinct(ids) && forall x :: x in ids ==> x in w.particles
    ensures var r := DragScan(w, ids, pt, radius);
      && (forall x :: x in w.selected ==> r.store[x] == w.store[x])
      && (forall x :: x in ids && x !in w.selected && Within(pt, w.store[x].body.pos, radius) ==>
            r.store[x] == w.store[x].(isSelected := true, pulse := Some(PULSE_EFFECT_SCALE)))
    decreases |ids|
  {
    if |ids| > 0 {
      var id := ids[0];
      var w1 := if Within(pt, w.store[id].body.pos, radius) then DragPick(w, id) else w;
      DistinctTail(ids);
      assert forall x :: x in ids[1..] ==> x in ids;
      DragPickValid(w, id);
      DragScanRecords(w1, ids[1..], pt, radius);
    }
  }

  /** The scan a far enough drag move runs (main.js:708-726): remember the
      new point and pick every particle within two base sizes of it. The scan
      does not read the remembered point, so it is set first. */
  function DragTo(w: World, pt: Point): (r: World)
    requires Closed(w)
    ensures r.particles == w.particles && r.locked == w.locked && r.lastDrag == pt
  {
    DragScan(w.(lastDrag := pt), w.particles, pt, BaseSize(w) * SELECTION_RADIUS_MULTIPLIER)
  }

  /** On a valid world the drag scan keeps the world valid and selects every
      live particle within two base sizes of the new point, on top of the
      selection. */
  lemma DragToValid(w: World, pt: Point)
    requires Valid(w)
    ensures var r := DragTo(w, pt);
      && Valid(r)
      && forall x :: x in w.particles ==>
           (x in r.selected <==> x in w.selected || Within(pt, w.store[x].body.pos, BaseSize(w) * SELECTION_RADIUS_MULTIPLIER))
  {
    var m := w.(lastDrag := pt);
    SessionKeepsValid(w, m);
    DragScanValid(m, m.particles, pt, BaseSize(w) * SELECTION_RADIUS_MULTIPLIER);
  }

  /** `touchMoved` while drag-selecting with one finger (main.js:698-730): once the
      touch has moved more than 5 pixels from the last sampled point, run the
      drag scan there; otherwise nothing changes. */
  function TouchMoved(w: World, touches: nat, pt: Point): (r: World)
    requires Closed(w)
    ensures r.particles == w.particles && r.locked == w.locked
    ensures !(w.dragSelecting && touches == 1) ==> r == w
    ensures w.dragSelecting && touches == 1 && SqDist(pt, w.lastDrag) <= DRAG_MIN_MOVE * DRAG_MIN_MOVE ==> r == w
  {
    if w.dragSelecting && touches == 1 && SqDist(pt, w.lastDrag) > DRAG_MIN_MOVE * DRAG_MIN_MOVE then DragTo(w, pt)
    else w
  }

  /** A drag move keeps a valid world valid. */
  lemma TouchMovedValid(w: World, touches: nat, pt: Point)
    requires Valid(w)
    ensures Valid(TouchMoved(w, touches, pt))
  {
    if w.dragSelecting && touches == 1 && SqDist(pt, w.lastDrag) > DRAG_MIN_MOVE * DRAG_MIN_MOVE {
      DragToValid(w, pt);
    }
  }

  /** A drag move far enough selects every live particle within two base sizes
      of the new point, on top of the selection, and remembers the point. */
  lemma TouchMovedSelects(w: World, touches: nat, pt: Point)
    requires Valid(w) && w.dragSelecting && touches == 1 && SqDist(pt, w.lastDrag) > DRAG_MIN_MOVE * DRAG_MIN_MOVE
    ensures var r := TouchMoved(w, touches, pt);
      && r.lastDrag == pt
      && forall x :: x in w.particles ==>
           (x in r.selected <==> x in w.selected || Within(pt, w.store[x].body.pos, BaseSize(w) * SELECTION_RADIUS_MULTIPLIER))
  {
    DragToValid(w, pt);
  }

  // ---- marquee ----

  /** The normalised marquee rectangle (main.js:1038-1041). */
  datatype Box = Box(x1: real, y1: real, x2: real, y2: real)

  function MarqueeBox(a: Point, b: Point): (box: Box)
    ensures box.x1 <= box.x2 && box.y1 <= box.y2
    ensures {box.x1, box.x2} == {a.x, b.x} && {box.y1, box.y2} == {a.y, b.y}
  {
    Box(if a.x < b.x then a.x else b.x, if a.y < b.y then a.y else b.y,
        if a.x < b.x then b.x else a.x, if a.y < b.y then b.y else a.y)
  }

  /** The inclusive point-in-box test on a particle's centre (main.js:1053). */
  predicate InBox(box: Box, p: Point) {
    box.x1 <= p.x <= box.x2 && box.y1 <= p.y <= box.y2
  }

  /** A box with a side shorter than 10 pixels (main.js:1044). */
  predicate Degenerate(box: Box) {
    box.x2 - box.x1 < MARQUEE_MIN_SIDE || box.y2 - box.y1 < MARQUEE_MIN_SIDE
  }

  /** The marquee loop (main.js:1049-1067): particles inside join the selection,
      particles outside leave it. */
  function MarqueeScan(w: World, ids: seq<Id>, box: Box): (r: World)
    requires forall x :: x in ids ==> x in w.store
    ensures Reselected(w, r)
    ensures forall x :: x !in ids ==> (x in r.selected <==> x in w.selected)
    decreases |ids|
  {
    if |ids| == 0 then w
    else
      var id := ids[0];
      var w1 := if InBox(box, w.store[id].body.pos) then AddToSelection(w, id) else DropFromSelection(w, id);
      var r := MarqueeScan(w1, ids[1..], box);
      ReselectedTrans(w, w1, r);
      r
  }

  /** On a valid world, after the marquee loop over live particles the world is
      still valid and a scanned particle is selected exactly when its centre is in the box. */
  lemma {:induction false} MarqueeScanValid(w: World, ids: seq<Id>, box: Box)
    requires Valid(w) && forall x :: x in ids ==> x in w.particles
    ensures var r := MarqueeScan(w, ids, box);
      Valid(r) && forall x :: x in ids ==> (x in r.selected <==> InBox(box, w.store[x].body.pos))
    decreases |ids|
  {
    if |ids| > 0 {
      var id := ids[0];
      var w1 := if InBox(box, w.store[id].body.pos) then AddToSelection(w, id) else DropFromSelection(w, id);
      assert forall x :: x in ids[1..] ==> x in ids;
      MarqueeScanValid(w1, ids[1..], box);
      assert id in w1.selected <==> InBox(box, w.store[id].body.pos);
    }
  }

  /** `mouseDragged` (main.js:1031-1074): while a marquee is open, move its end
      point; unless the box is degenerate, make the selection exactly the
      particles whose centres lie in the box. */
  function MouseDragged(w: World, pt: Point): (r: World)
    requires Closed(w)
    ensures !w.marquee.active ==> r == w
    ensures w.marquee.active && Degenerate(MarqueeBox(w.marquee.start, pt)) ==> r == w.(marquee := w.marquee.(end := pt))
    ensures r.particles == w.particles && r.locked == w.locked
    ensures w.marquee.active ==> r.marquee == w.marquee.(end := pt)
  {
    if !w.marquee.active then w
    else
      var w1 := w.(marquee := w.marquee.(end := pt));
      var box := MarqueeBox(w1.marquee.start, w1.marquee.end);
      if Degenerate(box) then w1
      else MarqueeScan(w1, w1.particles, box)
  }

  /** A marquee drag keeps a valid world valid; over a proper box the selection
      becomes exactly the live particles whose centres lie in it. */
  lemma MouseDraggedValid(w: World, pt: Point)
    requires Valid(w)
    ensures var r := MouseDragged(w, pt);
      && Valid(r)
      && (w.marquee.active && !Degenerate(MarqueeBox(w.marquee.start, pt)) ==>
            forall x :: x in w.particles ==> (x in r.selected <==> InBox(MarqueeBox(w.marquee.start, pt), w.store[x].body.pos)))
  {
    var w1 := w.(marquee := w.marquee.(end := pt));
    if w.marquee.active {
      ReselectKeepsValid(w, w1);
      MarqueeScanValid(w1, w1.particles, MarqueeBox(w.marquee.start, pt));
    }
  }

  /** `mouseReleased` (main.js:1079-1086): close the marquee; the selection it
      built stays as it is. */
  function MouseReleased(w: World): (r: World)
    ensures !r.marquee.active
    ensures r.selected == w.selected && r.store == w.store && r.particles == w.particles
  {
    w.(marquee := w.marquee.(active := false))
  }

  // ---- escape and hover ----

  /** Clear `isSelected` and `isHovered` on the particles in `ids`. */
  function ClearMarks(store: map<Id, Particle>, ids: seq<Id>): (r: map<Id, Particle>)
    ensures r.Keys == store.Keys
    ensures forall x :: x in store && x in ids ==> r[x] == store[x].(isSelected := false, isHovered := false)
    ensures forall x :: x in store && x !in ids ==> r[x] == store[x]
  {
    map x | x in store :: if x in ids then store[x].(isSelected := false, isHovered := false) else store[x]
  }

  /** Escape (main.js:860-869): clear every live particle's selected and hover
      flags, empty the selection and cancel any marquee. */
  function Escape(w: World): (r: World)
    ensures r.selected == [] && !r.marquee.active
    ensures r.store.Keys == w.store.Keys
    ensures forall x :: x in w.particles && x in w.store ==> !r.store[x].isSelected && !r.store[x].isHovered
    ensures r.particles == w.particles && r.locked == w.locked
    ensures Valid(w) ==> Valid(r)
  {
    var r := w.(store := ClearMarks(w.store, w.particles), selected := [], marquee := w.marquee.(active := false));
    ReselectKeepsValid(w, r);
    r
  }

  /** `mouseMoved` (main.js:991-1026): with a marquee open, only move its end
      point; otherwise clear every live hover flag and hover the first particle
      under the pointer. */
  function MouseMoved(w: World, pt: Point): (r: World)
    requires Closed(w)
    ensures w.marquee.active ==> r == w.(marquee := w.marquee.(end := pt))
    ensures r.particles == w.particles && r.selected == w.selected && r.locked == w.locked
    ensures r.store.Keys == w.store.Keys
    ensures forall x :: x in w.store ==> r.store[x] == w.store[x].(isHovered := r.store[x].isHovered)
    ensures Valid(w) ==> Valid(r)
    ensures !w.marquee.active ==> forall x :: x in w.particles ==>
      (r.store[x].isHovered <==> Hits(w.store[x], pt) && forall y :: y in w.particles && Hits(w.store[y], pt) ==> Before(w.particles, x, y))
  {
    if w.marquee.active then w.(marquee := w.marquee.(end := pt))
    else
      var i := FirstHit(w.particles, w.store, pt);
      var r := w.(store := Hover(w.store, w.particles, i));
      FirstHitIsFirst(w.particles, w.store, pt);
      ReselectKeepsValid(w, r);
      r
  }

  /** Clear the hover flag of every particle in `ids`, then set it on `ids[i]` if `i` is a position. */
  function Hover(store: map<Id, Particle>, ids: seq<Id>, i: int): (r: map<Id, Particle>)
    requires forall x :: x in ids ==> x in store
    requires -1 <= i < |ids|
    ensures r.Keys == store.Keys
    ensures forall x :: x in store ==> r[x] == store[x].(isHovered := r[x].isHovered)
    ensures forall x :: x in store && x !in ids ==> r[x] == store[x]
    ensures forall x :: x in ids ==> (r[x].isHovered <==> i != -1 && ids[i] == x)
  {
    var cleared := map x | x in store :: if x in ids then store[x].(isHovered := false) else store[x];
    if i == -1 then cleared else cleared[ids[i] := cleared[ids[i]].(isHovered := true)]
  }

  /** The particle `FirstHit` finds is the one under the point that comes before
      every other particle under the point. */
  lemma FirstHitIsFirst(ids: seq<Id>, store: map<Id, Particle>, pt: Point)
    requires forall x :: x in ids ==> x in store
    ensures var i := FirstHit(ids, store, pt);
      forall x :: x in ids ==>
        ((i != -1 && ids[i] == x) <==> Hits(store[x], pt) && forall y :: y in ids && Hits(store[y], pt) ==> Before(ids, x, y))
  {
    var i := FirstHit(ids, store, pt);
    forall x | x in ids
      ensures (i != -1 && ids[i] == x) <==> Hits(store[x], pt) && forall y :: y in ids && Hits(store[y], pt) ==> Before(ids, x, y)
    {
      if i != -1 && ids[i] == x {
        forall y | y in ids && Hits(store[y], pt) ensures Before(ids, x, y) {
          assert y !in ids[..i];
        }
      }
      if Hits(store[x], pt) && forall y :: y in ids && Hits(store[y], pt) ==> Before(ids, x, y) {
        var k :| 0 <= k < |ids| && ids[k] == x;
        assert i != -1;
        assert Before(ids, x, ids[i]);
      }
    }
  }

  /** `x` occurs in `s` no later than `y`. */
  ghost predicate Before(s: seq<Id>, x: Id, y: Id) {
    exists i :: 0 <= i < |s| && s[i] == x && y !in s[..i]
  }
}
