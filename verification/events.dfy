/**
  The input handlers of the playground and the state machine they form: every
  mouse, touch, keyboard, toolbar, collision and frame event takes the world to
  its successor. What the browser decides (whether a point lies on the toolbar,
  the random draws, how many fingers touch the screen) arrives as parameters.
 */
module Events {
  import opened Seqs
  import opened Particles
  import opened Selection
  import opened Locking
  import opened Spawn
  import opened Removal
  import opened Settings
  import opened Acid

  /** A long press still counts while the finger stays closer than this to
      where it went down (main.js:628-629). */
  const LONG_PRESS_SLOP: real := 20.0

  datatype Key = ShiftKey | BackspaceKey | EscapeKey | CharKey(c: char)

  /** The random values one event may draw: the spawn colour, one size per
      spawned particle, the split fragment sizes and the reset centre. */
  datatype Draws = Draws(color: Rgb, sizes: seq<real>, fragments: seq<real>, centerIndex: nat)

  /** The draws have the shape the random calls give them: `spawnCount`
      sizes, 4 to 7 fragments (`floor(random(4, 8))`, main.js:1620) and a
      centre index among the unlocked particles. */
  predicate Shaped(w: World, d: Draws)
    requires Closed(w)
  {
    |d.sizes| == SpawnTimes(w.spawnCount) && 4 <= |d.fragments| <= 7 && CenterOk(w, d.centerIndex)
  }

  /** The spawn sizes lie in the range `random` draws them from, around the
      base size (main.js:336, 812). */
  ghost predicate SpawnInRange(w: World, d: Draws) {
    forall k :: 0 <= k < |d.sizes| ==> InSpawnRange(BaseSize(w), d.sizes[k])
  }

  /** The drawn sizes a press at `pt` may use lie in their ranges: the spawn
      sizes, and the fragment sizes around the base size a split of the
      particle the press lands on uses (main.js:1620-1631). */
  ghost predicate InRange(w: World, pt: Point, d: Draws)
    requires Closed(w)
  {
    && SpawnInRange(w, d)
    && (forall x :: FirstUnder(w, pt, x) ==>
          forall k :: 0 <= k < |d.fragments| ==> InSpawnRange(FragmentBase(w.store[x].size), d.fragments[k]))
  }

  /** Draws that fit any valid world at any point: every spawn size the base
      size itself, and four fragments at the split base size of the particle
      the point lands on. So `Shaped` and `InRange` rule out no world. */
  function FittingDraws(w: World, pt: Point): (d: Draws)
    requires Valid(w)
    ensures Shaped(w, d) && InRange(w, pt, d)
  {
    var b := BaseSize(w);
    var f := match HitAt(w, pt) case Some(x) => FragmentBase(w.store[x].size) case None => 1.0;
    assert b * PARTICLE_SIZE_MIN <= b < b * PARTICLE_SIZE_MAX;
    assert f * PARTICLE_SIZE_MIN <= f < f * PARTICLE_SIZE_MAX;
    Draws(Rgb(0.0, 0.0, 0.0), seq(SpawnTimes(w.spawnCount), _ => b), seq(4, _ => f), 0)
  }

  /** The particle a click or tap lands on: the first live particle, in
      `particles` order, whose disc contains the point. */
  function HitAt(w: World, pt: Point): (o: Option<Id>)
    requires Closed(w)
    ensures o.Some? ==> o.value in w.particles && Hits(w.store[o.value], pt)
    ensures o.None? ==> forall x :: x in w.particles ==> !Hits(w.store[x], pt)
    ensures forall x :: x in w.particles ==>
      (o == Some(x) <==> Hits(w.store[x], pt) && forall y :: y in w.particles && Hits(w.store[y], pt) ==> Before(w.particles, x, y))
  {
    var i := FirstHit(w.particles, w.store, pt);
    FirstHitIsFirst(w.particles, w.store, pt);
    if i == -1 then None else Some(w.particles[i])
  }

  /** `x` is the particle a press at `pt` lands on. */
  ghost predicate FirstUnder(w: World, pt: Point, x: Id)
    requires Closed(w)
  {
    x in w.particles && Hits(w.store[x], pt) && forall y :: y in w.particles && Hits(w.store[y], pt) ==> Before(w.particles, x, y)
  }

  // ---- mouse ----

  /** `mousePressed` (main.js:535-585): nothing on the toolbar; with Shift held,
      open a marquee at the pointer; on a particle, make it acid (V held),
      split it (X held) or toggle its selection; elsewhere, spawn particles. */
  function MousePressed(w: World, pt: Point, inToolbar: bool, d: Draws): (r: World)
    requires Closed(w) && Shaped(w, d)
    ensures inToolbar ==> r == w
    ensures !inToolbar && w.latches.shift ==>
      r.particles == w.particles && r.selected == w.selected && r.locked == w.locked && r.store == w.store
      && r.marquee == Marquee(true, pt, pt)
  {
    if inToolbar then w
    else if w.latches.shift then w.(marquee := Marquee(true, pt, pt))
    else if |w.particles| == 0 then CreateParticles(w, pt, d.color, d.sizes)
    else
      match HitAt(w, pt)
      case None => CreateParticles(w, pt, d.color, d.sizes)
      case Some(id) =>
        if w.latches.acid then MakeAcid(w, id)
        else if w.latches.split then Split(w, id, d.fragments)
        else Toggle(w, id)
  }

  lemma MousePressedValid(w: World, pt: Point, inToolbar: bool, d: Draws)
    requires Valid(w) && Shaped(w, d) && InRange(w, pt, d)
    ensures Valid(MousePressed(w, pt, inToolbar, d))
  {
    if !inToolbar && !w.latches.shift {
      var o := HitAt(w, pt);
      if |w.particles| == 0 || o.None? {
        CreateKeepsValid(w, pt, d.color, d.sizes);
      } else if !w.latches.acid && w.latches.split {
        assert FirstUnder(w, pt, o.value);
        SplitKeepsValid(w, o.value, d.fragments);
      }
    }
  }

  /** A plain press on a particle flips the selection of the particle it lands
      on and of no other; nothing is created or removed. */
  lemma MousePressedToggles(w: World, pt: Point, d: Draws, id: Id)
    requires Valid(w) && Shaped(w, d)
    requires !w.latches.shift && !w.latches.acid && !w.latches.split
    requires FirstUnder(w, pt, id)
    ensures var r := MousePressed(w, pt, false, d);
      && Valid(r) && r.particles == w.particles && r.locked == w.locked
      && (id in r.selected <==> id !in w.selected)
      && forall x :: x != id ==> (x in r.selected <==> x in w.selected)
  {
    assert HitAt(w, pt) == Some(id);
  }

  /** A press on no particle (an empty canvas included) appends `spawnCount`
      fresh particles and changes no selection or lock. */
  lemma MousePressedSpawns(w: World, pt: Point, d: Draws)
    requires Closed(w) && Shaped(w, d) && !w.latches.shift
    requires forall x :: x in w.particles ==> !Hits(w.store[x], pt)
    ensures var r := MousePressed(w, pt, false, d);
      && r.particles == w.particles + Fresh(w.nextId, SpawnTimes(w.spawnCount))
      && r.selected == w.selected && r.locked == w.locked
  {
  }

  /** A press with V held on a particle turns the particle it lands on to acid
      and changes nothing else; from then on no collision corrodes it. */
  lemma MousePressedAcid(w: World, pt: Point, d: Draws, id: Id, pairs: seq<(BodyRef, BodyRef)>)
    requires Valid(w) && Shaped(w, d)
    requires !w.latches.shift && w.latches.acid
    requires FirstUnder(w, pt, id)
    ensures var r := MousePressed(w, pt, false, d);
      && r == MakeAcid(w, id)
      && r.store[id].isAcid
      && HandleCollisionStart(r, pairs).store[id] == r.store[id]
  {
    assert HitAt(w, pt) == Some(id);
    AcidIsImmune(w, id, pairs);
  }

  /** A press with X held (and V not) on a particle replaces the particle it
      lands on by the drawn fragments. */
  lemma MousePressedSplits(w: World, pt: Point, d: Draws, id: Id)
    requires Valid(w) && Shaped(w, d) && InRange(w, pt, d)
    requires !w.latches.shift && !w.latches.acid && w.latches.split
    requires FirstUnder(w, pt, id)
    ensures var r := MousePressed(w, pt, false, d);
      && Valid(r)
      && id !in r.particles && id !in r.selected && id !in r.locked
      && |r.particles| == |w.particles| - 1 + |d.fragments|
  {
    assert HitAt(w, pt) == Some(id);
    SplitKeepsValid(w, id, d.fragments);
  }

  // ---- touch ----

  /** `touchStarted` (main.js:587-673), corrected: one finger off the toolbar
      records the drag anchor, leaves drag-select mode and toggles the particle
      it lands on (no key latch applies) or spawns; two fingers remove a random
      cluster and three fingers every unlocked particle, and both also drop the
      removed particles from the selection, which main.js:659-669 does not
      (see `TouchStartedAsWritten`). */
  function TouchStarted(w: World, touches: nat, pt: Point, inToolbar: bool, d: Draws): (r: World)
    requires Closed(w) && Shaped(w, d)
    ensures touches == 1 && inToolbar ==> r == w
    ensures touches == 1 && !inToolbar ==> r.lastDrag == pt && !r.dragSelecting && r.locked == w.locked
    ensures touches == 0 || touches > 3 ==> r == w
  {
    if touches == 1 then
      if inToolbar then w
      else
        var w0 := w.(lastDrag := pt, dragSelecting := false);
        match HitAt(w0, pt)
        case None => CreateParticles(w0, pt, d.color, d.sizes)
        case Some(id) => Toggle(w0, id)
    else if touches == 2 then ResetParticles(w, d.centerIndex)
    else if touches == 3 then RemoveUnlocked(w)
    else w
  }

  lemma TouchStartedValid(w: World, touches: nat, pt: Point, inToolbar: bool, d: Draws)
    requires Valid(w) && Shaped(w, d) && SpawnInRange(w, d)
    ensures Valid(TouchStarted(w, touches, pt, inToolbar, d))
  {
    if touches == 1 && !inToolbar {
      var w0 := w.(lastDrag := pt, dragSelecting := false);
      SessionKeepsValid(w, w0);
      if HitAt(w0, pt).None? {
        CreateKeepsValid(w0, pt, d.color, d.sizes);
      }
    } else if touches == 2 {
      ResetKeepsValid(w, d.centerIndex);
    } else if touches == 3 {
      RemoveUnlockedKeepsValid(w);
    }
  }

  /** A one-finger tap on a particle flips the selection of the particle it
      lands on and of no other, whatever keys are latched. */
  lemma TapToggles(w: World, pt: Point, d: Draws, id: Id)
    requires Valid(w) && Shaped(w, d)
    requires FirstUnder(w, pt, id)
    ensures var r := TouchStarted(w, 1, pt, false, d);
      && r.particles == w.particles
      && (id in r.selected <==> id !in w.selected)
      && forall x :: x != id ==> (x in r.selected <==> x in w.selected)
  {
    var w0 := w.(lastDrag := pt, dragSelecting := false);
    assert FirstUnder(w0, pt, id);
    assert HitAt(w0, pt) == Some(id);
  }

  /** Three fingers leave exactly the locked particles, in their order, and a
      valid world. */
  lemma ThreeFingersKeepLocked(w: World, pt: Point, d: Draws)
    requires Valid(w) && Shaped(w, d)
    ensures var r := TouchStarted(w, 3, pt, false, d);
      && Valid(r) && r.locked == w.locked && Subsequence(r.particles, w.particles)
      && forall x :: x in r.particles <==> x in w.particles && x in w.locked
  {
    RemoveUnlockedKeepsValid(w);
  }

  /** `touchStarted` exactly as written: the two- and three-finger branches
      prune `particles` only (main.js:659-669), so the ids they remove stay in
      `selected`. It differs from the corrected `TouchStarted` in nothing but
      the selection, and there only when two or three fingers come down. */
  function TouchStartedAsWritten(w: World, touches: nat, pt: Point, inToolbar: bool, d: Draws): (r: World)
    requires Closed(w) && Shaped(w, d)
    ensures r == TouchStarted(w, touches, pt, inToolbar, d).(selected := r.selected)
    ensures touches == 2 || touches == 3 ==> r.selected == w.selected
    ensures touches != 2 && touches != 3 ==> r == TouchStarted(w, touches, pt, inToolbar, d)
  {
    if touches == 2 then ResetAsWritten(w, d.centerIndex)
    else if touches == 3 then SweepAsWritten(w)
    else TouchStarted(w, touches, pt, inToolbar, d)
  }

  /** Every id the written handler keeps selected beyond the corrected one
      has left `particles`. */
  lemma TouchStartedAsWrittenStrands(w: World, touches: nat, pt: Point, inToolbar: bool, d: Draws)
    requires Valid(w) && Shaped(w, d)
    ensures var a, c := TouchStartedAsWritten(w, touches, pt, inToolbar, d), TouchStarted(w, touches, pt, inToolbar, d);
      && (forall x :: x in c.selected ==> x in a.selected)
      && (forall x :: x in a.selected && x !in c.selected ==> x !in a.particles)
  {
    if touches == 2 {
      ResetSelectionGap(w, d.centerIndex);
    } else if touches == 3 {
      SweepSelectionGap(w);
    }
  }

  /** The two-finger case of `TouchStartedAsWrittenStrands`. */
  lemma ResetSelectionGap(w: World, centerIndex: nat)
    requires Valid(w) && CenterOk(w, centerIndex)
    ensures var a, c := ResetAsWritten(w, centerIndex), ResetParticles(w, centerIndex);
      && (forall x :: x in c.selected ==> x in a.selected)
      && (forall x :: x in a.selected && x !in c.selected ==> x !in a.particles)
  {
  }

  /** The three-finger case of `TouchStartedAsWrittenStrands`. */
  lemma SweepSelectionGap(w: World)
    requires Valid(w)
    ensures var a, c := SweepAsWritten(w), RemoveUnlocked(w);
      && (forall x :: x in c.selected ==> x in a.selected)
      && (forall x :: x in a.selected && x !in c.selected ==> x !in a.particles)
  {
    SweepIsWithout(w.particles, w.store);
  }

  /** The long-press timer firing (main.js:626-637): if one finger is still
      down within 20 pixels of where it went down, enter drag-select mode and
      select everything near it; otherwise nothing happens. */
  function LongPressFired(w: World, touches: nat, pt: Point, start: Point): (r: World)
    requires Closed(w)
    ensures !(touches == 1 && Within(pt, start, LONG_PRESS_SLOP)) ==> r == w
    ensures touches == 1 && Within(pt, start, LONG_PRESS_SLOP) ==> r.dragSelecting
    ensures r.particles == w.particles && r.locked == w.locked
    ensures Valid(w) ==> Valid(r) && forall x :: x in w.selected ==> x in r.selected
  {
    if touches == 1 && Within(pt, start, LONG_PRESS_SLOP) then LongPress(w, pt) else w
  }

  /** `touchEnded` (main.js:675-694): leave drag-select mode. */
  function TouchEnded(w: World): (r: World)
    ensures !r.dragSelecting
    ensures r.particles == w.particles && r.selected == w.selected && r.locked == w.locked && r.store == w.store
  {
    w.(dragSelecting := false)
  }

  /** After the finger lifts, moving touches select nothing more until the
      next long press. */
  lemma TouchEndStopsDrag(w: World, touches: nat, pt: Point)
    requires Closed(w)
    ensures TouchMoved(TouchEnded(w), touches, pt) == TouchEnded(w)
  {
  }

  // ---- keyboard ----

  /** `keyPressed` (main.js:820-902): Shift, X and V latch; Backspace cuts the
      selection, or removes a random cluster when nothing is selected; Escape
      clears the selection and the marquee; L clicks the lock button when
      something is selected. */
  function KeyPressed(w: World, key: Key, centerIndex: nat): (r: World)
    requires Closed(w) && CenterOk(w, centerIndex)
    ensures key != BackspaceKey ==> r.particles == w.particles
    ensures key == ShiftKey ==> r == w.(latches := w.latches.(shift := true))
  {
    match key
    case ShiftKey => w.(latches := w.latches.(shift := true))
    case BackspaceKey => if |w.selected| > 0 then CutSelected(w) else ResetParticles(w, centerIndex)
    case EscapeKey => Escape(w)
    case CharKey(c) =>
      if c == 'x' || c == 'X' then w.(latches := w.latches.(split := true))
      else if c == 'v' || c == 'V' then w.(latches := w.latches.(acid := true))
      else if (c == 'l' || c == 'L') && |w.selected| > 0 then LockButton(w)
      else w
  }

  lemma KeyPressedValid(w: World, key: Key, centerIndex: nat)
    requires Valid(w) && CenterOk(w, centerIndex)
    ensures Valid(KeyPressed(w, key, centerIndex))
  {
    match key
    case ShiftKey => SessionKeepsValid(w, KeyPressed(w, key, centerIndex));
    case BackspaceKey =>
      if |w.selected| > 0 {
        CutSelectedValid(w);
      } else {
        ResetKeepsValid(w, centerIndex);
      }
    case EscapeKey =>
    case CharKey(c) => SessionKeepsValid(w, w.(latches := KeyPressed(w, key, centerIndex).latches));
  }

  /** Backspace with a selection removes exactly the selected particles,
      locked ones included, and empties the selection. */
  lemma BackspaceCuts(w: World, centerIndex: nat)
    requires Valid(w) && CenterOk(w, centerIndex) && |w.selected| > 0
    ensures var r := KeyPressed(w, BackspaceKey, centerIndex);
      && r.selected == []
      && r.particles == Without(w.particles, Elems(w.selected))
      && forall x :: x in r.particles <==> x in w.particles && x !in w.selected
  {
    CutSelectedValid(w);
  }

  /** Backspace with nothing selected removes the random cluster: only
      unlocked particles go, and the locked ones all stay. */
  lemma BackspaceResets(w: World, centerIndex: nat)
    requires Valid(w) && CenterOk(w, centerIndex) && |w.selected| == 0
    ensures var r := KeyPressed(w, BackspaceKey, centerIndex);
      && (forall x :: x in r.particles <==> x in w.particles && x !in ResetCluster(w, centerIndex))
      && (forall x :: x in ResetCluster(w, centerIndex) ==> !w.store[x].isLocked)
      && forall x :: x in w.locked ==> x in r.particles
  {
    ResetKeepsValid(w, centerIndex);
  }

  /** L flips the lock of every selected particle and deselects everything;
      with nothing selected it does nothing. */
  lemma LockKey(w: World, c: char, centerIndex: nat)
    requires Valid(w) && CenterOk(w, centerIndex) && (c == 'l' || c == 'L')
    ensures var r := KeyPressed(w, CharKey(c), centerIndex);
      && (|w.selected| == 0 ==> r == w)
      && (|w.selected| > 0 ==> r.selected == [] && forall x :: x in w.particles ==> (x in r.locked <==> (x in w.locked) != (x in w.selected)))
  {
  }

  /** `keyReleased` as written (main.js:907-934). Releasing Shift while a marquee
      is open calls `finalizeMarqueeSelection`, which main.js does not define:
      unless another script of the page defines it, the call throws before
      `isMarqueeSelecting = false` runs, so only the latch drops and the
      marquee stays open. */
  function KeyReleasedAsWritten(w: World, key: Key): (r: World)
    ensures r.particles == w.particles && r.selected == w.selected && r.locked == w.locked && r.store == w.store
    ensures r.marquee == w.marquee
  {
    match key
    case ShiftKey => w.(latches := w.latches.(shift := false))
    case CharKey(c) =>
      if c == 'x' || c == 'X' then w.(latches := w.latches.(split := false))
      else if c == 'v' || c == 'V' then w.(latches := w.latches.(acid := false))
      else w
    case _ => w
  }

  /** The consequence: after Shift is released mid-drag, the marquee keeps
      following the pointer and keeps replacing the selection. */
  lemma ShiftReleaseKeepsMarquee(w: World, pt: Point)
    requires Valid(w) && w.marquee.active && !Degenerate(MarqueeBox(w.marquee.start, pt))
    ensures var r := KeyReleasedAsWritten(w, ShiftKey);
      && !r.latches.shift && r.marquee.active
      && forall x :: x in w.particles ==> (x in MouseDragged(r, pt).selected <==> InBox(MarqueeBox(w.marquee.start, pt), w.store[x].body.pos))
  {
    var r := KeyReleasedAsWritten(w, ShiftKey);
    SessionKeepsValid(w, r);
    MouseDraggedValid(r, pt);
  }

  /** `keyReleased` corrected: releasing Shift also closes the marquee, keeping
      the selection it built. */
  function KeyReleased(w: World, key: Key): (r: World)
    ensures r.particles == w.particles && r.selected == w.selected && r.locked == w.locked && r.store == w.store
    ensures key == ShiftKey ==> !r.marquee.active && !r.latches.shift
  {
    if key == ShiftKey then KeyReleasedAsWritten(w, key).(marquee := w.marquee.(active := false))
    else KeyReleasedAsWritten(w, key)
  }

  /** With the correction, a drag after the release changes nothing. */
  lemma ShiftReleaseClosesMarquee(w: World, pt: Point)
    requires Closed(w)
    ensures var r := KeyReleased(w, ShiftKey);
      MouseDragged(r, pt) == r && r.selected == w.selected
  {
  }

  /** Pressing and releasing a latch key restores the latches with that
      latch off, and the world otherwise unchanged. */
  lemma LatchRoundTrip(w: World, key: Key, centerIndex: nat)
    requires Closed(w) && CenterOk(w, centerIndex)
    requires key == ShiftKey || key == CharKey('x') || key == CharKey('X') || key == CharKey('v') || key == CharKey('V')
    requires !w.marquee.active
    ensures var r := KeyReleased(KeyPressed(w, key, centerIndex), key);
      && r == w.(latches := r.latches)
      && (key == ShiftKey ==> r.latches == w.latches.(shift := false))
      && (key == CharKey('x') || key == CharKey('X') ==> r.latches == w.latches.(split := false))
      && (key == CharKey('v') || key == CharKey('V') ==> r.latches == w.latches.(acid := false))
  {
  }

  // ---- toolbar ----

  /** The shape button (main.js:1138-1152, 1405-1417): cycle the spawn shape. */
  function ShapeClicked(w: World): (r: World)
    ensures r == w.(shape := r.shape) && r.shape != w.shape
  {
    w.(shape := NextShape(w.shape))
  }

  /** Three clicks come back to the starting shape. */
  lemma ShapeClickCycles(w: World)
    ensures ShapeClicked(ShapeClicked(ShapeClicked(w))) == w
  {
    NextShapeCycles(w.shape);
  }

  /** `mouseWheel` (main.js:523-530): step the spawn count, clamped to 10..100. */
  function WheelTurned(w: World, delta: real): (r: World)
    ensures r == w.(spawnCount := r.spawnCount)
    ensures MIN_SPAWN_COUNT <= r.spawnCount <= MAX_SPAWN_COUNT
  {
    w.(spawnCount := WheelSpawnCount(w.spawnCount, delta))
  }

  /** The lock button has a second click listener, `toggleLockMode`
      (main.js:1507); running it after the first finds nothing selected and
      changes nothing. */
  lemma LockSecondListenerIdle(w: World)
    requires Valid(w)
    ensures ToggleLockMode(LockButton(w)) == LockButton(w)
  {
  }

  /** A touch on the lock button runs only `toggleLockMode` (main.js:1508-1511;
      `preventDefault` suppresses the click): it flips the same locks as a
      click but keeps the selection, where a click empties it. */
  lemma LockTouchKeepsSelection(w: World)
    requires Valid(w)
    ensures var t, c := ToggleLockMode(w), LockButton(w);
      && Valid(t) && t.selected == w.selected && c.selected == []
      && forall x :: x in w.particles ==> (x in t.locked <==> x in c.locked)
  {
  }

  /** Likewise the cut button's second listener, `toggleCutMode` (main.js:1501). */
  lemma CutSecondListenerIdle(w: World)
    ensures CutSelected(CutSelected(w)) == CutSelected(w)
  {
  }

  /** The clear button also has two click listeners (main.js:1171, 1513);
      the second finds an empty world and leaves it as it is. */
  lemma ClearSecondListenerIdle(w: World)
    ensures ClearCanvas(ClearCanvas(w)) == ClearCanvas(w)
  {
  }

  // ---- the state machine ----

  datatype Event =
    | MousePress(pt: Point, inToolbar: bool)
    | MouseMove(pt: Point)
    | MouseDrag(pt: Point)
    | MouseRelease
    | WheelTurn(delta: real)
    | TouchStart(touches: nat, pt: Point, inToolbar: bool)
    | TouchMove(touches: nat, pt: Point)
    | LongPressTimer(touches: nat, pt: Point, start: Point)
    | TouchEnd
    | KeyDown(key: Key)
    | KeyUp(key: Key)
    | ShapeClick
    | CutClick
    | LockClick
    | LockTouch
    | ClearClick
    | Collision(pairs: seq<(BodyRef, BodyRef)>)
    | Tick(dt: real)

  /** The draws an event uses lie in their ranges: a press may spawn or split,
      a touch may spawn, and no other event draws a size. */
  ghost predicate Fits(w: World, e: Event, d: Draws)
    requires Closed(w)
  {
    match e
    case MousePress(pt, _) => InRange(w, pt, d)
    case TouchStart(_, _, _) => SpawnInRange(w, d)
    case _ => true
  }

  /** One event of the corrected program: the reset, the sweep and the Shift
      release run their corrected handlers (`StepAsWritten` runs main.js as
      written). */
  function Step(w: World, e: Event, d: Draws): (r: World)
    requires Valid(w) && Shaped(w, d)
    ensures !(e.MousePress? || e.TouchStart? || e.KeyDown? || e.CutClick? || e.ClearClick? || e.Collision? || e.Tick?) ==>
      r.particles == w.particles
    ensures !(e.MousePress? || e.KeyDown? || e.CutClick? || e.LockClick? || e.LockTouch? || e.ClearClick?) ==>
      r.locked == w.locked
  {
    match e
    case MousePress(pt, inToolbar) => MousePressed(w, pt, inToolbar, d)
    case MouseMove(pt) => MouseMoved(w, pt)
    case MouseDrag(pt) => MouseDragged(w, pt)
    case MouseRelease => MouseReleased(w)
    case WheelTurn(delta) => WheelTurned(w, delta)
    case TouchStart(touches, pt, inToolbar) => TouchStarted(w, touches, pt, inToolbar, d)
    case TouchMove(touches, pt) => TouchMoved(w, touches, pt)
    case LongPressTimer(touches, pt, start) => LongPressFired(w, touches, pt, start)
    case TouchEnd => TouchEnded(w)
    case KeyDown(key) => KeyPressed(w, key, d.centerIndex)
    case KeyUp(key) => KeyReleased(w, key)
    case ShapeClick => ShapeClicked(w)
    case CutClick => CutSelected(w)
    case LockClick => LockButton(w)
    case LockTouch => ToggleLockMode(w)
    case ClearClick => ClearCanvas(w)
    case Collision(pairs) => HandleCollisionStart(w, pairs)
    case Tick(dt) => Frame(w, dt)
  }

  /** Every event keeps the bookkeeping invariant. */
  lemma StepKeepsValid(w: World, e: Event, d: Draws)
    requires Valid(w) && Shaped(w, d) && Fits(w, e, d)
    ensures Valid(Step(w, e, d))
  {
    var r := Step(w, e, d);
    match e
    case MousePress(pt, inToolbar) => MousePressedValid(w, pt, inToolbar, d);
    case MouseMove(pt) =>
    case MouseDrag(pt) => MouseDraggedValid(w, pt);
    case MouseRelease => SessionKeepsValid(w, r);
    case WheelTurn(delta) => SessionKeepsValid(w, r);
    case TouchStart(touches, pt, inToolbar) => TouchStartedValid(w, touches, pt, inToolbar, d);
    case TouchMove(touches, pt) => TouchMovedValid(w, touches, pt);
    case LongPressTimer(touches, pt, start) =>
    case TouchEnd => SessionKeepsValid(w, r);
    case KeyDown(key) => KeyPressedValid(w, key, d.centerIndex);
    case KeyUp(key) => SessionKeepsValid(w, r);
    case ShapeClick => SessionKeepsValid(w, r);
    case CutClick => CutSelectedValid(w);
    case LockClick =>
    case LockTouch =>
    case ClearClick =>
    case Collision(pairs) =>
    case Tick(dt) =>
  }

  /** One event as main.js is written: the two- and three-finger taps keep
      the ids they remove in `selected`, and releasing Shift leaves the
      marquee open (main.js:914). Every other event is the same as `Step`. */
  function StepAsWritten(w: World, e: Event, d: Draws): (r: World)
    requires Valid(w) && Shaped(w, d)
    ensures var c := Step(w, e, d);
      r.particles == c.particles && r.locked == c.locked && r.store == c.store && r.nextId == c.nextId
    ensures !(e.TouchStart? && (e.touches == 2 || e.touches == 3)) && !e.KeyUp? ==> r == Step(w, e, d)
  {
    match e
    case TouchStart(touches, pt, inToolbar) => TouchStartedAsWritten(w, touches, pt, inToolbar, d)
    case KeyUp(key) => KeyReleasedAsWritten(w, key)
    case _ => Step(w, e, d)
  }

  /** The written program and the corrected one part only in the selection and
      in whether a Shift release closes the marquee; every id the written one
      keeps selected beyond the corrected one is no longer a live particle. */
  lemma StepAsWrittenDiffers(w: World, e: Event, d: Draws)
    requires Valid(w) && Shaped(w, d)
    ensures var a, c := StepAsWritten(w, e, d), Step(w, e, d);
      && a == c.(selected := a.selected, marquee := a.marquee)
      && (a.marquee != c.marquee ==> e == KeyUp(ShiftKey))
      && (forall x :: x in c.selected ==> x in a.selected)
      && (forall x :: x in a.selected && x !in c.selected ==> x !in a.particles)
  {
    match e
    case TouchStart(touches, pt, inToolbar) => TouchStartedAsWrittenStrands(w, touches, pt, inToolbar, d);
    case KeyUp(key) =>
    case _ =>
  }

  /** As written, an event keeps the bookkeeping invariant exactly when it
      leaves no removed particle in the selection. */
  lemma StepAsWrittenValid(w: World, e: Event, d: Draws)
    requires Valid(w) && Shaped(w, d) && Fits(w, e, d)
    ensures var a := StepAsWritten(w, e, d);
      Valid(a) <==> forall x :: x in a.selected ==> x in a.particles
  {
    var a, c := StepAsWritten(w, e, d), Step(w, e, d);
    StepKeepsValid(w, e, d);
    StepAsWrittenDiffers(w, e, d);
    if forall x :: x in a.selected ==> x in a.particles {
      if e.TouchStart? && (e.touches == 2 || e.touches == 3) {
        NothingStrandedSameSelection(w, e.touches, e.pt, e.inToolbar, d);
      }
      assert a == c.(marquee := a.marquee);
      SessionKeepsValid(c, a);
    }
  }

  /** When the written two- or three-finger handler leaves no removed particle
      selected, its selection is the corrected one. */
  lemma NothingStrandedSameSelection(w: World, touches: nat, pt: Point, inToolbar: bool, d: Draws)
    requires Valid(w) && Shaped(w, d) && (touches == 2 || touches == 3)
    requires var a := TouchStartedAsWritten(w, touches, pt, inToolbar, d);
      forall x :: x in a.selected ==> x in a.particles
    ensures TouchStartedAsWritten(w, touches, pt, inToolbar, d).selected == TouchStarted(w, touches, pt, inToolbar, d).selected
  {
    var a := TouchStartedAsWritten(w, touches, pt, inToolbar, d);
    var gone := if touches == 2 then Elems(ResetCluster(w, d.centerIndex)) else Elems(Unlocked(w.particles, w.store));
    if touches == 3 {
      SweepIsWithout(w.particles, w.store);
    }
    assert a.particles == Without(w.particles, gone);
    WithoutNothing(w.selected, gone);
  }

  /** The draws of a run fit the worlds they are drawn in. */
  ghost predicate RunFits(w: World, es: seq<Event>, ds: seq<Draws>)
    requires Valid(w) && |es| == |ds|
    decreases |es|
  {
    |es| == 0 ||
      (Shaped(w, ds[0]) && Fits(w, es[0], ds[0]) &&
        (StepKeepsValid(w, es[0], ds[0]);
         RunFits(Step(w, es[0], ds[0]), es[1..], ds[1..])))
  }

  /** The point an event's draws are taken at: the press point for a mouse
      press, and any point for an event that draws no fragment. */
  function DrawPoint(e: Event): Point {
    if e.MousePress? then e.pt else Point(0.0, 0.0)
  }

  /** Every sequence of events from a valid world has draws that fit it, so
      `RunFits` excludes no run. */
  function FittingRun(w: World, es: seq<Event>): (ds: seq<Draws>)
    requires Valid(w)
    ensures |ds| == |es| && RunFits(w, es, ds)
    decreases |es|
  {
    if |es| == 0 then []
    else
      var d := FittingDraws(w, DrawPoint(es[0]));
      StepKeepsValid(w, es[0], d);
      var rest := FittingRun(Step(w, es[0], d), es[1..]);
      assert ([d] + rest)[1..] == rest;
      [d] + rest
  }

  /** A run of events from a valid world, one draw per event. */
  function Run(w: World, es: seq<Event>, ds: seq<Draws>): (r: World)
    requires Valid(w) && |es| == |ds| && RunFits(w, es, ds)
    ensures Valid(r)
    decreases |es|
  {
    if |es| == 0 then w
    else
      StepKeepsValid(w, es[0], ds[0]);
      Run(Step(w, es[0], ds[0]), es[1..], ds[1..])
  }

  /** The world a fresh page starts in: empty collections, 37 particles per
      spawn, circles, nothing latched or in progress. */
  function Initial(screenMin: real): (w: World)
    requires screenMin > 0.0
    ensures Valid(w) && w.particles == [] && w.spawnCount == DEFAULT_SPAWN_COUNT
  {
    World([], [], [], map[], 0, screenMin, DEFAULT_SPAWN_COUNT, Circle,
          Marquee(false, Point(0.0, 0.0), Point(0.0, 0.0)), false, Point(0.0, 0.0), Latches(false, false, false))
  }

  /** Every run from the start page whose draws fit ends in a valid world. */
  lemma RunFromStartValid(screenMin: real, es: seq<Event>, ds: seq<Draws>)
    requires screenMin > 0.0 && |es| == |ds| && RunFits(Initial(screenMin), es, ds)
    ensures Valid(Run(Initial(screenMin), es, ds))
  {
  }
}
