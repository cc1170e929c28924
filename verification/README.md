# Bubble playground: the particle bookkeeping, modelled in Dafny

The playground keeps its particles in three parallel JavaScript arrays. Each particle
has a physics body.

- `particles` holds every particle on screen.
- `selectedParticles` holds the current selection.
- `lockedParticles` holds the particles pinned in place.

The user changes these arrays with the mouse, touch gestures, the keyboard and the toolbar:

- click or tap to select, or to spawn particles;
- Shift-drag to draw a marquee;
- long-press and drag to select;
- Escape to deselect;
- Backspace, cut and clear to remove particles;
- lock to pin the selection;
- a two-finger tap to remove a random cluster, and a three-finger tap to remove every unlocked particle;
- X-click to split a particle, and V-click to turn it into acid.

Acid particles corrode the unlocked particles they touch. Unlocked acid particles
also decay by themselves.

This project models that bookkeeping as a pure state machine over a `World` record.

- `particles`, `selected` and `locked` are sequences of particle ids.
- A `store` keeps every particle record ever created. A removed JavaScript object
  keeps its stale flags for as long as a stale reference can still reach it.
- The rest is the session state the handlers read:
  - the spawn count and the shape;
  - the marquee;
  - drag-select mode and its last point;
  - the Shift, X and V latches.

The central invariant is `Particles.Valid`:

- the three lists are duplicate-free, and both `selected` and `locked` are sub-lists of `particles`;
- the `isSelected` and `isLocked` flags of live particles mirror list membership;
- a particle's body is static exactly when it is locked;
- every live particle has a positive size.

`Events.Step` is the program with the three corrections listed under Findings: the
two-finger reset and the three-finger sweep also prune the selection, and releasing
Shift closes the marquee. `Events.StepKeepsValid` proves that every input event of the
corrected program keeps this invariant, and `Events.Run` extends it to every run of
events. `Events.StepAsWritten` is the program as written. `Events.StepAsWrittenDiffers`
shows it parts from the corrected step only in the selection and the marquee, and
`Events.StepAsWrittenValid` shows it keeps the invariant exactly when it leaves no
removed particle selected.

Some inputs come from outside the model and are parameters:

- the random draws: spawn sizes and colour, fragment sizes and the reset centre;
- whether a point lies on the toolbar;
- the number of touches;
- the collision pairs reported by the physics engine.

Distances are compared on their squares. For the non-negative radii used here, this
is the same test as the source's `dist(..) < r`.

The source is one file, `main.js`. Where the written code and its evident intent
part ways, the model does three things:

1. it keeps the written behaviour as an `...AsWritten` member;
2. it proves the consequence;
3. it uses a corrected member everywhere else (see Findings).

When nothing is selected, Backspace calls `resetParticles`, which removes a random
cluster of unlocked particles (main.js:855-857), as the help text's "Delete selected
particles (or chunks if none selected)" says (main.js:1288-1289).

## Model

| member | source | states |
|---|---|---|
| Seqs.IndexOf | main.js:852 | `indexOf` answers -1 exactly when the id is absent; otherwise it answers the first position holding it |
| Seqs.SpliceOne | main.js:852 | `splice(start, 1)` with a negative start counts from the end: when the normalised start is in range it deletes exactly the element at that position (the multiset loses that one element), and otherwise nothing |
| Seqs.Remove | main.js:158-162 | the guarded indexOf-then-splice deletes exactly the id (the filter by `{x}` on a duplicate-free list) and leaves a list without it unchanged |
| Seqs.Without | main.js:985 | `filter` keeps exactly the elements outside the set, in order, and keeps a list duplicate-free |
| Seqs.WithoutIsSubsequence | main.js:985 | filtering keeps the survivors in their original order |
| Seqs.SpliceMissingDropsLast | main.js:852 | `splice(indexOf(x), 1)` with `x` absent deletes the last element |
| Particles.ReselectKeepsValid | main.js:570-577 | changing only the selection and the flags other than the lock keeps the invariant, provided the selection stays duplicate-free, live and mirrored by `isSelected` |
| Particles.SessionKeepsValid | main.js:42-71 | the invariant does not depend on the session variables (spawn count, shape, marquee, drag state, key latches) |
| Particles.NewParticle | main.js:335-361 | a constructed particle has every flag clear and a dynamic body; its displayed shape is the current shape, while its body is built in the shape passed in |
| Particles.Excise | main.js:147-162 | removing a particle from all three lists with the guarded removal keeps the invariant, takes out exactly that id and leaves every other membership alone |
| Particles.ExciseIdempotent | main.js:380-394 | removing the same particle twice is the same as removing it once |
| Selection.FirstHit | main.js:558-581 | the hit loop finds a particle whose disc contains the point, and no earlier particle contains it |
| Selection.FirstHitIsFirst | main.js:1008-1014 | the particle found is exactly the hit particle that comes before every other hit particle |
| Selection.Toggle | main.js:570-577 | clicking a particle appends it to the selection if absent, or removes it and clears its hover if present; no other membership changes and the invariant is kept |
| Selection.ToggleTwice | main.js:643-650 | toggling twice restores the selection as a set |
| Selection.AddToSelection | main.js:771-774 | the particle becomes selected, every other membership is unchanged, only selection state changes, and the invariant is kept |
| Selection.DropFromSelection | main.js:1061-1065 | the particle leaves the selection, every other membership is unchanged, and the invariant is kept |
| Selection.Nearby | main.js:763-767 | the nearby list holds exactly the listed particles strictly within the radius |
| Selection.SelectEach | main.js:770-775 | afterwards every listed particle is selected, the others keep their membership, and the invariant is kept |
| Selection.LongPress | main.js:759-788 | the long press enters drag-select mode and selects exactly the previous selection plus every live particle within three base sizes |
| Selection.DragPick | main.js:716-722 | picking one particle under the moving touch changes only the selection and the records, and leaves every other particle's membership and record alone |
| Selection.DragPickValid | main.js:716-722 | a particle under the moving touch becomes selected with a pulse unless it already was selected; the invariant is kept |
| Selection.DragScan | main.js:713-723 | the drag loop changes only the selection state of the scanned particles |
| Selection.DragScanValid | main.js:713-723 | after the loop, a scanned particle is selected exactly when it was before or lies within the radius; the invariant is kept |
| Selection.DragScanRecords | main.js:716-722 | newly picked particles get the selected flag and a pulse of 1.5; already selected ones keep their record |
| Selection.DragTo | main.js:708-726 | a drag step remembers the new point and changes neither the particles nor the locks |
| Selection.DragToValid | main.js:708-726 | a drag step adds every live particle within two base sizes to the selection and keeps the invariant |
| Selection.TouchMoved | main.js:698-730 | outside one-finger drag-select mode, or within 5 pixels of the last point, a move changes nothing |
| Selection.TouchMovedValid | main.js:696-757 | every touch move keeps the invariant |
| Selection.TouchMovedSelects | main.js:708-726 | a far enough move selects every live particle within two base sizes of the new point, on top of the old selection |
| Selection.MarqueeBox | main.js:1038-1041 | the marquee rectangle is normalised: its left and right edges are the two points' x coordinates, smaller first, and likewise for top and bottom |
| Selection.MarqueeScan | main.js:1049-1067 | the marquee loop changes only the selection and the particles' `isSelected` flags, and leaves the membership of particles it does not scan alone |
| Selection.MarqueeScanValid | main.js:1049-1067 | after the marquee loop a scanned particle is selected exactly when its centre is in the box; the invariant is kept |
| Selection.MouseDragged | main.js:1031-1074 | with no marquee open, a drag changes nothing; a degenerate box only moves the marquee's end |
| Selection.MouseDraggedValid | main.js:1031-1074 | over a proper box, the selection becomes exactly the live particles whose centres lie in it; the invariant is kept |
| Selection.MouseReleased | main.js:1079-1086 | releasing the mouse closes the marquee and keeps the selection it built |
| Selection.ClearMarks | main.js:862-865 | the selected and hovered flags of exactly the listed particles are cleared |
| Selection.Escape | main.js:860-869 | Escape empties the selection, clears every live selected and hover flag and closes the marquee; locks are unchanged and the invariant is kept |
| Selection.MouseMoved | main.js:991-1026 | with a marquee open, a move only follows the pointer; otherwise exactly the first live particle under the pointer is hovered, and only hover flags change |
| Selection.Hover | main.js:1000-1014 | only hover flags change, and exactly the chosen particle is hovered |
| Locking.Flipped | main.js:1185-1205 | a flipped particle has the opposite lock, and its body is static exactly when it is now locked |
| Locking.FlippedTwice | main.js:1432-1462 | flipping twice restores a consistent particle |
| Locking.FlipLock | main.js:1184-1206 | one lock-loop step toggles that particle's membership in the lock list and keeps the invariant |
| Locking.FlipLocks | main.js:1434-1456 | the lock loop changes only the lock list and the records, and leaves the lock membership and record of every unlisted particle alone |
| Locking.FlipLocksFlips | main.js:1434-1456 | over a duplicate-free list, the lock loop flips every listed particle exactly once |
| Locking.FlipLocksValid | main.js:1434-1456 | the lock loop keeps the invariant and toggles exactly the listed particles' lock membership |
| Locking.ToggleLockMode | main.js:1432-1462 | `toggleLockMode` flips exactly the selected particles' locks, keeps the selection and keeps the invariant |
| Locking.ToggleLockModeTwice | main.js:1432-1462 | toggling twice restores every record and the lock set |
| Locking.LockButton | main.js:1182-1218 | the lock button leaves nothing selected or hovered; a particle ends up locked exactly when it was locked xor selected |
| Spawn.Fresh | main.js:795-815 | the fresh ids are exactly the next `n` consecutive ids |
| Spawn.AddAll | main.js:811-813 | the new records are appended under fresh ids and every older record is untouched |
| Spawn.AddAllKeepsValid | main.js:335-361 | adding newborn records (no flags, dynamic body, positive size) keeps the invariant |
| Spawn.SpawnTimes | main.js:812 | the spawn loop runs `spawnCount` times, or not at all when the count is not positive |
| Spawn.CreateParticles | main.js:795-815 | spawning appends exactly `spawnCount` fresh ids and changes no selection or lock |
| Spawn.CreatedRecords | main.js:795-815 | the spawned records are newborn particles of the drawn sizes, the chosen colour and the current shape at the pointer |
| Spawn.CreateKeepsValid | main.js:795-815 | spawning with sizes drawn from 0.75 to 1.5 base sizes keeps the invariant |
| Spawn.FragmentRange | main.js:1623-1631 | with the borrowed base size, every fragment is between 40% and 80% of the original size |
| Spawn.Split | main.js:1594-1653 | a split removes the particle from all three lists, appends 4 to 7 fresh fragments, and leaves the screen size, the shape and the spawn count unchanged |
| Spawn.SplitFragments | main.js:1633-1650 | each fragment is a fresh record with the original's colour and position, a body built in its shape, and 40% to 80% of its size |
| Spawn.SplitKeepsValid | main.js:1594-1653 | splitting keeps the invariant, removes exactly the particle and adds `n - 1` particles to the count |
| Settings.Constrain | main.js:529 | the result of `constrain` lies in the range, and is the value itself when that already does |
| Settings.WheelSpawnCount | main.js:523-530 | a wheel step keeps the count in 10..100 and moves it 7 up on wheel-up or 7 down otherwise, when not clamped |
| Settings.WheelUpThenDown | main.js:523-530 | one notch up and one notch down restore an unclamped count |
| Settings.WheelSaturates | main.js:523-530 | enough notches in one direction pin the count at that bound |
| Settings.ShapeIndex | main.js:55 | every shape is listed in `shapes`, so `indexOf` never answers -1 |
| Settings.NextShape | main.js:1140 | the shape button always changes the shape |
| Settings.NextShapeCycles | main.js:1405 | three presses come back to the start after visiting every shape |
| Acid.Resize | main.js:412-431 | resizing makes a new, dynamic body of the displayed shape at the same position |
| Acid.Find | main.js:122-123 | the lookup finds the live particle whose current body is the reference, or reports that there is none |
| Acid.ApplyAcid | main.js:141-172 | corrosion shrinks the target by 10%; below size 5 it leaves all three lists and nothing else changes; otherwise only its size and body change; an unlocked target keeps the invariant |
| Acid.HandlePair | main.js:117-133 | a pair corrodes the non-acid, unlocked side exactly when the other side is acid; acid and locked records never change |
| Acid.HandleCollisionStart | main.js:114-134 | a collision event keeps the invariant and the lock list, and never changes an acid or locked record |
| Acid.OldBodyGone | main.js:165-170 | once a particle has been resized, its old body no longer resolves, so a later pair naming it is ignored |
| Acid.MakeAcid | main.js:560-564 | a V-click only sets the acid flag of that particle and keeps the invariant |
| Acid.AcidIsImmune | main.js:125-131 | an acid particle is never corroded by a collision |
| Acid.Decayed | main.js:363-403 | a locked or non-acid particle never decays; otherwise the timer accumulates, and only above 100 ms does the particle shrink by 2.5% and restart the timer |
| Acid.Update | main.js:363-409 | an update removes the particle from `particles` and the selection exactly when its decay takes it below size 5, and keeps the invariant |
| Acid.Frame | main.js:256-268 | the frame leaves exactly the non-dying particles in order, decays every live record, drops dying particles from the selection and keeps the invariant |
| Acid.FrameFrom | main.js:256-268 | the backward update loop, run down to position 0 from a state where the positions above `i` are done, ends with every live particle decayed, the dying ones gone from `particles` and the selection, the rest in order, the lock list unchanged and the world valid |
| Colors.RgbToHex | main.js:1089-1091 | the hex string is `#` followed by two hex digits per component |
| Colors.ToHex | main.js:1090 | `toString(16)` prints at least one digit; `Colors.ToHexShift` gives its positional law |
| Colors.Pad | main.js:1090 | the digits `slice(1)` keeps: exactly `k` low base-16 digits, zero-padded |
| Colors.EncodeDigits | main.js:1090 | printing `(1 << 24) + (r << 16) + (g << 8) + b` in hex gives `1` and then six digits, two per component |
| Colors.ToHexShift | main.js:1090 | a value with leading digits `a` and `k` trailing digits `v` prints as `a`'s digits followed by `v`'s `k` padded digits |
| Colors.HexToRgb | main.js:1094-1101 | decoding gives three components in 0..255, and `[0, 0, 0]` for a string that does not match |
| Colors.HexToRgbReadsPairs | main.js:1095-1100 | a matching string decodes its three digit pairs after the optional `#` |
| Colors.RoundTrip | main.js:1089-1101 | decoding an encoded colour returns its integer components |
| Colors.DecodeIgnoresCase | main.js:1095 | the `/i` match decodes strings that differ only in letter case to the same colour |
| Removal.SpliceFacts | main.js:852 | the unguarded splice deletes the id when present, and the last element when absent |
| Removal.SpliceEach | main.js:850-853 | the unguarded `particles.splice(particles.indexOf(p), 1)` loop never lengthens the list and never adds an id; `Removal.SpliceEachWithout` shows it deletes exactly the selected ids when they are all live |
| Removal.SpliceEachWithout | main.js:850-853 | over a selection of live ids, the cut loop deletes exactly the selected ids from `particles`, in order |
| Removal.RemoveEach | main.js:845-849 | the guarded `lockedParticles` loop keeps only ids the list had and keeps every id not being cut; `Removal.RemoveEachWithout` shows it is exactly the filter |
| Removal.RemoveEachWithout | main.js:845-849 | the cut loop deletes exactly the selected ids from `lockedParticles` |
| Removal.CutSelected | main.js:841-855 | cutting empties the selection, changes nothing else besides `particles` and `locked`, and does nothing when nothing is selected |
| Removal.CutSelectedValid | main.js:1154-1169 | cutting removes exactly the selected particles, locked ones included, and keeps the invariant |
| Removal.StaleCutDropsLast | main.js:1415-1430 | a selection entry no longer in `particles` makes the cut delete the last particle, which was not selected |
| Removal.ClearCanvas | main.js:1171-1180 | clearing empties all three lists and keeps the invariant |
| Removal.Unlocked | main.js:946 | the filter keeps exactly the unlocked particles |
| Removal.Cluster | main.js:963-977 | the cluster holds exactly the unlocked particles within the removal radius of the centre |
| Removal.ResetCluster | main.js:942-977 | the cluster never holds a locked particle |
| Removal.ResetClusterIs | main.js:939-986 | the cluster is empty exactly when every particle is locked; otherwise it holds the drawn centre and exactly the unlocked particles within 0.15 of the screen size of it |
| Removal.ResetAsWritten | main.js:985 | the reset as written filters only `particles` |
| Removal.ResetAsWrittenStrands | main.js:939-986 | a selected particle caught in the cluster stays selected after leaving `particles` |
| Removal.ResetThenCutDropsBystander | main.js:841-857 | after such a reset, Backspace deletes an unselected bystander |
| Removal.ResetParticles | main.js:939-986 | the corrected reset removes the same particles, now from the selection as well |
| Removal.ResetKeepsValid | main.js:939-986 | the corrected reset keeps the invariant, keeps the survivors in order, removes exactly the cluster and keeps every locked particle |
| Removal.SweepFrom | main.js:664-669 | the backward three-finger loop from position `i` down to 0 never lengthens the list; `Removal.SweepSplit` and `Removal.SweepIsWithout` show it removes exactly the unlocked particles, keeping the rest in order |
| Removal.SweepSplit | main.js:664-669 | the backward sweep over a prefix removes exactly the unlocked elements of that prefix and keeps the suffix it has passed |
| Removal.SweepIsWithout | main.js:664-669 | the whole sweep is the filter by the unlocked particles |
| Removal.SweepAsWritten | main.js:662-669 | the three-finger sweep as written changes only `particles` |
| Removal.SweepAsWrittenStrands | main.js:662-669 | a selected unlocked particle stays selected after the sweep removes it |
| Removal.RemoveUnlocked | main.js:662-669 | the corrected sweep leaves the same particles and prunes the selection |
| Removal.RemoveUnlockedKeepsValid | main.js:662-669 | the corrected sweep keeps the invariant and the lock list, and leaves exactly the locked particles in order |
| Events.HitAt | main.js:558-560 | the press lands on exactly the first live particle under the point, or on none when no particle is under it |
| Events.MousePressed | main.js:535-585 | a press on the toolbar does nothing; with Shift held, it only opens a marquee at the pointer |
| Events.MousePressedValid | main.js:535-585 | every press keeps the invariant, given spawn sizes in the spawn range and fragment sizes in the split range of the particle the press lands on |
| Events.MousePressedToggles | main.js:570-581 | a plain press flips the selection of exactly the particle it lands on |
| Events.MousePressedSpawns | main.js:550-584 | a press on no particle appends `spawnCount` fresh particles |
| Events.MousePressedAcid | main.js:560-564 | a V-press makes the particle it lands on acid, after which no collision corrodes it |
| Events.MousePressedSplits | main.js:565-569 | an X-press replaces the particle it lands on by the fragments and keeps the invariant; only that particle's split range constrains the fragments |
| Events.TouchStarted | main.js:587-673 | corrected for two and three fingers (see Findings): a one-finger tap on the toolbar does nothing; off it, it records the drag anchor, leaves drag-select mode and keeps the locks; no finger or more than three fingers do nothing |
| Events.TouchStartedValid | main.js:587-673 | every touch start of the corrected handler keeps the invariant, given spawn sizes in the spawn range; a touch never splits, so fragments are unconstrained |
| Events.TouchStartedAsWritten | main.js:587-673 | the handler as written differs from the corrected one only in the selection, and only for two or three fingers, where it keeps the old selection |
| Events.TouchStartedAsWrittenStrands | main.js:659-669 | every id the written handler keeps selected beyond the corrected one is no longer a live particle |
| Events.ResetSelectionGap | main.js:939-986 | the written reset's selection contains the corrected one, and each extra id has left `particles` |
| Events.SweepSelectionGap | main.js:662-669 | the written sweep's selection contains the corrected one, and each extra id has left `particles` |
| Events.TapToggles | main.js:641-654 | a tap flips the selection of exactly the particle it lands on, whatever keys are latched |
| Events.ThreeFingersKeepLocked | main.js:662-669 | three fingers leave exactly the locked particles in order; with the corrected sweep they also keep the invariant |
| Events.LongPressFired | main.js:626-637 | the timer does nothing unless one finger is still within 20 pixels of where it went down; when it fires, it enters drag-select mode and only adds to the selection |
| Events.TouchEnded | main.js:675-694 | lifting the finger leaves drag-select mode and changes nothing else |
| Events.TouchEndStopsDrag | main.js:698-700 | after the finger lifts, moves select nothing |
| Events.KeyPressed | main.js:820-902 | only Backspace removes particles; Shift only sets its latch |
| Events.KeyPressedValid | main.js:820-902 | every key press keeps the invariant |
| Events.BackspaceCuts | main.js:841-854 | Backspace with a selection removes exactly the selected particles |
| Events.BackspaceResets | main.js:855-857 | Backspace with nothing selected removes the random cluster, never a locked particle |
| Events.LockKey | main.js:871-876 | L with nothing selected does nothing; otherwise it toggles the selected particles' locks and clears the selection |
| Events.KeyReleasedAsWritten | main.js:907-934 | a key release as written never changes a list, a record or the marquee |
| Events.ShiftReleaseKeepsMarquee | main.js:909-917 | after Shift is released mid-drag, the marquee stays open and keeps replacing the selection |
| Events.KeyReleased | main.js:909-917 | with the correction, releasing Shift closes the marquee and keeps the selection |
| Events.ShiftReleaseClosesMarquee | main.js:1031-1035 | after the corrected release, a drag changes nothing |
| Events.LatchRoundTrip | main.js:822-840 | pressing and releasing a latch key turns that latch off and changes nothing else |
| Events.ShapeClicked | main.js:1138-1152 | a shape click changes only the spawn shape, and always changes it |
| Events.ShapeClickCycles | main.js:1402-1413 | three shape clicks restore the world |
| Events.WheelTurned | main.js:523-530 | the wheel changes only the spawn count and keeps it in 10..100 |
| Events.LockSecondListenerIdle | main.js:1507 | the lock button's second listener finds nothing selected and changes nothing |
| Events.CutSecondListenerIdle | main.js:1501 | the cut button's second listener changes nothing |
| Events.ClearSecondListenerIdle | main.js:1171-1181 | the clear button's second listener finds an empty world and leaves it as it is |
| Events.LockTouchKeepsSelection | main.js:1507-1511 | a touch on the lock button flips the same locks as a click but keeps the selection, where a click empties it |
| Events.FittingDraws | main.js:1620-1637 | for every valid world and point there are draws in the ranges `random` gives, so the range preconditions exclude no world |
| Events.Step | main.js:535-1086 | dispatches every event to its handler in the corrected program; only presses, touches, keys, cut, clear, collisions and frames can change the particle list, and only presses, keys and the cut, lock and clear buttons can change the lock list |
| Events.StepKeepsValid | main.js:535-1086 | every input, toolbar, collision and frame event of the corrected program keeps the invariant; only a press and a touch constrain the draws |
| Events.StepAsWritten | main.js:535-1086 | dispatches every event to its handler as written; it leaves the same particles, locks, records and id counter as `Events.Step`, and is identical to it except on a two- or three-finger touch and a key release |
| Events.StepAsWrittenDiffers | main.js:535-1086 | the program as written and the corrected one leave the same world except for the selection and for the marquee after a Shift release; the written selection contains the corrected one, and its extra ids are no longer live |
| Events.StepAsWrittenValid | main.js:535-1086 | as written, an event keeps the invariant exactly when it leaves no removed particle selected |
| Events.NothingStrandedSameSelection | main.js:659-669 | when the written two- or three-finger handler strands nothing, its selection equals the corrected one |
| Events.Run | main.js:201-293 | every run of events of the corrected program from a valid world ends in a valid world |
| Events.FittingRun | main.js:201-293 | every sequence of events from a valid world has draws that fit each step, so a run's precondition excludes no sequence of events |
| Events.Initial | main.js:42-79 | the page starts with empty lists, 37 particles per spawn and a valid world |

## Left out

- Rendering is not modelled: drawing, the background buffer, the pulse animation's decay, the selection indicator, the help modal and `updateButtonStates`.
- Physics is not modelled. Body motion, velocities, explosion forces and the bodies' `remove()` calls belong to the engine. Bodies are modelled only as a generation, a shape, a position and the static flag.
- Toolbar geometry and the open help modal are not modelled. Whether a point is on them is a parameter. A touch outside the open help modal also closes it, which is display-only and not modelled.
- Timers are not modelled as timers. Firing the long press is the event `LongPressTimer`. The 300 ms `longPressActive` flash is left out.
- Randomness is not modelled. Spawn sizes, colour, fragment count and sizes, and the reset centre are parameters. Their ranges are stated as requires on the lemmas that need them: `Spawn.CreateKeepsValid`, `Spawn.SplitFragments`, `Spawn.SplitKeepsValid` and `Events.StepKeepsValid`. Only the draws an event actually uses are constrained, and `Events.FittingDraws` and `Events.FittingRun` show that fitting draws always exist.
- Pinch-to-zoom (main.js:731-752) is not modelled. It adds a fractional amount to `spawnCount`, a floating-point quantity the integer count does not represent.
- The C key's recolouring, the `?` help key and the M latch are not modelled. The M latch is set and cleared but never read. The colour mode and the noise-driven random colour are also left out.
- The colour-picker listener is not modelled. `Colors.HexToRgb` covers its decoding.
- The shape, cut, lock and clear buttons each register two click listeners (main.js:1138/1495, 1154/1501, 1182/1507, 1171/1513). The model runs one handler per click.
  - `Events.LockSecondListenerIdle`, `Events.CutSecondListenerIdle` and `Events.ClearSecondListenerIdle` show that the second lock, cut or clear listener then changes nothing. For clear, `ClearCanvas` of an empty world is the same world.
  - A real shape click advances the shape twice. That is not modelled.
- The toolbar buttons' touchstart listeners (main.js:1496-1517) call the plain toggles. For shape, cut and clear these do what `ShapeClick`, `CutClick` and `ClearClick` do. For the lock button, the event `LockTouch` runs `toggleLockMode` alone.
- The long-press anchor is a parameter of `LongPressTimer`, not the `touchStartPos` recorded at main.js:618. The model therefore also allows anchors the program would never record.
- `windowResized` (main.js:237-240) is not modelled. It recomputes the base size while the model's `screenMin` stays fixed for the whole session.
- TouchStarted: the two- and three-finger branches run the corrected reset and sweep, which also prune the selection. `Events.TouchStartedAsWritten` is the handler as written.
- TouchStartedValid: holds for the corrected handler only. As written, two or three fingers can leave a removed particle selected (`Removal.ResetAsWrittenStrands`, `Removal.SweepAsWrittenStrands`).
- ThreeFingersKeepLocked: its invariant clause holds for the corrected sweep only. The as-written sweep leaves the same particles but can strand a selected one.
- StepKeepsValid: holds for the corrected program. `Events.StepAsWrittenValid` states what the program as written keeps.
- Run: inherits the corrections of `Events.StepKeepsValid`. There is no whole-run statement for the program as written.
- Collision pairs are given as a sequence of body references. Boundary bodies never match a particle.
- Colors.RgbToHex: requires each component's floor to lie in 0..255. Outside that range the shifts in the source overflow the six hex digits, and that case is not modelled.
- Acid.Decayed: the decay timer must strictly exceed 100 ms, as the source's `>` does. Frame times are real numbers, not floating point.
- Removal.CutSelected: the source interleaves the `lockedParticles` and `particles` splices per selected particle. The model applies each array's loop in full, one after the other. The two arrays are independent, so the result is the same.

## Findings

| source | as written | input that shows it | evidently intended | confidence | as-written member | corrected member |
|---|---|---|---|---|---|---|
| main.js:939-986 | `resetParticles` filters only `particles`; a removed particle stays in `selectedParticles` | select one unlocked particle, then tap with two fingers so the cluster contains it while another particle survives; the next Backspace runs `particles.splice(-1, 1)` and deletes the last particle, which nobody selected | removed particles also leave the selection | high (not executed) | Removal.ResetThenCutDropsBystander | Removal.ResetKeepsValid |
| main.js:662-669 | the three-finger sweep splices only `particles`; swept particles stay selected | select an unlocked particle, then tap with three fingers: it is gone from `particles` but still in `selectedParticles` | swept particles also leave the selection | high (not executed) | Removal.SweepAsWrittenStrands | Removal.RemoveUnlockedKeepsValid |
| main.js:914 | releasing Shift with a marquee open calls `finalizeMarqueeSelection`, which is not defined in main.js; unless another script of the page defines it, the ReferenceError skips `isMarqueeSelecting = false` | Shift-drag a marquee and release Shift before the mouse button: the marquee stays open and keeps rewriting the selection as the mouse moves | the marquee closes, keeping the selection it built | medium (not executed) | Events.ShiftReleaseKeepsMarquee | Events.ShiftReleaseClosesMarquee |
