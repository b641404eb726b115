# Cosmic canvas: the spatial-state engine in Dafny

This project models the interaction and spatial-state engine of an
infinite-canvas note application, written here in Dafny. Notes are drawn as
celestial bodies on a pannable, zoomable plane. The application has two
generations of the engine, and the model covers both.

- **The map-based store** (`hooks/useStore.ts`, module `NoteStore`). Notes
  are kept in a map keyed by id. Each note has a hierarchical `parentId`,
  symmetric arbitrary links (`linkedIds`) and Nebula group membership
  (`groupId`). It supports:
  - add;
  - move, where an active Nebula container drags its whole group;
  - edit;
  - cascade delete, with scrubbing of the survivors;
  - link and unlink;
  - parent removal;
  - regrouping;
  - canvas and selection updates.
- **The map-based canvas** (`App.tsx`, module `AppCanvas`). It covers:
  - the padded visibility set;
  - cursor-anchored wheel zoom;
  - background panning;
  - the selection box with its 5-pixel dead zone;
  - shift-toggle selection;
  - dropping a link drag on a note;
  - the per-pair de-duplication of arbitrary links for drawing;
  - the edge-pan animation loop.
- **Edge panning** (module `EdgePan`). The velocity ramps linearly inside a
  60-pixel margin, up to 15 pixels per frame. `App.tsx` feeds it the pointer
  during a box or link drag. `components/Note.tsx` writes out the same ramp
  for a note drag, but feeds it coordinates its pointer object lacks, so a
  note drag never pans (see Findings).
- **The note drag handlers** (`components/Note.tsx`, module `NoteDrag`):
  - the black-hole pull marker;
  - the Nebula under the dragged note's centre;
  - absorption on release and deletion once the exit animation completes;
  - regrouping, and the move by the drag offset in world units.
- **The array-based store** (`src/store/useStore.ts`, module `ArrayStore`).
  Notes and directed connections are kept as sequences. It supports append,
  patch by id, and filter-style delete with no cascade.
- **Viewport culling** for the array-based canvas (`src/utils/spatial.ts`,
  module `Spatial`).
- **The array-based canvas gestures** (`src/components/CanvasViewport.tsx`,
  module `CanvasViewport`):
  - the connection-drop hit test (closed note squares, first in list order);
  - ctrl-wheel zoom clamped to [0.1, 5];
  - wheel and drag panning;
  - deselection;
  - the black hole 100 pixels in from the bottom-right corner, with a
    200-pixel radius.

Shared modules:

- `Basics`:
  - `Option`;
  - JavaScript truthiness;
  - order-preserving `Filter`;
  - `Array.from(new Set(...))` as `Dedup` and `SetAdd`;
  - `Array.find` as `FirstIndex`;
  - JavaScript string `<` as `StrLess`.
- `Geometry`:
  - points and boxes;
  - the world/screen transform `screen = world * zoom + pan`;
  - squared distances;
  - the control point of the link curve.
- `Entities`: the note record, the 19 celestial kinds, and `Tuning`. `Tuning`
  carries the numbers of the constants module that the map-based canvas
  reads. That module is not part of this model, so only what the code relies
  on is assumed about them: positive diameters and an ordered zoom range.

The model's conventions:

- Every operation is a pure function from the old state to the new one.
- Numbers are exact reals.
- `Math.hypot(d) < r` is stated as `r > 0 && |d|² < r²`, which is equivalent
  because the distance is non-negative.
- Anything the code reads from the DOM or the browser is a parameter:
  - element rectangles (`None` when the element is absent);
  - window size;
  - the order of `Object.values`;
  - generated ids;
  - the orbital spiral position.

Behaviour of the code worth noting, which the model follows:

- A new Nebula is created active (`groupId` = its own id) even though it has
  no members.
- `setNoteGroup` deactivates the Nebula a note leaves only when one holder of
  that group is left. Holders are counted with the Nebula included.
- `deleteNote` does not clear the `groupId` of the members of a deleted
  Nebula.

## Model

| member | source | states |
|---|---|---|
| NoteStore.NewNote | hooks/useStore.ts:73-101 | The built note has the generated id and the given kind or Earth. Its content is the given truthy content or the kind's non-empty default. Its parent is the given truthy parent or none. Its tags and links are the given ones or empty. A Nebula starts as its own group and any other kind with no group. With the orbital layout and no parent it takes the spiral position; otherwise it takes the given position or the origin. |
| NoteStore.AddNote | hooks/useStore.ts:72-103 | The fresh id enters the map holding the built note, every existing note is kept, and nothing else in the store changes. |
| NoteStore.AddNotePreservesInvariants | hooks/useStore.ts:72-103 | A note added without links and with a resolvable parent keeps every invariant: keys match ids, links are symmetric and never dangle, every Nebula's group is unset or itself, and parents resolve. |
| NoteStore.UpdateNotePosition | hooks/useStore.ts:105-150 | A missing id changes nothing. An active Nebula container moves every note of its group by the delta. Any other note moves alone. Nothing else changes. |
| NoteStore.UpdateNotePositionUndo | hooks/useStore.ts:105-150 | Moving by a delta and then by its opposite restores the store exactly, because a move never changes which notes a container drags. |
| NoteStore.GroupMovesRigidly | hooks/useStore.ts:113-148 | Moving an active container keeps each member's offset from the container. |
| NoteStore.UpdateNoteContent | hooks/useStore.ts:152-156 | Only the content of the named note changes. |
| NoteStore.UpdateNoteContentPreservesInvariants | hooks/useStore.ts:152-156 | Editing content keeps every invariant: keys match ids, links are symmetric and never dangle, every Nebula's group is unset or itself, and parents resolve. |
| NoteStore.Cascade | hooks/useStore.ts:160-176 | The ids a delete removes form the least set that holds the root and contains every child of its members. |
| NoteStore.Sweep | hooks/useStore.ts:164-172 | The queue walk stays within the root and the store, is closed under children, and is contained in every closed superset of what it starts from. |
| NoteStore.Scrub | hooks/useStore.ts:178-193 | A survivor loses exactly its links to deleted notes, keeping the others in order. A parent that was deleted is cleared. Nothing else changes. |
| NoteStore.DeleteNote | hooks/useStore.ts:158-207 | The cascade leaves the map and every survivor is scrubbed. The selection keeps exactly its undeleted ids, in order. Focus on a deleted note is cleared and other focus is kept. The absorbing marker is cleared. |
| NoteStore.ScrubKeepsLinksWellFormed | hooks/useStore.ts:178-193 | Removing a set of notes and scrubbing the survivors keeps links symmetric, never to the note itself and never dangling. |
| NoteStore.DeleteNoteKeepsLinksWellFormed | hooks/useStore.ts:158-207 | Deleting keeps links symmetric and non-dangling. |
| NoteStore.DeleteNoteKeepsParentsAndGroups | hooks/useStore.ts:158-207 | After a delete, every set parent still names an existing note, and every Nebula's group is still unset or itself. |
| NoteStore.CreateLink | hooks/useStore.ts:224-248 | An empty first id, a self-link or a missing note changes nothing. Otherwise each side gains the other once: the link lists are duplicate-free and hold exactly the old links plus the new peer. Nothing else changes. |
| NoteStore.CreateLinkIdempotent | hooks/useStore.ts:224-248 | Linking the same pair twice is linking it once. |
| NoteStore.CreateLinkPreservesInvariants | hooks/useStore.ts:224-248 | Linking keeps links symmetric and non-dangling. |
| NoteStore.Unlinked | hooks/useStore.ts:256-267 | A note loses exactly its links to the other id, and the remaining links keep their order. |
| NoteStore.RemoveLink | hooks/useStore.ts:250-272 | Each existing side forgets the other, and every other note is unchanged. |
| NoteStore.RemoveLinkPreservesInvariants | hooks/useStore.ts:250-272 | Unlinking keeps links symmetric and non-dangling. |
| NoteStore.UnlinkedUndoesSetAdd | hooks/useStore.ts:234-267 | Adding a fresh peer to a duplicate-free link list and removing it again gives back the note. |
| NoteStore.RemoveLinkUndoesCreateLink | hooks/useStore.ts:224-272 | Linking two unlinked notes and unlinking them restores the store. |
| NoteStore.RemoveParentLink | hooks/useStore.ts:274-286 | A missing note, or one without a parent, changes nothing. Otherwise only that note's parent is cleared. |
| NoteStore.RemoveParentLinkPreservesInvariants | hooks/useStore.ts:274-286 | Detaching a note from its parent keeps every store invariant. |
| NoteStore.GroupCountAfterLeaving | hooks/useStore.ts:298-303 | A note leaving group `g` lowers the group's holder count by one. |
| NoteStore.Regrouped | hooks/useStore.ts:293-317 | Only group fields change. The note takes the new group, and apart from it only the old and the new group's own notes can change. |
| NoteStore.RegroupLeavesGroup | hooks/useStore.ts:301-308 | The Nebula a note leaves is deactivated exactly when it had two holders, itself and the leaver. Otherwise its group is kept. |
| NoteStore.RegroupJoinsGroup | hooks/useStore.ts:310-316 | An inactive Nebula that a note joins becomes an active container. This includes a note re-joining its current group and a Nebula joining its own group. |
| NoteStore.SetNoteGroup | hooks/useStore.ts:292-320 | A missing note changes nothing. Otherwise the notes become the regrouped notes and nothing else in the store changes. |
| NoteStore.SetNoteGroupPreservesSentinel | hooks/useStore.ts:292-320 | Regrouping a non-Nebula note keeps every Nebula's group unset or itself. |
| NoteStore.SetCanvasState | hooks/useStore.ts:69 | Present fields of the patch replace the zoom or pan. Absent ones keep theirs. |
| NoteStore.SetSelectedNoteIds | hooks/useStore.ts:220 | Only the selection changes, to the updater's result. |
| NoteStore.SetCanvasStateComposes | hooks/useStore.ts:69 | The empty patch changes nothing. Two successive patches act as their object spread, with the later one winning field by field. |
| NoteStore.SetSelectedNoteIdsComposes | hooks/useStore.ts:220 | Two successive updaters act as their composition, and the identity updater changes nothing. |
| Basics.SetAdd | hooks/useStore.ts:234-238 | `Array.from(new Set(s).add(x))` is duplicate-free and holds exactly the members of `s` plus `x`. |
| Basics.SetAddOfNoDup | hooks/useStore.ts:234-238 | On a duplicate-free list, adding keeps the list when the item is present and appends it otherwise. |
| Basics.Dedup | App.tsx:283 | `[...new Set(s)]` is duplicate-free, has the same members and is no longer than `s`. |
| Basics.DedupKeepsPrefix | App.tsx:283 | De-duplicating `a + b` keeps a duplicate-free `a` as its prefix. |
| Basics.StrLessTotal | App.tsx:412 | For two distinct strings, one is less than the other. |
| Basics.StrLessAsymmetric | App.tsx:412 | No two strings are each less than the other. |
| Geometry.ScreenToWorld | App.tsx:223-224 | The world point found for a screen point maps back to that screen point. |
| Geometry.WorldScreenRoundTrip | App.tsx:223-224 | Mapping a world point to the screen and back gives the same point. |
| Geometry.CurveControl | App.tsx:331-343 | The control point is equidistant from both ends. It lies on the perpendicular bisector, at a fifth of the segment's length from the midpoint. |
| EdgePan.AxisVelocity | App.tsx:238-248 | The velocity is positive exactly inside the low margin and negative exactly inside the high margin. It is 15 at the low edge, -15 at the high edge, and bounded by 15 inside the window. |
| EdgePan.AxisVelocityLinear | App.tsx:238-239 | Inside the margin, each pixel towards the edge adds a quarter pixel per frame. |
| EdgePan.AxisVelocityMonotone | App.tsx:238-248 | Moving the pointer right or down never increases the velocity. |
| EdgePan.Velocity | App.tsx:228-249 | Inside the window both components are bounded by 15, and away from the margins the velocity is zero. |
| EdgePan.PanStep | App.tsx:96-104 | One frame moves the pan against the velocity, and by nothing when the velocity is zero. |
| AppCanvas.VisibleNoteIds | App.tsx:156-178 | Every note whose footprint strictly overlaps the window padded by 200 world units contributes its id, and only such notes do. |
| AppCanvas.VisibleNoteIdsExact | App.tsx:156-178 | With keys equal to ids, an id is in the set iff its note is visible. |
| AppCanvas.VisibleOnScreen | App.tsx:156-178 | For a positive zoom, a note is visible iff its on-screen footprint strictly overlaps the window grown by `200 * zoom` pixels on every side. |
| AppCanvas.PaddingWidens | App.tsx:159-164 | A note overlapping the window itself, or lying up to 200 units to its left, is visible. |
| AppCanvas.WheelZoom | App.tsx:185 | The zoom after a wheel step stays within the zoom range, and it equals the unclamped product when that is in range. |
| AppCanvas.AnchoredPan | App.tsx:191-192 | The new pan keeps the world point under the cursor fixed across the zoom change. |
| AppCanvas.HandleWheel | App.tsx:181-195 | Only the canvas transform changes. The zoom stays in range and the world point under the cursor stays put. |
| AppCanvas.MouseDown | App.tsx:197-214 | Off the background nothing happens. With space held, panning starts. Otherwise a zero-size box opens at the pointer, and the selection is cleared unless shift is held. |
| AppCanvas.MouseMove | App.tsx:216-254 | While panning, the pan follows the pointer's movement. Otherwise an open box's far corner follows the pointer, or an open link drag's loose end is placed at the world point under the pointer. The edge-pan velocity follows the pointer while a box or link drag is open and is zero otherwise. |
| AppCanvas.MouseMoveEdgePanBounded | App.tsx:228-253 | The edge pan set by a move is bounded by 15 per frame inside the window and is zero away from the edges. |
| AppCanvas.Normalised | App.tsx:263-267 | The normalised box is ordered and has the same corner coordinates as the dragged box. |
| AppCanvas.BoxHits | App.tsx:270-281 | The ids collected are exactly those of the enumerated notes whose screen footprint strictly overlaps the box. |
| AppCanvas.BoxHitsExact | App.tsx:270-281 | With keys equal to ids and the order enumerating the keys, an id is hit iff its note overlaps the box. |
| AppCanvas.MouseUp | App.tsx:256-287 | Panning, edge panning, the link drag and the box all end. A box past the dead zone makes the selection duplicate-free and equal, as a set, to the old selection plus the hits. Otherwise the selection is unchanged. |
| AppCanvas.MouseUpKeepsEarlierSelection | App.tsx:283 | A box selection keeps a duplicate-free earlier selection, in order, in front of the new hits. |
| AppCanvas.ClickSelectsNothing | App.tsx:197-287 | A background click without dragging clears the selection without shift and keeps it with shift. |
| AppCanvas.NoteSelect | App.tsx:289-302 | Shift toggles the id in a duplicate-free selection. A plain click selects the id alone, or clears the selection when the id was its only member. |
| AppCanvas.NoteSelectToggleTwice | App.tsx:292-298 | Toggling twice restores the selected set, and restores exactly a duplicate-free selection that did not hold the id. |
| AppCanvas.NoteMouseUp | App.tsx:324-329 | A link drag from another note links the two notes, and the link drag always ends. |
| AppCanvas.NoteMouseUpKeepsLinksWellFormed | App.tsx:324-329 | Dropping a link drag on a note keeps links symmetric and non-dangling. |
| AppCanvas.DrawnFrom | App.tsx:409-416 | A note's drawn pairs are exactly its links whose target exists, is not less than it, and has a visible end. A duplicate-free link list yields no duplicate pair. |
| AppCanvas.ArbitraryLinks | App.tsx:407-416 | The drawn pairs are exactly the union, over the enumerated notes, of each note's drawn pairs. |
| AppCanvas.ArbitraryLinksExact | App.tsx:407-416 | A pair `(a, b)` is drawn iff `b` is a link of note `a`, the target exists, `a` is not greater than `b` and one end is visible. |
| AppCanvas.ArbitraryLinksOncePerPair | App.tsx:412 | A pair and its reverse are both drawn only for a self-link, so each symmetric link is drawn once. |
| AppCanvas.ArbitraryLinksNoDup | App.tsx:407-416 | With distinct keys enumerated and duplicate-free link lists, no pair is drawn twice. |
| AppCanvas.PanFrame | App.tsx:96-104 | One frame moves only the pan, against the edge-pan velocity. |
| AppCanvas.PanFramesLinear | App.tsx:89-112 | After `n` frames the pan has moved by exactly `n` times the velocity, and nothing else has changed. |
| NoteDrag.WorldDelta | components/Note.tsx:299-302 | The world delta scaled by the zoom gives back the pixel offset. |
| NoteDrag.DropTarget | components/Note.tsx:199-215 | There is no target iff no enumerated Nebula other than the dragged note strictly contains the centre. Otherwise the target is the first Nebula in enumeration order that does. |
| NoteDrag.FirstContainingUnique | components/Note.tsx:199-215 | The first containing index is unique, so the order determines the target. |
| NoteDrag.DropTargetSound | components/Note.tsx:199-215 | A target is an existing Nebula, not the dragged note, whose square strictly contains the centre. |
| NoteDrag.PullMarker | components/Note.tsx:177-186 | Inside the pull radius the marker becomes the note. Beyond it, the note's own marker is cleared and any other marker is left alone. |
| NoteDrag.HandleDrag | components/Note.tsx:170-243 | The black hole's pull sets the marker when the hole is present. A Nebula stops there. Any other note sets the drop target under its dragged centre. Its edge pan is always zero, because `clientX` and `clientY` are read off a pointer object that has only `x` and `y`. |
| NoteDrag.HandleDragIntended | components/Note.tsx:170-243 | The same handler reading the pointer's `x` and `y`. The edge pan is the ramp's velocity: bounded by 15 inside the window and zero away from its edges. |
| NoteDrag.NoteDragNeverPans | components/Note.tsx:220-241 | With the pointer inside the left margin, the handler as written stores no pan, while the intended one pans right. At (10, 500) in a 1000 x 800 window the intended pan is (12.5, 0). |
| NoteDrag.Regroup | components/Note.tsx:265-296 | A Nebula keeps the store. Any other note ends in the group of the drop target under its final centre. Only group fields change. |
| NoteDrag.HandleDragEnd | components/Note.tsx:247-306 | Edge panning stops. Inside the absorb radius the note is only marked as exiting. Otherwise the markers clear, the note is regrouped and moved, and no note appears or disappears. |
| NoteDrag.HandleDragEndMoves | components/Note.tsx:265-305 | A released Nebula keeps every group. Any other note joins the drop target and alone moves by the world delta. A zero offset moves nothing. |
| NoteDrag.AnimationComplete | components/Note.tsx:486-490 | An exiting note is removed with its cascade, and otherwise nothing changes. |
| NoteDrag.AbsorbThenDelete | components/Note.tsx:250-259 | A release over the black hole leaves the notes untouched. Deletion happens when the animation completes and keeps links well-formed. |
| ArrayStore.Apply | src/store/useStore.ts:65-66 | Each of the twelve fields present in the patch overrides the note's own, each absent one is kept, and the empty patch is the identity. |
| ArrayStore.ApplyIdempotent | src/store/useStore.ts:65-66 | Spreading the same patch twice is spreading it once. |
| ArrayStore.AddNote | src/store/useStore.ts:61-62 | The note is appended after the existing notes, and nothing else changes. |
| ArrayStore.PatchAll | src/store/useStore.ts:66 | Every note carrying the id is patched in place, and the others are kept. |
| ArrayStore.UpdateNote | src/store/useStore.ts:65-68 | The length is kept, every note with the id takes the patch, and every other note is unchanged. |
| ArrayStore.UpdateNoteIdempotent | src/store/useStore.ts:65-68 | Repeating an update changes nothing further, even when the patch renames the note. |
| ArrayStore.UpdateNoteEmptyPatch | src/store/useStore.ts:65-68 | An empty patch changes nothing. |
| ArrayStore.DeleteNote | src/store/useStore.ts:69-75 | Exactly the notes with the id are removed, along with every connection touching it. The survivors keep their order and multiplicity. There is no cascade. |
| ArrayStore.DeleteNoteUndoesAddNote | src/store/useStore.ts:61-75 | Deleting a just-added note with an unused, untouched id restores the store. |
| ArrayStore.DeleteNoteIdempotent | src/store/useStore.ts:69-75 | Deleting twice is deleting once. |
| ArrayStore.AddConnection | src/store/useStore.ts:76-79 | The connection is appended, with no duplicate or self-link check. |
| ArrayStore.RemoveConnection | src/store/useStore.ts:80-83 | Exactly the connections with the id are removed, and the others keep their order and multiplicity. |
| ArrayStore.RemoveConnectionUndoesAddConnection | src/store/useStore.ts:76-83 | Removing a just-added connection with an unused id restores the store. |
| ArrayStore.SetNotes | src/store/useStore.ts:88 | The notes are replaced wholesale, and everything else is kept. |
| ArrayStore.SetConnections | src/store/useStore.ts:89 | The connections are replaced wholesale, and everything else is kept. |
| ArrayStore.SetNotesLastWins | src/store/useStore.ts:88-89 | Reloading the current contents changes nothing, and a later replacement overrides an earlier one. |
| Spatial.GetVisibleNotes | src/utils/spatial.ts:11-25 | The result keeps the notes whose box strictly overlaps the shown world rectangle, in order and with their multiplicity, and no others. |
| Spatial.TouchingLeftEdgeExcluded | src/utils/spatial.ts:20 | A note that only touches the view's left edge is culled. |
| Spatial.InViewOnScreen | src/utils/spatial.ts:13-24 | For a positive zoom, a note is kept iff its on-screen rectangle strictly overlaps the window. |
| CanvasViewport.StyleSize | src/constants.ts:14-70 | Every note type is drawn at least 180 pixels wide. |
| CanvasViewport.PointerWorld | src/components/CanvasViewport.tsx:186-187 | The world point computed for a pointer maps back to the pointer's position within the element. |
| CanvasViewport.HitIndex | src/components/CanvasViewport.tsx:190-196 | The hit is the first note in list order whose closed square contains the point, or none when no square does. |
| CanvasViewport.DropConnection | src/components/CanvasViewport.tsx:190-206 | A connection is created iff the first hit note is not the drag's start. It runs from the start to that note. |
| CanvasViewport.PointerUp | src/components/CanvasViewport.tsx:180-209 | Without a connection drag nothing happens. Otherwise the drop's connection, if any, is appended, and the drag ends even when the element is absent. |
| CanvasViewport.CheckConnectionDrop | src/components/CanvasViewport.tsx:281-310 | Like the gesture's pointer-up, except that an absent element leaves everything, including the drag, as it was. |
| CanvasViewport.DropConnectionSound | src/components/CanvasViewport.tsx:180-209 | A created connection is never a self-connection and ends at a note whose square holds the drop point. |
| CanvasViewport.CtrlWheel | src/components/CanvasViewport.tsx:166-170 | The zoom stays in [0.1, 5], scrolling down never zooms in and scrolling up never zooms out, the step is exact when in range, and the pan is kept. |
| CanvasViewport.WheelPan | src/components/CanvasViewport.tsx:171-172 | The plain wheel scrolls the pan back by the wheel delta and keeps the zoom. |
| CanvasViewport.DragPan | src/components/CanvasViewport.tsx:150-152 | A background drag moves the pan by the drag delta. |
| CanvasViewport.DragPanUndoesWheelPan | src/components/CanvasViewport.tsx:150-172 | Scrolling and then dragging by the same delta restores the view. |
| CanvasViewport.OnDrag | src/components/CanvasViewport.tsx:148-164 | The background pans. An open connection drag's loose end moves to the world point under the pointer, computed with the view from before this event. |
| CanvasViewport.PointerDown | src/components/CanvasViewport.tsx:175-179 | Pressing the background deselects, and nothing else changes. |
| CanvasViewport.PointerDownIdempotent | src/components/CanvasViewport.tsx:175-179 | Pressing twice is pressing once, and a background press leaves nothing selected. |
| CanvasViewport.NoteDragged | src/components/CanvasViewport.tsx:244-262 | The black hole is active exactly while the note's on-screen corner is within 200 pixels of it. |
| CanvasViewport.NoteDragEnd | src/components/CanvasViewport.tsx:264-270 | Only an active black hole deletes the note, together with its connections, and then deactivates. |
| CanvasViewport.FarReleaseKeepsNote | src/components/CanvasViewport.tsx:244-270 | A note released 200 pixels or more from the black hole is not deleted. |

## Findings

| source | as written | input that shows it | evidently intended | confidence | as-written member | corrected member |
|---|---|---|---|---|---|---|
| components/Note.tsx:222 | The handler destructures `clientX` and `clientY` from `info.point`, fields that framer-motion's `info.point` (`{x, y}`, as read at lines 179 and 254) does not have. Every margin test at lines 227-237 compares `undefined` and is false, so the stored edge pan stays (0, 0). | A non-Nebula note dragged to `info.point` = (10, 500) in a 1000 x 800 window: the edge pan stays (0, 0) and the canvas does not pan. | Read `info.point.x` and `info.point.y`. The pan is then (12.5, 0), the same ramp `App.tsx` applies during a box or link drag. | not executed | NoteDrag.HandleDrag, NoteDrag.NoteDragNeverPans | NoteDrag.HandleDragIntended |

## Left out

- Rendering is not modelled: React components, SVG paths, canvas drawing, animations and framer-motion springs.
- Sounds and IndexedDB persistence are not modelled. Saving after every array-store mutation is I/O and does not affect the state.
- Id generation (`nanoid`, `Math.random`) and the golden-angle spiral (floating-point trigonometry) are not modelled. Both are parameters of the operations that use them.
- The constants module of the map-based canvas is not part of this model. Diameters, the zoom range and the black-hole radii are the `Tuning` parameter. The array-based canvas's style sizes are written out.
- NoteStore.UpdateNoteContent: requires the id to be present. For a missing id the source inserts a content-only record; this is never done, since the editor only opens for a note on the canvas.
- NoteStore.Cascade: is keyed by map key rather than the stored `note.id`, which is the same in a well-keyed store. On a `parentId` cycle the source's queue never drains, while the model stops at notes already found. No operation creates a cycle, because a parent is chosen at creation and must already exist.
- NoteStore.SetNoteGroup: the `?.` on a missing group target is modelled as "not a Nebula", and nothing further is claimed for that case.
- Floating-point rounding is not modelled; all arithmetic is exact.
- `Math.hypot` is stated through squared distances, which is the same comparison for exact reals.
- The model has preconditions that the source does not check:
  - a zoom of 0 is excluded wherever the source divides by the zoom, because the source yields `Infinity`/`NaN` there;
  - the drag handlers require the dragged id to be in the store;
  - the release handlers also require it to be keyed by its own id.
- ArrayStore.Apply: a patch cannot carry an explicit `undefined` that would erase a field. An absent field keeps the note's own value.
- CanvasViewport.StyleSize: the fallback to the Asteroid style is unreachable, because the note type is a closed enumeration.
- Basics.StrLess: compares Dafny characters, whereas JavaScript compares UTF-16 code units. The two orders agree on strings without surrogate pairs.
- Edge pan is stored unconditionally. The source skips an unchanged update, which gives the same state.
- The `requestAnimationFrame` throttle of `handleDrag` and its frame scheduling are not modelled. Each drag event is one transition.
- The note in `Note.tsx` is read from the store. The component uses its (possibly stale) prop.
- `handleMouseMove` assumes the canvas element is mounted when it updates a link drag.
- Keyboard handling, the creation menu, double-click creation, editing overlays, search, focus mode, settings and AI calls are not modelled. They are glue outside the engine.
