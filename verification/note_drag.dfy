/** The drag handlers of a note on the map-based canvas (components/Note.tsx).
    While dragging, the note marks itself as being pulled by the black hole,
    highlights the Nebula under its centre and drives edge panning. On
    release it is either swallowed by the black hole (deleted once its exit
    animation completes) or it joins the Nebula under its centre and moves
    by the drag offset scaled to world units.

    The black hole's centre is `None` when its element is absent; `info`
    carries the pointer's window position and the drag offset in pixels;
    `order` is the enumeration order of the note map. */
module NoteDrag {
  import opened Basics
  import opened Geometry
  import opened Entities
  import opened NoteStore
  import opened EdgePan

  datatype DragInfo = DragInfo(point: Point, offset: Point)

  /** The drag offset converted to world units. */
  function WorldDelta(offset: Point, zoom: real): (d: Point)
    requires zoom != 0.0
    ensures Point(d.x * zoom, d.y * zoom) == offset
  {
    Point(offset.x / zoom, offset.y / zoom)
  }

  /** Centre of note `n` once moved by the drag offset. */
  function DraggedCenter(n: Note, offset: Point, zoom: real, t: Tuning): Point
    requires zoom != 0.0
  {
    Center(n.(position := Plus(n.position, WorldDelta(offset, zoom))), t)
  }

  /** Key `k` names a Nebula other than `self` whose square strictly
      contains `center`. */
  predicate Contains(notes: map<string, Note>, self: string, k: string, center: Point, t: Tuning) {
    && k in notes
    && notes[k].kind == Nebula
    && notes[k].id != self
    && StrictlyInside(center, SquareAt(notes[k].position, t.diameter(Nebula)))
  }

  /** The id of the first Nebula in enumeration order containing `center`,
      or `None` when there is none. */
  function DropTarget(notes: map<string, Note>, order: seq<string>, self: string, center: Point, t: Tuning): (r: Option<string>)
    requires forall k :: k in order ==> k in notes
    ensures r.None? <==> forall i :: 0 <= i < |order| ==> !Contains(notes, self, order[i], center, t)
    ensures r.Some? ==> exists i :: FirstContaining(notes, order, self, center, t, i) && r.value == notes[order[i]].id
  {
    match FirstIndex(order, (k: string) => Contains(notes, self, k, center, t))
    case None => None
    case Some(i) =>
      assert FirstContaining(notes, order, self, center, t, i);
      Some(notes[order[i]].id)
  }

  /** `order[i]` contains the centre and no earlier key does. */
  predicate FirstContaining(notes: map<string, Note>, order: seq<string>, self: string, center: Point, t: Tuning, i: int) {
    && 0 <= i < |order|
    && Contains(notes, self, order[i], center, t)
    && forall j :: 0 <= j < i ==> !Contains(notes, self, order[j], center, t)
  }

  /** At most one index is the first containing one, so the target is
      determined by the order. */
  lemma FirstContainingUnique(notes: map<string, Note>, order: seq<string>, self: string, center: Point, t: Tuning, i: int, j: int)
    requires FirstContaining(notes, order, self, center, t, i)
    requires FirstContaining(notes, order, self, center, t, j)
    ensures i == j
  {
  }

  /** The target, when there is one, is a Nebula other than the dragged note
      whose square strictly contains the centre. */
  lemma DropTargetSound(notes: map<string, Note>, order: seq<string>, self: string, center: Point, t: Tuning)
    requires forall k :: k in order ==> k in notes
    requires WellKeyed(notes)
    ensures var r := DropTarget(notes, order, self, center, t);
      r.Some? ==> && r.value in notes && r.value != self && notes[r.value].kind == Nebula
                  && StrictlyInside(center, SquareAt(notes[r.value].position, t.diameter(Nebula)))
  {
    var r := DropTarget(notes, order, self, center, t);
    if r.Some? {
      var i :| FirstContaining(notes, order, self, center, t, i) && r.value == notes[order[i]].id;
      assert notes[order[i]].id == order[i];
    }
  }

  /** The absorbing marker after the pointer moved to `point`: set to `id`
      within the pull radius, cleared beyond it if it was `id`, otherwise
      left alone. */
  function PullMarker(current: Option<string>, id: string, point: Point, hole: Point, t: Tuning): (r: Option<string>)
    ensures WithinRadius(point, hole, t.pullDistance) ==> r == Some(id)
    ensures !WithinRadius(point, hole, t.pullDistance) && current == Some(id) ==> r == None
    ensures !WithinRadius(point, hole, t.pullDistance) && current != Some(id) ==> r == current
  {
    if WithinRadius(point, hole, t.pullDistance) && current != Some(id) then Some(id)
    else if !WithinRadius(point, hole, t.pullDistance) && current == Some(id) then None
    else current
  }

  /** A coordinate read by name off framer-motion's `info.point`, an object
      with the fields `x` and `y` only; any other name reads `undefined`. */
  function PointField(p: Point, name: string): Option<real> {
    if name == "x" then Some(p.x) else if name == "y" then Some(p.y) else None
  }

  /** The body of `handleDrag` for note `id` in a `width` x `height` window,
      with the edge-pan ramp fed by the coordinates read under `xName` and
      `yName`. */
  function DragStep(s: State, id: string, info: DragInfo, hole: Option<Point>, order: seq<string>,
                    width: real, height: real, t: Tuning, xName: string, yName: string): (r: State)
    requires id in s.notes && s.canvas.zoom != 0.0
    requires forall k :: k in order ==> k in s.notes
    ensures r == s.(absorbingId := r.absorbingId, dropTargetId := r.dropTargetId, edgePan := r.edgePan)
  {
    var n := s.notes[id];
    var s1 := if hole.Some? then s.(absorbingId := PullMarker(s.absorbingId, id, info.point, hole.value, t)) else s;
    if n.kind == Nebula then s1
    else
      var center := DraggedCenter(n, info.offset, s.canvas.zoom, t);
      var pan := Point(AxisVelocityOf(PointField(info.point, xName), width),
                       AxisVelocityOf(PointField(info.point, yName), height));
      s1.(dropTargetId := DropTarget(s1.notes, order, n.id, center, t), edgePan := pan)
  }

  /** `handleDrag` as written: it reads `clientX` and `clientY` off
      `info.point`, which has neither, so the stored edge pan is always zero
      and a note drag never pans the canvas. */
  function HandleDrag(s: State, id: string, info: DragInfo, hole: Option<Point>, order: seq<string>,
                      width: real, height: real, t: Tuning): (r: State)
    requires id in s.notes && s.canvas.zoom != 0.0
    requires forall k :: k in order ==> k in s.notes
    ensures r == s.(absorbingId := r.absorbingId, dropTargetId := r.dropTargetId, edgePan := r.edgePan)
    ensures hole.Some? ==> r.absorbingId == PullMarker(s.absorbingId, id, info.point, hole.value, t)
    ensures hole.None? ==> r.absorbingId == s.absorbingId
    ensures s.notes[id].kind == Nebula ==> r.dropTargetId == s.dropTargetId && r.edgePan == s.edgePan
    ensures s.notes[id].kind != Nebula ==>
      && r.dropTargetId == DropTarget(s.notes, order, s.notes[id].id, DraggedCenter(s.notes[id], info.offset, s.canvas.zoom, t), t)
      && r.edgePan == Origin
  {
    DragStep(s, id, info, hole, order, width, height, t, "clientX", "clientY")
  }

  /** `handleDrag` reading the pointer's `x` and `y`, as the same file does
      for the black-hole distance: the edge pan follows the ramp shared with
      the canvas, bounded inside the window and zero away from its edges. */
  function HandleDragIntended(s: State, id: string, info: DragInfo, hole: Option<Point>, order: seq<string>,
                              width: real, height: real, t: Tuning): (r: State)
    requires id in s.notes && s.canvas.zoom != 0.0
    requires forall k :: k in order ==> k in s.notes
    ensures r == s.(absorbingId := r.absorbingId, dropTargetId := r.dropTargetId, edgePan := r.edgePan)
    ensures hole.Some? ==> r.absorbingId == PullMarker(s.absorbingId, id, info.point, hole.value, t)
    ensures hole.None? ==> r.absorbingId == s.absorbingId
    ensures s.notes[id].kind == Nebula ==> r.dropTargetId == s.dropTargetId && r.edgePan == s.edgePan
    ensures s.notes[id].kind != Nebula ==>
      && r.dropTargetId == DropTarget(s.notes, order, s.notes[id].id, DraggedCenter(s.notes[id], info.offset, s.canvas.zoom, t), t)
      && r.edgePan == Velocity(info.point, width, height)
      && (0.0 <= info.point.x <= width && 0.0 <= info.point.y <= height ==>
            -MaxPanSpeed <= r.edgePan.x <= MaxPanSpeed && -MaxPanSpeed <= r.edgePan.y <= MaxPanSpeed)
      && (EdgeMargin <= info.point.x <= width - EdgeMargin && EdgeMargin <= info.point.y <= height - EdgeMargin ==>
            r.edgePan == Origin)
  {
    DragStep(s, id, info, hole, order, width, height, t, "x", "y")
  }

  /** The discrepancy: with the pointer inside the left margin the intended
      handler pans right, while the handler as written stores no pan at all.
      A note dragged to (10, 500) in a 1000 x 800 window should pan at 12.5
      pixels per frame. */
  lemma NoteDragNeverPans(s: State, id: string, info: DragInfo, hole: Option<Point>, order: seq<string>,
                          width: real, height: real, t: Tuning)
    requires id in s.notes && s.canvas.zoom != 0.0
    requires forall k :: k in order ==> k in s.notes
    requires s.notes[id].kind != Nebula
    requires info.point.x < EdgeMargin
    ensures HandleDrag(s, id, info, hole, order, width, height, t).edgePan == Origin
    ensures HandleDragIntended(s, id, info, hole, order, width, height, t).edgePan.x > 0.0
    ensures info.point == Point(10.0, 500.0) && width == 1000.0 && height == 800.0 ==>
      HandleDragIntended(s, id, info, hole, order, width, height, t).edgePan == Point(12.5, 0.0)
  {
  }

  /** The store after a release, and whether the note is leaving into the
      black hole. */
  datatype Release = Release(store: State, exiting: bool)

  predicate Absorbed(info: DragInfo, hole: Option<Point>, t: Tuning) {
    hole.Some? && WithinRadius(info.point, hole.value, t.absorbDistance)
  }

  /** The group step of a release: a non-Nebula note takes the drop target
      under its final centre as its group, if that differs. */
  function Regroup(s: State, id: string, info: DragInfo, order: seq<string>, t: Tuning): (r: State)
    requires id in s.notes && s.notes[id].id == id && s.canvas.zoom != 0.0
    requires forall k :: k in order ==> k in s.notes
    ensures r == s.(notes := r.notes) && r.notes.Keys == s.notes.Keys
    ensures forall k :: k in s.notes ==> r.notes[k] == s.notes[k].(groupId := r.notes[k].groupId)
    ensures s.notes[id].kind == Nebula ==> r == s
    ensures s.notes[id].kind != Nebula ==>
      r.notes[id].groupId == DropTarget(s.notes, order, id, DraggedCenter(s.notes[id], info.offset, s.canvas.zoom, t), t)
  {
    var n := s.notes[id];
    if n.kind == Nebula then s
    else
      var g := DropTarget(s.notes, order, n.id, DraggedCenter(n, info.offset, s.canvas.zoom, t), t);
      if n.groupId != g then SetNoteGroup(s, n.id, g) else s
  }

  /** `handleDragEnd` for note `id`. */
  function HandleDragEnd(s: State, id: string, info: DragInfo, hole: Option<Point>, order: seq<string>, t: Tuning): (r: Release)
    requires id in s.notes && s.notes[id].id == id && s.canvas.zoom != 0.0
    requires forall k :: k in order ==> k in s.notes
    ensures Absorbed(info, hole, t) ==> r == Release(s.(edgePan := Origin), true)
    ensures !Absorbed(info, hole, t) ==>
      && !r.exiting
      && r.store == s.(notes := r.store.notes, absorbingId := None, dropTargetId := None, edgePan := Origin)
      && r.store.notes.Keys == s.notes.Keys
  {
    var s0 := s.(edgePan := Origin);
    if Absorbed(info, hole, t) then Release(s0, true)
    else
      var n := s.notes[id];
      var s1 := s0.(absorbingId := None, dropTargetId := None);
      var s2 := Regroup(s1, id, info, order, t);
      var delta := WorldDelta(info.offset, s.canvas.zoom);
      var s3 := if delta != Origin then UpdateNotePosition(s2, id, delta) else s2;
      Release(s3, false)
  }

  /** What a release does to the notes when the note is not absorbed: a
      Nebula keeps every group as it was and moves (with its group when it is
      an active container) by the world delta; any other note joins the drop
      target under its final centre and alone moves by the world delta. */
  lemma HandleDragEndMoves(s: State, id: string, info: DragInfo, hole: Option<Point>, order: seq<string>, t: Tuning)
    requires id in s.notes && s.notes[id].id == id && s.canvas.zoom != 0.0
    requires forall k :: k in order ==> k in s.notes
    requires !Absorbed(info, hole, t)
    ensures var r := HandleDragEnd(s, id, info, hole, order, t).store;
      var delta := WorldDelta(info.offset, s.canvas.zoom);
      && (s.notes[id].kind == Nebula ==> forall k :: k in s.notes ==> r.notes[k].groupId == s.notes[k].groupId)
      && (s.notes[id].kind != Nebula ==>
            && r.notes[id].groupId == DropTarget(s.notes, order, id, DraggedCenter(s.notes[id], info.offset, s.canvas.zoom, t), t)
            && r.notes[id].position == Plus(s.notes[id].position, delta)
            && forall k :: k in s.notes && k != id ==> r.notes[k].position == s.notes[k].position)
      && (delta == Origin ==> forall k :: k in s.notes ==> r.notes[k].position == s.notes[k].position)
  {
    var n := s.notes[id];
    var s1 := s.(edgePan := Origin, absorbingId := None, dropTargetId := None);
    var s2 := Regroup(s1, id, info, order, t);
    var delta := WorldDelta(info.offset, s.canvas.zoom);
    assert s2.notes[id].kind == n.kind && s2.notes[id].id == id;
    if delta != Origin {
      var s3 := UpdateNotePosition(s2, id, delta);
      if n.kind != Nebula {
        assert !IsActiveContainer(s2.notes[id]);
      } else {
        forall k | k in s.notes ensures s3.notes[k].groupId == s.notes[k].groupId {
          assert s3.notes[k].groupId == s2.notes[k].groupId;
        }
      }
    }
  }

  /** `onAnimationComplete`: a note leaving into the black hole is deleted. */
  function AnimationComplete(s: State, id: string, exiting: bool): (r: State)
    ensures !exiting ==> r == s
    ensures exiting ==> id !in r.notes && r.notes.Keys == s.notes.Keys - Cascade(s.notes, id)
  {
    if exiting then DeleteNote(s, id) else s
  }

  /** Releasing a note over the black hole leaves the store untouched apart
      from the edge pan; deletion only happens when the exit animation
      completes, and it keeps links symmetric. */
  lemma AbsorbThenDelete(s: State, id: string, info: DragInfo, hole: Option<Point>, order: seq<string>, t: Tuning)
    requires id in s.notes && s.notes[id].id == id && s.canvas.zoom != 0.0
    requires forall k :: k in order ==> k in s.notes
    requires Absorbed(info, hole, t)
    requires LinksWellFormed(s.notes)
    ensures var rel := HandleDragEnd(s, id, info, hole, order, t);
      && rel.store.notes == s.notes
      && var after := AnimationComplete(rel.store, id, rel.exiting);
         id !in after.notes && LinksWellFormed(after.notes)
  {
    var rel := HandleDragEnd(s, id, info, hole, order, t);
    DeleteNoteKeepsLinksWellFormed(rel.store, id);
  }
}
