/** The interaction rules of the map-based canvas (App.tsx): which notes are
    close enough to the window to draw their connections, cursor-anchored
    wheel zoom, background panning, the selection box, shift-toggle
    selection, dropping a link drag on a note, the de-duplication of
    symmetric links for drawing, and the edge-pan loop. The window size and
    the canvas element's offset are parameters; `order` is the enumeration
    order of the note map (`Object.values`). */
module AppCanvas {
  import opened Basics
  import opened Geometry
  import opened Entities
  import opened NoteStore
  import opened EdgePan

  // ----- visibility ------------------------------------------------------------

  /** World units added on every side of the window when deciding which
      notes' connections to draw. */
  const VisibilityPadding: real := 200.0

  function PaddedView(c: CanvasState, width: real, height: real): Box
    requires c.zoom != 0.0
  {
    Box(-c.pan.x / c.zoom - VisibilityPadding,
        -c.pan.y / c.zoom - VisibilityPadding,
        (-c.pan.x + width) / c.zoom + VisibilityPadding,
        (-c.pan.y + height) / c.zoom + VisibilityPadding)
  }

  predicate Visible(n: Note, c: CanvasState, width: real, height: real, t: Tuning)
    requires c.zoom != 0.0
  {
    StrictOverlap(Footprint(n, t), PaddedView(c, width, height))
  }

  /** `visibleNoteIds`: the ids of the notes whose footprint strictly
      overlaps the padded window. */
  function VisibleNoteIds(notes: map<string, Note>, c: CanvasState, width: real, height: real, t: Tuning): (r: set<string>)
    requires c.zoom != 0.0
    ensures forall k :: k in notes && Visible(notes[k], c, width, height, t) ==> notes[k].id in r
    ensures forall x :: x in r ==> exists k :: k in notes && notes[k].id == x && Visible(notes[k], c, width, height, t)
  {
    set k | k in notes && Visible(notes[k], c, width, height, t) :: notes[k].id
  }

  /** In a well-keyed store, an id is visible exactly when its note is. */
  lemma VisibleNoteIdsExact(notes: map<string, Note>, c: CanvasState, width: real, height: real, t: Tuning, x: string)
    requires c.zoom != 0.0 && WellKeyed(notes)
    ensures x in VisibleNoteIds(notes, c, width, height, t) <==> x in notes && Visible(notes[x], c, width, height, t)
  {
    if x in VisibleNoteIds(notes, c, width, height, t) {
      var k :| k in notes && notes[k].id == x && Visible(notes[k], c, width, height, t);
      assert k == x;
    }
  }

  /** Visibility in screen pixels: for a positive zoom a note counts as
      visible iff its on-screen footprint strictly overlaps the window
      grown by `200 * zoom` pixels on every side. */
  lemma VisibleOnScreen(n: Note, c: CanvasState, width: real, height: real, t: Tuning)
    requires c.zoom > 0.0
    ensures Visible(n, c, width, height, t) <==>
      var pad := VisibilityPadding * c.zoom;
      var f := Footprint(n, t);
      StrictOverlap(
        Box(f.left * c.zoom + c.pan.x, f.top * c.zoom + c.pan.y, f.right * c.zoom + c.pan.x, f.bottom * c.zoom + c.pan.y),
        Box(-pad, -pad, width + pad, height + pad))
  {
    var z := c.zoom;
    var v := PaddedView(c, width, height);
    var f := Footprint(n, t);
    ScaleLess(f.left, v.right, z, c.pan.x);
    ScaleLess(v.left, f.right, z, c.pan.x);
    ScaleLess(f.top, v.bottom, z, c.pan.y);
    ScaleLess(v.top, f.bottom, z, c.pan.y);
    assert v.right * z + c.pan.x == width + VisibilityPadding * z;
    assert v.left * z + c.pan.x == -(VisibilityPadding * z);
    assert v.bottom * z + c.pan.y == height + VisibilityPadding * z;
    assert v.top * z + c.pan.y == -(VisibilityPadding * z);
  }

  /** The padding only widens the test: a note overlapping the literal
      window is visible, and so is one lying up to 200 units left of it. */
  lemma PaddingWidens(n: Note, c: CanvasState, width: real, height: real, t: Tuning)
    requires c.zoom != 0.0
    ensures var w := Box(-c.pan.x / c.zoom, -c.pan.y / c.zoom, (-c.pan.x + width) / c.zoom, (-c.pan.y + height) / c.zoom);
      StrictOverlap(Footprint(n, t), w) ==> Visible(n, c, width, height, t)
    ensures var w := Box(-c.pan.x / c.zoom, -c.pan.y / c.zoom, (-c.pan.x + width) / c.zoom, (-c.pan.y + height) / c.zoom);
      var f := Footprint(n, t);
      (f.left < w.right && f.top < w.bottom && f.bottom > w.top && w.left - VisibilityPadding < f.right) ==>
        Visible(n, c, width, height, t)
  {
  }

  // ----- wheel zoom ------------------------------------------------------------

  const ScrollMultiplier: real := 0.001

  /** The zoom after a wheel step of `deltaY`, clamped to the zoom range. */
  function WheelZoom(zoom: real, deltaY: real, t: Tuning): (z: real)
    requires t.Valid()
    ensures t.zoomMin <= z <= t.zoomMax
    ensures t.zoomMin <= zoom * (1.0 - deltaY * ScrollMultiplier) <= t.zoomMax ==>
      z == zoom * (1.0 - deltaY * ScrollMultiplier)
  {
    Max(t.zoomMin, Min(t.zoomMax, zoom * (1.0 - deltaY * ScrollMultiplier)))
  }

  /** The pan that keeps screen point `m` over the same world point when the
      zoom changes from `zoom` to `newZoom`. */
  function AnchoredPan(m: Point, pan: Point, zoom: real, newZoom: real): (p: Point)
    requires zoom != 0.0
    ensures newZoom != 0.0 ==> ScreenToWorld(m, p, newZoom) == ScreenToWorld(m, pan, zoom)
  {
    var p := Point(m.x - (m.x - pan.x) * (newZoom / zoom), m.y - (m.y - pan.y) * (newZoom / zoom));
    if newZoom != 0.0 then
      AnchorAxis(m.x, pan.x, zoom, newZoom);
      AnchorAxis(m.y, pan.y, zoom, newZoom);
      p
    else p
  }

  lemma AnchorAxis(m: real, pan: real, zoom: real, newZoom: real)
    requires zoom != 0.0 && newZoom != 0.0
    ensures (m - (m - (m - pan) * (newZoom / zoom))) / newZoom == (m - pan) / zoom
  {
    calc {
      (m - (m - (m - pan) * (newZoom / zoom))) / newZoom;
      ((m - pan) * (newZoom / zoom)) / newZoom;
      { assert (m - pan) * (newZoom / zoom) == ((m - pan) / zoom) * newZoom; }
      ((m - pan) / zoom) * newZoom / newZoom;
    }
  }

  /** `handleWheel`: the clamped zoom and the cursor-anchored pan replace the
      canvas transform; `mouse` is the cursor relative to the canvas element. */
  function HandleWheel(s: State, deltaY: real, mouse: Point, t: Tuning): (r: State)
    requires t.Valid() && s.canvas.zoom != 0.0
    ensures r == s.(canvas := r.canvas)
    ensures t.zoomMin <= r.canvas.zoom <= t.zoomMax
    ensures r.canvas.zoom != 0.0 ==>
      ScreenToWorld(mouse, r.canvas.pan, r.canvas.zoom) == ScreenToWorld(mouse, s.canvas.pan, s.canvas.zoom)
  {
    var z := WheelZoom(s.canvas.zoom, deltaY, t);
    SetCanvasState(s, CanvasPatch(Some(z), Some(AnchoredPan(mouse, s.canvas.pan, s.canvas.zoom, z))))
  }

  // ----- pointer handlers ------------------------------------------------------

  datatype SelBox = SelBox(start: Point, end: Point)

  datatype LinkDrag = LinkDrag(fromId: string, fromPosition: Point, toMousePos: Point)

  /** Component state of the canvas alongside the store. */
  datatype Ui = Ui(spacePressed: bool, panning: bool, box: Option<SelBox>, linkDrag: Option<LinkDrag>)

  datatype App = App(store: State, ui: Ui)

  /** `handleMouseDown` on the canvas background (`onBackground`): with the
      space bar held it starts panning, otherwise it opens a selection box at
      the pointer and, without shift, clears the selection. */
  function MouseDown(a: App, onBackground: bool, client: Point, shift: bool): (r: App)
    ensures !onBackground ==> r == a
    ensures onBackground && a.ui.spacePressed ==> r == a.(ui := a.ui.(panning := true))
    ensures onBackground && !a.ui.spacePressed ==>
      && r.ui == a.ui.(box := Some(SelBox(client, client)))
      && r.store == (if shift then a.store else a.store.(selected := []))
  {
    if !onBackground then a
    else if a.ui.spacePressed then a.(ui := a.ui.(panning := true))
    else
      var ui := a.ui.(box := Some(SelBox(client, client)));
      if shift then a.(ui := ui)
      else a.(ui := ui, store := SetSelectedNoteIds(a.store, _ => []))
  }

  /** `handleMouseMove` at window point `client` with pointer movement
      `movement`, the canvas element at `rectOrigin` and a `width` x
      `height` window. Edge panning is only possible while a selection box or
      a link drag is open (as they were before this event). */
  function MouseMove(a: App, client: Point, movement: Point, rectOrigin: Point, width: real, height: real): (r: App)
    requires a.store.canvas.zoom != 0.0
    ensures r.store == a.store.(canvas := r.store.canvas, edgePan := r.store.edgePan)
    ensures r.store.canvas.zoom == a.store.canvas.zoom
    ensures a.ui.panning ==> r.store.canvas.pan == Plus(a.store.canvas.pan, movement) && r.ui == a.ui
    ensures !a.ui.panning ==> r.store.canvas == a.store.canvas
    ensures !a.ui.panning && a.ui.box.Some? ==> r.ui == a.ui.(box := Some(a.ui.box.value.(end := client)))
    ensures !a.ui.panning && a.ui.box.None? && a.ui.linkDrag.Some? ==>
      && r.ui.linkDrag.Some?
      && r.ui.linkDrag.value == a.ui.linkDrag.value.(toMousePos := r.ui.linkDrag.value.toMousePos)
      && WorldToScreen(r.ui.linkDrag.value.toMousePos, a.store.canvas.pan, a.store.canvas.zoom) == Minus(client, rectOrigin)
    ensures a.ui.box.None? && a.ui.linkDrag.None? ==> r.store.edgePan == Origin
    ensures a.ui.box.Some? || a.ui.linkDrag.Some? ==> r.store.edgePan == Velocity(client, width, height)
  {
    var s := a.store;
    var moved :=
      if a.ui.panning then App(SetCanvasState(s, CanvasPatch(None, Some(Plus(s.canvas.pan, movement)))), a.ui)
      else if a.ui.box.Some? then a.(ui := a.ui.(box := Some(a.ui.box.value.(end := client))))
      else if a.ui.linkDrag.Some? then
        var world := ScreenToWorld(Minus(client, rectOrigin), s.canvas.pan, s.canvas.zoom);
        a.(ui := a.ui.(linkDrag := Some(a.ui.linkDrag.value.(toMousePos := world))))
      else a;
    var v := if a.ui.box.Some? || a.ui.linkDrag.Some? then Velocity(client, width, height) else Origin;
    moved.(store := moved.store.(edgePan := v))
  }

  /** With a box or link drag open, the edge-pan speed stays within 15 per
      frame for a pointer inside the window and is zero away from the edges. */
  lemma MouseMoveEdgePanBounded(a: App, client: Point, movement: Point, rectOrigin: Point, width: real, height: real)
    requires a.store.canvas.zoom != 0.0
    requires 0.0 <= client.x <= width && 0.0 <= client.y <= height
    ensures var p := MouseMove(a, client, movement, rectOrigin, width, height).store.edgePan;
      -MaxPanSpeed <= p.x <= MaxPanSpeed && -MaxPanSpeed <= p.y <= MaxPanSpeed
    ensures EdgeMargin <= client.x <= width - EdgeMargin && EdgeMargin <= client.y <= height - EdgeMargin ==>
      MouseMove(a, client, movement, rectOrigin, width, height).store.edgePan == Origin
  {
  }

  /** The box counts as a drag only beyond 5 pixels on some axis. */
  const DeadZone: real := 5.0

  predicate PastDeadZone(b: SelBox) {
    Abs(b.start.x - b.end.x) > DeadZone || Abs(b.start.y - b.end.y) > DeadZone
  }

  function Normalised(b: SelBox): (r: Box)
    ensures r.left <= r.right && r.top <= r.bottom
    ensures {b.start.x, b.end.x} == {r.left, r.right} && {b.start.y, b.end.y} == {r.top, r.bottom}
  {
    Box(Min(b.start.x, b.end.x), Min(b.start.y, b.end.y), Max(b.start.x, b.end.x), Max(b.start.y, b.end.y))
  }

  /** A note's footprint in screen pixels. */
  function ScreenFootprint(n: Note, c: CanvasState, t: Tuning): Box {
    var f := Footprint(n, t);
    Box(f.left * c.zoom + c.pan.x, f.top * c.zoom + c.pan.y, f.right * c.zoom + c.pan.x, f.bottom * c.zoom + c.pan.y)
  }

  predicate BoxHit(n: Note, c: CanvasState, b: SelBox, t: Tuning) {
    StrictOverlap(ScreenFootprint(n, c, t), Normalised(b))
  }

  /** The ids of the notes, in enumeration order, whose screen footprint
      strictly overlaps the box. */
  function BoxHits(notes: map<string, Note>, order: seq<string>, c: CanvasState, b: SelBox, t: Tuning): (r: seq<string>)
    requires forall k :: k in order ==> k in notes
    ensures forall i :: 0 <= i < |order| && BoxHit(notes[order[i]], c, b, t) ==> notes[order[i]].id in r
    ensures forall x :: x in r ==> exists i :: 0 <= i < |order| && notes[order[i]].id == x && BoxHit(notes[order[i]], c, b, t)
    decreases |order|
  {
    if order == [] then []
    else
      var rest := BoxHits(notes, order[1..], c, b, t);
      assert forall i :: 1 <= i < |order| ==> order[i] == order[1..][i - 1];
      if BoxHit(notes[order[0]], c, b, t) then [notes[order[0]].id] + rest else rest
  }

  /** In a well-keyed store enumerated by its keys, the box selects exactly
      the ids of the notes it hits. */
  lemma BoxHitsExact(notes: map<string, Note>, order: seq<string>, c: CanvasState, b: SelBox, t: Tuning, x: string)
    requires WellKeyed(notes)
    requires forall k :: k in order <==> k in notes
    ensures x in BoxHits(notes, order, c, b, t) <==> x in notes && BoxHit(notes[x], c, b, t)
  {
    if x in notes && BoxHit(notes[x], c, b, t) {
      var i :| 0 <= i < |order| && order[i] == x;
    }
  }

  /** `handleMouseUp`: panning, edge panning and any link drag end; a box
      dragged past the dead zone adds the notes it hits to the selection,
      keeping the earlier selection first and no id twice. */
  function MouseUp(a: App, order: seq<string>, t: Tuning): (r: App)
    requires forall k :: k in order ==> k in a.store.notes
    ensures r.ui == a.ui.(panning := false, linkDrag := None, box := None)
    ensures r.store == a.store.(edgePan := Origin, selected := r.store.selected)
    ensures a.ui.box.Some? && PastDeadZone(a.ui.box.value) ==>
      && NoDup(r.store.selected)
      && (forall x :: x in r.store.selected <==>
            x in a.store.selected || x in BoxHits(a.store.notes, order, a.store.canvas, a.ui.box.value, t))
    ensures !(a.ui.box.Some? && PastDeadZone(a.ui.box.value)) ==> r.store.selected == a.store.selected
  {
    var s := a.store.(edgePan := Origin);
    var ui := a.ui.(panning := false, linkDrag := None, box := None);
    if a.ui.box.Some? && PastDeadZone(a.ui.box.value) then
      var hits := BoxHits(a.store.notes, order, a.store.canvas, a.ui.box.value, t);
      App(SetSelectedNoteIds(s, prev => Dedup(prev + hits)), ui)
    else App(s, ui)
  }

  /** A box selection keeps a duplicate-free earlier selection, in order, in
      front of the newly hit ids. */
  lemma MouseUpKeepsEarlierSelection(a: App, order: seq<string>, t: Tuning)
    requires forall k :: k in order ==> k in a.store.notes
    requires NoDup(a.store.selected)
    ensures var r := MouseUp(a, order, t);
      |r.store.selected| >= |a.store.selected| && r.store.selected[..|a.store.selected|] == a.store.selected
  {
    if a.ui.box.Some? && PastDeadZone(a.ui.box.value) {
      DedupKeepsPrefix(a.store.selected, BoxHits(a.store.notes, order, a.store.canvas, a.ui.box.value, t));
    }
  }

  /** A click on the background without dragging empties the selection
      (without shift) or leaves it alone (with shift). */
  lemma ClickSelectsNothing(a: App, order: seq<string>, client: Point, shift: bool, t: Tuning)
    requires !a.ui.spacePressed
    requires forall k :: k in order ==> k in a.store.notes
    ensures var r := MouseUp(MouseDown(a, true, client, shift), order, t);
      r.store.selected == (if shift then a.store.selected else [])
  {
    assert !PastDeadZone(SelBox(client, client));
  }

  // ----- note selection and links ----------------------------------------------

  /** `handleNoteSelect(id, shift)` applied to the previous selection: shift
      toggles `id`; a plain click selects `id` alone, or clears the
      selection when `id` was already the only selected note. */
  function NoteSelect(prev: seq<string>, id: string, shift: bool): (r: seq<string>)
    ensures shift ==> NoDup(r) && forall x :: x in r <==> (if x == id then id !in prev else x in prev)
    ensures !shift ==> r == (if prev == [id] then [] else [id])
  {
    if shift then
      var d := Dedup(prev);
      var p := (x: string) => x != id;
      if id in d then FilterNoDup(d, p); Filter(d, p) else d + [id]
    else if id in prev && |prev| == 1 then []
    else [id]
  }

  /** Shift-clicking the same note twice restores a duplicate-free selection
      that did not hold it, and in any case restores the selected set. */
  lemma NoteSelectToggleTwice(prev: seq<string>, id: string)
    ensures forall x :: x in NoteSelect(NoteSelect(prev, id, true), id, true) <==> x in prev
    ensures NoDup(prev) && id !in prev ==> NoteSelect(NoteSelect(prev, id, true), id, true) == prev
  {
    if NoDup(prev) && id !in prev {
      DedupOfNoDup(prev);
      var once := prev + [id];
      assert NoteSelect(prev, id, true) == once;
      DedupOfNoDup(once);
      var p := (x: string) => x != id;
      FilterDropsLast(prev, id, p);
      FilterKeepsAll(prev, p);
    }
  }

  /** `handleNoteMouseUp(noteId)`: a link drag from another note links the
      two; the link drag always ends. */
  function NoteMouseUp(a: App, noteId: string): (r: App)
    ensures r.ui == a.ui.(linkDrag := None)
    ensures r.store.notes.Keys == a.store.notes.Keys
    ensures a.ui.linkDrag.None? || a.ui.linkDrag.value.fromId == noteId ==> r.store == a.store
    ensures a.ui.linkDrag.Some? && CanLink(a.store.notes, a.ui.linkDrag.value.fromId, noteId) ==>
      var from := a.ui.linkDrag.value.fromId;
      noteId in r.store.notes[from].linkedIds && from in r.store.notes[noteId].linkedIds
  {
    var ui := a.ui.(linkDrag := None);
    if a.ui.linkDrag.Some? && a.ui.linkDrag.value.fromId != noteId then
      App(CreateLink(a.store, a.ui.linkDrag.value.fromId, noteId), ui)
    else App(a.store, ui)
  }

  /** Dropping a link drag on a note keeps links symmetric and non-dangling. */
  lemma NoteMouseUpKeepsLinksWellFormed(a: App, noteId: string)
    requires LinksWellFormed(a.store.notes)
    ensures LinksWellFormed(NoteMouseUp(a, noteId).store.notes)
  {
    if a.ui.linkDrag.Some? && a.ui.linkDrag.value.fromId != noteId {
      CreateLinkPreservesInvariants(a.store, a.ui.linkDrag.value.fromId, noteId);
    }
  }

  /** Whether the link from `n` to `linkedId` is drawn: the target exists,
      `n`'s id is not greater than the target's, and one end is visible. */
  predicate Drawn(notes: map<string, Note>, n: Note, linkedId: string, visible: set<string>) {
    linkedId in notes && !StrLess(linkedId, n.id) && (n.id in visible || linkedId in visible)
  }

  function DrawnFrom(notes: map<string, Note>, n: Note, links: seq<string>, visible: set<string>): (r: seq<(string, string)>)
    ensures forall p :: p in r <==> p.0 == n.id && p.1 in links && Drawn(notes, n, p.1, visible)
    ensures NoDup(links) ==> NoDup(r)
    decreases |links|
  {
    if links == [] then []
    else
      var rest := DrawnFrom(notes, n, links[1..], visible);
      assert forall x :: x in links <==> x == links[0] || x in links[1..];
      if Drawn(notes, n, links[0], visible) then
        assert NoDup(links) ==> links[0] !in links[1..];
        [(n.id, links[0])] + rest
      else rest
  }

  /** The `(from, to)` pairs of the arbitrary links drawn, note by note in
      enumeration order. */
  function ArbitraryLinks(notes: map<string, Note>, order: seq<string>, visible: set<string>): (r: seq<(string, string)>)
    requires forall k :: k in order ==> k in notes
    ensures forall p :: p in r <==> exists k :: k in order && p in DrawnFrom(notes, notes[k], notes[k].linkedIds, visible)
    decreases |order|
  {
    if order == [] then []
    else
      var rest := ArbitraryLinks(notes, order[1..], visible);
      assert forall k :: k in order <==> k == order[0] || k in order[1..];
      DrawnFrom(notes, notes[order[0]], notes[order[0]].linkedIds, visible) + rest
  }

  /** In a well-keyed store enumerated by its keys, a pair is drawn exactly
      when it is a link of an existing note, its ends are in order and one
      end is visible. */
  lemma ArbitraryLinksExact(notes: map<string, Note>, order: seq<string>, visible: set<string>, a: string, b: string)
    requires WellKeyed(notes)
    requires forall k :: k in order <==> k in notes
    ensures (a, b) in ArbitraryLinks(notes, order, visible) <==>
      a in notes && b in notes[a].linkedIds && Drawn(notes, notes[a], b, visible)
  {
    if a in notes && b in notes[a].linkedIds && Drawn(notes, notes[a], b, visible) {
      assert (a, b) in DrawnFrom(notes, notes[a], notes[a].linkedIds, visible);
    }
  }

  /** Each unordered pair is drawn at most once: a pair and its reverse
      both drawn means a self-link. */
  lemma ArbitraryLinksOncePerPair(notes: map<string, Note>, order: seq<string>, visible: set<string>, a: string, b: string)
    requires WellKeyed(notes)
    requires forall k :: k in order <==> k in notes
    requires (a, b) in ArbitraryLinks(notes, order, visible) && (b, a) in ArbitraryLinks(notes, order, visible)
    ensures a == b
  {
    ArbitraryLinksExact(notes, order, visible, a, b);
    ArbitraryLinksExact(notes, order, visible, b, a);
    StrLessTotal(a, b);
  }

  /** With distinct keys in the order and duplicate-free link lists, no pair
      is drawn twice. */
  lemma {:induction false} ArbitraryLinksNoDup(notes: map<string, Note>, order: seq<string>, visible: set<string>)
    requires WellKeyed(notes)
    requires forall k :: k in order ==> k in notes
    requires NoDup(order)
    requires forall k :: k in notes ==> NoDup(notes[k].linkedIds)
    ensures NoDup(ArbitraryLinks(notes, order, visible))
    decreases |order|
  {
    if order != [] {
      var k := order[0];
      var head := DrawnFrom(notes, notes[k], notes[k].linkedIds, visible);
      assert NoDup(order[1..]) by {
        forall i, j | 0 <= i < j < |order[1..]| ensures order[1..][i] != order[1..][j] {
          assert order[1..][i] == order[i + 1] && order[1..][j] == order[j + 1];
        }
      }
      ArbitraryLinksNoDup(notes, order[1..], visible);
      var rest := ArbitraryLinks(notes, order[1..], visible);
      assert forall p :: p in rest ==> p.0 in order[1..];
      assert k !in order[1..] by {
        forall j | 0 <= j < |order[1..]| ensures order[1..][j] != k {
          assert order[1..][j] == order[j + 1];
        }
      }
      NoDupConcat(head, rest);
    }
  }

  lemma NoDupConcat<T>(a: seq<T>, b: seq<T>)
    requires NoDup(a) && NoDup(b)
    requires forall x :: x in a ==> x !in b
    ensures NoDup(a + b)
  {
    forall i, j | 0 <= i < j < |a + b| ensures (a + b)[i] != (a + b)[j] {
      if i < |a| && j >= |a| {
        assert (a + b)[i] in a && (a + b)[j] in b;
      }
    }
  }

  // ----- the edge-pan loop ---------------------------------------------------------

  /** One animation frame of the pan loop; the loop only runs while the
      edge-pan velocity is non-zero. */
  function PanFrame(s: State): (r: State)
    ensures r == s.(canvas := r.canvas)
    ensures r.canvas.zoom == s.canvas.zoom
    ensures Plus(r.canvas.pan, s.edgePan) == s.canvas.pan
  {
    if s.edgePan == Origin then s
    else SetCanvasState(s, CanvasPatch(None, Some(PanStep(s.canvas.pan, s.edgePan))))
  }

  function PanFrames(s: State, n: nat): (r: State)
    decreases n
  {
    if n == 0 then s else PanFrames(PanFrame(s), n - 1)
  }

  /** After `n` frames the pan has moved by exactly `n` times the velocity,
      against it; nothing else changes. */
  lemma {:induction false} PanFramesLinear(s: State, n: nat)
    ensures var r := PanFrames(s, n);
      && r == s.(canvas := r.canvas)
      && r.canvas.zoom == s.canvas.zoom
      && r.canvas.pan == Point(s.canvas.pan.x - n as real * s.edgePan.x, s.canvas.pan.y - n as real * s.edgePan.y)
    decreases n
  {
    if n > 0 {
      PanFramesLinear(PanFrame(s), n - 1);
    }
  }
}
