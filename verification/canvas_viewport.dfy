/** The pointer and wheel rules of the array-based canvas
    (src/components/CanvasViewport.tsx): dropping a connection drag on a
    note, wheel zoom and pan, background-drag pan, clearing the selection,
    and the black hole in the bottom-right corner that deletes a note
    released near it. The canvas element's offset (`None` when the element
    is not mounted), the window size and the random connection id are
    parameters. */
module CanvasViewport {
  import opened Basics
  import opened Geometry
  import opened ArrayStore

  /** Side of the square a note of each type is drawn in (its style's width
      and height, which are equal). */
  function StyleSize(k: NoteType): (d: real)
    ensures d >= 180.0
  {
    match k
    case Nebula => 1600.0
    case Galaxy => 1200.0
    case Sun => 800.0
    case Jupiter => 700.0
    case Saturn => 600.0
    case Earth => 400.0
    case Mars => 340.0
    case Asteroid => 180.0
  }

  function StyleBox(n: Note): Box {
    SquareAt(Point(n.x, n.y), StyleSize(n.kind))
  }

  /** The connection drag in progress: the note it starts from. */
  datatype ConnStart = ConnStart(id: string, x: real, y: real)

  /** The store together with the component's own state. */
  datatype Canvas = Canvas(store: State, start: Option<ConnStart>, tempEnd: Option<Point>, blackHoleActive: bool)

  function ViewPan(v: Viewport): Point {
    Point(v.x, v.y)
  }

  /** The world point under window point `client` for a canvas element at `rect`. */
  function PointerWorld(v: Viewport, client: Point, rect: Point): (w: Point)
    requires v.zoom != 0.0
    ensures WorldToScreen(w, ViewPan(v), v.zoom) == Minus(client, rect)
  {
    ScreenToWorld(Minus(client, rect), ViewPan(v), v.zoom)
  }

  /** Index of the first note, in list order, whose closed square contains `w`. */
  function HitIndex(notes: seq<Note>, w: Point): (r: Option<nat>)
    ensures r.Some? ==> r.value < |notes| && ClosedInside(w, StyleBox(notes[r.value]))
    ensures r.Some? ==> forall j :: 0 <= j < r.value ==> !ClosedInside(w, StyleBox(notes[j]))
    ensures r.None? <==> forall j :: 0 <= j < |notes| ==> !ClosedInside(w, StyleBox(notes[j]))
  {
    FirstIndex(notes, (n: Note) => ClosedInside(w, StyleBox(n)))
  }

  /** The connection a drop at world point `w` creates, if any: to the hit
      note, unless it is the note the drag started from. */
  function DropConnection(notes: seq<Note>, w: Point, from: string, connId: string): (r: Option<Connection>)
    ensures r.Some? <==> exists i :: FirstHit(notes, w, i) && notes[i].id != from
    ensures r.Some? ==> r.value.id == connId && r.value.from == from && r.value.to != from
    ensures r.Some? ==> exists i :: FirstHit(notes, w, i) && r.value.to == notes[i].id
  {
    match HitIndex(notes, w)
    case None => None
    case Some(i) =>
      assert FirstHit(notes, w, i);
      assert forall j :: FirstHit(notes, w, j) ==> j == i;
      if notes[i].id != from then Some(Connection(connId, from, notes[i].id)) else None
  }

  /** Note `i` is the first whose square contains `w`. */
  predicate FirstHit(notes: seq<Note>, w: Point, i: int) {
    0 <= i < |notes| && ClosedInside(w, StyleBox(notes[i]))
    && forall j :: 0 <= j < i ==> !ClosedInside(w, StyleBox(notes[j]))
  }

  /** The pointer-up gesture while a connection drag is open: a hit on
      another note appends a connection; the drag state is cleared whether
      or not anything was hit, even when the element is not mounted. */
  function PointerUp(c: Canvas, client: Point, rect: Option<Point>, connId: string): (r: Canvas)
    requires c.store.viewport.zoom != 0.0
    ensures c.start.None? ==> r == c
    ensures c.start.Some? ==> r.start.None? && r.tempEnd.None? && r.blackHoleActive == c.blackHoleActive
    ensures r.store == c.store.(connections := r.store.connections)
    ensures c.start.Some? && rect.Some? ==>
      match DropConnection(c.store.notes, PointerWorld(c.store.viewport, client, rect.value), c.start.value.id, connId)
      case Some(conn) => r.store.connections == c.store.connections + [conn]
      case None => r.store.connections == c.store.connections
    ensures rect.None? ==> r.store == c.store
  {
    if c.start.None? then c
    else
      var store :=
        if rect.None? then c.store
        else
          match DropConnection(c.store.notes, PointerWorld(c.store.viewport, client, rect.value), c.start.value.id, connId)
          case Some(conn) => AddConnection(c.store, conn)
          case None => c.store;
      c.(store := store, start := None, tempEnd := None)
  }

  /** `checkConnectionDrop`, the window-level pointer-up listener: the same
      hit test, except that it returns before clearing the drag state when
      the element is not mounted. */
  function CheckConnectionDrop(c: Canvas, client: Point, rect: Option<Point>, connId: string): (r: Canvas)
    requires c.store.viewport.zoom != 0.0
    ensures c.start.None? || rect.None? ==> r == c
    ensures c.start.Some? && rect.Some? ==> r == PointerUp(c, client, rect, connId)
  {
    if c.start.None? || rect.None? then c
    else PointerUp(c, client, rect, connId)
  }

  /** A drop never creates a self-connection, and a created connection ends
      at a note whose square holds the drop point. */
  lemma DropConnectionSound(c: Canvas, client: Point, rect: Point, connId: string)
    requires c.store.viewport.zoom != 0.0
    requires c.start.Some?
    ensures var r := PointerUp(c, client, Some(rect), connId);
      var w := PointerWorld(c.store.viewport, client, rect);
      |r.store.connections| == |c.store.connections| + 1 ==>
        var conn := r.store.connections[|c.store.connections|];
        && conn.from == c.start.value.id && conn.to != conn.from && conn.id == connId
        && exists i :: 0 <= i < |c.store.notes| && c.store.notes[i].id == conn.to && ClosedInside(w, StyleBox(c.store.notes[i]))
  {
  }

  // ----- wheel, drag and pointer-down --------------------------------------------

  const ZoomFloor: real := 0.1
  const ZoomCeiling: real := 5.0

  /** Ctrl-wheel: zoom out by 0.9 for a positive `dy`, in by 1.1 otherwise,
      clamped to `[0.1, 5]`; the pan is kept. */
  function CtrlWheel(v: Viewport, dy: real): (r: Viewport)
    ensures ZoomFloor <= r.zoom <= ZoomCeiling
    ensures r.x == v.x && r.y == v.y
    ensures dy > 0.0 && ZoomFloor <= v.zoom ==> r.zoom <= v.zoom
    ensures dy <= 0.0 && 0.0 <= v.zoom <= ZoomCeiling ==> r.zoom >= v.zoom
    ensures ZoomFloor <= v.zoom * (if dy > 0.0 then 0.9 else 1.1) <= ZoomCeiling ==>
      r.zoom == v.zoom * (if dy > 0.0 then 0.9 else 1.1)
  {
    var factor := if dy > 0.0 then 0.9 else 1.1;
    v.(zoom := Max(ZoomFloor, Min(ZoomCeiling, v.zoom * factor)))
  }

  /** Plain wheel: the view scrolls by the wheel delta. */
  function WheelPan(v: Viewport, dx: real, dy: real): (r: Viewport)
    ensures r.zoom == v.zoom
    ensures Plus(ViewPan(r), Point(dx, dy)) == ViewPan(v)
  {
    v.(x := v.x - dx, y := v.y - dy)
  }

  /** Dragging the background by `(dx, dy)` pans by the same amount. */
  function DragPan(v: Viewport, dx: real, dy: real): (r: Viewport)
    ensures r.zoom == v.zoom
    ensures ViewPan(r) == Plus(ViewPan(v), Point(dx, dy))
  {
    v.(x := v.x + dx, y := v.y + dy)
  }

  /** Scrolling and then dragging by the same delta restores the view. */
  lemma DragPanUndoesWheelPan(v: Viewport, dx: real, dy: real)
    ensures DragPan(WheelPan(v, dx, dy), dx, dy) == v
  {
  }

  /** The drag gesture: on the background canvas (`onCanvas`) it pans; with
      a connection drag open and the element mounted it moves the drag's
      loose end to the world point under the pointer (computed with the view
      as it was before this event). */
  function OnDrag(c: Canvas, dx: real, dy: real, onCanvas: bool, client: Point, rect: Option<Point>): (r: Canvas)
    requires c.store.viewport.zoom != 0.0
    ensures r.store == c.store.(viewport := r.store.viewport)
    ensures r.store.viewport == (if onCanvas then DragPan(c.store.viewport, dx, dy) else c.store.viewport)
    ensures r.start == c.start && r.blackHoleActive == c.blackHoleActive
    ensures c.start.Some? && rect.Some? ==> r.tempEnd == Some(PointerWorld(c.store.viewport, client, rect.value))
    ensures !(c.start.Some? && rect.Some?) ==> r.tempEnd == c.tempEnd
  {
    var v := if onCanvas then DragPan(c.store.viewport, dx, dy) else c.store.viewport;
    var tempEnd := if c.start.Some? && rect.Some? then Some(PointerWorld(c.store.viewport, client, rect.value)) else c.tempEnd;
    c.(store := c.store.(viewport := v), tempEnd := tempEnd)
  }

  /** Pressing on the background canvas deselects. */
  function PointerDown(c: Canvas, onCanvas: bool): (r: Canvas)
    ensures onCanvas ==> r == c.(store := c.store.(selectedId := None))
    ensures !onCanvas ==> r == c
  {
    if onCanvas then c.(store := c.store.(selectedId := None)) else c
  }

  /** Pressing twice is pressing once, and a press on the background leaves
      nothing selected. */
  lemma PointerDownIdempotent(c: Canvas, onCanvas: bool)
    ensures PointerDown(PointerDown(c, onCanvas), onCanvas) == PointerDown(c, onCanvas)
    ensures onCanvas ==> PointerDown(c, onCanvas).store.selectedId.None?
  {
  }

  // ----- the black hole --------------------------------------------------------------

  /** The black hole sits 100 pixels in from the bottom-right corner and
      reacts within 200 pixels. */
  const BlackHoleInset: real := 100.0
  const BlackHoleRadius: real := 200.0

  function BlackHoleCenter(width: real, height: real): Point {
    Point(width - BlackHoleInset, height - BlackHoleInset)
  }

  /** `handleNoteDrag`: the black hole is active exactly while the dragged
      note's top-left corner, on screen, is within 200 pixels of it. */
  function NoteDragged(c: Canvas, x: real, y: real, width: real, height: real): (r: Canvas)
    ensures r == c.(blackHoleActive := r.blackHoleActive)
    ensures r.blackHoleActive <==>
      Dist2(WorldToScreen(Point(x, y), ViewPan(c.store.viewport), c.store.viewport.zoom), BlackHoleCenter(width, height))
        < BlackHoleRadius * BlackHoleRadius
  {
    var screen := WorldToScreen(Point(x, y), ViewPan(c.store.viewport), c.store.viewport.zoom);
    c.(blackHoleActive := WithinRadius(screen, BlackHoleCenter(width, height), BlackHoleRadius))
  }

  /** `handleNoteDragEnd`: only an active black hole deletes the note, and
      it then deactivates. */
  function NoteDragEnd(c: Canvas, id: string): (r: Canvas)
    ensures !c.blackHoleActive ==> r == c
    ensures c.blackHoleActive ==>
      && !r.blackHoleActive && r.start == c.start && r.tempEnd == c.tempEnd
      && (forall n :: n in r.store.notes <==> n in c.store.notes && n.id != id)
      && (forall k :: k in r.store.connections <==> k in c.store.connections && !Touches(k, id))
  {
    if c.blackHoleActive then c.(store := DeleteNote(c.store, id), blackHoleActive := false)
    else c
  }

  /** Releasing a note dragged to a point farther than 200 pixels from the
      black hole deletes nothing. */
  lemma FarReleaseKeepsNote(c: Canvas, id: string, x: real, y: real, width: real, height: real)
    requires Dist2(WorldToScreen(Point(x, y), ViewPan(c.store.viewport), c.store.viewport.zoom), BlackHoleCenter(width, height))
               >= BlackHoleRadius * BlackHoleRadius
    ensures NoteDragEnd(NoteDragged(c, x, y, width, height), id).store == c.store
  {
  }
}
