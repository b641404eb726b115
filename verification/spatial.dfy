/** Viewport culling of the array-based canvas (src/utils/spatial.ts): a
    note is kept when its box strictly overlaps the world rectangle the
    window shows, with no padding. */
module Spatial {
  import opened Basics
  import opened Geometry
  import opened ArrayStore

  function NoteBox(n: Note): Box {
    Box(n.x, n.y, n.x + n.w, n.y + n.h)
  }

  /** The world rectangle shown by a `width` x `height` window:
      `[-x/zoom, -x/zoom + width/zoom] x [-y/zoom, -y/zoom + height/zoom]`. */
  function ViewRect(v: Viewport, width: real, height: real): Box
    requires v.zoom != 0.0
  {
    var left := -v.x / v.zoom;
    var top := -v.y / v.zoom;
    Box(left, top, left + width / v.zoom, top + height / v.zoom)
  }

  predicate InView(n: Note, v: Viewport, width: real, height: real)
    requires v.zoom != 0.0
  {
    StrictOverlap(NoteBox(n), ViewRect(v, width, height))
  }

  /** `SpatialIndex.getVisibleNotes`: the notes in view, in their original
      order, each as often as it occurs. */
  function GetVisibleNotes(notes: seq<Note>, v: Viewport, width: real, height: real): (r: seq<Note>)
    requires v.zoom != 0.0
    ensures IsSubseq(r, notes)
    ensures forall n :: n in r <==> n in notes && InView(n, v, width, height)
    ensures forall n: Note :: InView(n, v, width, height) ==> multiset(r)[n] == multiset(notes)[n]
  {
    Filter(notes, (n: Note) => InView(n, v, width, height))
  }

  /** A note that only touches the view's left edge is culled. */
  lemma TouchingLeftEdgeExcluded(notes: seq<Note>, v: Viewport, width: real, height: real, n: Note)
    requires v.zoom != 0.0
    requires n.x + n.w == ViewRect(v, width, height).left
    ensures n !in GetVisibleNotes(notes, v, width, height)
  {
  }

  /** The same test in screen pixels: for a positive zoom a note is kept iff
      its on-screen rectangle strictly overlaps the window `[0, width] x
      [0, height]`, so nothing outside the literal window is kept. */
  lemma InViewOnScreen(n: Note, v: Viewport, width: real, height: real)
    requires v.zoom > 0.0
    ensures InView(n, v, width, height) <==>
      StrictOverlap(ScreenBox(n, v), Box(0.0, 0.0, width, height))
  {
    var z := v.zoom;
    var view := ViewRect(v, width, height);
    var scr := ScreenBox(n, v);
    ScaleLess(n.x, view.left + width / z, z, v.x);
    ScaleLess(view.left, n.x + n.w, z, v.x);
    ScaleLess(n.y, view.top + height / z, z, v.y);
    ScaleLess(view.top, n.y + n.h, z, v.y);
    assert (view.left + width / z) * z + v.x == width;
    assert view.left * z + v.x == 0.0;
    assert (view.top + height / z) * z + v.y == height;
    assert view.top * z + v.y == 0.0;
  }

  function ScreenBox(n: Note, v: Viewport): Box {
    Box(n.x * v.zoom + v.x, n.y * v.zoom + v.y, (n.x + n.w) * v.zoom + v.x, (n.y + n.h) * v.zoom + v.y)
  }
}
