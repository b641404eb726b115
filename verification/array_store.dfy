/** The array-based store of the canvas (src/store/useStore.ts): notes and
    directed connections kept as sequences in insertion order. Its
    operations append, patch by id and filter; unlike the map-based store,
    deleting a note does not cascade to children, it only drops the note and
    the connections that touch it. */
module ArrayStore {
  import opened Basics

  /** The eight note types of the constants module. */
  datatype NoteType = Nebula | Galaxy | Sun | Jupiter | Saturn | Earth | Mars | Asteroid

  datatype Note = Note(
    id: string,
    x: real,
    y: real,
    w: real,
    h: real,
    kind: NoteType,
    title: Option<string>,
    parentId: Option<string>,
    contentId: Option<string>,
    content: Option<string>,
    tags: Option<seq<string>>,
    color: Option<string>)

  /** A directed connection from one note id to another. */
  datatype Connection = Connection(id: string, from: string, to: string)

  datatype Viewport = Viewport(x: real, y: real, zoom: real)

  datatype State = State(
    notes: seq<Note>,
    connections: seq<Connection>,
    viewport: Viewport,
    selectedId: Option<string>)

  /** A `Partial<Note>`: each present field overrides the note's own. */
  datatype Patch = Patch(
    id: Option<string>,
    x: Option<real>,
    y: Option<real>,
    w: Option<real>,
    h: Option<real>,
    kind: Option<NoteType>,
    title: Option<string>,
    parentId: Option<string>,
    contentId: Option<string>,
    content: Option<string>,
    tags: Option<seq<string>>,
    color: Option<string>)

  const EmptyPatch := Patch(None, None, None, None, None, None, None, None, None, None, None, None)

  function Pick<T>(o: Option<T>, dflt: T): T {
    if o.Some? then o.value else dflt
  }

  function PickOpt<T>(o: Option<T>, dflt: Option<T>): Option<T> {
    if o.Some? then o else dflt
  }

  /** `{ ...n, ...patch }`. */
  function Apply(n: Note, p: Patch): (r: Note)
    ensures p == EmptyPatch ==> r == n
    ensures p.id.Some? ==> r.id == p.id.value
    ensures p.id.None? ==> r.id == n.id
    ensures p.x.Some? ==> r.x == p.x.value
    ensures p.x.None? ==> r.x == n.x
    ensures p.y.Some? ==> r.y == p.y.value
    ensures p.y.None? ==> r.y == n.y
    ensures p.w.Some? ==> r.w == p.w.value
    ensures p.w.None? ==> r.w == n.w
    ensures p.h.Some? ==> r.h == p.h.value
    ensures p.h.None? ==> r.h == n.h
    ensures p.kind.Some? ==> r.kind == p.kind.value
    ensures p.kind.None? ==> r.kind == n.kind
    ensures p.title.Some? ==> r.title == p.title
    ensures p.title.None? ==> r.title == n.title
    ensures p.parentId.Some? ==> r.parentId == p.parentId
    ensures p.parentId.None? ==> r.parentId == n.parentId
    ensures p.contentId.Some? ==> r.contentId == p.contentId
    ensures p.contentId.None? ==> r.contentId == n.contentId
    ensures p.content.Some? ==> r.content == p.content
    ensures p.content.None? ==> r.content == n.content
    ensures p.tags.Some? ==> r.tags == p.tags
    ensures p.tags.None? ==> r.tags == n.tags
    ensures p.color.Some? ==> r.color == p.color
    ensures p.color.None? ==> r.color == n.color
  {
    Note(
      Pick(p.id, n.id), Pick(p.x, n.x), Pick(p.y, n.y), Pick(p.w, n.w), Pick(p.h, n.h),
      Pick(p.kind, n.kind),
      PickOpt(p.title, n.title), PickOpt(p.parentId, n.parentId),
      PickOpt(p.contentId, n.contentId), PickOpt(p.content, n.content),
      PickOpt(p.tags, n.tags), PickOpt(p.color, n.color))
  }

  /** Spreading the same patch twice is spreading it once. */
  lemma ApplyIdempotent(n: Note, p: Patch)
    ensures Apply(Apply(n, p), p) == Apply(n, p)
  {
  }

  // ----- notes -----------------------------------------------------------------

  /** `addNote(n)`: `n` becomes the last note; nothing is checked. */
  function AddNote(s: State, n: Note): (r: State)
    ensures |r.notes| == |s.notes| + 1
    ensures r.notes[..|s.notes|] == s.notes && r.notes[|s.notes|] == n
    ensures r == s.(notes := r.notes)
  {
    s.(notes := s.notes + [n])
  }

  /** The patched form of the `i`-th note when the target id is `id`. */
  function Patched(n: Note, id: string, p: Patch): Note {
    if n.id == id then Apply(n, p) else n
  }

  function PatchAll(ns: seq<Note>, id: string, p: Patch): (r: seq<Note>)
    ensures |r| == |ns|
    ensures forall i :: 0 <= i < |ns| ==> r[i] == Patched(ns[i], id, p)
  {
    seq(|ns|, i requires 0 <= i < |ns| => Patched(ns[i], id, p))
  }

  /** `updateNote(id, patch)`: every note carrying `id` takes the patch, in
      place; every other note, and the length, stay as they were. */
  function UpdateNote(s: State, id: string, p: Patch): (r: State)
    ensures |r.notes| == |s.notes|
    ensures forall i :: 0 <= i < |s.notes| && s.notes[i].id == id ==> r.notes[i] == Apply(s.notes[i], p)
    ensures forall i :: 0 <= i < |s.notes| && s.notes[i].id != id ==> r.notes[i] == s.notes[i]
    ensures r == s.(notes := r.notes)
  {
    s.(notes := PatchAll(s.notes, id, p))
  }

  /** Repeating an update changes nothing further, even when the patch
      renames the note (the renamed note no longer matches). */
  lemma UpdateNoteIdempotent(s: State, id: string, p: Patch)
    ensures UpdateNote(UpdateNote(s, id, p), id, p) == UpdateNote(s, id, p)
  {
    var r1 := UpdateNote(s, id, p);
    var r2 := UpdateNote(r1, id, p);
    forall i | 0 <= i < |s.notes| ensures r2.notes[i] == r1.notes[i] {
      if s.notes[i].id == id {
        ApplyIdempotent(s.notes[i], p);
      }
    }
  }

  /** An empty patch is the identity. */
  lemma UpdateNoteEmptyPatch(s: State, id: string)
    ensures UpdateNote(s, id, EmptyPatch) == s
  {
    assert UpdateNote(s, id, EmptyPatch).notes == s.notes;
  }

  predicate Touches(c: Connection, id: string) {
    c.from == id || c.to == id
  }

  /** `deleteNote(id)`: the notes with `id` go, and so does every connection
      with `id` at either end; the rest keep their order. No cascade. */
  function DeleteNote(s: State, id: string): (r: State)
    ensures forall n :: n in r.notes <==> n in s.notes && n.id != id
    ensures forall n: Note :: n.id != id ==> multiset(r.notes)[n] == multiset(s.notes)[n]
    ensures IsSubseq(r.notes, s.notes)
    ensures forall c :: c in r.connections <==> c in s.connections && !Touches(c, id)
    ensures forall c: Connection :: !Touches(c, id) ==> multiset(r.connections)[c] == multiset(s.connections)[c]
    ensures IsSubseq(r.connections, s.connections)
    ensures r == s.(notes := r.notes, connections := r.connections)
  {
    s.(notes := Filter(s.notes, (n: Note) => n.id != id),
       connections := Filter(s.connections, (c: Connection) => !Touches(c, id)))
  }

  /** Deleting a just-added note whose id was unused, and which no connection
      touches, restores the store. */
  lemma DeleteNoteUndoesAddNote(s: State, n: Note)
    requires forall m :: m in s.notes ==> m.id != n.id
    requires forall c :: c in s.connections ==> !Touches(c, n.id)
    ensures DeleteNote(AddNote(s, n), n.id) == s
  {
    var keep := (m: Note) => m.id != n.id;
    FilterDropsLast(s.notes, n, keep);
    FilterKeepsAll(s.notes, keep);
    FilterKeepsAll(s.connections, (c: Connection) => !Touches(c, n.id));
  }

  /** Deleting twice is deleting once. */
  lemma DeleteNoteIdempotent(s: State, id: string)
    ensures DeleteNote(DeleteNote(s, id), id) == DeleteNote(s, id)
  {
    var r := DeleteNote(s, id);
    FilterKeepsAll(r.notes, (n: Note) => n.id != id);
    FilterKeepsAll(r.connections, (c: Connection) => !Touches(c, id));
  }

  // ----- connections -----------------------------------------------------------

  /** `addConnection(c)`: appended with no duplicate or self-link check. */
  function AddConnection(s: State, c: Connection): (r: State)
    ensures |r.connections| == |s.connections| + 1
    ensures r.connections[..|s.connections|] == s.connections && r.connections[|s.connections|] == c
    ensures r == s.(connections := r.connections)
  {
    s.(connections := s.connections + [c])
  }

  /** `removeConnection(id)`: exactly the connections with that id go. */
  function RemoveConnection(s: State, id: string): (r: State)
    ensures forall c :: c in r.connections <==> c in s.connections && c.id != id
    ensures forall c: Connection :: c.id != id ==> multiset(r.connections)[c] == multiset(s.connections)[c]
    ensures IsSubseq(r.connections, s.connections)
    ensures r == s.(connections := r.connections)
  {
    s.(connections := Filter(s.connections, (c: Connection) => c.id != id))
  }

  lemma RemoveConnectionUndoesAddConnection(s: State, c: Connection)
    requires forall d :: d in s.connections ==> d.id != c.id
    ensures RemoveConnection(AddConnection(s, c), c.id) == s
  {
    var keep := (d: Connection) => d.id != c.id;
    FilterDropsLast(s.connections, c, keep);
    FilterKeepsAll(s.connections, keep);
  }

  // ----- wholesale replacement ------------------------------------------------

  /** `setNotes(notes)`, used when loading from storage. */
  function SetNotes(s: State, notes: seq<Note>): (r: State)
    ensures r.notes == notes && r.connections == s.connections
    ensures r.viewport == s.viewport && r.selectedId == s.selectedId
  {
    s.(notes := notes)
  }

  function SetConnections(s: State, connections: seq<Connection>): (r: State)
    ensures r.connections == connections && r.notes == s.notes
    ensures r.viewport == s.viewport && r.selectedId == s.selectedId
  {
    s.(connections := connections)
  }

  /** Reloading what the store already holds changes nothing, and a later
      replacement overrides an earlier one. */
  lemma SetNotesLastWins(s: State, a: seq<Note>, b: seq<Note>)
    ensures SetNotes(s, s.notes) == s
    ensures SetNotes(SetNotes(s, a), b) == SetNotes(s, b)
    ensures SetConnections(s, s.connections) == s
  {
  }
}
