/** The map-based entity store of the canvas (hooks/useStore.ts). Every
    operation is a pure transition from the previous state to the next one;
    operations on a missing id leave the state unchanged. The store keys
    every note by its own id: `AddNote` is the only way a note enters the
    map and no operation rewrites an id. */
module NoteStore {
  import opened Basics
  import opened Geometry
  import opened Entities

  datatype State = State(
    notes: map<string, Note>,
    canvas: CanvasState,
    focusedId: Option<string>,
    selected: seq<string>,
    absorbingId: Option<string>,
    dropTargetId: Option<string>,
    edgePan: Point)

  // ----- Store invariants --------------------------------------------------

  predicate WellKeyed(notes: map<string, Note>) {
    forall k :: k in notes ==> notes[k].id == k
  }

  /** Arbitrary links are symmetric, never point at the note itself and never dangle. */
  predicate LinksWellFormed(notes: map<string, Note>) {
    forall a, b :: a in notes && b in notes[a].linkedIds ==>
      b != a && b in notes && a in notes[b].linkedIds
  }

  /** Every set parent id names a note of the store. */
  predicate ParentsResolve(notes: map<string, Note>) {
    forall k :: k in notes && Truthy(notes[k].parentId) ==> notes[k].parentId.value in notes
  }

  /** A Nebula's own `groupId` is either unset or the Nebula itself (the
      "active container" sentinel). */
  predicate NebulaSentinel(notes: map<string, Note>) {
    forall k :: k in notes && notes[k].kind == Nebula ==>
      notes[k].groupId == None || notes[k].groupId == Some(k)
  }

  // ----- addNote -------------------------------------------------------------

  /** The partial note handed to `addNote`; absent fields take defaults. */
  datatype Draft = Draft(
    kind: Option<Kind>,
    content: Option<string>,
    position: Option<Point>,
    parentId: Option<string>,
    tags: Option<seq<string>>,
    linkedIds: Option<seq<string>>)

  /** The content a note starts with when none is given: never empty. */
  function DefaultContent(k: Kind): (c: string)
    ensures c != ""
  {
    if k == Nebula then "<h1>Nebula Title</h1>" else "New " + KindName(k)
  }

  /** The note `addNote` builds from `draft`, before it enters the store. */
  function NewNote(draft: Draft, orbital: bool, id: string, spiral: Point): (n: Note)
    ensures n.id == id
    ensures n.kind == (if draft.kind.Some? then draft.kind.value else Earth)
    ensures n.content != ""
    ensures Truthy(draft.content) ==> n.content == draft.content.value
    ensures !Truthy(draft.content) ==> n.content == DefaultContent(n.kind)
    ensures n.parentId == (if Truthy(draft.parentId) then draft.parentId else None)
    ensures draft.tags.Some? ==> n.tags == draft.tags.value
    ensures draft.tags.None? ==> n.tags == []
    ensures draft.linkedIds.Some? ==> n.linkedIds == draft.linkedIds.value
    ensures draft.linkedIds.None? ==> n.linkedIds == []
    ensures n.groupId == (if n.kind == Nebula then Some(id) else None)
    ensures orbital && !Truthy(draft.parentId) ==> n.position == spiral
    ensures !(orbital && !Truthy(draft.parentId)) && draft.position.Some? ==> n.position == draft.position.value
    ensures !(orbital && !Truthy(draft.parentId)) && draft.position.None? ==> n.position == Origin
  {
    var kind := if draft.kind.Some? then draft.kind.value else Earth;
    var position :=
      if orbital && !Truthy(draft.parentId) then spiral
      else if draft.position.Some? then draft.position.value
      else Origin;
    Note(
      id,
      if Truthy(draft.content) then draft.content.value else DefaultContent(kind),
      position,
      kind,
      if Truthy(draft.parentId) then draft.parentId else None,
      if draft.tags.Some? then draft.tags.value else [],
      if draft.linkedIds.Some? then draft.linkedIds.value else [],
      if kind == Nebula then Some(id) else None)
  }

  /** `addNote(draft, orbital)` with the generated id `id` (fresh) and the
      golden-angle spiral position `spiral` computed by the caller: the new
      note enters the map and nothing else changes. */
  function AddNote(s: State, draft: Draft, orbital: bool, id: string, spiral: Point): (r: State)
    requires id !in s.notes
    ensures r.notes.Keys == s.notes.Keys + {id}
    ensures forall k :: k in s.notes ==> r.notes[k] == s.notes[k]
    ensures r == s.(notes := r.notes)
    ensures r.notes[id] == NewNote(draft, orbital, id, spiral)
  {
    s.(notes := s.notes[id := NewNote(draft, orbital, id, spiral)])
  }

  /** A note added without links and with a resolvable parent keeps every store invariant. */
  lemma AddNotePreservesInvariants(s: State, draft: Draft, orbital: bool, id: string, spiral: Point)
    requires id !in s.notes
    requires WellKeyed(s.notes) && LinksWellFormed(s.notes) && NebulaSentinel(s.notes) && ParentsResolve(s.notes)
    requires draft.linkedIds.None?
    requires Truthy(draft.parentId) ==> draft.parentId.value in s.notes
    ensures var r := AddNote(s, draft, orbital, id, spiral);
      WellKeyed(r.notes) && LinksWellFormed(r.notes) && NebulaSentinel(r.notes) && ParentsResolve(r.notes)
  {
    var r := AddNote(s, draft, orbital, id, spiral);
    forall a, b | a in r.notes && b in r.notes[a].linkedIds
      ensures b != a && b in r.notes && a in r.notes[b].linkedIds
    {
      assert a != id;
    }
  }

  // ----- updateNotePosition / updateNoteContent ------------------------------

  /** A Nebula whose group is itself: dragging it drags its whole group. */
  predicate IsActiveContainer(n: Note) {
    n.kind == Nebula && n.groupId == Some(n.id) && n.id != ""
  }

  function Shifted(n: Note, delta: Point): Note {
    n.(position := Plus(n.position, delta))
  }

  function UpdateNotePosition(s: State, id: string, delta: Point): (r: State)
    ensures r == s.(notes := r.notes)
    ensures r.notes.Keys == s.notes.Keys
    ensures id !in s.notes ==> r == s
    ensures id in s.notes && !IsActiveContainer(s.notes[id]) ==>
      forall k :: k in s.notes ==>
        r.notes[k] == if k == id then Shifted(s.notes[k], delta) else s.notes[k]
    ensures id in s.notes && IsActiveContainer(s.notes[id]) ==>
      forall k :: k in s.notes ==>
        r.notes[k] == if s.notes[k].groupId == Some(s.notes[id].id) then Shifted(s.notes[k], delta) else s.notes[k]
  {
    if id !in s.notes then s
    else
      var target := s.notes[id];
      var isGroupContainer := target.kind == Nebula && target.groupId == Some(target.id);
      if !Truthy(target.groupId) || !isGroupContainer then
        s.(notes := s.notes[id := Shifted(target, delta)])
      else
        s.(notes := map k | k in s.notes ::
          if s.notes[k].groupId == target.groupId then Shifted(s.notes[k], delta) else s.notes[k])
  }

  /** Dragging back by the opposite delta restores the store exactly: the
      group a container drags is the same before and after the move. */
  lemma {:induction false} UpdateNotePositionUndo(s: State, id: string, delta: Point)
    ensures UpdateNotePosition(UpdateNotePosition(s, id, delta), id, Minus(Origin, delta)) == s
  {
    var r1 := UpdateNotePosition(s, id, delta);
    var r2 := UpdateNotePosition(r1, id, Minus(Origin, delta));
    if id in s.notes {
      assert r1.notes[id].id == s.notes[id].id;
      assert r1.notes[id].kind == s.notes[id].kind;
      assert r1.notes[id].groupId == s.notes[id].groupId;
      forall k | k in s.notes ensures r2.notes[k] == s.notes[k] {
        assert r1.notes[k].groupId == s.notes[k].groupId;
      }
      assert r2.notes == s.notes;
    }
  }

  /** Group rigidity: moving an active container keeps every member's offset
      from the container. */
  lemma GroupMovesRigidly(s: State, id: string, delta: Point, m: string)
    requires id in s.notes && IsActiveContainer(s.notes[id])
    requires m in s.notes && s.notes[m].groupId == Some(s.notes[id].id)
    ensures var r := UpdateNotePosition(s, id, delta);
      Minus(r.notes[m].position, r.notes[id].position) == Minus(s.notes[m].position, s.notes[id].position)
  {
  }

  /** `updateNoteContent`; only called for notes on the canvas (see README). */
  function UpdateNoteContent(s: State, id: string, content: string): (r: State)
    requires id in s.notes
    ensures r == s.(notes := r.notes) && r.notes.Keys == s.notes.Keys
    ensures r.notes[id] == s.notes[id].(content := content)
    ensures forall k :: k in s.notes && k != id ==> r.notes[k] == s.notes[k]
  {
    s.(notes := s.notes[id := s.notes[id].(content := content)])
  }

  /** Editing content touches no id, link, parent or group, so every store
      invariant is kept. */
  lemma UpdateNoteContentPreservesInvariants(s: State, id: string, content: string)
    requires id in s.notes
    requires WellKeyed(s.notes) && LinksWellFormed(s.notes) && NebulaSentinel(s.notes) && ParentsResolve(s.notes)
    ensures var r := UpdateNoteContent(s, id, content);
      WellKeyed(r.notes) && LinksWellFormed(r.notes) && NebulaSentinel(r.notes) && ParentsResolve(r.notes)
  {
  }

  // ----- deleteNote ------------------------------------------------------------

  function Children(notes: map<string, Note>, p: string): set<string> {
    set k | k in notes && notes[k].parentId == Some(p)
  }

  function ChildrenOfAny(notes: map<string, Note>, ps: set<string>): set<string> {
    set k | k in notes && notes[k].parentId.Some? && notes[k].parentId.value in ps
  }

  /** Every child of a member is a member. */
  predicate ClosedUnderChildren(notes: map<string, Note>, ids: set<string>) {
    forall d :: d in ids ==> Children(notes, d) <= ids
  }

  lemma ChildrenOfAnyWithin(notes: map<string, Note>, ps: set<string>, S: set<string>)
    requires ps <= S && ClosedUnderChildren(notes, S)
    ensures ChildrenOfAny(notes, ps) <= S
  {
    forall k | k in ChildrenOfAny(notes, ps) ensures k in S {
      assert k in Children(notes, notes[k].parentId.value);
    }
  }

  /** The breadth-first walk of the delete cascade, one generation of
      children per step; `doomed` holds everything found so far and
      `frontier` the ids whose children are not yet collected. */
  function Sweep(notes: map<string, Note>, frontier: set<string>, doomed: set<string>): (r: set<string>)
    requires frontier <= doomed
    requires forall d :: d in doomed && d !in frontier ==> Children(notes, d) <= doomed
    ensures doomed <= r <= doomed + notes.Keys
    ensures ClosedUnderChildren(notes, r)
    ensures forall S :: doomed <= S && ClosedUnderChildren(notes, S) ==> r <= S
    decreases notes.Keys - doomed, frontier
  {
    if frontier == {} then doomed
    else
      var kids := ChildrenOfAny(notes, frontier);
      assert forall f :: f in frontier ==> Children(notes, f) <= kids;
      assert forall S :: doomed <= S && ClosedUnderChildren(notes, S) ==> kids <= S by {
        forall S | doomed <= S && ClosedUnderChildren(notes, S) ensures kids <= S {
          ChildrenOfAnyWithin(notes, frontier, S);
        }
      }
      assert kids - doomed != {} ==> notes.Keys - (doomed + kids) < notes.Keys - doomed by {
        if kids - doomed != {} {
          var w :| w in kids - doomed;
          assert w in notes.Keys - doomed && w !in notes.Keys - (doomed + kids);
        }
      }
      Sweep(notes, kids - doomed, doomed + kids)
  }

  /** The ids `deleteNote(root)` removes: the least set holding `root` that
      contains every child of its members. */
  function Cascade(notes: map<string, Note>, root: string): (r: set<string>)
    ensures root in r && r <= notes.Keys + {root}
    ensures ClosedUnderChildren(notes, r)
    ensures forall S :: root in S && ClosedUnderChildren(notes, S) ==> r <= S
  {
    Sweep(notes, {root}, {root})
  }

  /** A surviving note after the cascade: links to deleted notes are dropped
      (the rest keep their order) and a parent that was deleted is cleared;
      nothing else changes. */
  ghost predicate ScrubbedOf(before: Note, after: Note, gone: set<string>) {
    && after == before.(linkedIds := after.linkedIds, parentId := after.parentId)
    && (forall x :: x in after.linkedIds <==> x in before.linkedIds && x !in gone)
    && IsSubseq(after.linkedIds, before.linkedIds)
    && (Truthy(before.parentId) && before.parentId.value in gone ==> after.parentId == None)
    && (!(Truthy(before.parentId) && before.parentId.value in gone) ==> after.parentId == before.parentId)
  }

  function Scrub(n: Note, gone: set<string>): (r: Note)
    ensures ScrubbedOf(n, r, gone)
  {
    n.(linkedIds := Filter(n.linkedIds, (x: string) => x !in gone),
       parentId := if Truthy(n.parentId) && n.parentId.value in gone then None else n.parentId)
  }

  /** The notes outside `gone`, each scrubbed of references to `gone`. */
  function Survivors(notes: map<string, Note>, gone: set<string>): (r: map<string, Note>)
    ensures r.Keys == notes.Keys - gone
    ensures forall k {:trigger r[k]} :: k in r ==> ScrubbedOf(notes[k], r[k], gone)
  {
    var r := map k | k in notes && k !in gone :: Scrub(notes[k], gone);
    assert forall k {:trigger r[k]} :: k in r ==> r[k] == Scrub(notes[k], gone);
    r
  }

  /** `deleteNote(id)`: the cascade is removed, survivors are scrubbed of
      references to it, and the selection, focus and absorbing marker follow. */
  function DeleteNote(s: State, id: string): (r: State)
    ensures r.notes.Keys == s.notes.Keys - Cascade(s.notes, id)
    ensures forall k {:trigger r.notes[k]} :: k in r.notes ==> ScrubbedOf(s.notes[k], r.notes[k], Cascade(s.notes, id))
    ensures forall x :: x in r.selected <==> x in s.selected && x !in Cascade(s.notes, id)
    ensures IsSubseq(r.selected, s.selected)
    ensures s.focusedId.Some? && s.focusedId.value in Cascade(s.notes, id) ==> r.focusedId == None
    ensures !(s.focusedId.Some? && s.focusedId.value in Cascade(s.notes, id)) ==> r.focusedId == s.focusedId
    ensures r == s.(notes := r.notes, selected := r.selected, focusedId := r.focusedId, absorbingId := None)
  {
    var gone := Cascade(s.notes, id);
    s.(
      notes := Survivors(s.notes, gone),
      absorbingId := None,
      focusedId := if s.focusedId.Some? && s.focusedId.value in gone then None else s.focusedId,
      selected := Filter(s.selected, (x: string) => x !in gone))
  }

  /** Scrubbing the survivors of a removal keeps links symmetric and non-dangling. */
  lemma ScrubKeepsLinksWellFormed(before: map<string, Note>, after: map<string, Note>, gone: set<string>)
    requires LinksWellFormed(before)
    requires after.Keys == before.Keys - gone
    requires forall k {:trigger after[k]} :: k in after ==> ScrubbedOf(before[k], after[k], gone)
    ensures LinksWellFormed(after)
  {
    forall a, b | a in after && b in after[a].linkedIds
      ensures b != a && b in after && a in after[b].linkedIds
    {
      assert ScrubbedOf(before[a], after[a], gone);
      assert b in after;
      assert ScrubbedOf(before[b], after[b], gone);
    }
  }

  /** Deleting keeps links symmetric and non-dangling. */
  lemma DeleteNoteKeepsLinksWellFormed(s: State, id: string)
    requires LinksWellFormed(s.notes)
    ensures LinksWellFormed(DeleteNote(s, id).notes)
  {
    ScrubKeepsLinksWellFormed(s.notes, DeleteNote(s, id).notes, Cascade(s.notes, id));
  }

  /** Deleting leaves no parent pointing at a deleted note and keeps the
      Nebula sentinel. */
  lemma DeleteNoteKeepsParentsAndGroups(s: State, id: string)
    requires ParentsResolve(s.notes) && NebulaSentinel(s.notes)
    ensures ParentsResolve(DeleteNote(s, id).notes) && NebulaSentinel(DeleteNote(s, id).notes)
  {
    var r := DeleteNote(s, id);
    var gone := Cascade(s.notes, id);
    forall k | k in r.notes && Truthy(r.notes[k].parentId)
      ensures r.notes[k].parentId.value in r.notes
    {
      assert ScrubbedOf(s.notes[k], r.notes[k], gone);
    }
    forall k | k in r.notes ensures r.notes[k].kind == s.notes[k].kind && r.notes[k].groupId == s.notes[k].groupId {
      assert ScrubbedOf(s.notes[k], r.notes[k], gone);
    }
  }

  // ----- links ---------------------------------------------------------------

  /** `createLink(a, b)` acts only for a non-empty `a`, distinct ids and two existing notes. */
  predicate CanLink(notes: map<string, Note>, a: string, b: string) {
    a != "" && a != b && a in notes && b in notes
  }

  function CreateLink(s: State, a: string, b: string): (r: State)
    ensures r == s.(notes := r.notes) && r.notes.Keys == s.notes.Keys
    ensures !CanLink(s.notes, a, b) ==> r == s
    ensures CanLink(s.notes, a, b) ==>
      && b in r.notes[a].linkedIds && a in r.notes[b].linkedIds
      && NoDup(r.notes[a].linkedIds) && NoDup(r.notes[b].linkedIds)
      && (forall x :: x in r.notes[a].linkedIds <==> x in s.notes[a].linkedIds || x == b)
      && (forall x :: x in r.notes[b].linkedIds <==> x in s.notes[b].linkedIds || x == a)
      && r.notes[a] == s.notes[a].(linkedIds := r.notes[a].linkedIds)
      && r.notes[b] == s.notes[b].(linkedIds := r.notes[b].linkedIds)
    ensures forall k :: k in s.notes && k != a && k != b ==> r.notes[k] == s.notes[k]
  {
    if a == "" || a == b then s
    else if a !in s.notes || b !in s.notes then s
    else
      var from := s.notes[a];
      var to := s.notes[b];
      s.(notes := s.notes[a := from.(linkedIds := SetAdd(from.linkedIds, b))]
                         [b := to.(linkedIds := SetAdd(to.linkedIds, a))])
  }

  /** Set semantics: linking the same pair again changes nothing further. */
  lemma CreateLinkIdempotent(s: State, a: string, b: string)
    ensures CreateLink(CreateLink(s, a, b), a, b) == CreateLink(s, a, b)
  {
    var r1 := CreateLink(s, a, b);
    if CanLink(s.notes, a, b) {
      SetAddOfNoDup(r1.notes[a].linkedIds, b);
      SetAddOfNoDup(r1.notes[b].linkedIds, a);
      assert CreateLink(r1, a, b).notes == r1.notes;
    }
  }

  lemma CreateLinkPreservesInvariants(s: State, a: string, b: string)
    requires LinksWellFormed(s.notes)
    ensures LinksWellFormed(CreateLink(s, a, b).notes)
  {
  }

  /** `n` with every link to `other` dropped, the rest kept in order. */
  function Unlinked(n: Note, other: string): (r: Note)
    ensures r == n.(linkedIds := r.linkedIds)
    ensures forall x :: x in r.linkedIds <==> x in n.linkedIds && x != other
    ensures IsSubseq(r.linkedIds, n.linkedIds)
  {
    n.(linkedIds := Filter(n.linkedIds, (x: string) => x != other))
  }

  /** `removeLink(a, b)`: each existing side forgets the other. Both updates
      start from the notes as they were before the call. */
  function RemoveLink(s: State, a: string, b: string): (r: State)
    ensures r == s.(notes := r.notes) && r.notes.Keys == s.notes.Keys
    ensures a in s.notes && a != b ==> r.notes[a] == Unlinked(s.notes[a], b)
    ensures b in s.notes ==> r.notes[b] == Unlinked(s.notes[b], a)
    ensures forall k :: k in s.notes && k != a && k != b ==> r.notes[k] == s.notes[k]
  {
    var n1 := if a in s.notes then s.notes[a := Unlinked(s.notes[a], b)] else s.notes;
    var n2 := if b in s.notes then n1[b := Unlinked(s.notes[b], a)] else n1;
    s.(notes := n2)
  }

  lemma RemoveLinkPreservesInvariants(s: State, a: string, b: string)
    requires LinksWellFormed(s.notes)
    ensures LinksWellFormed(RemoveLink(s, a, b).notes)
  {
  }

  /** Adding a fresh link and unlinking it again gives back the note. */
  lemma UnlinkedUndoesSetAdd(n: Note, other: string)
    requires NoDup(n.linkedIds) && other !in n.linkedIds
    ensures Unlinked(n.(linkedIds := SetAdd(n.linkedIds, other)), other) == n
  {
    var p := (x: string) => x != other;
    SetAddOfNoDup(n.linkedIds, other);
    FilterDropsLast(n.linkedIds, other, p);
    FilterKeepsAll(n.linkedIds, p);
  }

  /** Overwriting two distinct entries and then writing their old values
      back gives the original map. */
  lemma RestoreTwo(m: map<string, Note>, a: string, b: string, na: Note, nb: Note)
    requires a in m && b in m && a != b
    ensures m[a := na][b := nb][a := m[a]][b := m[b]] == m
  {
  }

  /** Linking two unlinked notes and unlinking them again restores the store. */
  lemma RemoveLinkUndoesCreateLink(s: State, a: string, b: string)
    requires CanLink(s.notes, a, b)
    requires NoDup(s.notes[a].linkedIds) && NoDup(s.notes[b].linkedIds)
    requires b !in s.notes[a].linkedIds && a !in s.notes[b].linkedIds
    ensures RemoveLink(CreateLink(s, a, b), a, b) == s
  {
    var na := s.notes[a].(linkedIds := SetAdd(s.notes[a].linkedIds, b));
    var nb := s.notes[b].(linkedIds := SetAdd(s.notes[b].linkedIds, a));
    var linked := CreateLink(s, a, b);
    assert linked == s.(notes := s.notes[a := na][b := nb]);
    assert linked.notes[a] == na && linked.notes[b] == nb;
    UnlinkedUndoesSetAdd(s.notes[a], b);
    UnlinkedUndoesSetAdd(s.notes[b], a);
    RestoreTwo(s.notes, a, b, na, nb);
    assert RemoveLink(linked, a, b).notes == linked.notes[a := s.notes[a]][b := s.notes[b]];
  }

  /** `removeParentLink` clears only the parent of an existing note that has one. */
  function RemoveParentLink(s: State, child: string): (r: State)
    ensures r == s.(notes := r.notes) && r.notes.Keys == s.notes.Keys
    ensures child !in s.notes || !Truthy(s.notes[child].parentId) ==> r == s
    ensures child in s.notes ==> r.notes[child] == s.notes[child].(parentId := r.notes[child].parentId)
    ensures child in s.notes ==> r.notes[child].parentId == None || r.notes[child].parentId == s.notes[child].parentId
    ensures child in s.notes ==> !Truthy(r.notes[child].parentId)
    ensures forall k :: k in s.notes && k != child ==> r.notes[k] == s.notes[k]
  {
    if child !in s.notes || !Truthy(s.notes[child].parentId) then s
    else s.(notes := s.notes[child := s.notes[child].(parentId := None)])
  }

  /** Detaching a note from its parent keeps every store invariant: a
      cleared parent resolves vacuously and nothing else changes. */
  lemma RemoveParentLinkPreservesInvariants(s: State, child: string)
    requires WellKeyed(s.notes) && LinksWellFormed(s.notes) && NebulaSentinel(s.notes) && ParentsResolve(s.notes)
    ensures var r := RemoveParentLink(s, child);
      WellKeyed(r.notes) && LinksWellFormed(r.notes) && NebulaSentinel(r.notes) && ParentsResolve(r.notes)
  {
  }

  // ----- groups --------------------------------------------------------------

  /** Number of notes whose `groupId` is `g` (the container counts itself when active). */
  function GroupCount(notes: map<string, Note>, g: string): nat {
    |set k | k in notes && notes[k].groupId == Some(g)|
  }

  lemma GroupCountAfterLeaving(notes: map<string, Note>, id: string, g: string, newGroup: Option<string>)
    requires id in notes && notes[id].groupId == Some(g) && newGroup != Some(g)
    ensures GroupCount(notes[id := notes[id].(groupId := newGroup)], g) == GroupCount(notes, g) - 1
  {
    var after := notes[id := notes[id].(groupId := newGroup)];
    assert (set k | k in after && after[k].groupId == Some(g)) ==
           (set k | k in notes && notes[k].groupId == Some(g)) - {id};
  }

  /** `after` differs from `before` at most in the `groupId` of its notes. */
  predicate GroupsOnly(before: map<string, Note>, after: map<string, Note>) {
    && after.Keys == before.Keys
    && forall k :: k in before ==> after[k] == before[k].(groupId := after[k].groupId)
  }

  lemma GroupsOnlyTrans(a: map<string, Note>, b: map<string, Note>, c: map<string, Note>)
    requires GroupsOnly(a, b) && GroupsOnly(b, c)
    ensures GroupsOnly(a, c)
  {
    forall k | k in a ensures c[k] == a[k].(groupId := c[k].groupId) {
      assert b[k] == a[k].(groupId := b[k].groupId);
    }
  }

  /** The leaving half of `setNoteGroup`, applied after the note took its
      new group: the Nebula `prev` names is deactivated when a single holder
      of that group is left. */
  function LeaveGroup(notes: map<string, Note>, noteId: string, prev: Option<string>): (r: map<string, Note>)
    ensures GroupsOnly(notes, r)
    ensures forall k :: k in notes && Some(k) != prev ==> r[k] == notes[k]
    ensures Truthy(prev) && prev.value != noteId && prev.value in notes && notes[prev.value].kind == Nebula ==>
      r[prev.value].groupId == (if GroupCount(notes, prev.value) == 1 then None else notes[prev.value].groupId)
  {
    if Truthy(prev) && prev.value != noteId && GroupCount(notes, prev.value) == 1
       && prev.value in notes && notes[prev.value].kind == Nebula
    then notes[prev.value := notes[prev.value].(groupId := None)]
    else notes
  }

  /** The joining half of `setNoteGroup`: an inactive Nebula that `g` names
      becomes an active container. */
  function JoinGroup(notes: map<string, Note>, g: Option<string>): (r: map<string, Note>)
    ensures GroupsOnly(notes, r)
    ensures forall k :: k in notes && Some(k) != g ==> r[k] == notes[k]
    ensures Truthy(g) && g.value in notes && notes[g.value].kind == Nebula ==>
      r[g.value].groupId == (if Truthy(notes[g.value].groupId) then notes[g.value].groupId else g)
  {
    if Truthy(g) && g.value in notes && notes[g.value].kind == Nebula && !Truthy(notes[g.value].groupId)
    then notes[g.value := notes[g.value].(groupId := g)]
    else notes
  }

  /** The notes after `setNoteGroup(noteId, groupId)` on an existing note:
      the note takes the new group, and only the old and the new group's
      own notes may change besides it, and only in their group. */
  function Regrouped(notes: map<string, Note>, noteId: string, groupId: Option<string>): (r: map<string, Note>)
    requires noteId in notes
    ensures GroupsOnly(notes, r)
    ensures r[noteId].groupId == groupId
    ensures forall k :: (k in notes && k != noteId &&
      Some(k) != notes[noteId].groupId && Some(k) != groupId) ==> r[k] == notes[k]
  {
    var prev := notes[noteId].groupId;
    var n1 := notes[noteId := notes[noteId].(groupId := groupId)];
    var n2 := LeaveGroup(n1, noteId, prev);
    var n3 := JoinGroup(n2, groupId);
    assert GroupsOnly(notes, n1);
    GroupsOnlyTrans(notes, n1, n2);
    GroupsOnlyTrans(notes, n2, n3);
    assert n2[noteId] == n1[noteId];
    n3
  }

  /** Leaving a Nebula group: the Nebula is deactivated exactly when it had
      two holders, itself and the note leaving; otherwise it is unchanged. */
  lemma RegroupLeavesGroup(notes: map<string, Note>, noteId: string, groupId: Option<string>)
    requires noteId in notes
    requires Truthy(notes[noteId].groupId) && groupId != notes[noteId].groupId
    ensures var g := notes[noteId].groupId.value;
      g != noteId && g in notes && notes[g].kind == Nebula ==>
        Regrouped(notes, noteId, groupId)[g].groupId == (if GroupCount(notes, g) == 2 then None else notes[g].groupId)
  {
    var prev := notes[noteId].groupId;
    var n1 := notes[noteId := notes[noteId].(groupId := groupId)];
    GroupCountAfterLeaving(notes, noteId, prev.value, groupId);
    assert GroupCount(n1, prev.value) == GroupCount(notes, prev.value) - 1;
  }

  /** Joining an inactive Nebula makes it an active container, also when
      the note re-joins its own group or is that Nebula. */
  lemma RegroupJoinsGroup(notes: map<string, Note>, noteId: string, groupId: Option<string>)
    requires noteId in notes
    requires Truthy(groupId)
    ensures var g := groupId.value;
      g in notes && notes[g].kind == Nebula && !Truthy(notes[g].groupId) ==>
        Regrouped(notes, noteId, groupId)[g].groupId == Some(g)
  {
  }

  /** The group transition of `setNoteGroup`: the note takes the new group;
      a Nebula group left with a single holder is deactivated; a Nebula
      joined while inactive becomes active. A missing note changes nothing. */
  function SetNoteGroup(s: State, noteId: string, groupId: Option<string>): (r: State)
    ensures r == s.(notes := r.notes) && r.notes.Keys == s.notes.Keys
    ensures noteId !in s.notes ==> r == s
    ensures noteId in s.notes ==> r.notes == Regrouped(s.notes, noteId, groupId)
  {
    if noteId !in s.notes then s
    else s.(notes := Regrouped(s.notes, noteId, groupId))
  }

  /** Reassigning a non-Nebula note (the only notes the drag handler
      regroups) keeps every Nebula's `groupId` unset or its own id. */
  lemma SetNoteGroupPreservesSentinel(s: State, noteId: string, groupId: Option<string>)
    requires WellKeyed(s.notes) && NebulaSentinel(s.notes)
    requires noteId in s.notes ==> s.notes[noteId].kind != Nebula
    ensures NebulaSentinel(SetNoteGroup(s, noteId, groupId).notes)
  {
  }

  // ----- canvas and selection ------------------------------------------------

  datatype CanvasPatch = CanvasPatch(zoom: Option<real>, pan: Option<Point>)

  /** `setCanvasState(partial)`: fields present in the patch replace the old ones. */
  function SetCanvasState(s: State, patch: CanvasPatch): (r: State)
    ensures r == s.(canvas := r.canvas)
    ensures patch.zoom.Some? ==> r.canvas.zoom == patch.zoom.value
    ensures patch.zoom.None? ==> r.canvas.zoom == s.canvas.zoom
    ensures patch.pan.Some? ==> r.canvas.pan == patch.pan.value
    ensures patch.pan.None? ==> r.canvas.pan == s.canvas.pan
  {
    s.(canvas := CanvasState(
      if patch.zoom.Some? then patch.zoom.value else s.canvas.zoom,
      if patch.pan.Some? then patch.pan.value else s.canvas.pan))
  }

  /** `setSelectedNoteIds(updater)`: only the selection changes. */
  function SetSelectedNoteIds(s: State, updater: seq<string> -> seq<string>): (r: State)
    ensures r == s.(selected := r.selected)
    ensures r.selected == updater(s.selected)
  {
    s.(selected := updater(s.selected))
  }

  /** The object spread `{ ...first, ...second }` of two canvas patches. */
  function MergePatch(first: CanvasPatch, second: CanvasPatch): CanvasPatch {
    CanvasPatch(
      if second.zoom.Some? then second.zoom else first.zoom,
      if second.pan.Some? then second.pan else first.pan)
  }

  /** The empty patch changes nothing, and of two successive patches the
      later one wins field by field. */
  lemma SetCanvasStateComposes(s: State, first: CanvasPatch, second: CanvasPatch)
    ensures SetCanvasState(s, CanvasPatch(None, None)) == s
    ensures SetCanvasState(SetCanvasState(s, first), second) == SetCanvasState(s, MergePatch(first, second))
  {
  }

  /** Two successive selection updaters act as their composition. */
  lemma SetSelectedNoteIdsComposes(s: State, f: seq<string> -> seq<string>, g: seq<string> -> seq<string>)
    ensures SetSelectedNoteIds(SetSelectedNoteIds(s, f), g) == SetSelectedNoteIds(s, ids => g(f(ids)))
    ensures SetSelectedNoteIds(s, ids => ids) == s
  {
  }
}
