/** The in-memory note store of `src/services/noteService.ts`.

    The application keeps a module-level `Note[]`, persists it to local
    storage after every mutation and generates ids with `Math.random`. Here
    the store is a value: every operation takes the current sequence and
    returns the next one, and the fresh id and the clock values are
    parameters. */
module NoteStore {
  import opened Wrappers
  import opened Types
  import opened Text
  import Seqs

  type Store = seq<Note>

  /** The store after an operation that can fail, and the note it returns or
      the message of the `Error` it throws. */
  datatype Outcome = Outcome(store: Store, result: Result<Note>)

  /** Some stored note has this id. */
  predicate HasNote(store: Store, id: string) {
    exists i :: 0 <= i < |store| && store[i].id == id
  }

  /** No two stored notes share an id. */
  predicate IdsUnique(store: Store) {
    forall i, j :: 0 <= i < j < |store| ==> store[i].id != store[j].id
  }

  /** `mockNotes.findIndex(note => note.id === noteId)`, with `None` for -1. */
  function Position(store: Store, id: string): (r: Option<nat>)
    ensures r.None? <==> !HasNote(store, id)
    ensures r.Some? ==> r.value < |store| && store[r.value].id == id
    ensures r.Some? ==> forall j :: 0 <= j < r.value ==> store[j].id != id
  {
    Seqs.FindIndex(store, (n: Note) => n.id == id)
  }

  // ---------------------------------------------------------------------------
  // Queries

  /** `getNotes`: the notes owned by `userId`, in stored order. */
  function GetNotes(store: Store, userId: string): (r: seq<Note>)
    ensures forall n :: n in r <==> n in store && n.userId == userId
    ensures forall n :: multiset(r)[n] == if n.userId == userId then multiset(store)[n] else 0
    ensures Seqs.SubseqOf(r, store)
  {
    Seqs.Filter(store, (n: Note) => n.userId == userId)
  }

  /** `getNoteById`: the first note with this id, or nothing. */
  function GetNoteById(store: Store, id: string): (r: Option<Note>)
    ensures r.None? <==> !HasNote(store, id)
    ensures r.Some? ==> r.value.id == id && r.value in store
    ensures r.Some? ==> r.value == store[Position(store, id).value]
  {
    match Position(store, id)
    case None => None
    case Some(i) => Some(store[i])
  }

  /** `getFavorites`: the owner's notes flagged as favourite, in stored order. */
  function GetFavorites(store: Store, userId: string): (r: seq<Note>)
    ensures forall n :: n in r <==> n in store && n.userId == userId && n.isFavorite
    ensures forall n :: multiset(r)[n] == if n.userId == userId && n.isFavorite then multiset(store)[n] else 0
    ensures Seqs.SubseqOf(r, store)
  {
    Seqs.Filter(store, (n: Note) => n.userId == userId && n.isFavorite)
  }

  /** Some tag of the note contains the lowercased query `lq`; a note without
      tags has none (`note.tags?.some(...)` is `undefined`, hence falsy). */
  predicate SomeTagMatches(tags: Option<seq<string>>, lq: string) {
    tags.Some? && exists t :: t in tags.value && Contains(Lower(t), lq)
  }

  /** The store's search predicate for an already lowercased query. */
  predicate MatchesLowered(n: Note, lq: string) {
    Contains(Lower(n.title), lq) || Contains(Lower(n.content), lq) || SomeTagMatches(n.tags, lq)
  }

  /** `searchNotes`: the owner's notes whose title, content or some tag
      contains the query, ignoring ASCII case, in stored order. */
  function SearchNotes(store: Store, userId: string, query: string): (r: seq<Note>)
    ensures forall n :: n in r <==> n in store && n.userId == userId && MatchesLowered(n, Lower(query))
    ensures forall n :: multiset(r)[n] ==
              if n.userId == userId && MatchesLowered(n, Lower(query)) then multiset(store)[n] else 0
    ensures Seqs.SubseqOf(r, store)
  {
    var lq := Lower(query);
    Seqs.Filter(store, (n: Note) => n.userId == userId && MatchesLowered(n, lq))
  }

  // ---------------------------------------------------------------------------
  // Mutations

  /** `createNote`: appends a note built from the form data. `newId` is the
      generated id; `createdAt` and `updatedAt` are the two `new Date()`
      readings, which the application takes separately. */
  function CreateNote(store: Store, userId: string, data: NoteFormData, newId: string,
                      createdAt: Timestamp, updatedAt: Timestamp): (r: (Store, Note))
    ensures |r.0| == |store| + 1
    ensures r.0[..|store|] == store
    ensures r.0[|store|] == r.1
    ensures r.1.id == newId && r.1.userId == userId
    ensures !r.1.isFavorite && r.1.summary.None?
    ensures r.1.title == data.title && r.1.content == data.content
    ensures r.1.tags == Some(data.tags.GetOr([]))
    ensures r.1.createdAt == createdAt && r.1.updatedAt == updatedAt
  {
    var note := Note(newId, data.title, data.content, None, createdAt, updatedAt,
                     userId, false, Some(data.tags.GetOr([])));
    (store + [note], note)
  }

  /** `{ ...note, ...noteData, updated_at }`: the supplied fields replace the
      stored ones and the timestamp is refreshed. The patch has no id, owner,
      creation time or favourite flag, so those survive. */
  function ApplyPatch(n: Note, patch: NotePatch, now: Timestamp): (r: Note)
    ensures r.id == n.id && r.userId == n.userId && r.createdAt == n.createdAt && r.isFavorite == n.isFavorite
    ensures r.updatedAt == now
    ensures patch.title.Some? ==> r.title == patch.title.value
    ensures patch.title.None? ==> r.title == n.title
    ensures patch.content.Some? ==> r.content == patch.content.value
    ensures patch.content.None? ==> r.content == n.content
    ensures r.tags == (if patch.tags.Some? then patch.tags else n.tags)
    ensures r.summary == (if patch.summary.Some? then patch.summary else n.summary)
  {
    n.(title := patch.title.GetOr(n.title),
       content := patch.content.GetOr(n.content),
       tags := if patch.tags.Some? then patch.tags else n.tags,
       summary := if patch.summary.Some? then patch.summary else n.summary,
       updatedAt := now)
  }

  /** `updateNote`: merges the patch into the first note with this id. A
      missing id throws "Note not found" and leaves the store as it was;
      otherwise only that note changes, in place, and of it only the supplied
      fields and the update time. */
  function UpdateNote(store: Store, id: string, patch: NotePatch, now: Timestamp): (r: Outcome)
    ensures r.result.Err? <==> !HasNote(store, id)
    ensures r.result.Err? ==> r.store == store && r.result.message == "Note not found"
    ensures r.result.Ok? ==>
      var i := Position(store, id).value;
      var prev, n := store[i], r.result.value;
      && |r.store| == |store|
      && r.store == store[i := n]
      && n.id == prev.id && n.userId == prev.userId
      && n.createdAt == prev.createdAt && n.isFavorite == prev.isFavorite
      && n.updatedAt == now
      && n.title == (if patch.title.Some? then patch.title.value else prev.title)
      && n.content == (if patch.content.Some? then patch.content.value else prev.content)
      && n.tags == (if patch.tags.Some? then patch.tags else prev.tags)
      && n.summary == (if patch.summary.Some? then patch.summary else prev.summary)
  {
    match Position(store, id)
    case None => Outcome(store, Err("Note not found"))
    case Some(i) =>
      var n := ApplyPatch(store[i], patch, now);
      Outcome(store[i := n], Ok(n))
  }

  /** `deleteNote`: removes every note with this id and keeps the rest in
      order. It never fails. */
  function DeleteNote(store: Store, id: string): (r: Store)
    ensures !HasNote(r, id)
    ensures forall n :: n in r <==> n in store && n.id != id
    ensures forall n: Note :: n.id != id ==> multiset(r)[n] == multiset(store)[n]
    ensures Seqs.SubseqOf(r, store)
  {
    Seqs.Filter(store, (n: Note) => n.id != id)
  }

  /** `toggleFavorite`: flips the favourite flag of the first note with this
      id and refreshes its update time; a missing id throws "Note not found"
      and leaves the store as it was. */
  function ToggleFavorite(store: Store, id: string, now: Timestamp): (r: Outcome)
    ensures r.result.Err? <==> !HasNote(store, id)
    ensures r.result.Err? ==> r.store == store && r.result.message == "Note not found"
    ensures r.result.Ok? ==>
      var i := Position(store, id).value;
      && r.store == store[i := r.result.value]
      && r.result.value == store[i].(isFavorite := !store[i].isFavorite, updatedAt := now)
  {
    match Position(store, id)
    case None => Outcome(store, Err("Note not found"))
    case Some(i) =>
      var n := store[i].(isFavorite := !store[i].isFavorite, updatedAt := now);
      Outcome(store[i := n], Ok(n))
  }
}
