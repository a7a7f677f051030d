/** The search filter of the "All Notes" page, `src/pages/AllNotes.tsx`. */
module AllNotesPage {
  import opened Wrappers
  import opened Text
  import opened Types
  import Seqs
  import NoteStore
  import NoteStoreProps

  /** The page's predicate: the lowercased query occurs in the lowercased
      title, content or some tag. A note without tags is matched on title and
      content only. It is the store's search predicate, written out again. */
  predicate PageMatches(n: Note, query: string)
    ensures PageMatches(n, query) <==> NoteStore.MatchesLowered(n, Lower(query))
  {
    || Contains(Lower(n.title), Lower(query))
    || Contains(Lower(n.content), Lower(query))
    || (n.tags.Some? && exists t :: t in n.tags.value && Contains(Lower(t), Lower(query)))
  }

  /** `filteredNotes`: `notes?.filter(...)`, absent while the notes are. */
  function FilteredNotes(notes: Option<seq<Note>>, query: string): (r: Option<seq<Note>>)
    ensures r.Some? <==> notes.Some?
    ensures r.Some? ==> forall n :: n in r.value <==> n in notes.value && PageMatches(n, query)
    ensures r.Some? ==> forall n :: multiset(r.value)[n] ==
                                   if PageMatches(n, query) then multiset(notes.value)[n] else 0
    ensures r.Some? ==> Seqs.SubseqOf(r.value, notes.value)
  {
    match notes
    case None => None
    case Some(ns) => Some(Seqs.Filter(ns, (n: Note) => PageMatches(n, query)))
  }

  /** An empty query keeps every note. */
  lemma EmptyQueryKeepsAll(notes: seq<Note>)
    ensures FilteredNotes(Some(notes), "") == Some(notes)
  {
    forall i | 0 <= i < |notes|
      ensures PageMatches(notes[i], "")
    {
      assert StartsWith(Lower(notes[i].title), "");
    }
    Seqs.FilterAll(notes, (n: Note) => PageMatches(n, ""));
  }

  /** On one owner's notes, the page filter and the store's `searchNotes`
      give the same notes in the same order. */
  lemma AgreesWithSearch(store: NoteStore.Store, userId: string, query: string)
    ensures FilteredNotes(Some(NoteStore.GetNotes(store, userId)), query) ==
            Some(NoteStore.SearchNotes(store, userId, query))
  {
    var notes := NoteStore.GetNotes(store, userId);
    NoteStoreProps.SearchWithinNotes(store, userId, query);
    Seqs.FilterCongruent(notes, (n: Note) => PageMatches(n, query),
                         (n: Note) => NoteStore.MatchesLowered(n, Lower(query)));
  }
}

/** The note-loading and saving decisions of the edit page,
    `src/pages/EditNote.tsx`. */
module EditNotePage {
  import opened Wrappers
  import opened Text
  import opened Types
  import NoteStore
  import NoteEditor

  /** What `fetchNote` ends in: the note to edit, or the error shown. */
  datatype Load = Loaded(note: Note) | LoadError(message: string)

  const MissingId: string := "Note ID is missing"
  const NotFound: string := "Note not found"
  const NoPermission: string := "You do not have permission to edit this note"

  /** `fetchNote`. A missing (or empty) route id fails without a lookup; an
      absent note fails with "Note not found"; a note owned by someone other
      than the signed-in user (or with nobody signed in) is not loaded. */
  function FetchNote(noteId: Option<string>, currentUserId: Option<string>, store: NoteStore.Store): (r: Load)
    ensures !Truthy(noteId) ==> r == LoadError(MissingId)
    ensures Truthy(noteId) && !NoteStore.HasNote(store, noteId.value) ==> r == LoadError(NotFound)
    ensures r.Loaded? <==>
      Truthy(noteId) && NoteStore.HasNote(store, noteId.value) &&
      currentUserId == Some(NoteStore.GetNoteById(store, noteId.value).value.userId)
    ensures Truthy(noteId) && NoteStore.HasNote(store, noteId.value) ==>
              (currentUserId != Some(NoteStore.GetNoteById(store, noteId.value).value.userId) ==>
                 r == LoadError(NoPermission))
    ensures r.Loaded? ==> r.note in store && r.note.id == noteId.value && Some(r.note.userId) == currentUserId
    ensures r.LoadError? ==> r.message in {MissingId, NotFound, NoPermission}
  {
    if !Truthy(noteId) then LoadError(MissingId)
    else
      match NoteStore.GetNoteById(store, noteId.value)
      case None => LoadError(NotFound)
      case Some(n) =>
        if currentUserId.None? || n.userId != currentUserId.value then LoadError(NoPermission)
        else Loaded(n)
  }

  /** The object `updateNote` spreads onto the note: every form field, and
      the summary when the editor attached one. Spread onto any note, it
      writes the form's title and content, and keeps the note's summary when
      none was attached. */
  function PatchOf(s: NoteEditor.Submission): (p: NotePatch)
    ensures forall n: Note, now: Timestamp :: var m := NoteStore.ApplyPatch(n, p, now);
              && m.title == s.form.title && m.content == s.form.content
              && m.tags == (if s.form.tags.Some? then s.form.tags else n.tags)
              && m.summary == (if s.summary.Some? then s.summary else n.summary)
  {
    NotePatch(Some(s.form.title), Some(s.form.content), s.form.tags, s.summary)
  }

  /** `handleSave`. A missing route id updates nothing; otherwise the
      submission goes to `updateNote`. Ownership is not checked again here. */
  function HandleSave(noteId: Option<string>, data: NoteEditor.Submission, store: NoteStore.Store,
                      now: Timestamp): (r: NoteStore.Outcome)
    ensures !Truthy(noteId) ==> r == NoteStore.Outcome(store, Err(MissingId))
    ensures Truthy(noteId) ==> r == NoteStore.UpdateNote(store, noteId.value, PatchOf(data), now)
  {
    if !Truthy(noteId) then NoteStore.Outcome(store, Err(MissingId))
    else NoteStore.UpdateNote(store, noteId.value, PatchOf(data), now)
  }

  /** Editing a loaded note and saving without a new summary writes the form's
      title and content and keeps the note's id, owner, creation time,
      favourite flag and summary, in place. */
  lemma SaveKeepsIdentity(noteId: string, userId: string, store: NoteStore.Store,
                          form: NoteFormData, now: Timestamp)
    requires FetchNote(Some(noteId), Some(userId), store).Loaded?
    ensures var n := FetchNote(Some(noteId), Some(userId), store).note;
            var sub := NoteEditor.OnSubmit(form, n.summary);
            var r := HandleSave(Some(noteId), sub, store, now);
            && r.result.Ok?
            && r.result.value.title == form.title && r.result.value.content == form.content
            && r.result.value.id == n.id && r.result.value.userId == userId
            && r.result.value.createdAt == n.createdAt && r.result.value.isFavorite == n.isFavorite
            && r.result.value.summary == n.summary
            && r.store[NoteStore.Position(store, noteId).value] == r.result.value
  {
  }
}
