/** Properties relating the operations of the note store to one another:
    what a later query sees after a mutation, what a mutation leaves alone,
    and how the queries nest. */
module NoteStoreProps {
  import opened Wrappers
  import opened Types
  import opened Text
  import Seqs
  import opened NoteStore

  // ---------------------------------------------------------------------------
  // createNote

  /** A note created with a fresh id is what `getNoteById` then returns. */
  lemma CreateThenGet(store: Store, userId: string, data: NoteFormData, newId: string,
                      createdAt: Timestamp, updatedAt: Timestamp)
    requires !HasNote(store, newId)
    ensures var (s, n) := CreateNote(store, userId, data, newId, createdAt, updatedAt);
            GetNoteById(s, newId) == Some(n)
  {
    var (s, n) := CreateNote(store, userId, data, newId, createdAt, updatedAt);
    assert s[|store|].id == newId;
  }

  /** The new note is listed last among its owner's notes. */
  lemma CreateListsNote(store: Store, userId: string, data: NoteFormData, newId: string,
                        createdAt: Timestamp, updatedAt: Timestamp)
    ensures var (s, n) := CreateNote(store, userId, data, newId, createdAt, updatedAt);
            GetNotes(s, userId) == GetNotes(store, userId) + [n]
  {
    var (s, n) := CreateNote(store, userId, data, newId, createdAt, updatedAt);
    var p := (m: Note) => m.userId == userId;
    assert s == store + [n];
    Seqs.FilterAppend(store, [n], p);
    assert Seqs.Filter([n], p) == [n];
  }

  /** Creating a note changes no other owner's list. */
  lemma CreateLeavesOtherOwners(store: Store, userId: string, data: NoteFormData, newId: string,
                                createdAt: Timestamp, updatedAt: Timestamp, other: string)
    requires other != userId
    ensures var (s, n) := CreateNote(store, userId, data, newId, createdAt, updatedAt);
            GetNotes(s, other) == GetNotes(store, other)
  {
    var (s, n) := CreateNote(store, userId, data, newId, createdAt, updatedAt);
    var p := (m: Note) => m.userId == other;
    assert s == store + [n];
    Seqs.FilterAppend(store, [n], p);
    assert Seqs.Filter([n], p) == [];
    assert GetNotes(store, other) + [] == GetNotes(store, other);
  }

  /** Creating with a fresh id keeps ids unique. */
  lemma CreateKeepsIdsUnique(store: Store, userId: string, data: NoteFormData, newId: string,
                             createdAt: Timestamp, updatedAt: Timestamp)
    requires IdsUnique(store) && !HasNote(store, newId)
    ensures IdsUnique(CreateNote(store, userId, data, newId, createdAt, updatedAt).0)
  {
    var s := CreateNote(store, userId, data, newId, createdAt, updatedAt).0;
    forall i, j | 0 <= i < j < |s|
      ensures s[i].id != s[j].id
    {
      if j == |store| {
        assert s[i] == store[i];
      } else {
        assert s[i] == store[i] && s[j] == store[j];
      }
    }
  }

  // ---------------------------------------------------------------------------
  // updateNote and toggleFavorite replace one note by one with the same id
  // and owner

  /** Replacing a note by one with the same id keeps ids unique. */
  lemma ReplaceKeepsIdsUnique(store: Store, i: nat, n: Note)
    requires IdsUnique(store) && i < |store| && n.id == store[i].id
    ensures IdsUnique(store[i := n])
  {
    var s := store[i := n];
    forall a, b | 0 <= a < b < |s|
      ensures s[a].id != s[b].id
    {
      assert s[a].id == store[a].id && s[b].id == store[b].id;
    }
  }

  /** Replacing a note by one with the same id leaves every position lookup
      where it was. */
  lemma ReplaceKeepsPositions(store: Store, i: nat, n: Note, id: string)
    requires i < |store| && n.id == store[i].id
    ensures Position(store[i := n], id) == Position(store, id)
  {
    Seqs.FindIndexCongruent(store[i := n], store, (m: Note) => m.id == id);
  }

  /** `updateNote` keeps ids unique. */
  lemma UpdateKeepsIdsUnique(store: Store, id: string, patch: NotePatch, now: Timestamp)
    requires IdsUnique(store)
    ensures IdsUnique(UpdateNote(store, id, patch, now).store)
  {
    if HasNote(store, id) {
      var i := Position(store, id).value;
      ReplaceKeepsIdsUnique(store, i, UpdateNote(store, id, patch, now).result.value);
    }
  }

  /** Saving the same fields again at the same time changes nothing: a
      second `updateNote` with the patch just applied returns the same note
      and store. */
  lemma UpdateTwiceIsOnce(store: Store, id: string, patch: NotePatch, now: Timestamp)
    ensures var r1 := UpdateNote(store, id, patch, now);
            UpdateNote(r1.store, id, patch, now) == r1
  {
    if HasNote(store, id) {
      var i := Position(store, id).value;
      var r1 := UpdateNote(store, id, patch, now);
      ReplaceKeepsPositions(store, i, r1.result.value, id);
      assert r1.store[i] == r1.result.value;
    }
  }

  /** `updateNote` changes no list but the edited note's owner's. */
  lemma UpdateLeavesOtherOwners(store: Store, id: string, patch: NotePatch, now: Timestamp, other: string)
    requires HasNote(store, id) && store[Position(store, id).value].userId != other
    ensures GetNotes(UpdateNote(store, id, patch, now).store, other) == GetNotes(store, other)
  {
    var i := Position(store, id).value;
    var r := UpdateNote(store, id, patch, now);
    Seqs.FilterUpdateRejected(store, i, r.result.value, (m: Note) => m.userId == other);
  }

  /** After an update that sets a tag list, searching the owner's notes for any
      of those tags finds the updated note. */
  lemma UpdatedTagIsSearchable(store: Store, id: string, patch: NotePatch, now: Timestamp, tag: string)
    requires HasNote(store, id)
    requires patch.tags.Some? && tag in patch.tags.value
    ensures var r := UpdateNote(store, id, patch, now);
            r.result.value in SearchNotes(r.store, r.result.value.userId, tag)
  {
    var r := UpdateNote(store, id, patch, now);
    var n := r.result.value;
    var i := Position(store, id).value;
    assert r.store[i] == n;
    assert StartsWith(Lower(tag), Lower(tag));
    assert Contains(Lower(tag), Lower(tag));
    assert SomeTagMatches(n.tags, Lower(tag));
  }

  /** Toggling twice restores the favourite flag: the store differs from the
      original only in the second toggle's update time. */
  lemma ToggleTwice(store: Store, id: string, t1: Timestamp, t2: Timestamp)
    requires HasNote(store, id)
    ensures var r1 := ToggleFavorite(store, id, t1);
            var r2 := ToggleFavorite(r1.store, id, t2);
            var i := Position(store, id).value;
            && r2.result.Ok?
            && r2.result.value.isFavorite == store[i].isFavorite
            && r2.store == store[i := store[i].(updatedAt := t2)]
  {
    var i := Position(store, id).value;
    var r1 := ToggleFavorite(store, id, t1);
    ReplaceKeepsPositions(store, i, r1.result.value, id);
    assert r1.store[i].id == id;
  }

  /** `toggleFavorite` keeps ids unique. */
  lemma ToggleKeepsIdsUnique(store: Store, id: string, now: Timestamp)
    requires IdsUnique(store)
    ensures IdsUnique(ToggleFavorite(store, id, now).store)
  {
    if HasNote(store, id) {
      var i := Position(store, id).value;
      ReplaceKeepsIdsUnique(store, i, ToggleFavorite(store, id, now).result.value);
    }
  }

  // ---------------------------------------------------------------------------
  // deleteNote

  /** Deleting an absent id is a no-op. */
  lemma DeleteAbsent(store: Store, id: string)
    requires !HasNote(store, id)
    ensures DeleteNote(store, id) == store
  {
    Seqs.FilterAll(store, (n: Note) => n.id != id);
  }

  /** Deleting twice is deleting once. */
  lemma DeleteIdempotent(store: Store, id: string)
    ensures DeleteNote(DeleteNote(store, id), id) == DeleteNote(store, id)
  {
    DeleteAbsent(DeleteNote(store, id), id);
  }

  /** Deleting keeps ids unique. */
  lemma {:induction false} DeleteKeepsIdsUnique(store: Store, id: string)
    requires IdsUnique(store)
    ensures IdsUnique(DeleteNote(store, id))
  {
    Seqs.SubseqDistinctKeys(DeleteNote(store, id), store, (n: Note) => n.id);
  }

  // ---------------------------------------------------------------------------
  // Queries

  /** `getFavorites(u)` is `getNotes(u)` narrowed to favourites, hence an
      order-preserving sub-sequence of it. */
  lemma FavoritesWithinNotes(store: Store, userId: string)
    ensures GetFavorites(store, userId) == Seqs.Filter(GetNotes(store, userId), (n: Note) => n.isFavorite)
    ensures Seqs.SubseqOf(GetFavorites(store, userId), GetNotes(store, userId))
  {
    Seqs.FilterFilter(store, (n: Note) => n.userId == userId, (n: Note) => n.isFavorite,
                      (n: Note) => n.userId == userId && n.isFavorite);
  }

  /** `searchNotes(u, q)` is `getNotes(u)` narrowed by the text match, hence
      an order-preserving sub-sequence of it. */
  lemma SearchWithinNotes(store: Store, userId: string, query: string)
    ensures SearchNotes(store, userId, query) ==
            Seqs.Filter(GetNotes(store, userId), (n: Note) => MatchesLowered(n, Lower(query)))
    ensures Seqs.SubseqOf(SearchNotes(store, userId, query), GetNotes(store, userId))
  {
    var lq := Lower(query);
    Seqs.FilterFilter(store, (n: Note) => n.userId == userId, (n: Note) => MatchesLowered(n, lq),
                      (n: Note) => n.userId == userId && MatchesLowered(n, lq));
  }

  /** The search ignores the case of the query: an upper-cased or
      lower-cased query finds the same notes. */
  lemma SearchIgnoresCase(store: Store, userId: string, query: string)
    ensures SearchNotes(store, userId, Upper(query)) == SearchNotes(store, userId, query)
    ensures SearchNotes(store, userId, Lower(query)) == SearchNotes(store, userId, query)
  {
    LowerIgnoresCase(query);
  }

  /** An empty query matches every note, so it returns all of the owner's notes. */
  lemma SearchEmptyQuery(store: Store, userId: string)
    ensures SearchNotes(store, userId, "") == GetNotes(store, userId)
  {
    SearchWithinNotes(store, userId, "");
    var notes := GetNotes(store, userId);
    forall i | 0 <= i < |notes|
      ensures MatchesLowered(notes[i], Lower(""))
    {
      assert StartsWith(Lower(notes[i].title), "");
    }
    Seqs.FilterAll(notes, (n: Note) => MatchesLowered(n, Lower("")));
  }
}
