/** The pure logic of the note editor, `src/components/notes/NoteEditor.tsx`:
    the form schema, tag-list editing, the summarise gate and the data handed
    to `onSave`. */
module NoteEditor {
  import opened Wrappers
  import opened Text
  import opened Types
  import Seqs
  import Summarizer

  // ---------------------------------------------------------------------------
  // Form

  /** The form's initial values: the edited note's fields, or empty ones. */
  function InitialForm(note: Option<Note>): (r: NoteFormData)
    ensures note.None? ==> r == NoteFormData("", "", Some([]))
    ensures note.Some? ==> r.title == note.value.title && r.content == note.value.content
    ensures note.Some? ==> r.tags == Some(note.value.tags.GetOr([]))
  {
    match note
    case None => NoteFormData("", "", Some([]))
    case Some(n) => NoteFormData(n.title, n.content, Some(n.tags.GetOr([])))
  }

  /** `noteSchema`: the messages of the rules that fail. Title and content
      need at least one character (whitespace counts); tags are unchecked. */
  function SchemaIssues(data: NoteFormData): (issues: seq<string>)
    ensures "Title is required" in issues <==> |data.title| < 1
    ensures "Content is required" in issues <==> |data.content| < 1
    ensures issues == [] <==> |data.title| >= 1 && |data.content| >= 1
    ensures |issues| <= 2
  {
    (if |data.title| < 1 then ["Title is required"] else []) +
    (if |data.content| < 1 then ["Content is required"] else [])
  }

  // ---------------------------------------------------------------------------
  // Tags

  /** No tag occurs twice. */
  predicate Distinct(tags: seq<string>) {
    forall i, j :: 0 <= i < j < |tags| ==> tags[i] != tags[j]
  }

  /** `handleAddTag`, returning the tag list and the tag input afterwards. The
      trimmed input is appended when it is non-empty and not yet present, and
      only then is the input cleared. */
  function AddTag(tags: seq<string>, input: string): (r: (seq<string>, string))
    ensures forall x :: x in r.0 <==> x in tags || (x == Trim(input) && x != "")
    ensures |tags| <= |r.0| <= |tags| + 1 && r.0[..|tags|] == tags
    ensures |r.0| == |tags| + 1 <==> Trim(input) != "" && Trim(input) !in tags
    ensures r.1 == (if |r.0| == |tags| then input else "")
    ensures Distinct(tags) ==> Distinct(r.0)
  {
    var t := Trim(input);
    if t != "" && t !in tags then
      var added := tags + [t];
      assert added[..|tags|] == tags;
      (added, "")
    else (tags, input)
  }

  /** `handleRemoveTag`: drops every occurrence of the tag and keeps the
      others, with their multiplicities, in order. */
  function RemoveTag(tags: seq<string>, tag: string): (r: seq<string>)
    ensures tag !in r
    ensures forall x :: x != tag ==> multiset(r)[x] == multiset(tags)[x]
    ensures Seqs.SubseqOf(r, tags)
  {
    Seqs.Filter(tags, (x: string) => x != tag)
  }

  /** Removing a tag that was just added gives back the list before the add. */
  lemma RemoveUndoesAdd(tags: seq<string>, input: string)
    requires Trim(input) != "" && Trim(input) !in tags
    ensures RemoveTag(AddTag(tags, input).0, Trim(input)) == tags
  {
    var t := Trim(input);
    var p := (x: string) => x != t;
    Seqs.FilterAppend(tags, [t], p);
    Seqs.FilterAll(tags, p);
    assert Seqs.Filter([t], p) == [];
  }

  // ---------------------------------------------------------------------------
  // Summarising and saving

  const MinSummaryLength: nat := 50

  /** `handleSummarize`, returning the editor's `summary` state afterwards:
      content that is empty or shorter than 50 characters is refused and the
      state kept; otherwise the local summariser's result replaces it. */
  function Summarize(content: string, dev: bool, prior: Option<string>): (r: Option<string>)
    ensures |content| < MinSummaryLength ==> r == prior
    ensures |content| >= MinSummaryLength ==>
      var ss := Summarizer.Sentences(content);
      r == Some((if dev then Summarizer.DevLabel else "") +
                Join(Summarizer.Select(ss, Summarizer.PickIndices(|ss|)), ". ") + ".")
  {
    if content == "" || |content| < MinSummaryLength then prior
    else Some(Summarizer.SummarizeText(content, dev))
  }

  /** What `onSubmit` hands to `onSave`: the form data, with the summary
      attached when one is set. */
  datatype Submission = Submission(form: NoteFormData, summary: Option<string>)

  /** `onSubmit`: attaches the summary exactly when it is set and non-empty. */
  function OnSubmit(data: NoteFormData, summary: Option<string>): (r: Submission)
    ensures r.form == data
    ensures r.summary.Some? <==> Truthy(summary)
    ensures r.summary.Some? ==> r.summary == summary
  {
    if Truthy(summary) then Submission(data, summary) else Submission(data, None)
  }

  /** A form that passes the schema produces a submission with a non-empty
      title and content, the only place where emptiness is checked. */
  lemma SubmittedFormIsNonEmpty(data: NoteFormData, summary: Option<string>)
    requires SchemaIssues(data) == []
    ensures OnSubmit(data, summary).form.title != "" && OnSubmit(data, summary).form.content != ""
  {
  }
}
