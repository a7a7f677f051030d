/** The pure logic of the note card, `src/components/notes/NoteCard.tsx`:
    the content preview, the summary extraction of `handleGenerateSummary`,
    and the note that `handleSaveInTab` creates from a summary. */
module NoteCard {
  import opened Wrappers
  import opened Text
  import opened Types
  import opened Upstream
  import NoteStore
  import NoteStoreProps
  import GenerateSummary

  const PreviewLength: nat := 150

  /** The content shown on the card: the whole content up to 150 characters,
      otherwise its first 150 characters followed by "...". */
  function ContentPreview(content: string): (r: string)
    ensures |content| <= PreviewLength ==> r == content
    ensures |content| > PreviewLength ==> |r| == PreviewLength + 3 && r[PreviewLength..] == "..."
    ensures var k := if |content| < PreviewLength then |content| else PreviewLength;
            k <= |r| && r[..k] == content[..k]
  {
    if |content| > PreviewLength then content[..PreviewLength] + "..." else content
  }

  /** What the fetch in `handleGenerateSummary` produced: a thrown error, or
      a response with its `ok` flag, its status and body text (read when not
      ok), and its parsed body (read when ok). A `response.json()` that
      throws on an ok response lands in the same `catch` as a failed fetch,
      so it is a `CardFetchThrew`. */
  datatype CardReply =
    | CardFetchThrew(error: string)
    | CardResponse(ok: bool, status: string, errorText: string, body: ReplyBody)

  /** What one click on "Summarize" ends in. */
  datatype CardOutcome = NeedsKey | Summarised(summary: string) | Failed(message: string)

  /** `handleGenerateSummary`, returning the outcome and the card's `summary`
      state afterwards. A blank key stops before any request and leaves the
      state alone. Otherwise the state is cleared, a non-ok response fails,
      and the field chain is applied with every candidate trimmed; the
      `else if` chain has already committed to the first truthy field, so a
      whitespace-only winner fails rather than falling through. */
  function GenerateSummaryOnCard(apiKey: string, prior: Option<string>, reply: CardReply): (r: (CardOutcome, Option<string>))
    ensures r.0.NeedsKey? <==> Trim(apiKey) == ""
    ensures Trim(apiKey) == "" ==> r == (NeedsKey, prior)
    ensures Trim(apiKey) != "" && !r.0.Summarised? ==> r.0.Failed? && r.1 == None
    ensures Trim(apiKey) != "" && reply.CardFetchThrew? ==> r == (Failed(reply.error), None)
    ensures Trim(apiKey) != "" && reply.CardResponse? && !reply.ok ==>
              r == (Failed("API error: " + reply.status + " " + reply.errorText), None)
    ensures r.0.Summarised? ==> r.1 == Some(r.0.summary) && r.0.summary != ""
    ensures r.0.Summarised? ==> reply.CardResponse? && reply.ok && PickField(reply.body).Some? &&
                                r.0.summary == Trim(PickField(reply.body).value)
    ensures r.0.Failed? ==> r.1 == None
    ensures Trim(apiKey) != "" && reply.CardResponse? && reply.ok ==>
              (r.0.Summarised? <==> PickField(reply.body).Some? && Trim(PickField(reply.body).value) != "")
    ensures Trim(apiKey) != "" && reply.CardResponse? && reply.ok && !r.0.Summarised? ==>
              r == (Failed(NoSummaryMessage), None)
  {
    if Trim(apiKey) == "" then (NeedsKey, prior)
    else
      match reply
      case CardFetchThrew(e) => (Failed(e), None)
      case CardResponse(ok, status, errorText, body) =>
        if !ok then (Failed("API error: " + status + " " + errorText), None)
        else
          var generated := match PickField(body) case Some(raw) => Trim(raw) case None => "";
          if generated == "" then (Failed(NoSummaryMessage), None)
          else (Summarised(generated), Some(generated))
  }

  /** A whitespace-only first-choice content makes the card fail and clear
      its summary, whatever usable `summary` or `content` field follows it,
      where the serverless function replies 200 with an empty summary. */
  lemma BlankChoiceFailsOnCard(apiKey: string, prior: Option<string>, status: string, errorText: string,
                               body: ReplyBody)
    requires Trim(apiKey) != ""
    requires Truthy(FirstChoiceContent(body)) && AllWhitespace(FirstChoiceContent(body).value)
    ensures GenerateSummaryOnCard(apiKey, prior, CardResponse(true, status, errorText, body))
              == (Failed(NoSummaryMessage), None)
  {
  }

  /** On the same successful upstream body, the card produces a summary
      exactly when the serverless function replies 200 with a non-empty one,
      and the two summaries agree. They differ only where the winning field is
      whitespace. */
  lemma CardAgreesWithHandler(cardKey: string, serverKey: string, text: string,
                              status: string, errorText: string, httpStatus: int, body: ReplyBody, s: string)
    requires Trim(cardKey) != "" && serverKey != "" && text != ""
    ensures var card := GenerateSummaryOnCard(cardKey, None, CardResponse(true, status, errorText, body)).0;
            var server := GenerateSummary.Handle(Some(serverKey), GenerateSummary.RequestJson(Some(GenerateSummary.JsString(text))),
                                                 GenerateSummary.UpstreamReplied(httpStatus, body));
            card == Summarised(s) <==> server.status == 200 && server.payload == GenerateSummary.SummaryPayload(s) && s != ""
  {
  }

  const SummaryTag: string := "ai-summary"

  /** The title of a note saved from a summary: `AI Summary of "<title>"`. */
  function SummaryTitle(title: string): string {
    "AI Summary of \"" + title + "\""
  }

  /** `handleSaveInTab`: with no (or an empty) summary nothing is created;
      otherwise a note owned by the card's owner is appended, holding the
      summary, titled after the card's note and tagged with its tags followed
      by "ai-summary", without removing an existing "ai-summary" tag. */
  function SaveSummaryAsNote(note: Note, summary: Option<string>, store: NoteStore.Store,
                             newId: string, createdAt: Timestamp, updatedAt: Timestamp): (r: (NoteStore.Store, Option<Note>))
    ensures !Truthy(summary) ==> r == (store, None)
    ensures Truthy(summary) ==>
      && r.1.Some?
      && r.0 == store + [r.1.value]
      && r.1.value.userId == note.userId
      && r.1.value.title == SummaryTitle(note.title)
      && r.1.value.content == summary.value
      && r.1.value.tags == Some(note.tags.GetOr([]) + [SummaryTag])
      && !r.1.value.isFavorite && r.1.value.summary.None?
  {
    if !Truthy(summary) then (store, None)
    else
      var data := NoteFormData(SummaryTitle(note.title), summary.value, Some(note.tags.GetOr([]) + [SummaryTag]));
      var (s, n) := NoteStore.CreateNote(store, note.userId, data, newId, createdAt, updatedAt);
      assert s == s[..|store|] + [s[|store|]];
      (s, Some(n))
  }

  /** The saved summary note is listed last among the owner's notes, after
      every note the owner had before, which keep their order. */
  lemma SavedSummaryIsListed(note: Note, summary: string, store: NoteStore.Store,
                             newId: string, createdAt: Timestamp, updatedAt: Timestamp)
    requires summary != ""
    ensures var (s, n) := SaveSummaryAsNote(note, Some(summary), store, newId, createdAt, updatedAt);
            NoteStore.GetNotes(s, note.userId) == NoteStore.GetNotes(store, note.userId) + [n.value]
  {
    var data := NoteFormData(SummaryTitle(note.title), summary, Some(note.tags.GetOr([]) + [SummaryTag]));
    NoteStoreProps.CreateListsNote(store, note.userId, data, newId, createdAt, updatedAt);
  }
}
