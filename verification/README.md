# smart-memo-sketchpad core, modelled in Dafny

smart-memo-sketchpad is a note-taking web app. Users sign in and write notes with a title, content and tags. They can mark notes as favourites, search them, and attach summaries, either produced locally or fetched from a chat-completion service. This project models the pure decision logic underneath the UI, as immutable datatypes and total functions:

- **Note store** (`NoteStore`, `NoteStoreProps`). The store is a sequence of `Note` records. Operations: owner-scoped listing, lookup by id, create (append), update (field merge, failing on a missing id), delete (filter), toggle-favourite, favourites and case-insensitive search. Related by lemmas: create-then-get, frame conditions, idempotent delete, toggling twice, id uniqueness kept, and favourites/search being sub-sequences of the owner's notes.
- **Local summariser** (`Summarizer`). `summarizeText` splits the text on maximal runs of `.`, `!` and `?`, drops blank pieces and picks sentences by position. It joins the picks with `". "` and adds a final `"."`. Input shorter than ten characters gives a fixed fallback.
- **Summary-response normalisation**. `Upstream` holds the reply body and the field chain. `GenerateSummary` is the serverless handler, as a function from (API key, request, upstream outcome) to (status, payload, prompt sent). `NoteCard` holds the card's copy of the chain, which checks emptiness after trimming where the handler checks it before.
- **Client-side helpers**:
  - the editor's form schema, tag editing, summarise gate and submission (`NoteEditor`);
  - the card preview and "save summary as note" (`NoteCard`);
  - the all-notes search filter (`AllNotesPage`);
  - the edit page's load and save decisions (`EditNotePage`);
  - the mock authentication registry and session (`MockAuth`);
  - the layout's login redirect and avatar initials (`AppLayout`).

Supporting modules:
- `Wrappers`: `Option`/`Result`.
- `Seqs`: `filter`, `findIndex` and `find`, with a sub-sequence relation.
- `Text`: ASCII `trim`, `toLowerCase`, `toUpperCase`, `includes`, `split` on one character, `join`.
- `Types`: `User`, `Note`, `NoteFormData`, and the update patch.

Inputs the program takes from its environment become parameters:
- fresh note ids (`newId`);
- clock readings (`createdAt`, `updatedAt`, `now`; `createNote` reads the clock twice, so it gets two);
- the `Date.now()` stamp in mock user ids;
- the development-build flag (`dev`);
- the configured API key;
- the upstream reply.

The code behaves as follows, and the model does the same:
- The store does not reject an empty title or content. Only the editor's schema does.
- A too-short summariser input is not an error. It yields the fallback string, because the thrown error is caught inside `summarizeText`.
- Nothing makes a new note's two timestamps equal.
- `EditNote`'s `handleSave` does not check ownership again. Only `fetchNote` does.
- The mock Google sign-in builds a new id each time it runs, but `saveUser` keeps the first registry entry for its fixed email. From the second run on, the session user's id differs from the registered user's id (`MockAuth.GoogleReSignInChangesId`).

The module `Text` models the JavaScript string and array built-ins the core calls (`trim`, `split`, `join`, `includes`, `toLowerCase`, `toUpperCase`, `charAt(0)`), restricted to ASCII letter casing.

## Model

| member | source | states |
|---|---|---|
| `Seqs.Filter` | src/services/noteService.ts:42 | `Array.prototype.filter`: the result holds exactly the elements satisfying the predicate, each with its original multiplicity, as a sub-sequence of the input |
| `Seqs.FindIndex` | src/services/noteService.ts:78 | `findIndex`: absent iff no element matches; otherwise an in-range matching position with no match before it |
| `Seqs.Find` | src/contexts/AuthContext.tsx:28 | `find`: absent iff nothing matches; otherwise a matching element that is the first match |
| `Upstream.FirstChoiceContent` | supabase/functions/generate-summary/index.ts:54 | `choices[0]?.message?.content`: absent when there are no choices or the first has no message; otherwise exactly the first choice's message content, and a present result always comes from there |
| `Upstream.PickField` | supabase/functions/generate-summary/index.ts:54-69 | the else-if chain: present iff one of first-choice content, `summary`, `content` is truthy, never empty, and the first truthy one in that order |
| `Text.Trim` | src/components/notes/NoteEditor.tsx:63 | `trim`: empty iff the string is all whitespace; otherwise the slice after the leading whitespace that starts and ends with non-whitespace and is followed only by whitespace |
| `Text.SplitOn` | src/components/layout/AppLayout.tsx:51 | `split` on one character: at least one piece, none containing the separator, and joining the pieces with it gives back the string |
| `Text.Lower` | src/services/noteService.ts:143 | `toLowerCase` on ASCII: same length, each capital letter becomes its small letter (code plus 32), every other character kept, so no capital is left |
| `Text.Upper` | src/components/layout/AppLayout.tsx:53 | `toUpperCase` on ASCII: same length, each small letter becomes its capital (code minus 32), every other character kept, so no small letter is left |
| `Text.LowerIgnoresCase` | src/services/noteService.ts:143 | lower-casing an upper-cased or lower-cased text gives the same as lower-casing the text |
| `Text.ContainsAt` | src/services/noteService.ts:147 | `includes` holds exactly when the needle occurs at some position of the string |
| `Text.JoinLast` | src/services/aiService.ts:66 | `join` of two or more parts is the join of all but the last, then the separator, then the last part |
| `NoteStore.Position` | src/services/noteService.ts:78-82 | the index `findIndex` finds for an id: absent iff no note has it, else the first note with that id |
| `NoteStore.GetNotes` | src/services/noteService.ts:39-43 | exactly the stored notes owned by the user, with their multiplicities, in stored order |
| `NoteStore.GetNoteById` | src/services/noteService.ts:46-50 | absent iff no note has the id; otherwise the first stored note with that id |
| `NoteStore.CreateNote` | src/services/noteService.ts:53-71 | the store grows by one at the end and keeps every earlier note; the new note has the given id, owner, title, content and clock values, is not a favourite, has no summary, and its tags default to `[]` |
| `NoteStore.UpdateNote` | src/services/noteService.ts:74-95 | fails with "Note not found" iff the id is absent, leaving the store unchanged; otherwise replaces the note in place with one carrying the supplied fields and the new `updated_at`, keeping id, owner, creation time and favourite flag, and leaving length and other notes unchanged |
| `NoteStore.ApplyPatch` | src/services/noteService.ts:84-88 | the spread keeps the note's id, owner, creation time and favourite flag, takes each field the patch supplies and keeps the others, and sets the update time |
| `NoteStore.DeleteNote` | src/services/noteService.ts:98-104 | removes every note with the id and keeps all other notes, with multiplicities, in order |
| `NoteStore.ToggleFavorite` | src/services/noteService.ts:107-128 | fails with "Note not found" iff the id is absent, store unchanged; otherwise the note in place has its favourite flag flipped and `updated_at` set, with nothing else changed |
| `NoteStore.GetFavorites` | src/services/noteService.ts:131-136 | exactly the owner's favourite notes, each with its stored multiplicity, in stored order |
| `NoteStore.SearchNotes` | src/services/noteService.ts:139-151 | exactly the owner's notes whose lowercased title, content or some tag contains the lowercased query, each with its stored multiplicity, in stored order |
| `NoteStoreProps.CreateThenGet` | src/services/noteService.ts:46-71 | after creating a note with a fresh id, looking that id up returns the new note |
| `NoteStoreProps.CreateListsNote` | src/services/noteService.ts:39-71 | after a create, the owner's list is the previous list followed by the new note |
| `NoteStoreProps.CreateLeavesOtherOwners` | src/services/noteService.ts:39-71 | a create leaves every other owner's list unchanged |
| `NoteStoreProps.CreateKeepsIdsUnique` | src/services/noteService.ts:53-71 | creating with a fresh id keeps note ids pairwise distinct |
| `NoteStoreProps.ReplaceKeepsIdsUnique` | src/services/noteService.ts:90 | replacing a note by one with the same id keeps ids pairwise distinct |
| `NoteStoreProps.ReplaceKeepsPositions` | src/services/noteService.ts:90 | replacing a note by one with the same id leaves every id lookup where it was |
| `NoteStoreProps.UpdateKeepsIdsUnique` | src/services/noteService.ts:74-95 | an update keeps ids pairwise distinct |
| `NoteStoreProps.UpdateTwiceIsOnce` | src/services/noteService.ts:74-95 | repeating an update with the same fields at the same time returns the same note and store |
| `NoteStoreProps.UpdateLeavesOtherOwners` | src/services/noteService.ts:74-95 | an update leaves the lists of owners other than the edited note's unchanged |
| `NoteStoreProps.UpdatedTagIsSearchable` | src/services/noteService.ts:74-151 | after an update that sets tags, searching the owner's notes for one of those tags finds the updated note |
| `NoteStoreProps.ToggleTwice` | src/services/noteService.ts:107-128 | two toggles restore the favourite flag: the store differs from the original only in the note's `updated_at` |
| `NoteStoreProps.ToggleKeepsIdsUnique` | src/services/noteService.ts:107-128 | a toggle keeps ids pairwise distinct |
| `NoteStoreProps.DeleteAbsent` | src/services/noteService.ts:98-104 | deleting an absent id leaves the store as it was |
| `NoteStoreProps.DeleteIdempotent` | src/services/noteService.ts:98-104 | deleting twice equals deleting once |
| `NoteStoreProps.DeleteKeepsIdsUnique` | src/services/noteService.ts:98-104 | deleting keeps ids pairwise distinct |
| `NoteStoreProps.FavoritesWithinNotes` | src/services/noteService.ts:131-136 | the favourites are the owner's notes narrowed to favourites, a sub-sequence of them |
| `NoteStoreProps.SearchWithinNotes` | src/services/noteService.ts:139-151 | the search result is the owner's notes narrowed by the text match, a sub-sequence of them |
| `NoteStoreProps.SearchIgnoresCase` | src/services/noteService.ts:143-150 | the search ignores the query's case: the upper-cased or lower-cased query finds exactly the same notes |
| `NoteStoreProps.SearchEmptyQuery` | src/services/noteService.ts:143-150 | an empty query returns all of the owner's notes |
| `Summarizer.TerminatorRun` | src/services/aiService.ts:62 | the length of the maximal run of `.`/`!`/`?` at the start of a string |
| `Summarizer.StripAppend` | src/services/aiService.ts:62 | removing terminators distributes over concatenation |
| `Summarizer.StripNoTerminator` | src/services/aiService.ts:62 | a terminator-free string is unchanged by removing terminators |
| `Summarizer.StripAllTerminators` | src/services/aiService.ts:62 | a string of terminators becomes empty when they are removed |
| `Summarizer.RunCountSkipsPrefix` | src/services/aiService.ts:62 | a terminator-free prefix does not change the number of terminator runs |
| `Summarizer.StripStep` | src/services/aiService.ts:62 | a terminator-free prefix followed by terminators strips to the prefix and the stripped rest |
| `Summarizer.RunStep` | src/services/aiService.ts:62 | a terminator-free prefix followed by a maximal run adds exactly one run |
| `Summarizer.SplitSentences` | src/services/aiService.ts:62 | splitting on `/[.!?]+/` gives at least one piece and no piece contains a terminator |
| `Summarizer.SplitSentencesConcat` | src/services/aiService.ts:62 | the pieces concatenate to the text without its terminators |
| `Summarizer.SplitSentencesCount` | src/services/aiService.ts:62 | there is one more piece than there are maximal terminator runs |
| `Summarizer.SplitRuns` | src/services/aiService.ts:62 | the separators the split removes: each is a non-empty run of `.`/`!`/`?` |
| `Summarizer.SplitSentencesRoundTrip` | src/services/aiService.ts:62 | there is one run fewer than pieces, putting the runs back between the pieces gives the text back, and every piece strictly between the first and the last is non-empty; with terminator-free pieces and non-empty runs this fixes every boundary at a maximal run |
| `Summarizer.InnerPiecesNonEmpty` | src/services/aiService.ts:62 | `split(/[.!?]+/)` never yields an empty piece strictly between the first and the last, because each separator is a maximal run |
| `Summarizer.Sentences` | src/services/aiService.ts:62 | exactly the split's pieces that are not all whitespace, each as often as in the split, untrimmed and in order |
| `Summarizer.PickIndices` | src/services/aiService.ts:65-84 | the picked positions are in range and strictly increasing; all of them for 3 or fewer sentences, three for 4 to 10, five above 10, starting at the first and ending at the last |
| `Summarizer.SummarizeText` | src/services/aiService.ts:55-99 | input shorter than ten characters gives "Unable to generate summary at this time."; otherwise the picked sentences joined by ". " with a final ".", prefixed with "Summary: " in development builds; the result always ends with "." |
| `Summarizer.SummaryBody` | src/services/aiService.ts:65-85 | the three templates (all sentences; first, middle, last; first, quarter, middle, three-quarter, last) are the join of the sentences at the picked positions with a final "." |
| `Summarizer.JoinThree` | src/services/aiService.ts:84 | joining three sentences with ". " is the three-sentence template |
| `Summarizer.JoinFive` | src/services/aiService.ts:82 | joining five sentences with ". " is the five-sentence template |
| `GenerateSummary.Handle` | supabase/functions/generate-summary/index.ts:8-85 | a missing or empty key gives 500 "API key not configured" before any upstream call; a missing, empty or non-string text gives 400; a request that is not JSON gives 500 with the caught message; a prompt is sent iff key and text pass; then 200 iff the chain picks a field, with its trimmed value; a thrown upstream call gives 500 with the caught message ("Unknown error occurred" if empty), and no field 500 "No summary received from Euron AI" |
| `GenerateSummary.IgnoresUpstreamStatus` | supabase/functions/generate-summary/index.ts:51-75 | the reply does not depend on the upstream HTTP status |
| `GenerateSummary.FieldPrecedence` | supabase/functions/generate-summary/index.ts:54-75 | a truthy first-choice content wins, then `summary`, then `content`; with none, 500 "No summary received from Euron AI" |
| `GenerateSummary.BlankChoiceGivesEmptySummary` | supabase/functions/generate-summary/index.ts:54-58 | for every body whose first-choice content is non-empty whitespace, the reply is 200 with an empty summary, whatever `summary` or `content` follows |
| `NoteCard.ContentPreview` | src/components/notes/NoteCard.tsx:35-37 | content of 150 characters or fewer is shown whole; longer content shows its first 150 characters followed by "..." |
| `NoteCard.GenerateSummaryOnCard` | src/components/notes/NoteCard.tsx:43-97 | the key is asked for iff it is blank, with the summary state untouched; otherwise the outcome is a success or a failure that clears the state: a thrown fetch fails with its message, a non-ok response with "API error: <status> <text>", an ok reply without a field that trims to something non-empty with "No summary received from Euron AI"; a success carries the trimmed first truthy field and sets the state |
| `NoteCard.BlankChoiceFailsOnCard` | src/components/notes/NoteCard.tsx:78-87 | for every ok body whose first-choice content is non-empty whitespace, the card fails with "No summary received from Euron AI" and clears its summary, not falling through to a usable `summary` |
| `NoteCard.CardAgreesWithHandler` | src/components/notes/NoteCard.tsx:77-88 | on the same ok body the card produces a summary iff the handler replies 200 with that non-empty summary |
| `NoteCard.SaveSummaryAsNote` | src/components/notes/NoteCard.tsx:100-119 | no summary creates nothing; otherwise one note is appended, owned by the card's owner, titled `AI Summary of "<title>"`, holding the summary, tagged with the original tags (or none) followed by "ai-summary", not a favourite and without a summary |
| `NoteCard.SavedSummaryIsListed` | src/components/notes/NoteCard.tsx:100-119 | the saved note appears last in its owner's list, after the notes the owner already had |
| `NoteEditor.InitialForm` | src/components/notes/NoteEditor.tsx:49-56 | a new note starts with empty title, content and tags; an edited note starts with its own title, content and tags (or none) |
| `NoteEditor.SchemaIssues` | src/components/notes/NoteEditor.tsx:30-34 | "Title is required" iff the title is empty; "Content is required" iff the content is empty; valid iff neither is |
| `NoteEditor.AddTag` | src/components/notes/NoteEditor.tsx:62-68 | the list grows by the trimmed input at the end iff it is non-empty and absent, and is otherwise unchanged; only a successful add clears the input; a list without duplicates keeps none |
| `NoteEditor.RemoveTag` | src/components/notes/NoteEditor.tsx:70-72 | every entry equal to the tag is removed; the others keep their multiplicities and order |
| `NoteEditor.RemoveUndoesAdd` | src/components/notes/NoteEditor.tsx:62-72 | removing a tag that was just added restores the previous list |
| `NoteEditor.Summarize` | src/components/notes/NoteEditor.tsx:81-99 | content shorter than 50 characters leaves the summary state as it was; otherwise the state becomes the local summariser's result |
| `NoteEditor.OnSubmit` | src/components/notes/NoteEditor.tsx:108-117 | the form data is passed on unchanged, with the summary attached iff one is set and non-empty |
| `NoteEditor.SubmittedFormIsNonEmpty` | src/components/notes/NoteEditor.tsx:30-34 | a form that passes the schema submits a non-empty title and content |
| `AllNotesPage.PageMatches` | src/pages/AllNotes.tsx:72-76 | the page's match on title, content or some tag is the store's search predicate for the lowercased query |
| `AllNotesPage.FilteredNotes` | src/pages/AllNotes.tsx:72-76 | absent while the notes are; otherwise exactly the notes whose lowercased title, content or some tag contains the lowercased query, each as often as in the list, as a sub-sequence |
| `AllNotesPage.EmptyQueryKeepsAll` | src/pages/AllNotes.tsx:72-76 | an empty query keeps every note |
| `AllNotesPage.AgreesWithSearch` | src/pages/AllNotes.tsx:72-76 | on one owner's notes, the page filter equals the store's search |
| `EditNotePage.FetchNote` | src/pages/EditNote.tsx:20-42 | a missing id fails with "Note ID is missing", an absent note with "Note not found"; the note is loaded iff it exists and is owned by the signed-in user; an existing note owned by someone else, or with nobody signed in, fails with "You do not have permission to edit this note" |
| `EditNotePage.PatchOf` | src/pages/EditNote.tsx:54 | spread onto any note, the submission writes the form's title and content, its tags when given, and the summary only when one was attached |
| `EditNotePage.HandleSave` | src/pages/EditNote.tsx:47-61 | a missing id updates nothing; otherwise the submission goes to the store's update |
| `EditNotePage.SaveKeepsIdentity` | src/pages/EditNote.tsx:20-61 | saving a loaded note writes the form's title and content in place and keeps its id, owner, creation time, favourite flag and summary |
| `MockAuth.GetUserByEmail` | src/contexts/AuthContext.tsx:26-29 | absent iff no registered user has the email; otherwise the first one that does |
| `MockAuth.SaveUser` | src/contexts/AuthContext.tsx:17-25 | appends the user iff its email is not registered, returns its argument either way, and keeps emails pairwise distinct |
| `MockAuth.SignIn` | src/contexts/AuthContext.tsx:150-167 | fails with "Invalid email or password", changing nothing, unless the first user with the email has that password; on success the stored session and the user become the first matching registry entry's user without the password |
| `MockAuth.SignUp` | src/contexts/AuthContext.tsx:252-279 | fails with "Email already in use", changing nothing, iff the email is registered; otherwise registers "mock-<stamp>" with the given details and signs it in without the password; emails stay distinct |
| `MockAuth.SignOut` | src/contexts/AuthContext.tsx:300-304 | clears the session and the user, keeps the registry, and leaves nobody authenticated |
| `MockAuth.RestoreSession` | src/contexts/AuthContext.tsx:96-99 | on load a stored session's user becomes the user; without one the user is left as it was, so from a signed-out start the result is authenticated iff a session was stored |
| `MockAuth.SessionUserDropsPassword` | src/contexts/AuthContext.tsx:155-160 | the session user carries the entry's id, email, name and avatar, and does not depend on its password |
| `MockAuth.AuthenticatedAfter` | src/contexts/AuthContext.tsx:319 | `isAuthenticated` after a sign-in or sign-up holds iff it succeeded or someone was already signed in; after the Google sign-in always; after sign-out never |
| `MockAuth.SignUpThenSignIn` | src/contexts/AuthContext.tsx:150-279 | after signing up, signing in with the same email and password succeeds with the same user and state |
| `MockAuth.SecondSignUpFails` | src/contexts/AuthContext.tsx:252-255 | signing up twice with one email fails the second time with nothing changed |
| `MockAuth.SessionSurvivesReload` | src/contexts/AuthContext.tsx:96-99 | a reload after signing in restores the signed-in user; after signing out it restores nobody |
| `MockAuth.SignInWithGoogle` | src/contexts/AuthContext.tsx:200-222 | signs in the fixed user (id "google-mock-<stamp>", the Google email, name "Google User", the default avatar URL) as user and session; the registry is unchanged if the email is known, otherwise gains exactly that user stored with password "mockpassword"; emails stay distinct |
| `MockAuth.GoogleReSignInChangesId` | src/contexts/AuthContext.tsx:204-221 | a second mock Google sign-in keeps the registry but signs in under an id that differs from the registered one |
| `MockAuth.LocalPart` | src/contexts/AuthContext.tsx:88 | `email.split('@')[0]`: the longest prefix without '@', followed by '@' unless it is the whole email |
| `MockAuth.DisplayName` | src/contexts/AuthContext.tsx:88 | (hosted-backend branch of `checkSession`) the metadata name if truthy, else the email's part before '@' if non-empty, else "User"; never empty |
| `AppLayout.SignedOutIsRedirected` | src/components/layout/AppLayout.tsx:44-46 | after signing out the layout redirects to the login page once loading is over, never while loading |
| `AppLayout.SignedInStays` | src/components/layout/AppLayout.tsx:44-46 | after a successful sign-in the layout does not redirect |
| `AppLayout.MountRedirect` | src/components/layout/AppLayout.tsx:44-46 | from a signed-out start there is no redirect while loading, and after the stored session is read there is one iff no session was stored |
| `AppLayout.Initials` | src/components/layout/AppLayout.tsx:49-54 | an absent or empty name gives "U"; the result has at most two characters |
| `AppLayout.InitialsWithoutSpace` | src/components/layout/AppLayout.tsx:51-52 | a non-empty name without spaces gives its upper-cased first character |
| `AppLayout.SpacedNameParts` | src/components/layout/AppLayout.tsx:51-53 | the space-separated parts of a name with a space are several: the first starts the name, the last is what follows the last space |
| `AppLayout.InitialsWithSpace` | src/components/layout/AppLayout.tsx:53 | a name with a space gives the upper-cased first character (none if it is a space) and the character after the last space (none if the name ends there) |
| `AppLayout.TwoWordInitials` | src/components/layout/AppLayout.tsx:53 | two space-separated words give the upper-cased first letters of the two words |

## Left out

- Persistence. localStorage and JSON (de)serialisation (noteService.ts:5-31, AuthContext.tsx:12-44) are not modelled. The store, the registry and the session are values passed in and returned.
- Simulated delays, `Math.random` ids and `new Date()` are left out. They are foreign effects, so fresh ids, clock readings and the `Date.now()` stamp are parameters. Freshness of ids is a precondition only where a property needs it.
- Network calls are not modelled: `generateAiSummary`, the card's `fetch`, and the handler's upstream request. Only how their outcomes are shaped is modelled. An outcome is a thrown error or a reply.
- The hosted-backend (Supabase) branches of `AuthContext` are left out: session restore, sign-in, sign-up, sign-out, OAuth and the subscription. They are foreign calls. Only their display-name derivation is modelled (`MockAuth.DisplayName`).
- React rendering, routing, react-query caching, toasts, dialogs and loading flags are left out as UI. The pages not named above are left out too.
- zod, react-hook-form and date formatting are left out. The schema is modelled as the list of messages it produces.
- Unicode is not modelled: lower/upper-casing and whitespace are ASCII only.
- `Summarizer.SummarizeText`, `NoteCard.ContentPreview` and `NoteEditor.Summarize` count characters where JavaScript's `length` and `substring` count UTF-16 code units. The 10-, 50- and 150-character thresholds therefore move for text outside the Basic Multilingual Plane: five emoji have length 10 in the app and are summarised, while the model returns the fallback.
- `AppLayout.Initials` bounds the result to two characters only because casing is ASCII here. JavaScript's `toUpperCase` can lengthen a character ("ß" becomes "SS"), so the app can return three or more characters.
- Non-string values in JSON fields are left out. The handler's `text` is either a string or "something else", and an upstream reply field is always a string when present.
- `updateNote` patches: an explicit `undefined` value in a patch is not modelled, only an absent key. In the app, patches come from the editor's form, which always supplies title and content.
- `GenerateSummary.Handle` does not model the upstream reply failing to parse as JSON separately. It is one more way for the upstream call to throw, and is modelled as such.
- `NoteCard.GenerateSummaryOnCard` does not model `response.json()` throwing on an ok response separately. It is modelled as a thrown fetch (`CardFetchThrew`), which ends in the same `Failed` outcome with the error's message.
- `AppLayout.Initials` states only the empty-name case and the length bound in its own contract. The space and no-space cases are stated by `AppLayout.InitialsWithoutSpace` and `AppLayout.InitialsWithSpace`.
