# Not Defterim — a Dafny model of the note book's synchronisation core

Not Defterim is a single-page note book whose notes live in one Google spreadsheet. A Google
Apps Script web app owns the sheet. It answers `GET ?action=…` and `POST {action, …}`
requests with JSON envelopes. The browser reaches that script through a thin gateway
(`googleSheetsService`). A synchronisation hook (`useGoogleSheets`) converts between the wire
row, where every field is a string and the tags are joined with `", "`, and the in-memory
note. The hook keeps the state `notes`, `loading` and `error`, and it updates `notes` only
after the server has acknowledged a write. The page (`App`) filters and sorts the notes for
display and counts the pinned ones. The editor form (`NoteModal`) edits a draft and its tag
list.

The model has one module per layer:

- `Wrappers`: the `Option` and `Result` datatypes.
- `Text`: the string operations the code relies on, over `seq<char>`. These are trim, split,
  join, `startsWith`, `endsWith`, `includes`, `substring(0, n)` and the decimal rendering of
  `Date.now()`.
- `Types`: the note, the draft, the wire note, the requests and the response envelopes.
- `AppsScript` (google-apps-script.js):
  - pure functions over the rows of the sheet's data range;
  - a class `Sheet` whose `rows` field the server's handlers update;
  - `DoGet` and `DoPost`, which dispatch on the action.
- `Gateway` (src/services/googleSheets.ts):
  - each call is a function of the configured URL and of the `Response` the network
    delivers;
  - each call returns the request it sent, or `None` when it stopped before sending;
  - it also returns its outcome, a returned value or a thrown message.
- `Sync` (src/hooks/useGoogleSheets.ts):
  - the wire conversion and its round trip;
  - one pure transition function (`Step`) per hook operation;
  - a class `NoteStore` whose methods are proved to perform exactly those transitions.
- `AppView` (src/App.tsx):
  - the search and category filter;
  - the page's comparator, proved to be a total preorder;
  - an in-place insertion sort over an `array`, proved to sort and to permute;
  - the pinned count, with the proof that the pinned notes form a prefix of the display;
  - a class `App` holding the modal state and the page's event handlers.
- `NoteModal` (src/components/NoteModal.tsx): the tag list operations and the invariants
  they keep, and a class `NoteForm` with the form's fields and its handlers.

Two things are parameters rather than modelled: the browser's `toLowerCase` (a function
`lower`) and the date parse of `updatedAt` (a function `time`). The clocks are parameters too:
`nowMillis` is `Date.now()` and `now` is the ISO timestamp string.

The header check of `initializeSheet` compares the first cell with exactly `'ID'` or `'id'`,
and `HasHeader` does the same.

## Model

| member | source | states |
|---|---|---|
| Text.TrimIsTrimmedInfix | src/components/NoteModal.tsx:45-49 | the trimmed title and content are trimmed strings, made only of characters of the input |
| Text.TrimIdempotent | src/components/NoteModal.tsx:59-60 | trimming twice gives the same string as trimming once |
| Text.TrimSkipsLeadingSpace | src/hooks/useGoogleSheets.ts:15 | leading white space, such as the space after a `", "` separator, does not change the trimmed tag |
| Text.Split | src/hooks/useGoogleSheets.ts:15 | a split on `,` yields at least one piece, and no piece contains a comma |
| Text.SplitAtSeparator | src/hooks/useGoogleSheets.ts:15 | a split of `a` + `,` + `b`, where `a` is comma-free, is `a` followed by the split of `b` |
| Text.StartsWith | src/services/googleSheets.ts:20 | true exactly when the prefix is an initial slice of the string |
| Text.EndsWith | src/services/googleSheets.ts:21 | true exactly when the suffix is a final slice of the string |
| Text.Includes | src/App.tsx:66-68 | true exactly when the term occurs at some position, in both directions |
| Text.IncludesEmpty | src/App.tsx:66-68 | every string includes the empty term |
| Text.ParseNatToString | src/hooks/useGoogleSheets.ts:63 | the decimal rendering of a millisecond clock reads back as the same number |
| Text.NatToStringInjective | src/hooks/useGoogleSheets.ts:63 | different clock readings give different id strings |
| AppsScript.RowToNote | google-apps-script.js:88-97 | the category and pin of a record read from a row are never empty, nor are its timestamps when the clock string is non-empty; a row with eight non-empty cells reads back as those cells (RowToNoteDefaults gives every field) |
| AppsScript.RowToNoteDefaults | google-apps-script.js:88-97 | a record read from a row has the row's non-empty cells, and the defaults for empty cells: `''`, `'Genel'` for the category, the clock for both timestamps, `'false'` for the pin |
| AppsScript.RowRoundTrip | google-apps-script.js:88-97 | when the cells that have defaults (category, both timestamps, pin) are non-empty, reading back the eight cells written for a note returns the same note |
| AppsScript.PutRow | google-apps-script.js:157-158 | writing eight cells over a row sets the first columns to those values and keeps the later cells |
| AppsScript.RowsToNotes | google-apps-script.js:86-97 | rows with an empty id cell are dropped; every note returned has a non-empty id and category |
| AppsScript.RowsToNotesAppend | google-apps-script.js:86-97 | the conversion of rows distributes over concatenation, so row order is kept |
| AppsScript.RowsToNotesMembers | google-apps-script.js:86-97 | a note is returned exactly when some row with a non-empty id cell converts to it |
| AppsScript.GetAllNotes | google-apps-script.js:76-97 | a data range of at most one row gives no notes; otherwise at most one note per data row, each with a non-empty id and category |
| AppsScript.GetAllNotesSkipsHeader | google-apps-script.js:86 | the first row is never read as a note; the notes are those of the rows after it |
| AppsScript.Initialized | google-apps-script.js:189-205 | afterwards the sheet has a header; an existing `ID`/`id` header leaves the rows unchanged; otherwise the first row starts with the eight header cells and every later row is unchanged |
| AppsScript.InitializedIdempotent | google-apps-script.js:194-198 | initialising twice gives the same rows as initialising once |
| AppsScript.FindRowFrom | google-apps-script.js:138 | the index found is the first at or after `start` whose id cell equals the id; `None` means no row matches |
| AppsScript.FindRow | google-apps-script.js:138 | the search skips the header row and finds the first data row with that id; an absent id matches nothing |
| AppsScript.UpdateRows | google-apps-script.js:132-160 | succeeds exactly when a matching data row exists and a note was given; then that row holds the note's cells and every other row is unchanged |
| AppsScript.DeleteRows | google-apps-script.js:167-182 | succeeds exactly when a matching data row exists; then exactly that row is removed and the others keep their order |
| AppsScript.UpdateThenRead | google-apps-script.js:132-160 | after an update, the updated row is read back as the new note, given the same non-empty defaulted cells |
| AppsScript.AddThenRead | google-apps-script.js:104-125 | an added note with a non-empty id is read back last by `getAllNotes` |
| AppsScript.Sheet.constructor | google-apps-script.js:78-79 | the sheet holds the given rows |
| AppsScript.Sheet.InitializeSheet | google-apps-script.js:189-210 | returns true; the rows become `Initialized` of the old rows |
| AppsScript.Sheet.AddNote | google-apps-script.js:104-130 | an empty sheet gets the header first; a given note's eight cells are appended and true is returned; a missing note returns false |
| AppsScript.Sheet.UpdateNote | google-apps-script.js:132-165 | the result and the new rows are those of `UpdateRows`; on failure nothing changes |
| AppsScript.Sheet.DeleteNote | google-apps-script.js:167-187 | the result and the new rows are those of `DeleteRows`; on failure nothing changes |
| AppsScript.Sheet.DoGet | google-apps-script.js:7-32 | `getAllNotes` answers `{notes}` from the current rows; `testConnection` answers `{success: true}`; any other action answers `{error: 'Invalid action'}` |
| AppsScript.Sheet.DoPost | google-apps-script.js:34-74 | a body that fails to parse answers the parser's message as `error` and changes nothing; each action runs its handler and answers its boolean as `success`; an unknown action answers `Invalid action` and changes nothing |
| Gateway.IsValidUrl | src/services/googleSheets.ts:18-22 | a URL that passes the guard starts with the script prefix and ends with `/exec` (ValidUrlShape gives both directions) |
| Gateway.ValidUrlShape | src/services/googleSheets.ts:18-22 | a URL is valid exactly when it is non-empty, starts with the script prefix and ends with `/exec` |
| Gateway.ConfiguredUrlIsValid | src/services/googleSheets.ts:2 | the configured deployment URL passes the check |
| Gateway.GetAllNotes | src/services/googleSheets.ts:24-59 | invalid URL: throws the configuration message and sends nothing; otherwise sends `GET getAllNotes`; returns exactly on a successful JSON answer without `error`, then `notes` or `[]`; a network failure, a non-2xx status, an invalid JSON body or an `error` member each throw, with their messages |
| Gateway.Mutate | src/services/googleSheets.ts:61-101 | invalid URL: throws and sends nothing; otherwise the body is sent and every failure becomes false; true exactly for a JSON answer without `error` whose `success` is `true` |
| Gateway.AddNote | src/services/googleSheets.ts:61-101 | sends `{action: 'addNote', note}` |
| Gateway.UpdateNote | src/services/googleSheets.ts:103-144 | sends `{action: 'updateNote', noteId, note}` |
| Gateway.DeleteNote | src/services/googleSheets.ts:146-186 | sends `{action: 'deleteNote', noteId}` |
| Gateway.InitializeSheet | src/services/googleSheets.ts:188-227 | sends `{action: 'initializeSheet'}` |
| Gateway.TestConnection | src/services/googleSheets.ts:229-269 | never throws; sends `GET testConnection` only when the URL is valid; true exactly for a valid URL and a JSON answer without `error` whose `success` is `true` |
| Gateway.ServerEnvelopes | src/services/googleSheets.ts:50-54 | the script's envelopes are read as meant: `{success: b}` is `b`, `{error: m}` is false or a thrown `m`, `{notes}` is the notes |
| Sync.CleanWellFormed | src/hooks/useGoogleSheets.ts:15 | trimming comma-free pieces and dropping the empty ones yields non-empty, trimmed, comma-free tags |
| Sync.FromWire | src/hooks/useGoogleSheets.ts:10-19 | the decoded note has well-formed tags, none for an empty wire string, and is pinned exactly when the wire says `'true'` (RoundTrip and DecodeIsStable relate it to ToWire) |
| Sync.ToWire | src/hooks/useGoogleSheets.ts:21-30 | the pin is written as `'true'` exactly for a pinned note and `'false'` otherwise; no tags are written as the empty string |
| Sync.DecodeTags | src/hooks/useGoogleSheets.ts:15 | decoded tags are well-formed, and an empty wire string decodes to no tags |
| Sync.PinnedCoding | src/hooks/useGoogleSheets.ts:18-29 | a note is pinned exactly when the wire says `'true'`; a pin is written as `'true'` or `'false'` and read back unchanged |
| Sync.SplitJoin | src/hooks/useGoogleSheets.ts:15-26 | splitting a `", "`-joined list of comma-free tags on `,` gives the first tag and then each later tag with a leading space |
| Sync.CleanSpaced | src/hooks/useGoogleSheets.ts:15 | cleaning space-prefixed well-formed tags gives those tags back |
| Sync.TagsRoundTrip | src/hooks/useGoogleSheets.ts:15-26 | well-formed tags survive encoding and decoding |
| Sync.RoundTrip | src/hooks/useGoogleSheets.ts:10-30 | a note with well-formed tags survives conversion to the wire and back |
| Sync.DecodeIsStable | src/hooks/useGoogleSheets.ts:10-30 | a decoded note re-encodes and decodes to itself |
| Sync.CommaTagSplits | src/hooks/useGoogleSheets.ts:15-26 | a tag containing a comma does not survive: the tag `a,b` comes back as the two tags `a` and `b` |
| Sync.FindById | src/hooks/useGoogleSheets.ts:87 | `None` exactly when no note has the id; otherwise the first note with that id |
| Sync.FindByIdUnique | src/hooks/useGoogleSheets.ts:87 | with distinct ids, looking up a note's id finds that note |
| Sync.ReplaceById | src/hooks/useGoogleSheets.ts:104 | same length; each position holds the new note if its id matches, otherwise the old note |
| Sync.RemoveById | src/hooks/useGoogleSheets.ts:122 | keeps exactly the notes whose id differs |
| Sync.RemoveByIdAppend | src/hooks/useGoogleSheets.ts:122 | removal distributes over concatenation, so the order of the remaining notes is kept |
| Sync.RemoveAbsentId | src/hooks/useGoogleSheets.ts:122 | removing an id that no note has changes nothing |
| Sync.IdsOfReplace | src/hooks/useGoogleSheets.ts:104 | replacing by a note with the same id keeps the set of ids |
| Sync.UniqueRemove | src/hooks/useGoogleSheets.ts:122 | removal keeps ids distinct |
| Sync.DecodeAll | src/hooks/useGoogleSheets.ts:47 | every wire note is converted, in order |
| Sync.NewNote | src/hooks/useGoogleSheets.ts:60-66 | the new note's id is a non-empty decimal numeral, its creation and update times are equal, and it carries the draft's fields unchanged |
| Sync.Edited | src/hooks/useGoogleSheets.ts:93-98 | the updated note keeps the id and the creation time, takes the new update time, and carries the draft's fields unchanged |
| Sync.Toggled | src/hooks/useGoogleSheets.ts:140-144 | the toggled note has the opposite pin and the new update time; every other field is unchanged |
| Sync.AddStep | src/hooks/useGoogleSheets.ts:58-83 | the new note gets the id from the millisecond clock and both timestamps `now`; on acknowledgement it is prepended; otherwise the notes are kept and the add error is set |
| Sync.UpdateStep | src/hooks/useGoogleSheets.ts:85-115 | an id not in memory fails with `Not bulunamadı` and sends nothing; otherwise it sends the update of the edited note, succeeds exactly when the gateway acknowledges, then replaces only the notes with that id by the edited note; on failure the notes are kept and the update error is set |
| Sync.DeleteStep | src/hooks/useGoogleSheets.ts:117-133 | sends the delete; on acknowledgement exactly the notes with other ids remain; otherwise the notes are kept and the delete error is set |
| Sync.TogglePinStep | src/hooks/useGoogleSheets.ts:135-161 | an absent id fails without an error and without a request; otherwise it sends the update of the toggled note, succeeds exactly when the gateway acknowledges, then puts the toggled note at that id and leaves the notes with other ids unchanged; on failure the notes are kept and the update error is set |
| Sync.LoadStep | src/hooks/useGoogleSheets.ts:32-56 | a failed connection check gives the connection message; success exactly when the check passes and the listing returns, and then the notes are the decoded listing with the error cleared; any failure keeps the notes and sets an error; past the connection check it sends the check, the initialisation and the listing, in that order, and a listing that throws sets its message as the error |
| Sync.LoadIgnoresInitialize | src/hooks/useGoogleSheets.ts:44 | the initialisation's answer does not affect the loaded notes or the error |
| Sync.AddPrepends | src/hooks/useGoogleSheets.ts:72 | an acknowledged add is the new note followed by the old notes |
| Sync.AddKeepsIdsUnique | src/hooks/useGoogleSheets.ts:63-72 | when no existing note has the clock-derived id, an add keeps ids distinct |
| Sync.NewNoteIdsDiffer | src/hooks/useGoogleSheets.ts:63 | notes created at different millisecond readings get different ids |
| Sync.UpdateKeepsIds | src/hooks/useGoogleSheets.ts:93-104 | an update keeps the set of ids, and distinct ids stay distinct |
| Sync.DeleteRemovesId | src/hooks/useGoogleSheets.ts:122 | after an acknowledged delete, no note has the id and every other note is kept |
| Sync.ToggleChangesOnlyPin | src/hooks/useGoogleSheets.ts:140-150 | with distinct ids, an acknowledged toggle flips that note's pin and sets its `updatedAt`; every other field is kept |
| Sync.NoteStore.constructor | src/hooks/useGoogleSheets.ts:6-8 | no notes, loading, no error |
| Sync.NoteStore.LoadNotes | src/hooks/useGoogleSheets.ts:32-56 | the new notes, error and requests are those of `LoadStep`; loading is false afterwards |
| Sync.NoteStore.AddNote | src/hooks/useGoogleSheets.ts:58-83 | the new state, result and requests are those of `AddStep`; loading is unchanged |
| Sync.NoteStore.UpdateNote | src/hooks/useGoogleSheets.ts:85-115 | the new state, result and requests are those of `UpdateStep`; loading is unchanged |
| Sync.NoteStore.DeleteNote | src/hooks/useGoogleSheets.ts:117-133 | the new state, result and requests are those of `DeleteStep`; loading is unchanged |
| Sync.NoteStore.TogglePin | src/hooks/useGoogleSheets.ts:135-161 | the new state, result and requests are those of `TogglePinStep`; loading is unchanged |
| AppView.FilterNotes | src/App.tsx:65-73 | a note is kept exactly when it matches the search term (title, content or a tag, lower-cased) and the selected category |
| AppView.FilterNotesAppend | src/App.tsx:65-73 | the filter distributes over concatenation, so it keeps the surviving notes in their order and with their multiplicity |
| AppView.EmptyTermMatches | src/App.tsx:66-68 | an empty search term matches every note |
| AppView.NoFilterKeepsAll | src/App.tsx:65-73 | with no term and no category, the filter returns all notes in order |
| AppView.Compare | src/App.tsx:76-80 | of a pinned and an unpinned note the pinned one comes first; of two notes with the same pin state the more recently updated one may come first |
| AppView.CompareIsTotalPreorder | src/App.tsx:76-80 | the comparator is total and transitive, so the sorted order is well-defined up to ties |
| AppView.SortedPinnedFirst | src/App.tsx:77-78 | in the sorted display, no unpinned note comes before a pinned one |
| AppView.SortedNewestFirst | src/App.tsx:79 | in the sorted display, notes with the same pin state are ordered newest update first |
| AppView.SortNotes | src/App.tsx:76-80 | sorts the array in place by the comparator, as a permutation of its old contents |
| AppView.DisplayedNotes | src/App.tsx:65-80 | the displayed list is a sorted permutation of the filtered notes |
| AppView.PinnedCount | src/App.tsx:82 | counts the pinned notes; at most the number of notes |
| AppView.PinnedCountAppend | src/App.tsx:82 | the count distributes over concatenation |
| AppView.PinnedCountPermutation | src/App.tsx:82 | reordering notes does not change the count |
| AppView.PinnedCountOfFilter | src/App.tsx:65-82 | the filtered list has no more pinned notes than the full list |
| AppView.SortedPinnedPrefix | src/App.tsx:76-82 | in a sorted list the pinned notes are exactly the first `PinnedCount` positions |
| AppView.DisplayedPinnedPrefix | src/App.tsx:65-82 | in the display, a note is pinned exactly when its position is below the pinned count of the filtered notes |
| AppView.App.constructor | src/App.tsx:24-25 | the modal is closed and no note is being edited |
| AppView.App.HandleSaveNote | src/App.tsx:31-41 | editing a note: the store performs `UpdateStep` for its id; otherwise `AddStep`; afterwards no note is being edited |
| AppView.App.HandleEditNote | src/App.tsx:43-46 | the note is being edited and the modal is open |
| AppView.App.HandleDeleteNote | src/App.tsx:48-52 | confirmed: the store performs `DeleteStep`; declined: the store's notes and error are unchanged |
| AppView.App.HandleCloseModal | src/App.tsx:54-57 | the modal is closed and no note is being edited |
| AppView.App.HandleCreateNote | src/App.tsx:59-62 | the modal is open and no note is being edited |
| NoteModal.WithTag | src/components/NoteModal.tsx:58-63 | the old tags stay in place and at most one tag is appended; the tags afterwards are the old ones plus the trimmed input when it is non-empty |
| NoteModal.WithoutTag | src/components/NoteModal.tsx:65-67 | keeps exactly the tags different from the removed one |
| NoteModal.WithoutTagAppend | src/components/NoteModal.tsx:65-67 | removal distributes over concatenation, so the remaining tags keep their order |
| NoteModal.WithTagKeepsDistinct | src/components/NoteModal.tsx:58-63 | adding a tag keeps the tags distinct |
| NoteModal.WithoutTagKeepsDistinct | src/components/NoteModal.tsx:65-67 | removing a tag keeps the tags distinct |
| NoteModal.WithTagKeepsTrimmed | src/components/NoteModal.tsx:58-63 | adding a tag keeps every tag non-empty and trimmed |
| NoteModal.WithoutTagKeepsTrimmed | src/components/NoteModal.tsx:65-67 | removing a tag keeps every tag non-empty and trimmed |
| NoteModal.EditsKeepDistinct | src/components/NoteModal.tsx:58-67 | any sequence of tag additions and removals keeps the tags distinct, non-empty and trimmed |
| NoteModal.NoteForm.constructor | src/components/NoteModal.tsx:20-25 | empty title, content, tags and input; category `Genel`; not pinned |
| NoteModal.NoteForm.Reset | src/components/NoteModal.tsx:27-42 | editing a note copies its title, content, category, tags and pin, and keeps the tag input; otherwise every field returns to its initial value |
| NoteModal.NoteForm.HandleSave | src/components/NoteModal.tsx:44-56 | a draft is produced exactly when the trimmed title and content are both non-empty; it carries the trimmed title and content and the form's other fields |
| NoteModal.NoteForm.AddTag | src/components/NoteModal.tsx:58-63 | a non-empty trimmed input not yet present is appended and the input cleared; otherwise nothing changes |
| NoteModal.NoteForm.RemoveTag | src/components/NoteModal.tsx:65-67 | the tags become those without the removed tag |

## Left out

- Text.Take: JavaScript's `substring(0, 200)` counts UTF-16 code units, while a Dafny `char` is a Unicode scalar value. On text with characters outside the Basic Multilingual Plane (emoji, for instance) the model cuts the error text at a different place.
- Network, HTTP and JSON: `fetch`, status codes, response text and `JSON.parse` are abstracted as the `Gateway.Response` parameter. These are a rejected fetch, a non-2xx status with its text, a body that is not JSON, or a parsed envelope. The error texts keep the 200-character cut (`Text.Take`).
- Spreadsheet and content services: `SpreadsheetApp` and `ContentService` become the `rows` field of `AppsScript.Sheet` and the returned `Envelope`. An empty sheet's data range is modelled as no rows, where Apps Script reports one empty row.
- Cell types: every cell is a string. Apps Script's coercion of numbers, dates and booleans read back from cells is not modelled.
- Server clock: `getAllNotes` reads the clock once per defaulted cell. The model uses one `now` for the whole call.
- Server exceptions: a failed spreadsheet open, or a throw inside a handler, is not modelled. Only two such paths remain: a body that does not parse (`DoPost` with `Failure`) and a missing note, which makes `addNote` and `updateNote` return false.
- An `action` missing from the request is treated like any unknown action string.
- Partial note objects sent to the server are not modelled. A note is either given in full or absent.
- `toLowerCase` and the date parse are parameters. Unicode case mapping and `NaN` dates are not modelled: `time` returns an integer for every string.
- Concurrency: the async interleaving of hook operations and React's batching and stale closures are not modelled. Each operation runs to completion on the state it started from.
- `loadNotes`'s fallback message `'Notlar yüklenirken hata oluştu'` is for a thrown non-`Error` value, which the gateway never produces, so it is left out.
- The console logging and the browser's confirmation dialog are left out. The user's answer to the dialog is the `confirmed` parameter of `HandleDeleteNote`.
- The presentation components (note card, search bar, empty state, spinner, error banner), the `isFiltered` flag, the statistics markup and the key handler that calls `addTag` on Enter are not modelled.
- Sync.TagsRoundTrip: the round trip is proved only for well-formed tags (non-empty, trimmed, comma-free). `Sync.CommaTagSplits` shows that other tags are not preserved.
- AppView.SortNotes: the browser's `Array.prototype.sort` algorithm is not modelled. Any sort by the same comparator yields the same order up to ties, and the model proves an insertion sort.
