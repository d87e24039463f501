# NoteSphere notes, modelled in Dafny

NoteSphere ("Bloc de Notas") is a browser note-taking application. A note has
an id of the form `YYMMDD` plus a sequence number, a title, an objective, a
notes area in markdown, a creation time, a pin flag and attached images. This
project models the parts of the application that compute something:

- the note repository (`NoteContext`): adding, editing, deleting, pinning,
  looking up, clearing and importing notes, all kept sorted pinned-first then
  newest-first;
- note ids, regex escaping and search highlighting (`note-utils`);
- the card list (`NoteList`): search filter, order, and the empty and
  no-results faces;
- the table (`NoteTable`): its filter, column sorting, row selection and the
  pin/unpin buttons;
- the editor (`NoteForm`): field rules, submit, the markdown toolbar's text
  edits, and image previews;
- the note card (`NoteCard`): notes preview, highlighting and thumbnails;
- the AI suggestion flow: how the model's reply is normalised, and the
  title-only classifier.

Modules and files:

| file | module | models |
|---|---|---|
| `wrappers.dfy` | `Wrappers` | `Option` |
| `text.dfy` | `Text` | the JavaScript string operations the source uses: `trim`, ASCII `toLowerCase`, `startsWith`, `indexOf`/`includes`, string `<`, digits, `parseInt`, `padStart` |
| `json.dfy` | `JsonValues` | parsed JSON values, property access, truthiness |
| `notes.dfy` | `Notes` | the `Note` record; `find`, `map`, `filter`; id uniqueness |
| `note_order.dfy` | `NoteOrder` | the three comparators; an in-place insertion sort on an array; the sorted copy |
| `note_utils.dfy` | `NoteUtils` | `generateNoteId`, `escapeRegExp`, `highlightTextInMarkdown` |
| `note_context.dfy` | `NoteContext` | the pure list operations and the class `NoteRepository` |
| `note_list.dfy` | `NoteList` | `NoteList` |
| `note_table.dfy` | `NoteTable` | `NoteTable`, with the class `NoteTableState` |
| `note_form.dfy` | `NoteForm` | `NoteForm`, with the class `ImagePreviews` |
| `note_card.dfy` | `NoteCard` | `NoteCard` |
| `suggest_related_notes.dfy` | `SuggestRelatedNotes` | `suggestRelatedNotesFlow` |

The state the source changes in place is modelled with classes:

- `NoteContext.NoteRepository` holds the notes and the note selected for AI.
  Its methods keep the notes sorted pinned-first then newest-first. They
  keep the ids distinct too, except that `AddNote` does so only while today's
  largest two-digit sequence number is at most 98 (see Findings).
- `NoteTable.NoteTableState` holds the selected row ids and the sort choice.
- `NoteForm.ImagePreviews` holds the editor's image previews.

The in-place `Array.prototype.sort` is `NoteOrder.SortNotes`, on an `array`.
The other operations are functions over sequences.

Behaviours of the code worth knowing:

- A `null` entry in an imported array makes `importedObj.id` throw. The whole
  import then ends in the critical-error branch and nothing is applied; it is
  not counted as one skipped record.
- Importing an empty array is not reported as a failure. It reaches the upsert
  step, completes with 0 created, 0 updated and 0 skipped, and re-sorts.
- `isPinned` must be a JSON boolean. A "boolean-like" string is rejected.
- The id's sequence part is padded to two digits, not limited to two. Past 99
  the code repeats an id (see Findings). The model's `AddNote` uses the
  code's generator as written.
- The title-only classifier looks for the Spanish labels "Título:",
  "Objetivo:" and "Notas:". The suggestion panel sends the note with the
  English labels "Title:", "Objective:" and "Notes:", so the panel's requests
  are never classified as direct queries. The classifier only chooses which
  warning is logged, so nothing else changes.

## Model

| member | source | states |
|---|---|---|
| Text.Trim | src/components/NoteList.tsx:19 | the result is the input with a blank prefix and a blank suffix cut off; it is empty exactly when the input is all blanks, and otherwise starts and ends with a non-blank |
| Text.TrimStart | src/components/NoteForm.tsx:155 | the result is a suffix of the input; only blanks were dropped; it starts with a non-blank |
| Text.IndexOfFrom | src/lib/note-utils.ts:47-49 | the result is the first position at or after `from` where the needle occurs; absent only when no such position exists |
| Text.Includes | src/components/NoteList.tsx:24-27 | true exactly when the needle occurs at some position |
| Text.StrCompareAntisymmetric | src/components/NoteTable.tsx:78-83 | string comparison is antisymmetric and equal to 0 only for equal strings |
| Text.StrCompareTransitive | src/components/NoteTable.tsx:78-83 | string `<` is transitive |
| Text.NatToStringRoundTrip | src/lib/note-utils.ts:11-17 | `parseInt` of `n.toString()` gives `n` back |
| Text.PadStart2 | src/lib/note-utils.ts:17 | the result is all digits, reads back as `n`, and has length 2 below 100 and the decimal length above |
| JsonValues.Member | src/contexts/NoteContext.tsx:138-144 | a property is present only on an object that has that field, and equals the field |
| Notes.IndexOfId | src/contexts/NoteContext.tsx:113 | the index of the first note with the id; absent exactly when no note has it |
| Notes.FindById | src/contexts/NoteContext.tsx:112-114 | a found note is in the list and has the id; none is found exactly when no note has the id |
| Notes.FindByIdUnique | src/contexts/NoteContext.tsx:113 | with distinct ids, `find` returns the note at the id's position |
| Notes.FilterNotes | src/contexts/NoteContext.tsx:69 | a note is kept exactly when it is in the input and passes the test |
| Notes.FilterConcat | src/contexts/NoteContext.tsx:69 | filtering keeps the input order: filtering two runs joined is the two filtered runs joined |
| Notes.FilterSingle | src/contexts/NoteContext.tsx:69 | a single note is kept exactly when it passes the test |
| Notes.FilterPartitions | src/contexts/NoteContext.tsx:69 | what a filter keeps and what it drops add up to the input, as multisets |
| Notes.FilterKeepsAll | src/components/NoteList.tsx:20-22 | a filter that passes every note returns the input unchanged |
| Notes.FilterKeepsUniqueIds | src/contexts/NoteContext.tsx:79 | filtering keeps ids distinct |
| Notes.MapNotesPermutation | src/contexts/NoteContext.tsx:89-95 | mapping two rearrangements of the same notes gives two rearrangements of the same results |
| Notes.UniqueIdsPermutation | src/contexts/NoteContext.tsx:40-46 | sorting cannot create duplicate ids |
| NoteOrder.CmpAntisymmetric | src/components/NoteTable.tsx:66-94 | each comparator (context/list order, table column orders) gives opposite signs for swapped arguments |
| NoteOrder.CmpTransitive | src/components/NoteTable.tsx:66-94 | each comparator's "goes no later than" is transitive |
| NoteOrder.OrdersAreConsistent | src/contexts/NoteContext.tsx:40-46 | every comparator is a consistent comparison, as `Array.prototype.sort` requires |
| NoteOrder.SortedPinnedFirstNewest | src/contexts/NoteContext.tsx:41-45 | sorted by the default order means every pinned note precedes every unpinned one, and newer precedes older within each group |
| NoteOrder.SortedByColumn | src/components/NoteTable.tsx:66-88 | sorted by a column means ordered by the lower-cased column (or pin flag) in the chosen direction, with ties newest first except for the creation-date column |
| NoteOrder.FilterKeepsSorted | src/components/NoteList.tsx:17-34 | filtering a sorted list leaves it sorted |
| NoteOrder.InsertionSort | src/contexts/NoteContext.tsx:41 | an in-place sort on an array under any consistent comparator leaves it sorted and a permutation of what it held |
| NoteOrder.SortNotes | src/contexts/NoteContext.tsx:40-46 | the array ends sorted by the chosen order and holds the same notes |
| NoteOrder.SortedCopy | src/components/NoteTable.tsx:53-96 | a sorted copy: sorted by the order and a permutation of the input |
| NoteUtils.MaxSeq | src/lib/note-utils.ts:9-15 | the largest sequence number among ids counting toward today, or 0, and an upper bound of all of them |
| NoteUtils.GenerateNoteId | src/lib/note-utils.ts:5-19 | the loop computes the source's next id: today's date plus one more than the largest sequence number among today's 8-character ids, padded to two digits (fresh while that maximum is at most 98, repeated past 99) |
| NoteUtils.NextNoteIdFresh | src/lib/note-utils.ts:5-19 | the generated id starts with today, counts toward today's sequence, is one past the maximum, and is not the id of any existing note |
| NoteUtils.FirstIdOfTheDay | src/lib/note-utils.ts:9-18 | with no id of today yet, the id is today followed by "01" |
| NoteUtils.NextNoteIdAsWrittenFreshBelow99 | src/lib/note-utils.ts:7-18 | the source's generator is fresh and 8 characters long while today's largest sequence number is at most 98 |
| NoteUtils.NextNoteIdAsWrittenRepeats | src/lib/note-utils.ts:6-17 | for any day, after a note "<day>99" the source's generator returns "<day>100", and it returns that same id again once a note has it |
| NoteUtils.EscapeRegExp | src/lib/note-utils.ts:35-37 | one backslash is added per special character |
| NoteUtils.EscapeRegExpIsLiteral | src/lib/note-utils.ts:35-37 | the escaped pattern is a sequence of literal atoms that reads back as exactly the input |
| NoteUtils.EscapeRegExpPlain | src/lib/note-utils.ts:35-37 | a string without special characters is left as it is |
| NoteUtils.SplitMatches | src/components/NoteCard.tsx:46 | splitting around a capture group gives an odd number of parts |
| NoteUtils.SplitMatchesConcat | src/components/NoteCard.tsx:46 | the parts concatenate back to the text |
| NoteUtils.SplitMatchesParts | src/lib/note-utils.ts:46-49 | odd parts are case-insensitive occurrences of the term; even parts contain none |
| NoteUtils.SplitMatchesLeftmost | src/lib/note-utils.ts:46-49 | no occurrence starts inside an even part of the remaining text, so each match is the leftmost one after the previous match |
| NoteUtils.SplitMatchesMarked | src/components/NoteCard.tsx:49-50 | a part equals the term, ignoring case, exactly when it is an odd part |
| NoteUtils.HighlightTextInMarkdown | src/lib/note-utils.ts:39-44 | no term, an empty text or a blank term returns the text unchanged |
| NoteUtils.HighlightTextInMarkdownRoundTrip | src/lib/note-utils.ts:39-50 | removing the inserted `<mark>` tags gives back the text, the tags enclose exactly the matches of the trimmed term, and each is the leftmost match left to right |
| NoteContext.UpdateById | src/contexts/NoteContext.tsx:62 | every note with the edited id is replaced, every other note kept, in place |
| NoteContext.UpdateByIdKeepsIds | src/contexts/NoteContext.tsx:60-63 | the set of ids is unchanged and stays distinct |
| NoteContext.UpdateByIdUnknown | src/contexts/NoteContext.tsx:62 | editing a note whose id is absent changes nothing |
| NoteContext.DeleteById | src/contexts/NoteContext.tsx:69 | a note remains exactly when it was there and has another id |
| NoteContext.DeleteByIds | src/contexts/NoteContext.tsx:79 | a note remains exactly when it was there and its id is not listed |
| NoteContext.DeleteByIdExact | src/contexts/NoteContext.tsx:67-69 | no note with the id remains; the removed notes are exactly those with the id; an unknown id changes nothing |
| NoteContext.DeleteByIdsExact | src/contexts/NoteContext.tsx:78-79 | no listed id remains; the removed notes are exactly the listed ones; listing no present id changes nothing |
| NoteContext.DeleteByIdKeepsOrder | src/contexts/NoteContext.tsx:69 | the survivors keep their old order: deleting from two runs joined is deleting from each, and one note survives exactly when its id differs |
| NoteContext.DeleteByIdsKeepsOrder | src/contexts/NoteContext.tsx:79 | the same for a list of ids: survivors keep their order, and one note survives exactly when its id is not listed |
| NoteContext.FlipPin | src/contexts/NoteContext.tsx:92 | only the pin flag changes, and it is negated |
| NoteContext.TogglePinById | src/contexts/NoteContext.tsx:91-93 | the notes with the id have their flag flipped; the others are kept |
| NoteContext.TogglePinByIdInvolution | src/contexts/NoteContext.tsx:87-95 | toggling twice restores the list |
| NoteContext.TogglePinTwiceRestores | src/contexts/NoteContext.tsx:87-95 | toggling twice, with a re-sort between, gives back the same notes |
| NoteContext.TogglePinByIdKeepsIds | src/contexts/NoteContext.tsx:87-95 | toggling keeps the ids and their distinctness |
| NoteContext.SetPinByIds | src/contexts/NoteContext.tsx:104-106 | listed notes get the requested flag; the others are kept |
| NoteContext.SetPinByIdsIdempotent | src/contexts/NoteContext.tsx:101-108 | pinning or unpinning the same ids again changes nothing, also after the re-sort |
| NoteContext.SetPinByIdsKeepsIds | src/contexts/NoteContext.tsx:101-108 | bulk pinning keeps the ids and their distinctness |
| NoteContext.ToNote | src/contexts/NoteContext.tsx:147-155 | the note takes each field of the accepted record; missing images become `[]` |
| NoteContext.ValidPlusSkipped | src/contexts/NoteContext.tsx:135-161 | every candidate is either accepted or counted as skipped |
| NoteContext.ValidateCandidates | src/contexts/NoteContext.tsx:135-161 | the validation loop throws exactly when a candidate is `null`; otherwise it accepts the valid records in order and counts the others |
| NoteContext.Upsert | src/contexts/NoteContext.tsx:175-180 | `Map.set` on a new key appends; on a present key the size is unchanged |
| NoteContext.UpsertFacts | src/contexts/NoteContext.tsx:173-181 | after one set, the key set gains the id, keys stay distinct, the id finds the new note and other ids are unaffected |
| NoteContext.UpsertAllFacts | src/contexts/NoteContext.tsx:172-183 | after all sets, the keys are the old keys plus the imported ids, distinct, and each id finds the last imported note with it, or else the old note |
| NoteContext.UpsertAllDistinct | src/contexts/NoteContext.tsx:173 | building the map from notes with distinct ids keeps them all, in order |
| NoteContext.CreatedPlusUpdated | src/contexts/NoteContext.tsx:174-181 | imported plus updated counts equal the number of valid records |
| NoteContext.CreatedAreNewIds | src/contexts/NoteContext.tsx:174-181 | the imported count is the number of distinct new ids |
| NoteContext.MergeImported | src/contexts/NoteContext.tsx:172-183 | starting from the map of the current notes, the upsert loop computes the merged notes and both counts |
| NoteContext.SetRecord | src/contexts/NoteContext.tsx:174-181 | one record is counted as an update when its id is already a key, as a creation otherwise, and is then set in the map |
| NoteContext.MergedFacts | src/contexts/NoteContext.tsx:172-183 | the merge holds old and imported ids, distinct, each resolved to its latest note, with consistent counts |
| NoteContext.PrependFreshId | src/contexts/NoteContext.tsx:56 | putting a note with a new id in front keeps ids distinct |
| NoteContext.NoteRepository.constructor | src/contexts/NoteContext.tsx:31-36 | the repository starts empty with nothing selected, and valid |
| NoteContext.AddedIdFresh | src/contexts/NoteContext.tsx:48-55 | a note with the generated id is new, and prepending it keeps ids distinct, while today's largest 8-character sequence number is at most 98 |
| NoteContext.NoteRepository.AddNote | src/contexts/NoteContext.tsx:48-58 | the new note has the source's generated id, the form fields, `now`, is unpinned and takes `images` or `[]`; the notes gain exactly it and stay sorted; while today's largest 8-character sequence number is at most 98 the id is fresh and ids stay distinct |
| NoteContext.NoteRepository.UpdateNote | src/contexts/NoteContext.tsx:60-65 | the notes are the edited list, re-sorted; ids stay distinct |
| NoteContext.NoteRepository.DeleteNote | src/contexts/NoteContext.tsx:67-76 | the notes become `DeleteById` of the old notes (survivors in order, see `DeleteByIdKeepsOrder`) and the AI selection is cleared exactly when it was that note; validity is kept |
| NoteContext.NoteRepository.DeleteMultipleNotes | src/contexts/NoteContext.tsx:78-84 | the notes become `DeleteByIds` of the old notes (survivors in order, see `DeleteByIdsKeepsOrder`); the AI selection is cleared when listed (`""` stands for none); validity is kept |
| NoteContext.NoteRepository.TogglePinNote | src/contexts/NoteContext.tsx:87-99 | the notes are the toggled list, re-sorted, ids distinct, selection unchanged |
| NoteContext.NoteRepository.TogglePinMultipleNotes | src/contexts/NoteContext.tsx:101-110 | the notes are the bulk-pinned list, re-sorted, ids distinct, selection unchanged |
| NoteContext.NoteRepository.GetNoteById | src/contexts/NoteContext.tsx:112-114 | a found note is stored and has the id; none is found exactly when no note has it |
| NoteContext.NoteRepository.ClearAllNotes | src/contexts/NoteContext.tsx:197-205 | no notes and no selection remain |
| NoteContext.NoteRepository.ImportNotes | src/contexts/NoteContext.tsx:116-195 | each early exit (blank text, parse error, not an array, a `null` entry, all skipped); the "no valid notes" exit is unreachable; the import completes exactly when the text is non-blank, parses to an array without `null` and not every entry was skipped; a completed import reports the counts, stores the merge re-sorted and valid; every other outcome leaves the notes unchanged |
| NoteContext.CompletedImportFacts | src/contexts/NoteContext.tsx:163-189 | after a completed import, old and imported ids are present, distinct and resolved to the latest note; imported counts new ids; imported plus updated is the number of valid records |
| NoteList.NormalizedTerm | src/components/NoteList.tsx:19 | the term is empty exactly when the search is blank |
| NoteList.FilteredNotes | src/components/NoteList.tsx:17-29 | a note is kept exactly when it is there and matches |
| NoteList.BlankSearchKeepsAll | src/components/NoteList.tsx:19-22 | a blank search keeps the whole list |
| NoteList.FilteredNotesSplit | src/components/NoteList.tsx:17-29 | matching and non-matching notes add up to the list |
| NoteList.VisibleNotes | src/components/NoteList.tsx:17-34 | the cards are the matching notes, sorted pinned-first then newest-first |
| NoteList.ShowList | src/components/NoteList.tsx:36-54 | the empty-notebook face exactly when there are no notes; no-results exactly when a non-empty search matches nothing; otherwise the sorted matching notes |
| NoteList.NoResultsNeedsSearch | src/components/NoteList.tsx:46 | a non-empty notebook shows no results only for a non-blank search |
| NoteList.TitleMatchIsKept | src/components/NoteList.tsx:25 | a note whose title contains the term, ignoring case, is kept |
| NoteTable.TableRowsAreListMatches | src/components/NoteTable.tsx:54-63 | the table's filter keeps exactly what the list's search keeps |
| NoteTable.FilteredAndSortedNotes | src/components/NoteTable.tsx:52-97 | the rows are the matching notes, sorted by the chosen column or by the default order |
| NoteTable.NextSortConfig | src/components/NoteTable.tsx:126-132 | the chosen key, descending exactly when that key was ascending |
| NoteTable.RequestSortAlternates | src/components/NoteTable.tsx:126-132 | clicking the same column alternates the direction, with period two |
| NoteTable.ToggleMember | src/components/NoteTable.tsx:100-110 | the id's membership flips, every other id is kept |
| NoteTable.ToggleMemberTwice | src/components/NoteTable.tsx:100-110 | selecting a row twice restores the selection |
| NoteTable.Pruned | src/components/NoteTable.tsx:120-123 | the selection keeps exactly its visible ids |
| NoteTable.PrunedIdempotent | src/components/NoteTable.tsx:120-123 | pruning twice equals pruning once |
| NoteTable.PinButtonsByRows | src/components/NoteTable.tsx:143-145 | "Unpin" is offered exactly when a selected note is pinned; "Pin" exactly when a selected note is unpinned or a selected id names no note |
| NoteTable.UnpinSelectionDisablesUnpin | src/components/NoteTable.tsx:145 | after unpinning the selection, "Unpin" is no longer offered |
| NoteTable.PinSelectionDisablesPin | src/components/NoteTable.tsx:144 | after pinning a selection of existing notes, "Pin" is no longer offered |
| NoteTable.NoteTableState.constructor | src/components/NoteTable.tsx:48-50 | nothing selected and no sort chosen |
| NoteTable.NoteTableState.HandleSelectRow | src/components/NoteTable.tsx:100-110 | the selection becomes the toggled set |
| NoteTable.NoteTableState.HandleSelectAll | src/components/NoteTable.tsx:112-118 | checked selects exactly the visible ids; anything else clears the selection |
| NoteTable.NoteTableState.PruneSelection | src/components/NoteTable.tsx:120-123 | the selection becomes its visible part |
| NoteTable.NoteTableState.RequestSort | src/components/NoteTable.tsx:126-132 | the sort becomes the next configuration; the selection is unchanged |
| NoteForm.SchemaErrors | src/components/NoteForm.tsx:34-39 | no error exactly when the title has 1 to 100 characters, the objective 1 to 200 and the notes at least 1 |
| NoteForm.OnSubmit | src/components/NoteForm.tsx:89-100 | an edit keeps id, creation time and pin flag and takes the fields and previews; otherwise a new note's data with the previews |
| NoteForm.SubmitEditReplacesNote | src/components/NoteForm.tsx:94-95 | saving an edit makes its id find the edited version, leaves every other id's note alone and keeps the id set |
| NoteForm.ApplyMarkdownFormatting | src/components/NoteForm.tsx:109-138 | text outside the selection is kept; a selection is wrapped in the syntax with the cursor after it; without one, the placeholder is inserted wrapped and selected |
| NoteForm.SplitLines | src/components/NoteForm.tsx:153 | at least one line, none containing a line break |
| NoteForm.JoinSplitLines | src/components/NoteForm.tsx:153-160 | joining the split lines gives back the text |
| NoteForm.SplitJoinLines | src/components/NoteForm.tsx:153-160 | splitting joined lines without breaks gives back the lines |
| NoteForm.LeadingDigits | src/components/NoteForm.tsx:156 | the length of the longest run of leading digits |
| NoteForm.FormatLines | src/components/NoteForm.tsx:154-160 | one formatted line per line |
| NoteForm.FormatLineIdempotent | src/components/NoteForm.tsx:155-159 | with the toolbar's prefixes "- " and "1. ", formatting a line twice equals formatting it once |
| NoteForm.ListFormattingKeepsLines | src/components/NoteForm.tsx:153-160 | list formatting keeps the number of selected lines, line i becoming formatted line i |
| NoteForm.LineStart | src/components/NoteForm.tsx:166-169 | the start of the cursor's line: at the text start or after a line break, with no break between it and the cursor |
| NoteForm.CurrentLineFacts | src/components/NoteForm.tsx:171-173 | the current line is the text from the line start up to the next break or the end |
| NoteForm.FormatSelection | src/components/NoteForm.tsx:152-163 | text around the selection is kept, the selection becomes its formatted lines, the cursor goes after them |
| NoteForm.FindLineStart | src/components/NoteForm.tsx:166-169 | the backward scan stops at the start of the cursor's line: just after the last line break before the cursor, or 0 |
| NoteForm.FormatCursorLineNewItem | src/components/NoteForm.tsx:172-177 | on a list line, the text becomes the text up to the line end, a break, the prefix, then the rest; it grows by one plus the prefix, and the cursor goes right after the new prefix |
| NoteForm.FormatCursorLinePrefix | src/components/NoteForm.tsx:172-182 | on any other line, the prefix is inserted at the line start, the text grows by the prefix, and the cursor stays on the character it was on |
| NoteForm.ApplyListFormatting | src/components/NoteForm.tsx:140-190 | the method, with its backward scan to the line start, computes those two edits' text; on a list line it puts the cursor where the source does, `start + prefix.length + 1`, and on any other line it equals the prefix edit |
| NoteForm.NewItemCursorAsWrittenAgreesAtLineEnd | src/components/NoteForm.tsx:177 | the source's cursor is right only when the cursor was at the end of its line |
| NoteForm.NewItemCursorAsWrittenMisplaced | src/components/NoteForm.tsx:174-177 | on a one-line list item "- " + item with the cursor at 2, the new item is added and the intended cursor is the item's length plus 5, past the source's cursor at 5 |
| NoteForm.Admitted | src/components/NoteForm.tsx:216-231 | at most one preview per file |
| NoteForm.AdmittedOnlySmall | src/components/NoteForm.tsx:216-223 | every preview comes from a file of at most 2 MiB |
| NoteForm.WithoutIndex | src/components/NoteForm.tsx:279-281 | removing a valid index drops that preview and shifts the rest; any other index changes nothing |
| NoteForm.ImagePreviews.constructor | src/components/NoteForm.tsx:52 | no previews |
| NoteForm.ImagePreviews.Open | src/components/NoteForm.tsx:67-87 | opening shows the edited note's images, or none |
| NoteForm.ImagePreviews.Close | src/components/NoteForm.tsx:102-107 | closing drops the previews |
| NoteForm.ImagePreviews.ProcessFiles | src/components/NoteForm.tsx:192-233 | a batch is refused whole exactly when it would pass 5 images; otherwise the admitted previews are appended in order and the count stays at most 5 |
| NoteForm.ImagePreviews.RemoveImage | src/components/NoteForm.tsx:279-281 | the previews lose the indexed one |
| NoteCard.TrimIdempotent | src/components/NoteCard.tsx:68 | trimming twice equals trimming once |
| NoteCard.DisplaySearchTerm | src/components/NoteCard.tsx:68 | the trimmed search term, present exactly when a term is |
| NoteCard.CardHighlightIgnoresTrim | src/components/NoteCard.tsx:68-73 | the card's pre-trimming does not change the highlighted markdown |
| NoteCard.NotesPreviewText | src/components/NoteCard.tsx:69-71 | short notes are shown whole; longer ones as their first 180 characters and "..." |
| NoteCard.ExpandShowsWholeNotes | src/components/NoteCard.tsx:155-167 | without the expand button the card shows the whole notes; collapsed, it shows a cut preview |
| NoteCard.HighlightedText | src/components/NoteCard.tsx:41-58 | without a usable term, one plain piece; otherwise one piece per split part with the part's text |
| NoteCard.HighlightedTextFacts | src/components/NoteCard.tsx:41-58 | the pieces read back as the text, and exactly every other piece, from the second, is marked |
| NoteCard.HighlightedTextAgreesWithMarkdown | src/components/NoteCard.tsx:41-58 | `HighlightedText` marks exactly the parts that `highlightTextInMarkdown` wraps |
| NoteCard.ShownImages | src/components/NoteCard.tsx:122 | the first six images, in order |
| NoteCard.HiddenImages | src/components/NoteCard.tsx:148 | a "more" count exactly when there are over six images |
| NoteCard.ImagesAccounted | src/components/NoteCard.tsx:122-148 | thumbnails plus the "more" count equal the number of images |
| NoteCard.OpenImageInModal | src/components/NoteCard.tsx:75-86 | the preview opens with the source exactly when it starts with `data:image` or `http` |
| NoteCard.ThumbnailMatchesPreview | src/components/NoteCard.tsx:129 | a thumbnail shows its image exactly when clicking it opens the preview |
| SuggestRelatedNotes.IdeaFromJson | src/ai/flows/suggest-related-notes.ts:24-28 | a value is an idea exactly when `title` and `details` are strings and `type` is absent or a string |
| SuggestRelatedNotes.IdeaRoundTrip | src/ai/flows/suggest-related-notes.ts:24-28 | an idea written as JSON reads back as itself |
| SuggestRelatedNotes.TitleLineIsDirectQuery | src/ai/flows/suggest-related-notes.ts:111 | "Título: " in any case followed by a non-empty line is a direct query |
| SuggestRelatedNotes.EmptyFieldsIsDirectQuery | src/ai/flows/suggest-related-notes.ts:111 | a title line followed by objective and notes lines holding only blanks is a direct query |
| SuggestRelatedNotes.FilledObjectiveIsNotDirectQuery | src/ai/flows/suggest-related-notes.ts:111 | a one-line objective with something in it makes the note elaborate |
| SuggestRelatedNotes.TitleOnlyContentIsDirectQuery | src/ai/flows/suggest-related-notes.ts:111-112 | content "Título: " + title + "\nObjetivo: \nNotas: ", for any one-line title, is classified as a direct query after trimming |
| SuggestRelatedNotes.PanelContentIsNeverDirectQuery | src/ai/flows/suggest-related-notes.ts:111-112 | the content the suggestion panel sends (src/components/AiSuggestions.tsx:27, labelled in English) is never classified as a direct query |
| SuggestRelatedNotes.SuggestRelatedNotesFlow | src/ai/flows/suggest-related-notes.ts:99-126 | the result always has an `ideas` array; a well-formed output passes through unchanged; an error, a missing output or a non-array `ideas` gives `{ideas: []}`; each log exactly in its case: critical error when the call threw, invalid output when the output lacks an `ideas` array, the direct-query or elaborate-note warning when `ideas` is empty (chosen by the direct-query heuristic), no warning otherwise |
| SuggestRelatedNotes.FlowOutputIgnoresNoteContent | src/ai/flows/suggest-related-notes.ts:109-121 | the classification only picks the log; the returned output does not depend on the note content |
| SuggestRelatedNotes.FlowIdempotent | src/ai/flows/suggest-related-notes.ts:103-121 | the flow's result is itself a well-formed output that passes through unchanged |

## Left out

- Browser storage (`useLocalStorage`) is left out. The repository's notes are a field, and persisting them is I/O.
- `convertNotesToJson`, `downloadTextFile` and `JSON.parse` are left out. Import starts from the parsed value, with `None` for a parse error, so the export-then-import round trip is not modelled.
- `NoteSphereApp`, `AiSuggestions` and `page.tsx` are left out. They are composition, file reading and fetch plumbing.
- The language-model call is a parameter (`ModelReply`): it throws, returns nothing, or returns a parsed value. The prompt text and the schema validation done by the AI framework are not modelled.
- Dates are parameters. `today` is the `yyMMdd` text and `now` the creation stamp. A stored date is a `Stamp` pairing its ISO text with the milliseconds `getTime` gives. `parseDate` stands for `new Date(text).getTime()`, with `None` for an invalid date.
- Case mapping is ASCII only. The title-only classifier also folds `Í` to `í`. Other non-ASCII letters do not change case as JavaScript's `toLowerCase` would make them.
- The regular expressions become their matchers:
  - the search split and highlight are literal, case-insensitive, left-to-right matching;
  - `/^\d+\.\s/` is a run of digits, a dot and a blank;
  - the title-only pattern is `TitleOnlyPattern`.
- Strings are sequences of code points. JavaScript's UTF-16 lengths differ for characters outside the Basic Multilingual Plane.
- `parseInt` is exact on natural numbers. The id sequence number never loses precision in the model.
- NoteOrder.SortNotes: sort stability is not stated. JavaScript's sort is stable, and the insertion sort is too, but the contract only says sorted and a permutation.
- NoteContext.NoteRepository.ImportNotes: the counts rely on the state updater running once, synchronously, when `setNotes` is called. React may run it later, or twice in development mode, which the source's summary message does not account for.
- NoteContext.NoteRepository.UpdateNote: its contract says the stored notes are a sorted permutation of the edited list. It does not say the edited note is found afterwards; `NoteForm.SubmitEditReplacesNote` states that for distinct ids.
- Toasts, dialogs, focus handling and the `setTimeout` that sets the cursor are left out. The cursor positions are results of the edit functions.
- The console output is left out. Which warning or error the flow logs is modelled (`FlowLog`); the text written to the console is not.
- NoteForm.ImagePreviews.ProcessFiles: `FileReader` is asynchronous. The model appends the previews in batch order and only for a non-empty read result, without modelling interleaving with other batches.
- The table's header checkbox state (`checked`/`indeterminate`) is an input of `HandleSelectAll`, not computed.
- The card's relative date text (`formatDistanceToNow`) and markdown rendering are left out.

## Findings

| source | as written | input that shows it | evidently intended | confidence | as-written member | corrected member |
|---|---|---|---|---|---|---|
| src/lib/note-utils.ts:7-17 | only ids of exactly 8 characters count toward today's maximum, while ids past sequence 99 have 9 | on any day d, notes with ids d + "99" and d + "100": the next id is d + "100" again, a duplicate (for example "261015100" on day 261015) | count every id of today with a numeric suffix, so the next id is always fresh | high (not executed) | NoteUtils.NextNoteIdAsWrittenRepeats | NoteUtils.NextNoteIdFresh |
| src/components/NoteForm.tsx:177 | after starting a new list item below the current one, the cursor is `start + prefix.length + 1` | text "- ab", cursor at 2, list button "- ": the text becomes "- ab\n- " and the cursor lands at 5, between the line break and the new "- " | the cursor goes after the new prefix, at the line end plus one plus the prefix length (7 here) | medium (not executed) | NoteForm.NewItemCursorAsWrittenMisplaced | NoteForm.FormatCursorLineNewItem |
