# Vocabulary tracker: a Dafny model

The repository holds three versions of one single-page vocabulary tracker:
`1ideal.jsx`, `1a.jsx` and `1b.jsx`. Each keeps an ordered list of words.
A word is a foreign word, its English translation and a pronunciation, and in
`1ideal.jsx` also an id. Each version offers the same operations:

- an add dialog that appends a word;
- Delete buttons on the cards;
- a search box that filters on the English translation, ignoring case;
- a grid that shows ten cards per page, with pages numbered from 1;
- an export that writes the list as comma-separated text.

This project models the logic behind that interface and proves what it does.

Layout:

- `text.dfy` (module `Text`): lower-casing, the substring test
  `includes`, and `join` / split.
- `seqs.dfy` (module `Seqs`): `Array.prototype.filter`, on the element and
  on the position.
- `word_list.dfy` (module `WordList`): what all three versions share. This
  covers the word record, search, JavaScript `slice` paging, the page count
  and page buttons, and the CSV lines. It also holds the lemmas about
  deleting from a card by its position.
- `ideal_app.dfy` (module `IdealApp`): `1ideal.jsx`. It has the `App` state
  as a class: the list, the filtered view, the page, the term and the dialog
  flag. The dialog draft is a second class, `AddWordModal`.
- `app_a.dfy` (module `AppA`): `1a.jsx`. The state is one class, and the
  draft lives in `App`.
- `app_b.dfy` (module `AppB`): `1b.jsx`. It has an `App` class and an
  `AddWordModal` class, and the export is a method with a loop.

Each React handler is one atomic state transition.

In `1ideal.jsx` the effect on `[words, searchTerm]` runs inside the handler
that changes either of them (`App.RefreshView`). React skips a state update
to an identical string. So `HandleSearch` with the term already in the box
does not re-run the effect, and the page stays where it is.

The clock reading `Date.now()` becomes the `now` parameter of
`AddWordModal.HandleAdd`. Nothing is claimed about ids being unique.

Lower-casing covers the ASCII letters only.

The page methods `Paginate` require a page number of at least 1. Their only
callers are the page buttons, and button `i` passes `i + 1`.

The model follows the code, including where it departs from what the
interface suggests:

- No version trims the fields. Only `1a.jsx` checks them, and only for
  non-emptiness.
- `1ideal.jsx` and `1b.jsx` append whatever the dialog holds.
- `1a.jsx` and `1b.jsx` never reset the page.
- The three headers differ.
- The CSV export does not quote or escape fields. The read-back lemmas
  therefore require fields without commas or newlines (`Clean`).

## Model

| member | source | states |
|---|---|---|
| `Text.Lower` | src/tasks/40987/1ideal.jsx:108 | Lower-casing keeps the length and turns each letter `A`-`Z` into its lower-case letter (code point + 32). It keeps every other character and leaves no upper-case letter. |
| `Text.Includes` | src/tasks/40987/1ideal.jsx:108 | `includes` holds for the empty needle, and only for a needle no longer than the string. `Text.IncludesIff` is its reference definition. |
| `Text.IncludesIff` | src/tasks/40987/1ideal.jsx:108 | `includes` holds exactly when the needle occurs at some position of the string. |
| `Text.Split` | src/tasks/40987/1ideal.jsx:88 | Splitting gives at least one piece, and no piece holds the separator. A string without the separator is one piece. |
| `Text.Join` | src/tasks/40987/1ideal.jsx:88 | `join` of no parts is "", and otherwise the result starts with the first part. `Text.SplitJoin` and `Text.JoinSplit` are its inverse. |
| `Text.SplitJoin` | src/tasks/40987/1ideal.jsx:88 | Splitting a `join` of one or more parts gives back the parts, when no part contains the separator. (No parts join to "", which splits into `[""]`.) |
| `Text.JoinSplit` | src/tasks/40987/1ideal.jsx:88 | Joining the pieces of a split with the separator gives back the string. |
| `Seqs.Filter` | src/tasks/40987/1ideal.jsx:107-109 | `filter` returns no more elements than it was given. Every element it returns is in the input and accepted, and every accepted input element is returned. |
| `Seqs.FilterCount` | src/tasks/40987/1ideal.jsx:107-109 | `filter` keeps each accepted value exactly as often as it occurs, and no other value. |
| `Seqs.FilterIsSubsequence` | src/tasks/40987/1ideal.jsx:107-109 | `filter` keeps the relative order of what it keeps. |
| `Seqs.SubsequencePosition` | src/tasks/40987/1a.jsx:46-48 | Element m of a filtered list comes from a position no earlier than m of the original list. |
| `Seqs.FilterAppend` | src/tasks/40987/1ideal.jsx:107-109 | Filtering a concatenation is the concatenation of the filtered parts. |
| `Seqs.FilterKeepsAll` | src/tasks/40987/1ideal.jsx:119 | A filter that accepts every element returns the list unchanged. |
| `Seqs.FilterCongruent` | src/tasks/40987/1ideal.jsx:107-109 | Predicates that agree on every element give the same filter. |
| `Seqs.DropIndex` | src/tasks/40987/1a.jsx:31 | Dropping an index in range shortens the list by one, and any other index leaves its length. `Seqs.DropIndexSpec` gives the exact result (also `1b.jsx:21`). |
| `Seqs.DropIndexSpec` | src/tasks/40987/1a.jsx:30-32 | `filter((_, i) => i !== index)` removes exactly position `index` when it is in range, keeps the rest in order, and otherwise returns the list unchanged. |
| `Seqs.DropIndexInRange` | src/tasks/40987/1a.jsx:31 | An index inside the list drops exactly that position: the result is the part before it followed by the part after it. |
| `Seqs.DropIndexOutOfRange` | src/tasks/40987/1a.jsx:31 | An index outside the list (negative, or at least its length) drops nothing. |
| `WordList.WithField` | src/tasks/40987/1ideal.jsx:53-63 | Typing into one input sets that field of the draft and leaves the other two. |
| `WordList.Matches` | src/tasks/40987/1ideal.jsx:108 | The empty term matches every translation, and a term longer than the translation matches none. |
| `WordList.MatchesIff` | src/tasks/40987/1ideal.jsx:108 | A word matches when the lower-cased term occurs in its lower-cased translation. |
| `WordList.Search` | src/tasks/40987/1ideal.jsx:107-109 | Search returns no more entries than the list has, each a list entry matching the term (also `1a.jsx:46-48`, `1b.jsx:24-26`). `WordList.SearchSpec` gives the full characterisation. |
| `WordList.SearchSpec` | src/tasks/40987/1ideal.jsx:106-110 | Search keeps exactly the matching entries, each as often as in the list, in list order. The empty term keeps everything. |
| `WordList.SearchEmptyTerm` | src/tasks/40987/1a.jsx:46-48 | The empty query returns the whole list. |
| `WordList.SearchIgnoresCase` | src/tasks/40987/1b.jsx:24-26 | Two terms that lower-case alike give the same result, e.g. "CAT" and "cat". |
| `WordList.SearchCapitalsLikeLowerCase` | src/tasks/40987/1b.jsx:24-26 | Searching "CAT" finds exactly what searching "cat" finds. |
| `WordList.SearchAppend` | src/tasks/40987/1ideal.jsx:114-116 | Appending a word extends the search result by that word exactly when it matches. |
| `WordList.SliceBound` | src/tasks/40987/1a.jsx:53 | A `slice` bound is clamped to `[0, n]`, and negative bounds count from the end. |
| `WordList.JsSlice` | src/tasks/40987/1ideal.jsx:126-129 | `slice(start, end)` returns no more than the whole list, and for 0 ≤ start ≤ end no more than end − start entries. |
| `WordList.PageSlice` | src/tasks/40987/1ideal.jsx:126-129 | For page p ≥ 1 the slice is `view[min((p-1)*10, n) .. min(p*10, n)]`, so it holds at most 10 entries. |
| `WordList.PageEntryAt` | src/tasks/40987/1ideal.jsx:126-129 | Card k of page p ≥ 1 shows entry (p-1)*10+k of the filtered view, so every card shows an entry of the view. |
| `WordList.PageOfSearch` | src/tasks/40987/1a.jsx:46-53 | Every card on any page p ≥ 1 of a search result is an entry of the list whose English field contains the term, ignoring case. |
| `WordList.PageCount` | src/tasks/40987/1a.jsx:89 | The number of page buttons is the ceiling of n/10, and it is 0 exactly when the view is empty. |
| `WordList.PageNonEmptyIff` | src/tasks/40987/1a.jsx:50-53 | A page p ≥ 1 is non-empty exactly when p ≤ the page count, so a page past the end is empty. |
| `WordList.TwentyFiveEntries` | src/tasks/40987/1b.jsx:28-30 | With 25 entries the pages hold 10, 10, 5 and 0 cards, and there are 3 buttons. |
| `WordList.ConcatPagesPrefix` | src/tasks/40987/1a.jsx:50-53 | The first k pages together are the first 10k entries of the view. |
| `WordList.PageButtons` | src/tasks/40987/1b.jsx:72-73 | There are as many buttons as pages (the ceiling of the view's length over 10), and button i selects page i+1. |
| `WordList.ButtonsCoverView` | src/tasks/40987/1a.jsx:89-93 | Every page a button selects is non-empty. Those pages, in button order, give back the whole filtered view. |
| `WordList.FieldsJoinToLine` | src/tasks/40987/1b.jsx:41 | Joining a row's three fields with "," gives the template line the other variants write. |
| `WordList.Line` | src/tasks/40987/1ideal.jsx:88 | A word's line is its three fields and two commas, with nothing added (no quoting). `WordList.LineParses` reads it back. |
| `WordList.Lines` | src/tasks/40987/1a.jsx:36 | There is one line per word. `WordList.LinesParse` reads them back in list order. |
| `WordList.ParseCsv` | src/tasks/40987/1ideal.jsx:88 | Reading CSV text naively gives at least one row. |
| `WordList.LineParses` | src/tasks/40987/1ideal.jsx:88 | A line of clean fields has no newline and splits back into its three fields. |
| `WordList.ParseJoined` | src/tasks/40987/1ideal.jsx:88 | Newline-joined lines without newlines split back into those lines, and then each line into its fields. |
| `WordList.LinesParse` | src/tasks/40987/1a.jsx:36 | The lines of clean words read back as their field triples, in list order. |
| `WordList.HeadedLinesParse` | src/tasks/40987/1b.jsx:35-41 | A header line of clean fields, followed by clean word lines and joined by newlines, reads back line for line. It then reads as the header's fields and each word's fields. |
| `WordList.CardIndexAgreesOnFirstPage` | src/tasks/40987/1a.jsx:79-83 | On page 1 of a view the search leaves whole, card k shows `words[k]`, and `deleteWord(k)` removes exactly that entry. |
| `WordList.CardIndexMissesOnLaterPage` | src/tasks/40987/1a.jsx:79-83 | On any page p ≥ 2, under any search term, card k shows a list entry at a position after k. Its Delete removes position k instead, and the shown entry stays. With the empty term the card shows entry (p-1)*10+k (also `1b.jsx:67-68`). |
| `WordList.LaterCardPosition` | src/tasks/40987/1a.jsx:79-83 | On page 2 or later, card k of a filtered view shows an entry at a list position after k. |
| `WordList.CardIndexMissesUnderSearch` | src/tasks/40987/1b.jsx:67-68 | Searching "dog" in [gato/cat, perro/dog] shows perro on card 0, but `deleteWord(0)` removes gato. |
| `IdealApp.WithoutId` | src/tasks/40987/1ideal.jsx:118-120 | Deleting by id removes every entry with that id. Every other entry keeps its order and its number of copies. An id no entry has changes nothing. |
| `IdealApp.DeleteIdempotent` | src/tasks/40987/1ideal.jsx:118-120 | Deleting an id twice is deleting it once. |
| `IdealApp.DeleteShownEntry` | src/tasks/40987/1ideal.jsx:29 | A card's Delete passes the shown entry's id. That entry leaves the list, and only entries sharing its id go with it. |
| `IdealApp.HeaderText` | src/tasks/40987/1ideal.jsx:87 | The header line is `Foreign,English,Pronunciation`. |
| `IdealApp.ExportCsv` | src/tasks/40987/1ideal.jsx:86-88 | The export always starts with the header line and a newline, and for an empty list it is exactly that. |
| `IdealApp.ExportCsvIsJoin` | src/tasks/40987/1ideal.jsx:86-88 | The export is the header and the word lines joined by newlines. An empty list leaves an empty line after the header. |
| `IdealApp.ExportCsvParses` | src/tasks/40987/1ideal.jsx:86-88 | For clean fields the export reads back as the header fields and then each entry's triple, in list order. An empty list reads back as the header and one empty line. |
| `IdealApp.App.constructor` | src/tasks/40987/1ideal.jsx:99-103 | The app starts with an empty list and view, the empty term, page 1 and the dialog closed. |
| `IdealApp.App.RefreshView` | src/tasks/40987/1ideal.jsx:106-112 | The effect sets the view to the search of the list and the page to 1. |
| `IdealApp.App.AddWord` | src/tasks/40987/1ideal.jsx:114-116 | The entry is appended unchecked. The view grows by it exactly when it matches, the page goes back to 1, and the rest is unchanged. |
| `IdealApp.App.DeleteWord` | src/tasks/40987/1ideal.jsx:118-120 | The list becomes `WithoutId` of the old list, and the page goes back to 1. |
| `IdealApp.App.HandleSearch` | src/tasks/40987/1ideal.jsx:122-124 | The term is set. The page goes back to 1 exactly when the term differs from the old one. |
| `IdealApp.App.PaginatedWords` | src/tasks/40987/1ideal.jsx:126-129 | The grid shows at most 10 entries, each in the list and matching the term. It is never empty while the view is not. |
| `IdealApp.App.Previous` | src/tasks/40987/1ideal.jsx:168-174 | Previous goes back one page and never below 1. |
| `IdealApp.App.PreviousDisabled` | src/tasks/40987/1ideal.jsx:171 | Previous is disabled exactly when pressing it would leave the page where it is. |
| `IdealApp.App.Next` | src/tasks/40987/1ideal.jsx:175-181 | When not disabled (`currentPage*10 < |view|`), Next advances one page and lands on a non-empty page. Otherwise nothing changes. |
| `IdealApp.App.NextDisabled` | src/tasks/40987/1ideal.jsx:178 | Next is disabled exactly when the page after the current one would be empty. |
| `IdealApp.App.OpenAddModal` | src/tasks/40987/1ideal.jsx:139 | "Add Word" opens the dialog. |
| `IdealApp.App.CloseAddModal` | src/tasks/40987/1ideal.jsx:185 | `onClose` closes the dialog. |
| `IdealApp.AddWordModal.constructor` | src/tasks/40987/1ideal.jsx:35 | The draft starts as three empty strings. |
| `IdealApp.AddWordModal.Edit` | src/tasks/40987/1ideal.jsx:50-64 | Typing sets one field of the draft. |
| `IdealApp.AddWordModal.HandleAdd` | src/tasks/40987/1ideal.jsx:37-41 | The draft, with id `now`, is appended to the list. The draft is reset, the dialog closes and the page goes back to 1. |
| `AppA.ExportCsv` | src/tasks/40987/1a.jsx:35-36 | The export of an empty list is "", and otherwise it starts with the first word's line. |
| `AppA.ExportCsvParses` | src/tasks/40987/1a.jsx:34-36 | The export has no header. For clean fields it reads back as one triple per word, in order, and an empty list exports "". |
| `AppA.App.constructor` | src/tasks/40987/1a.jsx:7-11 | The app starts with an empty list, the dialog closed, an empty draft, page 1 and the empty query. |
| `AppA.App.AddWord` | src/tasks/40987/1a.jsx:22-28 | With a non-empty foreign word and translation, the draft is appended, the dialog closes and the draft is cleared. Otherwise list, dialog and draft are unchanged. |
| `AppA.App.DeleteWord` | src/tasks/40987/1a.jsx:30-32 | Position `index` of the full list is removed, or nothing changes when it is out of range. |
| `AppA.App.SetSearchQuery` | src/tasks/40987/1a.jsx:63 | The query changes and the page number does not. |
| `AppA.App.FilteredWords` | src/tasks/40987/1a.jsx:46-48 | The view holds only list words whose translation matches the query, and the whole list for the empty query. |
| `AppA.App.CurrentWords` | src/tasks/40987/1a.jsx:46-53 | At most 10 matching words are shown. The page is empty exactly when its number is past the last page of the current view. |
| `AppA.App.Paginate` | src/tasks/40987/1a.jsx:55 | The page becomes the button's number, and a page a button offers is non-empty. |
| `AppA.App.OpenModal` | src/tasks/40987/1a.jsx:75 | "Add Word" opens the dialog. |
| `AppA.App.SetModalOpen` | src/tasks/40987/1a.jsx:96 | `onOpenChange` sets the dialog flag. |
| `AppA.App.EditDraft` | src/tasks/40987/1a.jsx:100-116 | Typing sets one field of the draft. |
| `AppA.StalePageAfterSearch` | src/tasks/40987/1a.jsx:50-53 | 11 words put one card on page 2. After a search that leaves one word, page 2 is blank, because the page is not reset. |
| `AppB.HeaderText` | src/tasks/40987/1b.jsx:36 | The header line is `Foreign Word,English,Pronunciation`. |
| `AppB.CsvRows` | src/tasks/40987/1b.jsx:35-39 | There is one row more than there are words. |
| `AppB.CsvText` | src/tasks/40987/1b.jsx:41 | No rows give "", and otherwise the text starts with the first row joined by commas. |
| `AppB.CsvTextIsLines` | src/tasks/40987/1b.jsx:41 | The joined rows are the header line and the same template line per word as the other variants. |
| `AppB.ExportParses` | src/tasks/40987/1b.jsx:35-41 | For clean fields the export has |words|+1 lines and reads back as exactly the collected rows. |
| `AppB.App.constructor` | src/tasks/40987/1b.jsx:9-13 | The app starts with an empty list, the dialog closed, the empty term and page 1. |
| `AppB.App.AddWord` | src/tasks/40987/1b.jsx:15-18 | The word is appended unconditionally and the dialog closes. |
| `AppB.App.DeleteWord` | src/tasks/40987/1b.jsx:20-22 | Position `index` of the full list is removed, or nothing changes when it is out of range. |
| `AppB.App.SetSearchTerm` | src/tasks/40987/1b.jsx:57 | The term changes and the page number does not. |
| `AppB.App.FilteredWords` | src/tasks/40987/1b.jsx:24-26 | The view holds only list words whose translation matches the term, and the whole list for the empty term. |
| `AppB.App.CurrentWords` | src/tasks/40987/1b.jsx:24-30 | At most 10 matching words are shown. The page is empty exactly when its number is past the last page. |
| `AppB.App.Paginate` | src/tasks/40987/1b.jsx:32 | The page becomes the button's number, and a page a button offers is non-empty. |
| `AppB.App.OpenModal` | src/tasks/40987/1b.jsx:60 | "Add Word" opens the dialog. |
| `AppB.App.CloseModal` | src/tasks/40987/1b.jsx:76 | `onClose` closes the dialog. |
| `AppB.App.ExportToCsv` | src/tasks/40987/1b.jsx:34-41 | The loop-built rows, joined, give the header line and one template line per word, in list order. |
| `AppB.AddWordModal.constructor` | src/tasks/40987/1b.jsx:99 | The draft starts as three empty strings. |
| `AppB.AddWordModal.Edit` | src/tasks/40987/1b.jsx:113-115 | Typing sets one field of the draft. |
| `AppB.AddWordModal.HandleSubmit` | src/tasks/40987/1b.jsx:101-105 | The draft is appended unchecked and the dialog closes. The draft is then reset, and the page and term are unchanged. |

## Findings

| source | as written | input that shows it | evidently intended | confidence | as-written member | corrected member |
|---|---|---|---|---|---|---|
| src/tasks/40987/1a.jsx:79-83 | A card passes its index within the current page of the filtered view to `deleteWord`. `deleteWord` indexes the full list (same in `1b.jsx:67-68`). | 11 words, page 2: the only card shows entry 10, and its Delete removes entry 0. Also: search "dog" in [gato/cat, perro/dog]: the card shows perro and its Delete removes gato. | Delete removes the entry the card shows. | high; not executed | `WordList.CardIndexMissesOnLaterPage` | `IdealApp.DeleteShownEntry` |

The corrected behaviour is the one `1ideal.jsx` implements: deletion by the
shown entry's id (`IdealApp.WithoutId`, used by `IdealApp.App.DeleteWord`).
The `AppA` and `AppB` classes keep the index-based delete as written.

## Left out

- Rendering, styling, and the card, drawer and menu components are not modelled.
- The undefined `Modal`/`Menu`/`Button` references in `1a.jsx` and `1b.jsx` are not modelled.
- `localStorage` load and save (`1a.jsx:13-20`) is browser I/O and is not modelled.
- The download step of every `exportToCSV` is not modelled. This covers the
  `data:text/csv` prefix, `encodeURI`, and creating and clicking the link.
  Only the CSV text is modelled.
- `Date.now()` is a clock read. It is the `now` parameter of `IdealApp.AddWordModal.HandleAdd`.
- React's scheduling of renders and effects is not modelled. Each handler is
  one atomic transition, and the filter effect of `1ideal.jsx` runs inside it.
- Text.Lower: lower-cases only the ASCII letters `A`-`Z`, not the full
  Unicode mapping of `toLowerCase`, so search on non-ASCII text is not
  case-insensitive in the model.
- The export's file names (`language_words.csv`, `my_words.csv`) are not modelled.
- Quoting of fields that contain commas or newlines is not modelled, because
  no version does it.
