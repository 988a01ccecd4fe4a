# Reading-position controller of a browser EPUB/PDF reader

This project models the core of a browser e-book reader and proves properties of the model. The reader opens EPUB and PDF files from a local IndexedDB store and remembers where the reader stopped. It exists in two variants: the newer application under `app/` and the older one under `src/`.

What is modelled:

- **The PDF page controller** of both variants (`AppPdfReader.PdfReader`, `SrcPdfReader.PdfReader`). Each is a class holding:
  - the current page and the page count;
  - the one-shot "initial page set" flag;
  - the sidebar and the bookmark list;
  - the pending progress write, a `Debounce.Timer`.

  The handlers are methods: previous, next, jump to page, key presses, swipes, and the clock reaching a deadline (`Tick`). Each method states the whole new state. The page rules (`Pages`) are functions with their own lemmas.
- **The EPUB restore-once state machine** of the newer hook (`EpubReaderHook.Session`). Its parts:
  - the `restored` and `locationsReady` flags;
  - the 50 ms poll and the 10 s timeout;
  - the rendition's lifetime, with renditions numbered from 1 and 0 meaning none;
  - a log of every call made to a rendition (`display`, `prev`, `next`, a theme, `destroy`).
- **The two EPUB reader components** around it (`AppEpubReader`, `SrcEpubReader`). They cover the bookmark flag and toggle, the debounced save (the same write in both, `EpubProgress`), theme gating and key handling. The older component re-seeks on every progress change; the newer hook never restores twice.
- **The local stores.**
  - The newer application's tables are sequences with store-assigned ids (`AppDb`). The older one keys progress by book and settings by key (`SrcDb`).
  - Around them sit the hooks: progress upsert, bookmark add and remove, the book-delete cascade, the settings fold, and one record per key.
- **The small rules**: the theme cycle, font-size stepping, swipe classification, file-type detection, the title and author fallbacks, edit-dialog validation, and batch-import failure reporting.

Event-handler code is modelled as follows:

- React effects become explicit events. An effect re-runs only when its dependencies change; each class keeps the last dependencies it saw.
- `setTimeout`/`setInterval` become armed deadlines, plus a `Tick(now)` event that fires a due timer once.
- `Date.now()` is a `now` parameter.
- A foreign call becomes a parameter: `Js.Outcome` says whether an engine or store call returned or threw, and `accepted` says whether a theme call went through.
- Translated labels from `t(...)` are a `caption` parameter.

## Model

| member | source | states |
|---|---|---|
| Js.Trim | app/components/edit-book-dialog.tsx:37-38 | `trim()`: the result is a slice of the input with no whitespace at either end, and it is empty exactly when the input is all whitespace |
| Js.TrimStart | app/components/edit-book-dialog.tsx:37-38 | leading whitespace removed: the result is a suffix of the input, only whitespace was dropped, and it starts with a non-space |
| Js.TrimEnd | app/components/edit-book-dialog.tsx:37-38 | trailing whitespace removed: the result is a prefix of the input, only whitespace was dropped, and it ends with a non-space |
| Js.TrimIdempotent | app/components/edit-book-dialog.tsx:37-38 | trimming twice is trimming once |
| Js.ToLower | app/utilities/file-helpers.ts:27 | `toLowerCase()` keeps the length and lower-cases each character |
| Js.AfterLastDot | app/utilities/file-helpers.ts:27 | `split('.').pop()`: a dot-free suffix of the name, preceded by a dot unless it is the whole name |
| Js.EndsWith | src/utils/file-utils.ts:16-21 | `endsWith`: exactly when the string is some prefix followed by the suffix; always for the empty suffix |
| Js.Join | app/hooks/use-import-books.ts:27 | `join(sep)`: empty for no lines, starts with the first line and ends with the last, and with two or more lines holds both and a separator |
| Js.DigitPrefix | app/components/pdf-reader.tsx:83 | the leading run of digits `parseInt` reads: a prefix of the text, all digits, followed by a non-digit or the end |
| Js.DigitValue | app/components/pdf-reader.tsx:83 | a digit's value is below 10 |
| Js.DigitChar | app/components/pdf-reader.tsx:167-178 | the digit written for a value below 10 reads back as that value |
| Js.NatToString | app/components/pdf-reader.tsx:167-178 | `String(n)` of a natural number is a non-empty string of digits |
| Js.IntToString | app/components/pdf-reader.tsx:172 | `String(n)`: non-empty, starting with `-` exactly for negatives, digits after the sign |
| Js.ParseInt | app/components/pdf-reader.tsx:83 | `parseInt(s, 10)`: NaN for the empty string and for a leading character that is not a digit, space or sign; a digit string reads as its value; a leading digit gives a non-negative number |
| Js.NatToStringValue | app/components/pdf-reader.tsx:167-178 | the digits of `String(n)` have the value `n` |
| Js.DigitPrefixOfDigits | app/components/pdf-reader.tsx:83 | `parseInt` reads the whole digit run and stops at the first non-digit |
| Js.ParseIntOfIntToString | app/components/pdf-reader.tsx:81-87 | `parseInt(String(n), 10) == n` for every integer, the round trip that restores a saved page |
| Js.IntToStringInjective | app/components/pdf-reader.tsx:181 | two pages have the same `String` exactly when they are equal |
| Js.ErrorMessage | app/hooks/use-import-books.ts:20 | `e instanceof Error ? e.message : fallback`: nothing when no exception, the message of an `Error`, the fallback for any other throw |
| Js.Round | app/hooks/use-epub-reader.ts:93 | `Math.round`: the nearest integer, with halves going up |
| Js.RoundPercentBounds | app/hooks/use-epub-reader.ts:93 | a fraction in [0, 1] rounds to a percentage in [0, 100] |
| Debounce.Rearm | app/components/pdf-reader.tsx:167-178 | an effect re-run clears the old timer and arms a new one exactly when there is something to save, due `QuietPeriod` (1000 ms) later |
| Debounce.Tick | app/components/pdf-reader.tsx:170-172 | a due timer fires its payload once and becomes idle; otherwise nothing happens |
| Debounce.Step | app/components/pdf-reader.tsx:167-178 | a single event writes at most once |
| Debounce.RunAppend | app/components/pdf-reader.tsx:167-178 | running two traces in a row is running their concatenation, and the writes concatenate |
| Debounce.BurstLeavesLastPending | app/components/pdf-reader.tsx:167-178 | a burst of changes inside one quiet period writes nothing and leaves only the last change pending, due a quiet period after it |
| Debounce.QuietWritesPendingOnce | app/components/pdf-reader.tsx:170-172 | while only the clock moves, a pending write happens once, exactly when the clock reaches its deadline |
| Debounce.IdleStaysQuiet | app/components/pdf-reader.tsx:167-178 | with nothing pending, the clock alone never writes |
| Debounce.DebounceWritesLastOfBurst | app/components/pdf-reader.tsx:167-178 | a burst followed by quiet writes exactly one value: the last change of the burst |
| Pages.Percent | app/components/pdf-reader.tsx:223 | `Math.round(100 * page / numPages)` lies in [0, 100] for a page of the document and is 100 on the last page |
| Pages.PercentIsNearest | app/components/pdf-reader.tsx:223 | `Percent` is the integer nearest to `100 * page / numPages`, halves rounded up |
| Pages.PercentBounds | app/components/pdf-reader.tsx:223 | the integer formula lies within half a unit of `100 * page / numPages`, lies in [0, 100] and is 100 on the last page |
| Pages.SignOfProduct | app/components/pdf-reader.tsx:223 | multiplying by a positive page count keeps the sign |
| Pages.PrevPage | app/components/pdf-reader.tsx:183-186 | an unset or zero page becomes 1; otherwise `max(1, p - 1)` |
| Pages.NextPage | app/components/pdf-reader.tsx:188-191 | an unset or zero page becomes 1; otherwise `min(numPages, p + 1)` |
| Pages.NavigationStaysInRange | app/components/pdf-reader.tsx:183-191 | from a page of the document, previous and next stay in `[1, numPages]`, stopping at the first and last page |
| Pages.JumpTarget | app/components/pdf-reader.tsx:193-200 | a jump is accepted exactly when `parseInt` of the text gives a page in `[1, numPages]`, and it goes to that page |
| Pages.StartPage | app/components/pdf-reader.tsx:81-87 | the initial page is the parsed saved location when it is a page of the document, 1 otherwise (no saved location, empty, unparsable, out of range) |
| Pages.StartPageRestoresSavedPage | app/components/pdf-reader.tsx:81-87 | a page saved as `String(page)` reopens at that page |
| Pages.SaveRequest | app/components/pdf-reader.tsx:167-178 | the save effect schedules `(String(page), percentage)` exactly when both the page and the page count are set |
| Bookmarks.FirstMatch | app/components/pdf-reader.tsx:181 | the index of the first bookmark whose location equals the given one, found exactly when some bookmark has it |
| Bookmarks.ToggleAt | app/components/pdf-reader.tsx:210-221 | a toggle creates at the location exactly when no bookmark has it; otherwise it removes the first match by its real id, or does nothing when that match has no id |
| Bookmarks.WithoutId | app/hooks/use-bookmarks.ts:20-22 | `delete(id)` keeps exactly the rows with another id |
| Bookmarks.ToggleFlips | app/components/pdf-reader.tsx:210-221 | on a well-formed list (one bookmark per location, real unique ids) a toggle flips whether the location is bookmarked |
| Bookmarks.ToggleTwice | app/components/pdf-reader.tsx:210-221 | on a well-formed list, toggling twice at an unbookmarked location restores the list exactly; at a bookmarked location it keeps the length and the bookmarked flag, but the re-created bookmark has a new id, creation time and position |
| Bookmarks.FilterKeepsAllBut | app/hooks/use-bookmarks.ts:20-22 | removing the id of a row just appended gives back the earlier list |
| Bookmarks.FilterDropsOne | app/hooks/use-bookmarks.ts:20-22 | with unique ids, removal by an existing id drops exactly one row |
| Bookmarks.AllKept | app/hooks/use-bookmarks.ts:20-22 | removal by an id nobody carries keeps the list |
| Bookmarks.DuplicateSurvivesToggle | app/hooks/use-bookmarks.ts:7-18 | because creation never deduplicates, a location bookmarked twice stays bookmarked after a toggle |
| AppDb.BookById | app/hooks/use-books.ts:27-29 | `books.get(id)` finds a book exactly when some row has the id, and returns that row |
| AppDb.BookByKey | app/hooks/use-books.ts:31-33 | the first book with the key, found exactly when some row has it |
| AppDb.FirstProgressOf | app/hooks/use-progress.ts:4-8 | the first progress row of the book, found exactly when the book has one |
| AppDb.BookmarksOf | app/hooks/use-bookmarks.ts:5 | exactly the bookmark rows of the book |
| AppDb.BooksWithoutId | app/hooks/use-books.ts:14 | the book table after `delete(id)` keeps exactly the other rows |
| AppDb.ProgressWithoutBook | app/hooks/use-progress.ts:14 | the progress table after the book's rows are deleted keeps exactly the rows of other books |
| Bookmarks.BookmarksWithoutBook | app/hooks/use-books.ts:16 | the bookmark table after the book's rows are deleted keeps exactly the rows of other books; the older store's cascade (`src/utils/db.ts:77`) is the same filter |
| AppDb.SettingsWithoutKey | app/hooks/use-settings.ts:50 | the settings table after `where('key').equals(key).delete()` keeps exactly the records of other keys |
| AppDb.WithChanges | app/hooks/use-books.ts:35-37 | `update(id, changes)` changes only the title and author of the book with that id, and only the fields given |
| AppDb.NewestFirst | app/hooks/use-books.ts:40 | `orderBy('addedAt').reverse()`: a permutation of the table, sorted by `addedAt` descending |
| AppDb.Database.constructor | app/utilities/db.ts:47-52 | the store starts empty, and every id counter at 1 (`++id`) |
| AppDb.Database.AddBook | app/utilities/db.ts:48 | the unique `&key` index: a duplicate key fails with a `ConstraintError` and changes nothing; otherwise the book is appended under the next id |
| AppDb.Database.DeleteBookRow | app/hooks/use-books.ts:14 | `books.delete(id)` keeps exactly the other books |
| AppDb.Database.UpdateBookRow | app/hooks/use-books.ts:36 | `books.update` changes that book's title and author only |
| AppDb.Database.DeleteProgressOf | app/hooks/use-progress.ts:14 | the book's progress rows are removed and nothing else |
| AppDb.Database.AddProgress | app/hooks/use-progress.ts:15-20 | a row is appended under the next progress id |
| AppDb.Database.DeleteBookmarksOf | app/hooks/use-books.ts:16 | the book's bookmark rows are removed and nothing else |
| AppDb.Database.AddBookmark | app/hooks/use-bookmarks.ts:10-15 | a row is appended under the next bookmark id |
| AppDb.Database.DeleteBookmark | app/hooks/use-bookmarks.ts:20-22 | the rows with that id are removed |
| AppDb.Database.DeleteSettingsWithKey | app/hooks/use-settings.ts:50 | the records with that key are removed |
| AppDb.Database.AddSetting | app/hooks/use-settings.ts:51-53 | a record is appended under the next setting id |
| AppProgress.ProgressOf | app/hooks/use-progress.ts:4-8 | nothing for a falsy book id; otherwise a row of that book, present whenever the book has one |
| AppProgress.UpdateProgress | app/hooks/use-progress.ts:10-21 | a falsy id changes nothing; otherwise the book's rows are deleted and one new row is added, and the other tables stay the same |
| AppProgress.UpdateLeavesOneRow | app/hooks/use-progress.ts:13-20 | after an update the book has exactly one progress row, the one just added, and every other book's rows are kept |
| AppProgress.ReadAfterUpdate | app/hooks/use-progress.ts:4-20 | reading after an update of a real book yields the row just written |
| AppProgress.UpdateLeavesOthers | app/hooks/use-progress.ts:14 | an update of one book does not change what another book reads |
| AppBookmarks.BookmarkList | app/hooks/use-bookmarks.ts:5-25 | empty for a falsy id; otherwise exactly the book's bookmarks |
| AppBookmarks.CreateBookmark | app/hooks/use-bookmarks.ts:7-18 | a falsy id adds nothing and yields nothing; otherwise a new row is always appended and its id returned |
| AppBookmarks.RemoveBookmark | app/hooks/use-bookmarks.ts:20-22 | exactly the rows with that id are removed, and the other tables stay the same |
| AppBookmarks.CreateNeverDeduplicates | app/hooks/use-bookmarks.ts:10-15 | creating a bookmark grows the book's list by exactly the new row, even at an already bookmarked location |
| AppBookmarks.RemoveOnlyThatId | app/hooks/use-bookmarks.ts:20-22 | after removal no listed bookmark has the id, and every other one is still listed |
| AppBooks.AddBook | app/hooks/use-books.ts:6-10 | a file that failed processing adds nothing and its error propagates; otherwise the store's add decides |
| AppBooks.DeleteBook | app/hooks/use-books.ts:12-18 | the book, its progress and its bookmarks are removed together; settings and other books' rows stay |
| AppBooks.DeleteBookByKey | app/hooks/use-books.ts:20-25 | the first book with the key is cascaded away when it exists with an id; otherwise nothing changes |
| AppBooks.GetBook | app/hooks/use-books.ts:27-29 | the book with that id, found exactly when it exists |
| AppBooks.GetBookByKey | app/hooks/use-books.ts:31-33 | a book with that key, found exactly when one exists |
| AppBooks.UpdateBook | app/hooks/use-books.ts:35-37 | only the title and author of that book change |
| AppBooks.Library | app/hooks/use-books.ts:40-45 | the list is newest first; loading holds exactly while the query has no result, and then the list is empty |
| AppBooks.DeleteBookKeepsNoOrphans | app/hooks/use-books.ts:12-18 | on a store without orphans, the cascade leaves one without orphans and no row of the deleted book |
| AppSettings.FontSizeOf | app/hooks/use-settings.ts:37 | `parseInt(value, 10) \|\| 18`: the parsed number unless it is NaN or 0, which read as 18 |
| AppSettings.LineHeightOf | app/hooks/use-settings.ts:39 | `parseFloat(value) \|\| 1.6`: the parsed number unless it is NaN or 0 |
| AppSettings.Derive | app/hooks/use-settings.ts:25-46 | the loop yields the defaults while the query has no result, and otherwise the records folded in order over the defaults |
| AppSettings.LastValue | app/hooks/use-settings.ts:29-42 | the value of the last record whose key qualifies, present exactly when one does |
| AppSettings.FoldIsLastRecordWins | app/hooks/use-settings.ts:29-42 | each setting is read from the last record of its key, or is its default |
| AppSettings.ForeignRecordIgnored | app/hooks/use-settings.ts:30 | a record whose key is neither one of the four settings keys nor a key inherited from `Object.prototype` (which `key in defaultSettings` also accepts) changes nothing |
| AppSettings.NoRecordsGiveDefaults | app/hooks/use-settings.ts:15-20 | with no records the settings are sepia, 18, serif, 1.6 |
| AppSettings.UpdateSetting | app/hooks/use-settings.ts:48-54 | every record of the key is deleted, then one record with the new value is added; other tables stay |
| AppSettings.UpdateLeavesOneRecord | app/hooks/use-settings.ts:48-54 | after an update exactly one record has the key, and the records of other keys are kept |
| AppSettings.LastValueAfterUpdate | app/hooks/use-settings.ts:25-54 | after an update the fold reads the new value for that key, and other keys read as before |
| AppSettings.LastValueOfFilter | app/hooks/use-settings.ts:50 | deleting the records of a key leaves what another key reads unchanged |
| AppSettings.LastValueSnoc | app/hooks/use-settings.ts:29-42 | the last qualifying record of a list with one more record at the end is that record when it qualifies |
| AppSettings.FontSizeRoundTrip | app/hooks/use-settings.ts:37-54 | writing a font size as its decimal string and reading back gives that size, with 0 read as 18 |
| AppSettings.ThemeRoundTrip | app/hooks/use-settings.ts:33-54 | writing any theme string and reading back gives it verbatim |
| SrcDb.NewestFirst | src/utils/db.ts:68-70 | `getAllBooks`'s order: a permutation sorted by `addedAt` descending |
| SrcDb.SettingOr | src/utils/db.ts:126-129 | `getSetting`: the stored value unless it is absent or null, then the default |
| SrcDb.BooksWithoutId | src/utils/db.ts:75 | the book table after `delete(id)` keeps exactly the other books |
| SrcDb.SaveProgressReadBack | src/utils/db.ts:81-96 | a put keyed by the book id: reading back gives exactly the row written, and other books read as before |
| SrcDb.Database.constructor | src/utils/db.ts:44-49 | an empty store with ids from 1; the store is either available or every call fails |
| SrcDb.Database.AddBook | src/utils/db.ts:56-62 | the book is added under a fresh id stamped `now`, or the call fails and nothing changes |
| SrcDb.Database.GetBook | src/utils/db.ts:64-66 | the book with that id, absent exactly when none has it; a failure when the store fails |
| SrcDb.Database.GetAllBooks | src/utils/db.ts:68-70 | all books, newest first |
| SrcDb.Database.DeleteBook | src/utils/db.ts:72-78 | the book, its progress and its bookmarks go in one transaction, or nothing changes |
| SrcDb.Database.SaveProgress | src/utils/db.ts:81-92 | the book's single progress record is replaced (at most one per book) |
| SrcDb.Database.GetProgress | src/utils/db.ts:94-96 | the book's record, present exactly when it was saved |
| SrcDb.Database.AddBookmark | src/utils/db.ts:99-111 | a new bookmark under a fresh store-assigned id, returned; no de-duplication |
| SrcDb.Database.GetBookmarks | src/utils/db.ts:113-115 | exactly that book's bookmarks |
| SrcDb.Database.DeleteBookmark | src/utils/db.ts:117-119 | only the bookmark with that id is removed |
| SrcDb.Database.SaveSetting | src/utils/db.ts:122-124 | the key's value is overwritten |
| SrcDb.Database.GetSetting | src/utils/db.ts:126-129 | the stored value, or the default when absent or null |
| SrcProgress.ProgressHook.constructor | src/hooks/use-progress.ts:11-12 | progress starts null and loading true |
| SrcProgress.ProgressHook.Load | src/hooks/use-progress.ts:14-30 | a falsy id loads nothing; otherwise loading ends, and progress is the stored record or null, or is kept when the read fails |
| SrcProgress.ProgressHook.UpdateProgress | src/hooks/use-progress.ts:32-44 | a falsy id does nothing; a successful save puts the record and the in-memory copy equals it; a failed save changes nothing; agreement with the store is preserved |
| SrcBookmarks.NewestCreatedFirst | src/hooks/use-bookmarks.ts:21 | the sort by `createdAt`, newest first, as a permutation |
| SrcBookmarks.Listed | src/hooks/use-bookmarks.ts:18-22 | the loaded list: exactly the book's bookmarks, newest first |
| SrcBookmarks.BookmarksHook.constructor | src/hooks/use-bookmarks.ts:12-13 | an empty list, loading |
| SrcBookmarks.BookmarksHook.Load | src/hooks/use-bookmarks.ts:15-27 | a falsy id does nothing; otherwise loading ends, and the list is the listed bookmarks or, after a failed read, unchanged |
| SrcBookmarks.BookmarksHook.CreateBookmark | src/hooks/use-bookmarks.ts:33-45 | without a book id nothing happens; otherwise the bookmark is added and the list reloaded; a failure changes nothing |
| SrcBookmarks.BookmarksHook.RemoveBookmark | src/hooks/use-bookmarks.ts:47-57 | the id is deleted and the list reloaded; a failure leaves store and list as they were |
| SrcBookmarks.CreatedIsListed | src/hooks/use-bookmarks.ts:33-45 | a created bookmark appears in the reloaded list |
| SrcBookmarks.RemovedIsNotListed | src/hooks/use-bookmarks.ts:47-57 | after removal the reloaded list is the old one without that id |
| SrcSettings.KeyName | src/hooks/use-settings.ts:35-38 | each setting reads its own store key |
| SrcSettings.KeyNameInjective | src/hooks/use-settings.ts:35-38 | distinct settings use distinct keys |
| SrcSettings.With | src/hooks/use-settings.ts:55 | `{ ...prev, [key]: value }` changes that key only |
| SrcSettings.Settings.Get | src/hooks/use-settings.ts:35-38 | each key reads its own field of the settings |
| SrcSettings.Loaded | src/hooks/use-settings.ts:31-49 | each setting is read separately, falling back to its own default |
| SrcSettings.SettingsHook.constructor | src/hooks/use-settings.ts:20-28 | the initial state is the defaults (sepia, 18, serif, 1.8), loading |
| SrcSettings.SettingsHook.Load | src/hooks/use-settings.ts:31-49 | loading ends; the settings are the loaded ones, or unchanged after a failed read |
| SrcSettings.SettingsHook.UpdateSetting | src/hooks/use-settings.ts:51-61 | a successful save overwrites the store key and changes only that setting in memory; a failed one changes nothing |
| SrcSettings.SaveThenLoad | src/hooks/use-settings.ts:31-61 | after a save, loading reads the new value for that key and the old ones for the others |
| SrcSettings.SaveNullRestoresDefault | src/hooks/use-settings.ts:35-38 | a null stored value reads as the key's default |
| AppPdfReader.VisibleLocation | app/components/pdf-reader.tsx:81 | `progress?.location`: nothing while the query is pending, as with no saved row |
| AppPdfReader.InitialPageAsWritten | app/components/pdf-reader.tsx:78-91 | the effect as written: with the document loaded and the flag clear it picks a start page at once, reading a pending query as "no progress" |
| AppPdfReader.InitialPage | app/components/pdf-reader.tsx:78-91 | the corrected decision: a start page is chosen once, after both the document and the progress answer arrived, and is `Pages.StartPage` of the saved location |
| AppPdfReader.DocumentBeforeProgressOpensAtPageOne | app/components/pdf-reader.tsx:78-91 | a document parsed before the progress query answers opens at page 1 as written, while the corrected decision waits and then restores page 5 |
| AppPdfReader.DecisionsAgreeOnceSettled | app/components/pdf-reader.tsx:78-91 | once the query answered, the written and the corrected decisions agree |
| AppPdfReader.PageBookmarkIsExact | app/components/pdf-reader.tsx:181-221 | after bookmarking a page that page is bookmarked and no other page becomes so |
| AppPdfReader.PdfReader.constructor | app/components/pdf-reader.tsx:37-39 | no document, no page, flag clear, nothing pending |
| AppPdfReader.PdfReader.RunEffects | app/components/pdf-reader.tsx:78-178 | runs the corrected initial-page decision of Findings row 1 (`InitialPage`, which waits for the progress query), not the code as written: it sets the page and the flag at most once; the save timer is re-armed only when page or count changed |
| AppPdfReader.PdfReader.DocumentLoaded | app/components/pdf-reader.tsx:72-91 | the page count is set and the corrected initial-page decision of Findings row 1 runs: with the progress query still pending no page is chosen yet, where the code as written opens page 1 |
| AppPdfReader.PdfReader.DocumentFailed | app/components/pdf-reader.tsx:231-245 | the error screen state |
| AppPdfReader.PdfReader.ProgressChanged | app/components/pdf-reader.tsx:78-91 | once the start page is chosen, no progress answer moves the page or the timer; under the corrected decision of Findings row 1, an answer arriving after the document with no page chosen yet sets the page to `StartPage` of the answer (as written, page 1 was already chosen and the answer is ignored) |
| AppPdfReader.PdfReader.BookmarksChanged | app/components/pdf-reader.tsx:181 | the new list is held |
| AppPdfReader.PdfReader.SetPage | app/components/pdf-reader.tsx:167-178 | the page is set and the save timer re-armed |
| AppPdfReader.PdfReader.GoToPrev | app/components/pdf-reader.tsx:183-186 | the page becomes `PrevPage` of the old one |
| AppPdfReader.PdfReader.GoToNext | app/components/pdf-reader.tsx:188-191 | the page becomes `NextPage` of the old one |
| AppPdfReader.PdfReader.GoToPage | app/components/pdf-reader.tsx:193-200 | a valid page is shown and the sidebar closes; any other text changes nothing |
| AppPdfReader.PdfReader.KeyDown | app/components/pdf-reader.tsx:147-164 | with pages, ArrowLeft/PageUp go back and ArrowRight/PageDown forward; other keys, or no pages (no listener), change nothing |
| AppPdfReader.PdfReader.Swiped | app/components/pdf-reader.tsx:226-229 | a left swipe goes forward, a right swipe back |
| AppPdfReader.PdfReader.Tick | app/components/pdf-reader.tsx:170-172 | a due write fires once, carrying `(String(page), percentage)` of the current state |
| AppPdfReader.PdfReader.Percentage | app/components/pdf-reader.tsx:223 | 0 without pages or page; otherwise `Percent`, in [0, 100], and 100 on the last page |
| AppPdfReader.PdfReader.ToggleRequest | app/components/pdf-reader.tsx:210-221 | nothing with no page; otherwise `ToggleAt(String(page))`, creating exactly when the page is not bookmarked |
| AppPdfReader.PdfReader.IsCurrentPageBookmarked | app/components/pdf-reader.tsx:181 | never without a page; when set, some bookmark's location parses back (`parseInt`) to the current page |
| AppPdfReader.PdfReader.IsLoading | app/components/pdf-reader.tsx:224 | loading while the document loads; not loading implies a page is set; once the start page is chosen it is not loading |
| SrcPdfReader.PageText | src/components/pdf-reader.tsx:163 | `String(currentPage)`, "NaN" for a NaN page |
| SrcPdfReader.MinPage | src/components/pdf-reader.tsx:101 | `Math.min(start, numPages)`, NaN staying NaN |
| SrcPdfReader.StartPage | src/components/pdf-reader.tsx:100-101 | the corrected loader: `min(parseInt(saved), numPages)`, or `min(1, numPages)` with no saved location |
| SrcPdfReader.StartPageRestoresSavedPage | src/components/pdf-reader.tsx:100-101 | a page of the document saved as `String(page)` is restored |
| SrcPdfReader.NoLowerBound | src/components/pdf-reader.tsx:100-101 | there is no lower bound: a saved "-3" opens at page -3 |
| SrcPdfReader.StartPageAsWritten | src/components/pdf-reader.tsx:48-116 | the loader as written reads the mount-time progress, which is null, so it starts at `min(1, numPages)` |
| SrcPdfReader.SavedPageIsLostAsWritten | src/components/pdf-reader.tsx:48-116 | a book saved at page 5 of 10 reopens at page 1 as written, and at page 5 when corrected |
| SrcPdfReader.PrevPage | src/components/pdf-reader.tsx:178-180 | `max(1, p - 1)`, NaN staying NaN |
| SrcPdfReader.NextPage | src/components/pdf-reader.tsx:182-184 | `min(numPages, p + 1)`, NaN staying NaN |
| SrcPdfReader.NavigationStaysInRange | src/components/pdf-reader.tsx:150-184 | inside the document both stay inside it and agree with the newer reader |
| SrcPdfReader.PdfReader.constructor | src/components/pdf-reader.tsx:35-42 | loading, page 1 of 0, nothing bookmarked or pending |
| SrcPdfReader.PdfReader.RunEffects | src/components/pdf-reader.tsx:162-176 | the bookmark flag follows page and list; the save timer is re-armed only when page or count changed |
| SrcPdfReader.PdfReader.PageCountKnown | src/components/pdf-reader.tsx:64 | the page count is set while the outline is awaited; that render re-arms the save with the initial page 1, so a write of "1" is pending before the start page is chosen |
| SrcPdfReader.PdfReader.DocumentLoaded | src/components/pdf-reader.tsx:100-102 | after the outline, loading ends and the page is the corrected `StartPage` of the progress held now and the page count (Findings row 2); the code as written reads the mount-time null progress and gives `StartPageAsWritten` |
| SrcPdfReader.PdfReader.ShowDocument | src/components/pdf-reader.tsx:101-102 | the start page is set and loading ends, the page count kept, and the effects re-run on the new page |
| SrcPdfReader.PdfReader.DocumentFailed | src/components/pdf-reader.tsx:103-106 | loading ends |
| SrcPdfReader.PdfReader.ProgressChanged | src/components/pdf-reader.tsx:48-116 | a progress change does not re-seek: only the held location changes |
| SrcPdfReader.PdfReader.BookmarksChanged | src/components/pdf-reader.tsx:162-165 | the flag becomes "some bookmark is at `String(page)`" |
| SrcPdfReader.PdfReader.SetPage | src/components/pdf-reader.tsx:168-176 | the page is set and the effects run |
| SrcPdfReader.PdfReader.GoToPrev | src/components/pdf-reader.tsx:178-180 | the page becomes `PrevPage` of the old one |
| SrcPdfReader.PdfReader.GoToNext | src/components/pdf-reader.tsx:182-184 | the page becomes `NextPage` of the old one |
| SrcPdfReader.PdfReader.GoToPage | src/components/pdf-reader.tsx:186-195 | only a page of the document is accepted, and the sidebar then closes |
| SrcPdfReader.PdfReader.KeyDown | src/components/pdf-reader.tsx:148-159 | ArrowLeft/PageUp back, ArrowRight/PageDown forward, any other key nothing; the listener is there whatever the count |
| SrcPdfReader.PdfReader.Tick | src/components/pdf-reader.tsx:170-172 | a due write fires once with the current page and percentage |
| SrcPdfReader.PdfReader.ToggleRequest | src/components/pdf-reader.tsx:205-214 | `ToggleAt(String(page))` labelled `Page N`, creating exactly when the page is not bookmarked |
| SrcPdfReader.PdfReader.Percentage | src/components/pdf-reader.tsx:216 | 0 without pages, NaN for a NaN page, otherwise `Percent`, 100 on the last page |
| EpubReaderHook.RestoreTarget | app/hooks/use-epub-reader.ts:166-196 | displays the requested location when it is a non-empty string, and the start otherwise |
| EpubReaderHook.RelocatedPercentage | app/hooks/use-epub-reader.ts:93 | `Math.round((fraction \|\| 0) * 100)`: 0 when missing, within half a unit otherwise, in [0, 100] for a fraction in [0, 1] |
| EpubReaderHook.ThemeColors | app/hooks/use-epub-reader.ts:224-230 | the three themes' colours; an unknown name falls back to light, while an inherited object key resolves to undefined colours |
| EpubReaderHook.ThemeCommand | app/hooks/use-epub-reader.ts:233-247 | the theme call's colours, `family !important`, line height and `size px` |
| EpubReaderHook.RestoreDecision | app/hooks/use-epub-reader.ts:157-198 | skip without a rendition or once restored; with locations ready, display now; otherwise poll |
| EpubReaderHook.Session.constructor | app/hooks/use-epub-reader.ts:40-198 | at mount no error is shown, so the viewer element exists: mounting opens rendition 1 (or records the error) and arms the poll and the 10 s timeout |
| EpubReaderHook.Session.Teardown | app/hooks/use-epub-reader.ts:139-148 | the rendition is destroyed and dropped, and not ready |
| EpubReaderHook.Session.OpenBook | app/hooks/use-epub-reader.ts:48-153 | the old rendition is destroyed; without a viewer element the effect returns there, keeping the flags, the error, the toc and the position; with one, both flags, readiness, error, toc, location and percentage are reset, then a new rendition or the error |
| EpubReaderHook.Session.RestoreEffect | app/hooks/use-epub-reader.ts:157-198 | one run of the restore effect per `RestoreDecision`: display now and mark restored, or arm poll and timeout, or nothing |
| EpubReaderHook.Session.BookChanged | app/hooks/use-epub-reader.ts:48-59 | the old rendition is destroyed; with a viewer element a new book resets both flags and the position and opens a new rendition; without one (early return at lines 49-50) the error and the restore flag stay and no rendition exists |
| EpubReaderHook.Session.InitialLocationChanged | app/hooks/use-epub-reader.ts:157-198 | an unchanged location does nothing; once restored no location is displayed again; else per `RestoreDecision` |
| EpubReaderHook.Session.PollTick | app/hooks/use-epub-reader.ts:162-174 | once ready the poll displays the target once, marks restored and stops; otherwise nothing |
| EpubReaderHook.Session.Tick | app/hooks/use-epub-reader.ts:177-183 | a due timeout stops the poll, marks restored and, if nothing was restored, displays the start |
| EpubReaderHook.Session.LocationsGenerated | app/hooks/use-epub-reader.ts:103-112 | locations become ready; nothing is displayed |
| EpubReaderHook.Session.LocationsFailed | app/hooks/use-epub-reader.ts:149-152 | the error message is recorded |
| EpubReaderHook.Session.NavigationLoaded | app/hooks/use-epub-reader.ts:77-87 | the toc is set |
| EpubReaderHook.Session.Relocated | app/hooks/use-epub-reader.ts:90-94 | the location is the start CFI and the percentage `RelocatedPercentage` |
| EpubReaderHook.Session.Rendered | app/hooks/use-epub-reader.ts:97-99 | the session is ready |
| EpubReaderHook.Session.Send | app/hooks/use-epub-reader.ts:201-217 | a call reaches the live rendition, and is dropped without one |
| EpubReaderHook.Session.GoToLocation | app/hooks/use-epub-reader.ts:201-205 | `display(cfi)` when there is a rendition, nothing otherwise |
| EpubReaderHook.Session.GoToPrev | app/hooks/use-epub-reader.ts:207-211 | `prev()` when there is a rendition |
| EpubReaderHook.Session.GoToNext | app/hooks/use-epub-reader.ts:213-217 | `next()` when there is a rendition |
| EpubReaderHook.Session.KeyDown | app/hooks/use-epub-reader.ts:115-123 | ArrowLeft is prev, ArrowRight next, other keys nothing |
| EpubReaderHook.Session.ApplyTheme | app/hooks/use-epub-reader.ts:220-257 | the theme call when there is a rendition and it goes through; otherwise nothing changes, the error swallowed |
| EpubReaderHook.Session.Unmount | app/hooks/use-epub-reader.ts:139-188 | both cleanups: rendition destroyed, poll and timeout cleared |
| AppEpubReader.InitialLocationOf | app/components/epub-reader.tsx:36 | the saved location to restore, or none without progress |
| AppEpubReader.FontFamilyCss | app/components/epub-reader.tsx:40-49 | `sans` maps to `system-ui, sans-serif`, anything else to `Georgia, serif` |
| AppEpubReader.ToggleRequest | app/components/epub-reader.tsx:77-88 | nothing without a location; else `ToggleAt`, creating exactly when not bookmarked and removing only when bookmarked |
| AppEpubReader.IsLocationBookmarked | app/components/epub-reader.tsx:64-67 | never without a location; otherwise bookmarked exactly when `find` by that location succeeds, and then some bookmark holds exactly that location |
| EpubProgress.SaveRequest | app/components/epub-reader.tsx:52-61 | a write of `(location, percentage)` exactly when there is a location and the percentage is not negative; the older component's effect at src/components/epub-reader.tsx:167-174 is the same |
| EpubProgress.HasLocation | app/components/epub-reader.tsx:53 | `!!currentLocation`: a location that is present and non-empty |
| AppEpubReader.ToggleAtLocationFlips | app/components/epub-reader.tsx:64-88 | with a location and a well-formed list, a toggle flips the bookmarked flag |
| AppEpubReader.EpubReader.constructor | app/components/epub-reader.tsx:36 | the session is asked to restore `progress?.location` |
| AppEpubReader.EpubReader.SaveEffect | app/components/epub-reader.tsx:52-61 | the save timer is re-armed only when location or percentage changed |
| AppEpubReader.EpubReader.ThemeEffect | app/components/epub-reader.tsx:40-49 | a change of settings or readiness applies the theme when ready; not ready, nothing is sent |
| AppEpubReader.EpubReader.ProgressChanged | app/components/epub-reader.tsx:36 | the session gets the new location; once restored nothing is displayed |
| AppEpubReader.EpubReader.BookChanged | app/components/epub-reader.tsx:90-102 | the viewer element exists only while no error is shown: with no error a new rendition replaces the old one; with an error on screen the old rendition is destroyed, the error stays and the error screen remains; the save and theme effects re-run |
| AppEpubReader.EpubReader.Relocated | app/components/epub-reader.tsx:52-61 | the position changes and the save timer is re-armed |
| AppEpubReader.EpubReader.Rendered | app/components/epub-reader.tsx:40-49 | ready, and the settings are applied |
| AppEpubReader.EpubReader.SettingsChanged | app/components/epub-reader.tsx:40-49 | nothing is sent before ready |
| AppEpubReader.EpubReader.BookmarksChanged | app/components/epub-reader.tsx:64-67 | the new list is held |
| AppEpubReader.EpubReader.Navigate | app/components/epub-reader.tsx:69-75 | seeks and closes the sidebar |
| AppEpubReader.EpubReader.ToggleSidebar | app/components/epub-reader.tsx:69-75 | the sidebar flips |
| AppEpubReader.EpubReader.Tick | app/components/epub-reader.tsx:52-61 | a due write fires once with the current location and percentage |
| AppEpubReader.EpubReader.Screen | app/components/epub-reader.tsx:90-185 | only the error screen with an error; otherwise the reader, covered while not ready |
| SrcEpubReader.ThemeBody | src/components/epub-reader.tsx:131-164 | the body colours of light, sepia and dark, nothing for any other name |
| SrcEpubReader.EmptyListShortcutIsHarmless | src/components/epub-reader.tsx:42-45 | the empty-list shortcut is the plain exact match |
| SrcEpubReader.Caption | src/components/epub-reader.tsx:204 | the label `Page at P%` |
| SrcEpubReader.ToggleRequest | src/components/epub-reader.tsx:195-213 | nothing without a location; else `ToggleAt` with that label, creating exactly when not bookmarked |
| SrcEpubReader.IsLocationBookmarked | src/components/epub-reader.tsx:42-45 | the empty-list shortcut included, bookmarked exactly when there is a location and some bookmark has exactly that location |
| SrcEpubReader.ProgressEffectTarget | src/components/epub-reader.tsx:124-128 | a progress change re-displays the saved location exactly when there is one, a rendition and generated locations |
| SrcEpubReader.GeneratedTargetAsWritten | src/components/epub-reader.tsx:95-102 | as written the step after generation reads the mount-time null progress and displays the start |
| SrcEpubReader.GeneratedTarget | src/components/epub-reader.tsx:91-102 | corrected: it displays the saved location held then, or the start |
| SrcEpubReader.ProgressBeforeLocationsIsLostAsWritten | src/components/epub-reader.tsx:91-128 | progress that loads before the locations exist is never displayed as written, and is displayed when corrected |
| SrcEpubReader.ReseeksUnlikeSessionHook | src/components/epub-reader.tsx:124-128 | after a restore the newer hook skips while the older component re-displays the change |
| SrcEpubReader.EpubReader.constructor | src/components/epub-reader.tsx:32-121 | a rendition and a key listener exactly when the viewer and the file bytes are there (the effect's early return otherwise), nothing shown or pending |
| SrcEpubReader.EpubReader.SaveEffect | src/components/epub-reader.tsx:167-174 | the save timer is re-armed only when location or percentage changed |
| SrcEpubReader.EpubReader.ThemeEffect | src/components/epub-reader.tsx:131-164 | a change of theme, size or readiness applies the theme when ready and accepted |
| SrcEpubReader.EpubReader.ProgressChanged | src/components/epub-reader.tsx:124-128 | the held progress changes and, with locations, is displayed every time |
| SrcEpubReader.EpubReader.LocationsGenerated | src/components/epub-reader.tsx:91-102 | displays the corrected `GeneratedTarget` once the locations exist (Findings row 3); the code as written displays the start (`GeneratedTargetAsWritten`) |
| SrcEpubReader.EpubReader.NavigationLoaded | src/components/epub-reader.tsx:66-76 | the toc is set |
| SrcEpubReader.EpubReader.Relocated | src/components/epub-reader.tsx:79-83 | the start CFI and the rounded percentage, then the save effect |
| SrcEpubReader.EpubReader.Rendered | src/components/epub-reader.tsx:86-88 | ready, and the theme effect re-runs |
| SrcEpubReader.EpubReader.BookmarksChanged | src/components/epub-reader.tsx:42-45 | the new list is held |
| SrcEpubReader.EpubReader.GoToLocation | src/components/epub-reader.tsx:176-181 | with a rendition, seek and close the sidebar; otherwise nothing |
| SrcEpubReader.EpubReader.Turn | src/components/epub-reader.tsx:183-193 | `next()` or `prev()` when there is a rendition |
| SrcEpubReader.EpubReader.KeyDown | src/components/epub-reader.tsx:105-113 | while listening only ArrowLeft and ArrowRight turn the page |
| SrcEpubReader.EpubReader.Tick | src/components/epub-reader.tsx:167-174 | a due write fires once with the current location and percentage |
| SrcEpubReader.EpubReader.Teardown | src/components/epub-reader.tsx:115-120 | the key listener is removed, not ready, the rendition destroyed |
| Themes.NextTheme | app/components/app-header.tsx:12-22 | light to sepia to dark to light; an unknown name goes to light; the theme always changes |
| Themes.ThreePressesReturn | src/components/library.tsx:79-84 | three presses return a listed theme, and take an unknown one to dark |
| Themes.IconOf | app/components/app-header.tsx:24 | Moon exactly for dark, Coffee exactly for sepia, Sun for anything else |
| Themes.IconFollowsCycle | src/components/library.tsx:86 | the icon changes Sun, Coffee, Moon in step with the cycle |
| SettingsPanel.Decrease | src/components/settings-panel.tsx:84-89 | the previous list entry exactly for a listed size above 14; nothing at 14 or off the list |
| SettingsPanel.Increase | src/components/settings-panel.tsx:102-107 | the next entry below 24; an off-list size jumps to 14 |
| SettingsPanel.DecreaseDisabled | src/components/settings-panel.tsx:90 | on a listed size disabled exactly when the minus step does nothing; enabled only above 14 |
| SettingsPanel.IncreaseDisabled | src/components/settings-panel.tsx:108 | on a listed size disabled exactly when the plus step does nothing; enabled only below 24 |
| SettingsPanel.DisabledExactlyWhenNoStep | src/components/settings-panel.tsx:90-108 | on a listed size a button is disabled exactly when pressing it does nothing |
| SettingsPanel.OffListSizes | src/components/settings-panel.tsx:84-108 | off the list the bounds and the steps disagree: at 15 the minus button is enabled but does nothing, and at 30 the plus button is disabled but would jump to 14 |
| SettingsPanel.StepsUndo | src/components/settings-panel.tsx:84-107 | plus then minus returns to a listed size below the largest |
| SettingsPanel.Controls | src/components/settings-panel.tsx:79-118 | the font controls exactly for an EPUB, the theme always |
| Library.FirstFailure | src/components/library.tsx:40-45 | the first import that throws, with every earlier one succeeded |
| Library.Library.constructor | src/components/library.tsx:32-50 | not importing, no error |
| Library.Library.HandleFileSelect | src/components/library.tsx:32-50 | null or empty does nothing; otherwise files are imported in order up to and including the first failure, whose message becomes the error; `importing` ends false |
| Swipe.Abs | app/hooks/use-swipe.ts:43 | the absolute value |
| Swipe.Classify | app/hooks/use-swipe.ts:43-48 | right exactly for a fast, long, horizontal move with `dx > 0` and a right handler; left likewise for `dx < 0`; at most one |
| Swipe.IsSwipe | app/hooks/use-swipe.ts:43 | a qualifying move is within the time limit and at least the threshold, and always has a direction (`dx != 0`); too slow or not more horizontal than vertical never qualifies |
| Swipe.Tracker.constructor | app/hooks/use-swipe.ts:19 | threshold 50 and allowed time 300 unless given |
| Swipe.Tracker.TouchStart | app/hooks/use-swipe.ts:25-30 | records the position and time |
| Swipe.Tracker.TouchEnd | app/hooks/use-swipe.ts:32-52 | the handler run is the one `Classify` picks for the deltas since touch start |
| Swipe.DefaultsExample | app/hooks/use-swipe.ts:19-43 | with the defaults a 50 px left flick in 300 ms swipes left, 301 ms does not, and a diagonal does not |
| FileHelpers.FileType | app/utilities/file-helpers.ts:26-31 | epub or pdf exactly when the lower-cased text after the last dot is that |
| FileHelpers.StripBookExtension | app/utilities/file-helpers.ts:16 | one trailing `.epub` or `.pdf`, any case, is cut |
| FileHelpers.ToLowerAppend | app/utilities/file-helpers.ts:16 | lower-casing distributes over concatenation |
| FileHelpers.FallbackTitleOfEpub | app/utilities/file-helpers.ts:16 | the fallback title of `base.EPUB` in any case is `base` |
| FileHelpers.FallbackTitleOfPdf | app/utilities/file-helpers.ts:16 | the fallback title of `base.PDF` in any case is `base` |
| FileHelpers.ProcessFile | app/utilities/file-helpers.ts:4-24 | fails before extraction exactly for unsupported names; else the draft with metadata, the stripped name and `Unknown Author` as fallbacks |
| FileHelpers.EmptyMetadataIsKept | app/utilities/file-helpers.ts:16-17 | `??` keeps a present empty title or author |
| FileUtils.FileType | src/utils/file-utils.ts:16-21 | epub or pdf exactly for a case-insensitive `.epub` or `.pdf` suffix |
| FileUtils.OrDefault | src/utils/file-utils.ts:52-53 | `\|\|`: the value unless missing or empty |
| FileUtils.EpubMetadataOf | src/utils/file-utils.ts:51-55 | `Untitled` and `Unknown Author` for a missing or empty title or creator |
| FileUtils.PdfMetadataOf | src/utils/file-utils.ts:98-108 | `Untitled PDF` and `Unknown Author` for a missing or empty Title or Author, missing info as empty; the page count is `numPages` |
| FileUtils.SuffixTypeImpliesExtensionType | src/utils/file-utils.ts:16-21 | a type the older suffix test accepts is the same type for the newer extension test |
| FileUtils.BareExtensionIsAcceptedOnlyByNewer | src/utils/file-utils.ts:16-21 | a name with no dot such as `epub` is accepted only by the newer test |
| FileUtils.AfterDotOfSuffix | app/utilities/file-helpers.ts:27 | a name ending in `.ext`, with a dot-free `ext`, has `ext` after its last dot |
| EditBookDialog.SubmitRequest | app/components/edit-book-dialog.tsx:34-43 | a save exactly when the trimmed title is non-empty and the book has an id, with both fields trimmed |
| EditBookDialog.OnlyTitleIsRequired | app/components/edit-book-dialog.tsx:40-42 | a blank author is saved as empty; a blank title never saves |
| EditBookDialog.SubmitIsStable | app/components/edit-book-dialog.tsx:37-42 | submitting the saved fields again saves the same |
| EditBookDialog.Dialog.constructor | app/components/edit-book-dialog.tsx:15-16 | the fields start as the book's title and author |
| EditBookDialog.Dialog.SetTitle | app/components/edit-book-dialog.tsx:15 | the title field holds the typed text |
| EditBookDialog.Dialog.SetAuthor | app/components/edit-book-dialog.tsx:16 | the author field holds the typed text |
| EditBookDialog.Dialog.Submit | app/components/edit-book-dialog.tsx:34-43 | the dialog's decision for its fields and its book id |
| ImportBooks.ResultOf | app/hooks/use-import-books.ts:15-21 | success exactly when no exception; the message, or `Import failed` for a non-Error |
| ImportBooks.Results | app/hooks/use-import-books.ts:10-23 | one result per file in input order, every file attempted |
| ImportBooks.FailureLines | app/hooks/use-import-books.ts:26-27 | one `name: error` line per failure |
| ImportBooks.FailureLine | app/hooks/use-import-books.ts:27 | `${f.file}: ${f.error}`: starts with the file name, ends with the error (`undefined` when absent), with `: ` between |
| ImportBooks.Failures | app/hooks/use-import-books.ts:25 | exactly the failed results |
| ImportBooks.ImportAll | app/hooks/use-import-books.ts:9-31 | succeeds exactly when no file failed, with every result; otherwise the failure lines joined by newlines |

## Left out

- Rendering is not modelled: canvas, `page.render`, `renderTo`, render-task cancellation, zoom `scale`, resize handling, the `requestAnimationFrame` scroll reset. These are foreign engine or browser calls with no effect on the reading position.
- Table-of-contents extraction, metadata extraction and book loading by the PDF and EPUB engines are not modelled. They are foreign calls; their results (`numPages`, a CFI, a fraction, metadata, an `Outcome`) are parameters. The same holds for `usePdfDocument`, which is not part of this model.
- JSX layout, covers, object URLs, the sidebar, the progress bar, the drop zone, routes and i18n are not modelled. Translated labels are the `caption` parameter.
- Store reactivity and concurrency are not modelled. The live query is modelled as delivering its result through an event, and the newer application's delete-then-add upserts are assumed not to interleave.
- `Date.now()` and the `nanoid` key are parameters.
- `arrayBufferToBase64` and `blobToArrayBuffer` are not modelled. They are a thin `btoa` wrapper and `FileReader` I/O.
- Pages.Percent: computed in integers, with halves rounding up. Floating-point error at exact `.5` boundaries is not modelled.
- Js.Round: rounds a real number exactly. Floating-point representation is not modelled.
- Js.ToLower: lower-cases ASCII letters only. Full Unicode case mapping is not modelled.
- AppSettings.LineHeightOf: takes the result of `parseFloat` as a parameter, because `parseFloat` is not modelled.
- Seqs.SortDesc: an insertion sort. Where dates tie, its order of tied rows need not match the JavaScript engine's sort.
- Swipe.Classify: touch coordinates are integers.
- EpubReaderHook.ThemeCommand: the font size is written as an integer and the line height carried as a real, without JavaScript number formatting.
- EpubReaderHook.Session.ApplyTheme: a theme call either fully succeeds or throws (`accepted`). A call that applies part of the theme before throwing is not modelled.
- Engine events that arrive after a rendition was destroyed are not modelled.
- SrcEpubReader.ThemeBody: gives nothing for the names inherited from `Object.prototype`. The JavaScript lookup would find an inherited member there.
- SrcSettings: stored values keep whatever type was written (`Value`), since the older hooks use them without a type check. Falsy-value coercions downstream are not modelled.
- SrcDb: every call of one store either succeeds or fails together (`available`). A store that fails only some calls is not modelled.
- SrcProgress.ProgressHook.UpdateProgress: the two `Date.now()` reads of one update, the in-memory record's (`src/hooks/use-progress.ts:38`) and the stored record's (`src/utils/db.ts:90`), are a single `now`. Its `InSync` preservation relies on this: with two distinct clock readings the stored and in-memory `updatedAt` would differ.
- AppPdfReader.PdfReader.RunEffects: runs the corrected initial-page decision of Findings row 1 (`InitialPage`), not the code as written (`InitialPageAsWritten`), which picks page 1 and sets the flag while the progress query is still pending.
- AppPdfReader.PdfReader.DocumentLoaded: runs the corrected decision of Findings row 1. With the progress query pending it chooses no page; the code as written opens page 1 and sets the flag.
- AppPdfReader.PdfReader.ProgressChanged: its case of an answer arriving after the document with no page chosen yet exists only under the corrected decision of Findings row 1. As written, page 1 was already chosen and the answer is ignored.
- SrcPdfReader.PdfReader.DocumentLoaded: runs the corrected loader of Findings row 2 (`StartPage` of the progress held now), not the code as written (`StartPageAsWritten`, which reads the mount-time null progress). The earlier render at `setNumPages` (`PageCountKnown`) is kept as in the code, so the save of page 1 it arms can still fire before the start page is set.
- SrcEpubReader.EpubReader.LocationsGenerated: runs the corrected display of Findings row 3 (`GeneratedTarget`), not the code as written (`GeneratedTargetAsWritten`, which displays the start).

## Findings

| source | as written | input that shows it | evidently intended | confidence | as-written member | corrected member |
|---|---|---|---|---|---|---|
| app/components/pdf-reader.tsx:78-91 | the initial-page effect runs as soon as the document is parsed and reads a pending progress query as "no progress", marking the page as chosen | a document parsed before the progress query answers, with page 5 saved: it opens at page 1 and the later answer is ignored | the start page is chosen after the progress query answered | not executed | AppPdfReader.InitialPageAsWritten | AppPdfReader.InitialPage |
| src/components/pdf-reader.tsx:100-101 | the loader effect (deps file and id) reads `progress` from its mount-time closure, where it is still null | a book saved at page 5 of 10 reopens at page 1 | the saved page is restored (`min(saved, numPages)`); the render after `setNumPages` at line 64 still arms a save of page 1, which fires first if the outline takes over a second (modelled by `PageCountKnown`) | not executed | SrcPdfReader.StartPageAsWritten | SrcPdfReader.StartPage |
| src/components/epub-reader.tsx:95-102 | the display after `locations.generate` reads the mount-time null progress, and the progress effect (124-128) skips while no locations exist | progress that loads before the locations are generated is never displayed; the book opens at the start | the saved location is displayed once the locations exist | not executed | SrcEpubReader.GeneratedTargetAsWritten | SrcEpubReader.GeneratedTarget |
