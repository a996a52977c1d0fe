# Resource directory: a Dafny model of `ResourceManager`

The application is a single-page directory of saved links ("resources"). A
single class, `ResourceManager` in `app.js`, keeps the records, the set of
selected cards, the record being edited and the search and category filters.
This project models the logic of that class:

- **Bookmark import** (`Bookmarks`). `parseChromeBookmarks` and its inner
  `walk` turn a browser's bookmark export (nested `<DL>`/`<DT>` lists) into
  records. The model states the walk twice:
  - as the recursive function `ListRecords`;
  - as the class `Walker`, which loops over a list's children and pushes
    into one shared `results` array, as the JavaScript does.

  The class is proved equal to the function. Lemmas about the function
  cover:
  - folder priority;
  - skipped children;
  - the category path, which drops a leading `"Barra de marcadores"` only at
    the head;
  - sibling isolation;
  - document order;
  - the shape of every imported record.
- **List edits** (`Edits`, `Manager`). These are `bulkDelete`,
  `handleBulkChangeCategory`, `deleteResource`, `togglePinned`,
  `toggleSelection`, the append step of the file import, `openModal` and the
  validate-and-store logic of `handleFormSubmit`. They are methods of the
  class `ResourceManager`, whose fields the methods reassign. Each method
  states its whole new state, in terms of functions on sequences whose
  properties are proved. For example, `BulkDelete` keeps exactly the
  unselected records in their order. It splices from the highest index
  down, which keeps every pending index valid; ascending order would not.
- **Pure helpers**:
  - `escapeHtml` (`Html`), with a decoder proving that the escaping loses
    nothing;
  - the visibility predicate of `applyFilters` (`Listing`);
  - the comparator of `renderResources` with the resulting card order
    (`Listing`, `Sorting`);
  - the `String` built-ins the code relies on (`Text`).

Behaviour kept as written:
- `deleteResource` removes its own index from the selection but does not
  shift the larger selected indices. After a delete, those indices name the
  next record, or no record at all (`DeleteLeavesStaleSelection`).
- `handleBulkChangeCategory` visits the selection in insertion order, since
  a JavaScript `Set` iterates that way. The selection is therefore a
  duplicate-free sequence. At the first index without a record, the
  JavaScript throws a `TypeError`. The records visited before it keep their
  new category and the selection is not cleared. The outcome `Threw` models
  this.
- `togglePinned` and `openModal` on an index without a record throw as well.
  `openModal` has already stored the index when it throws.
- Only the first entry of the folder path is removed, and only when it equals
  `"Barra de marcadores"`. A toolbar folder nested inside it stays in the
  category (`CategoryKeepsOtherPaths`).

## Model

| member | source | states |
|---|---|---|
| Text.TrimStart | app.js:127 | the result is a suffix of the input that does not start with white space, and every character cut off is white space |
| Text.LeadingSpaces | app.js:127 | the count of leading characters that are all white space, followed by a non-space or the end |
| Text.TrimEnd | app.js:127 | the result is a prefix of the input that does not end with white space, and every character cut off is white space |
| Text.ContentEnd | app.js:127 | the length of the input without its trailing white space: everything after it is white space and the character before it is not |
| Text.Trim | app.js:145 | `trim` keeps, character for character, the part of the input after its leading white space; everything outside that part is white space; the result has no white space at either end and is empty exactly when the input is all white space |
| Text.TrimIsBothEnds | app.js:145 | `trim` is `trimEnd` after `trimStart` |
| Text.TrimIdempotent | app.js:175-204 | trimming twice is trimming once |
| Text.Contains | app.js:315 | `String.includes`: its meaning is given by `ContainsIffOccurs` (found exactly when it occurs at some position) and `ContainsExtended` |
| Text.ContainsIffOccurs | app.js:315 | the left-to-right `includes` scan succeeds exactly when the query occurs at some position |
| Text.ContainsExtended | app.js:315 | a string containing `t + e` contains `t` |
| Text.Join | app.js:140 | `Array.join`: its meaning is given by `JoinAppend` and used by `CategoryDropsLeadingRoot` and `CategoryKeepsOtherPaths` |
| Text.JoinAppend | app.js:140 | `join` of two non-empty lists is the two joins with one separator between them |
| Text.Lower | app.js:315 | `toLowerCase` keeps the length and lowers every character |
| Html.EscapeHtml | app.js:472-476 | a non-string gives `''`; a string gives `EscapeChars` of it, never shorter, which decodes back to the string and holds no `<` or `>`, and in attribute mode no `"` or `'` |
| Html.EscapeChars | app.js:475 | the global replacement: its meaning is given by `UnescapeEscape`, `EscapedIsInert`, `PlainUnchanged` and `TextModeGrowth`, and `EscapeHtml`'s contract |
| Html.UnescapeEscape | app.js:474-475 | decoding the five entities recovers the original string in both modes: the escaping is lossless |
| Html.EscapedIsInert | app.js:475 | the escaped text contains no `<` or `>`, and in attribute mode no `"` or `'` |
| Html.EscapeCharInert | app.js:475 | the replacement of one character holds no `<` or `>`, and in attribute mode no quote |
| Html.PlainUnchanged | app.js:475 | a string without any character of the pattern is returned unchanged |
| Html.TextModeGrowth | app.js:475 | in text mode only `&` (by 4) and `<`, `>` (by 3) lengthen the string; quotes pass through |
| Sorting.Insert | app.js:266 | inserting adds exactly one element and keeps the others (multiset) |
| Sorting.Sort | app.js:264-266 | sorting returns a permutation of its input |
| Sorting.SortSorted | app.js:266 | with a consistent comparator the sorted list is ordered by it |
| Sorting.InsertSorted | app.js:266 | inserting into an ordered list keeps it ordered |
| Sorting.PrependStable | app.js:266 | putting an element in front keeps ties in rank order when it ranks below every element it ties with |
| Sorting.HeadRanksFirst | app.js:266 | when an element goes behind the head, the head ranks below every element it ties with after it |
| Sorting.InsertStable | app.js:266 | inserting an element ahead of the ones it ties with keeps ties in rank order |
| Sorting.SortStable | app.js:266 | the sort is stable: elements the comparator ties keep the order they had |
| Sorting.SortDistinct | app.js:459 | sorting a list without repetitions gives one without repetitions |
| Bookmarks.FirstIndex | app.js:122-124 | the position of the first child with the tag, or none when no child has it |
| Bookmarks.FirstTagged | app.js:122-124 | the element with the tag that comes before every other element with it, or none when no element has it |
| Bookmarks.FirstIndexIs | app.js:122-124 | a tagged position with nothing tagged before it is the one `FirstIndex` finds |
| Bookmarks.FirstTaggedAppend | app.js:157 | the first tagged element of two lists joined is the first one of the front list, or else the first one of the back list |
| Bookmarks.Child | app.js:122-124 | `:scope > tag` gives the first direct child with that tag, and none exactly when no direct child has it |
| Bookmarks.FindFirst | app.js:157 | `querySelector('dl')` gives the first element with the tag in document order (the pre-order listing of the tree), and finds one exactly when the tree has one |
| Bookmarks.FindFirstAmong | app.js:157 | the search through the subtrees of the later children gives the first tagged element of their pre-order listing |
| Bookmarks.Classify | app.js:122-131 | a `DT` is a folder exactly when it has a direct `H3` and a direct `DL`; otherwise it is a link only with a direct `A` whose target starts with "http" |
| Bookmarks.ItemRecords | app.js:117-153 | the records of one child of a list: its meaning is given by `FolderTakesPriority`, `SkippedChildAddsNothing`, `LinkEmitsOneRecord` and `ItemShape`, and `Walker.VisitItem` computes it in place |
| Bookmarks.ListRecords | app.js:116-155 | `walk`: its meaning is given by `ListRecordsAppend`, `ListRecordsStep`, `ListRecordsShape` and `FolderTakesPriority`, and `Walker.Walk` is proved to compute it |
| Bookmarks.FolderTakesPriority | app.js:126-130 | a folder `DT` emits no record of its own, even with an `A`; its list is walked with the trimmed heading appended to the path |
| Bookmarks.SkippedChildAddsNothing | app.js:117-131 | a non-`DT` child, or a `DT` that is neither folder nor web link, adds no records and the walk goes on |
| Bookmarks.LinkRecord | app.js:143-152 | the record pushed for one link: its fields are stated by `LinkEmitsOneRecord` and `ListRecordsShape` |
| Bookmarks.LinkEmitsOneRecord | app.js:131-152 | a web link emits one record: trimmed title or `"Enlace sin título"`, the href, empty email, the path's category, notes present exactly when `add_date` is non-empty, unpinned, the import time |
| Bookmarks.ListRecordsShape | app.js:143-151 | every imported record, at any depth, has a trimmed title or the placeholder, an http URL, no email, notes empty or starting `"Añadido: "`, no pin |
| Bookmarks.ItemShape | app.js:126-152 | the records of one child all have the imported shape |
| Bookmarks.UpToShape | app.js:117 | the records of the first `i` children all have the imported shape |
| Bookmarks.CleanStack | app.js:133-137 | the path without a leading `"Barra de marcadores"`: its meaning is given by `CategoryDropsLeadingRoot` and `CategoryKeepsOtherPaths` |
| Bookmarks.Category | app.js:133-140 | the category of a link's path: its meaning is given by `CategoryDropsLeadingRoot`, `CategoryKeepsOtherPaths`, `CategoryExtend` and `CategoryExamples` |
| Bookmarks.CategoryDropsLeadingRoot | app.js:133-140 | an empty path gives `"Importado"`; a leading `"Barra de marcadores"` is dropped, leaving `"Importado"` or the rest joined by `" / "` |
| Bookmarks.CategoryKeepsOtherPaths | app.js:135-140 | a path not starting with the toolbar folder is joined whole |
| Bookmarks.CategoryExtend | app.js:128 | entering a folder appends `" / "` and its name to the category, or gives the bare name at the top |
| Bookmarks.CategoryExamples | app.js:133-140 | concrete paths under the toolbar folder: `[Barra]` gives Importado, `[Barra, Dev]` gives Dev, `[Barra, A, B]` gives `A / B`, and `[Barra, Barra]` keeps the nested toolbar folder |
| Bookmarks.UpToDependsOnPrefix | app.js:117 | the records of the first `i` children depend only on those children |
| Bookmarks.ListRecordsStep | app.js:117 | one more child appends its records after those of the earlier children |
| Bookmarks.UpToSplitFront | app.js:117 | the records of a list's first children are those of a list holding only those children |
| Bookmarks.UpToSplit | app.js:117 | the records of children `n` to `n + k` follow those of the first `n`, as the records of a list holding just those children |
| Bookmarks.UpToSplitNext | app.js:117 | one more child of the tail adds its records after those already collected |
| Bookmarks.ListRecordsAppend | app.js:116-129 | splitting a list's children splits its records the same way: document order, and no child sees a sibling's folder |
| Bookmarks.SiblingFoldersIsolated | app.js:126-129 | two sibling folders each contribute their own list under their own name only |
| Bookmarks.Parse | app.js:111-163 | `parseChromeBookmarks`: the walk of the first `DL` found by `FindFirst`, or nothing (`NoListNoRecords`); `ParseBookmarks` is proved to return it |
| Bookmarks.NoListNoRecords | app.js:157-162 | a document without a `DL` yields no records |
| Bookmarks.Walker.constructor | app.js:114 | the shared results array starts empty |
| Bookmarks.Walker.Walk | app.js:116-155 | the loop over a list's children appends exactly `ListRecords` of the list to the shared results |
| Bookmarks.Walker.VisitItem | app.js:117-153 | one loop pass appends exactly the records of that child |
| Bookmarks.ParseBookmarks | app.js:111-163 | `parseChromeBookmarks` returns the records of the first `DL`, or none |
| Listing.SomeFieldMatchesIff | app.js:314-315 | `.some` over the fields holds exactly when some field is non-empty and its lower-cased text contains the query |
| Listing.Visible | app.js:313-317 | the card filter: its meaning is given by `VisibleIff`, `NoFilterShowsAll`, `NarrowingQueryOnlyHides` and `UpperCaseQueryMatchesNothing` |
| Listing.VisibleIff | app.js:313-317 | a card is visible exactly when the category filter is off or equal, and the query is empty or found in title, category, notes, URL or email |
| Listing.NoFilterShowsAll | app.js:313-315 | with no query and no category every card is visible |
| Listing.NarrowingQueryOnlyHides | app.js:315 | typing more characters can only hide cards |
| Listing.UpperCaseQueryMatchesNothing | app.js:315 | a query holding an upper-case letter matches nothing (hence the lower-casing of the search box) |
| Listing.Compare | app.js:266 | the comparator's value: its meaning is given by `CompareMeaning` and `ShownBeforeIsTotalPreorder` |
| Listing.CompareMeaning | app.js:266 | the comparator puts pinned before unpinned, then newer before older, and is antisymmetric |
| Listing.ShownBeforeIsTotalPreorder | app.js:266 | the comparator is total and transitive |
| Listing.Indexed | app.js:265 | each record is paired with its own original index |
| Listing.DisplayOrder | app.js:264-266 | the card order is a permutation of the indexed records, ordered by the comparator, and records the comparator ties keep their order in the list |
| Listing.DisplayOrderCards | app.js:264-268 | every record gets one card carrying its index; pinned cards precede unpinned ones, newer precede older within a group, and records with the same pin and creation time keep their order in the list |
| Edits.SpliceOne | app.js:239 | `splice(i, 1)` removes the element at `i` and shifts the rest down; past the end it removes nothing |
| Edits.Retain | app.js:459-461 | the records kept are no more than the list had |
| Edits.Kept | app.js:459-461 | the indices that are not deleted, each once and in increasing order |
| Edits.RetainOrder | app.js:459-461 | the records kept are exactly those at the indices that are not deleted, in their original order |
| Edits.RetainMembers | app.js:459-461 | a record is kept exactly when it sits at some index that is not selected |
| Edits.RetainNone | app.js:460 | with no selected index inside the list, everything is kept |
| Edits.RetainKeepsPrefix | app.js:460 | records below every selected index keep their positions |
| Edits.RetainIgnoresOutOfRange | app.js:460 | a selected index past the end removes nothing |
| Edits.RetainDropBelow | app.js:459-460 | splicing out `d` after all larger selected indices are gone removes exactly the record originally at `d` |
| Edits.BulkDeleteStep | app.js:460 | one splice in descending order extends the set of removed original indices by that index |
| Edits.HandledNext | app.js:459-460 | one more pass adds that pass's index |
| Edits.HandledAreHigher | app.js:459-460 | in a strictly descending order every index already handled is above the next one |
| Edits.HandledAll | app.js:459-460 | after every pass, exactly the selected indices have been handled |
| Edits.AscendingSpliceMisses | app.js:459 | ascending order would be wrong: splicing 0 then 1 from `[10,20,30]` keeps 20, not 30 |
| Edits.DescendingIsTotalPreorder | app.js:459 | `(a, b) => b - a` is a consistent comparator |
| Edits.Recategorize | app.js:443 | each chosen record gets the new category and nothing else of any record changes |
| Edits.RecategorizeStep | app.js:443 | one `forEach` pass gives the next selected record the category on top of the earlier passes |
| Edits.RecategorizeTwice | app.js:443 | recategorizing in two rounds equals one round over both sets |
| Edits.InRangePrefix | app.js:443 | the first position of the selection whose index has no record, or its length when all have one |
| Edits.RemoveValue | app.js:240 | `Set.delete` removes exactly that value and keeps the others without duplicates |
| Edits.RemoveAbsent | app.js:240 | deleting a value the selection does not hold changes nothing |
| Edits.IndexOf | app.js:240 | the first position of a value in the selection |
| Edits.RemoveCutsOut | app.js:240 | deleting a value the selection holds cuts it out of its place, and the other values keep their order |
| Edits.FlipPinned | app.js:247 | the record's pin is negated and nothing else changes |
| Edits.FlipPinnedTwice | app.js:247 | pinning twice restores the list |
| Manager.ChosenCategory | app.js:196-201 | a select value other than `_NEW_CATEGORY_` is kept; for `_NEW_CATEGORY_` the result is the prompt reply trimmed, and a cancelled or blank reply cancels |
| Manager.OrUncategorized | app.js:207 | an empty category becomes `'Sin Categoría'` and a non-empty one is kept |
| Manager.SubmittedData | app.js:203-210 | the form data holds the form's title, URL, email and notes trimmed, the category or `'Sin Categoría'`, and the checkbox's pin |
| Manager.Merge | app.js:217 | `{...existing, ...data}` takes the form's fields and keeps the creation time |
| Manager.AfterSubmit | app.js:216-221 | the list after a submission: its meaning is given by `AfterSubmitStoresForm`, and `ResourceManager.Store` is proved to produce it |
| Manager.AfterSubmitStoresForm | app.js:211-221 | a submission changes one record, the edited one or a new last one, leaving the others; that record holds the form's six fields and keeps its creation time or gets the current one; with a non-blank trimmed title and URL and a category it is a well-formed submitted record |
| Manager.ResourceManager.constructor | app.js:15-20 | the stored records and filters are loaded, nothing is selected and nothing is being edited |
| Manager.ResourceManager.OpenModal | app.js:166-173 | stores the edit index; for an existing record returns its field values, beyond the list it throws |
| Manager.ResourceManager.HandleFormSubmit | app.js:194-221 | cancel on an empty prompt, reject a blank title or URL, otherwise store the form data by `AfterSubmit`; nothing else changes |
| Manager.ResourceManager.Store | app.js:211-221 | stores the form data by `AfterSubmit` and changes no other field |
| Manager.ResourceManager.DeleteResource | app.js:238-240 | splices the record out and deletes only that index from the selection |
| Manager.ResourceManager.TogglePinned | app.js:246-247 | flips the record's pin; beyond the list it throws and changes nothing |
| Manager.ResourceManager.ToggleSelection | app.js:394-396 | a selected index is cut out of the selection in place, any other is appended at the end; every other index keeps its membership and the selection stays duplicate-free |
| Manager.ResourceManager.BulkDelete | app.js:458-461 | the records left are `Retain` of the unselected indices (in original order, by `RetainOrder`), and the selection is empty |
| Manager.ResourceManager.HandleBulkChangeCategory | app.js:435-445 | cancels on an empty prompt; otherwise every selected record gets the category (or `'Sin Categoría'`) and the selection is cleared, or at the first stale index it throws with the earlier ones changed |
| Manager.ResourceManager.RecategorizeSelected | app.js:443-445 | the `forEach` over the selection: every selected record gets the category and the selection is cleared, or at the first stale index it throws with the earlier ones changed and the selection kept |
| Manager.ResourceManager.ImportBookmarks | app.js:83-92 | with no parsed record nothing changes; otherwise the parsed records are appended and both filters reset |
| Manager.DeleteLeavesStaleSelection | app.js:239-240 | after a delete, a larger selected index stays selected and names the next record or none |

## Left out

- HTML tokenising (`DOMParser`): the model takes the parsed element tree as input. Tags are upper-case names, `text` is `textContent`, and `href` is the already resolved link target.
- Dates: `new Date().toISOString()` becomes an integer instant (the `now` parameter). The locale rendering of `add_date` becomes the function parameter `showDate`.
- Bookmarks.ParseBookmarks: every record of one import gets the same `now`. The JavaScript reads the clock once per record.
- `localStorage` loading and saving, `file.text()`, the `try`/`catch`/`finally` around the import, and all `alert`s are I/O. A `prompt` reply is a parameter (`None` for a cancelled prompt).
- Rendering: `renderAll`, `createResourceCard`, the tabs and selects, modal show/hide, `updateSelectionUI`, `updateSelectAllCheckboxState`, `toggleSelectAll`, `handleCardClick` and `handleCategoryFilter`. These only move values between the DOM and the fields modelled here.
- The DOM card loop of `applyFilters` and the empty-state messages are left out. Only the per-record visibility predicate is modelled.
- `getDomainFromUrl`: a wrapper over the `URL` parser.
- The `localeCompare` order of the category lists in `updateCategoryFilter` and `renderCategoryTabs` depends on the locale.
- Text.Lower: only ASCII letters are lowered. Unicode case mapping is not modelled.
- Manager.ResourceManager.HandleFormSubmit: requires the edit index to be -1 or a record of the list. An index past the end, which the open-modal flow does not produce, would make the JavaScript grow the array with holes.
- Manager.ResourceManager.OpenModal: the form reset and the category select's option list are not modelled. The returned values are those written into the fields.
