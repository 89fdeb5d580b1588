# Comments table: a Dafny model

This project models the logic of a small React application. The application shows the
comments fetched from a JSON endpoint in a paged, filterable table. The modelled parts are:

- the data operations of `App`:
  - deriving column descriptors from the first fetched record;
  - deleting a row by id;
  - appending a row with the next id;
  - sorting by `postId`, descending;
- the `CommentsTable` state:
  - the post-id and free-text filter;
  - the page window and page count;
  - the page clamp that runs after every change of the records;
  - the Prev, Next and numbered page buttons;
- the `Table` component's own spreadsheet projection, and its header, from which printing
  removes the appended "Actions" column;
- the export helpers:
  - `escapeHtml`;
  - the visible-column filter;
  - the worksheet rows;
  - the print-all table;
  - the removal of the "Actions" column from a copy of a rendered table;
- the `useSort` hook: the two-state sort configuration and the sorted copy;
- the `usePagination` hook: page count, page window, clamp effect and unchecked setter.

A record is a JavaScript object. It is modelled as an ordered list of `(key, value)` entries,
because `Object.keys` and `Object.values` return properties in insertion order. A value is
`null`, an integer or a string. A missing property (`undefined`) is `None`.

The modules follow the program:

| module | models |
|---|---|
| `Seqs` | `Array.prototype.filter`, a last-match scan, removing one element |
| `Text` | ASCII case mapping, `trim`, `includes`, `join`, integer to text |
| `Records` | the records: property lookup, assignment, `Object.keys` and `Object.values` |
| `Columns` | column descriptors and the humanised header text |
| `Filter` | the comments table's row filter |
| `Pagination` | page arithmetic and the `usePagination` state |
| `StableSort` | the engine's stable `Array.prototype.sort` |
| `Sorting` | `useSort` |
| `HtmlEscape` | `escapeHtml` and the decoding that inverts it |
| `Export` | `ExportUtils.js` |
| `App` | `App.jsx` |

Where the source changes state in place, the model does too:

- The comments table's state is the class `App.TableView`. The page clamp is folded into the
  methods that change the records.
- The hooks' state is held by `Sorting.SortState` and `Pagination.Paginator`.
- The table copy edited by the print helpers is `Export.TableClone`. Its body rows are an
  array, and a loop cuts a cell from each row in place.
- The worksheet objects are built by loops that assign one property at a time.

The comments table clamps the page against the count of *all* records, not the filtered ones,
and the filter boxes do not trigger the clamp at all. So a filter can leave the current page
past the last filtered page, where the window is empty. The model keeps this behaviour as
written. `App.FilterLeavesStalePage` exhibits it.

## Model

| member | source | states |
|---|---|---|
| `Seqs.Select` | src/App.jsx:350-361 | `Array.prototype.filter` never produces more elements than it is given |
| `Seqs.SelectMembers` | src/App.jsx:350-361 | an element is in the filtered list iff it was in the input and satisfies the predicate |
| `Seqs.SelectIsSubseq` | src/App.jsx:350-361 | the filtered list is an order-preserving subsequence of the input |
| `Seqs.SelectCount` | src/App.jsx:490-493 | each kept element keeps its multiplicity, and every element failing the predicate occurs 0 times |
| `Seqs.SelectDropsOne` | src/App.jsx:491 | when some element fails the predicate, the filtered list is strictly shorter |
| `Seqs.SelectSelect` | src/App.jsx:360 | filtering by one predicate and then another is filtering by their conjunction |
| `Seqs.SelectAll` | src/App.jsx:350-361 | a predicate that holds for every element keeps the list unchanged |
| `Seqs.SelectAppend` | src/App.jsx:350-361 | filtering distributes over concatenation |
| `Seqs.LastIndexWhere` | src/Utils/ExportUtils.js:65-69 | -1 exactly when nothing matches; otherwise the index of a match with no match after it |
| `Seqs.FindLastWhere` | src/Utils/ExportUtils.js:65-69 | the forward scan that overwrites the index on each match ends with the index of the last match, or -1 |
| `Seqs.RemoveAt` | src/Utils/ExportUtils.js:73 | removing the k-th cell keeps the cells before it and shifts those after it one place left |
| `Text.LowerChar` | src/App.jsx:357 | an upper-case letter becomes the same letter in lower case (code 32 higher), and anything else is kept |
| `Text.UpperChar` | src/App.jsx:242 | a lower-case letter becomes the same letter in upper case (code 32 lower), and anything else is kept |
| `Text.ToLower` | src/App.jsx:357 | `toLowerCase` keeps the length and maps each character on its own |
| `Text.ToLowerIdempotent` | src/App.jsx:357-358 | lower-casing twice is lower-casing once |
| `Text.Includes` | src/App.jsx:358 | `includes` holds iff the pattern occurs at some position of the text |
| `Text.TrimStart` | src/Utils/ExportUtils.js:68 | the result is a suffix of the input; everything removed before it is white space, and it does not start with white space |
| `Text.TrimEnd` | src/Utils/ExportUtils.js:68 | the result is a prefix of the input; everything removed after it is white space, and it does not end with white space |
| `Text.TrimUnpadded` | src/Utils/ExportUtils.js:68 | a non-empty string that neither starts nor ends with white space is its own `trim()` |
| `Text.Digits` | src/App.jsx:501 | the decimal text of a natural number is non-empty, all digits, has no leading zero, and its digits denote the number |
| `Text.StringToNumber` | src/App.jsx:512 | a blank string converts to 0 |
| `Text.NumberOfDigits` | src/App.jsx:512 | a run of decimal digits converts to the number it denotes |
| `Text.NumberOfNegatedDigits` | src/App.jsx:512 | a `-` followed by decimal digits converts to the negated number |
| `Text.NumberOfIntToString` | src/App.jsx:512 | `Number(String(n))` is `n` for every integer |
| `Records.Keys` | src/App.jsx:475 | `Object.keys` gives one key per property |
| `Records.KeysInOrder` | src/App.jsx:475 | the keys come in the order of the properties |
| `Records.Values` | src/App.jsx:355 | `Object.values` gives each property's value, in property order |
| `Records.Get` | src/App.jsx:26 | `o[k]` is defined iff `k` is one of the object's keys |
| `Records.GetReadsFirst` | src/App.jsx:26 | `o[k]` is the value of the first entry with key `k` |
| `Records.Assign` | src/Utils/ExportUtils.js:101 | `o[k] = v` adds `k` at the end only when it is new, and afterwards `o[k]` reads `v` |
| `Records.AssignKeepsOthers` | src/Utils/ExportUtils.js:99-102 | assigning one property leaves every other property as it was |
| `Records.OrEmpty` | src/Utils/ExportUtils.js:101 | `v ?? ""` turns `null` and `undefined` into the empty string and keeps every other value |
| `Columns.DeriveColumns` | src/App.jsx:474-482 | one descriptor per key of the first record, in key order; sortable iff the name is not "body"; shown iff the name is not "email"; fixed iff the name is "id" or "postId" |
| `Columns.ColumnsAfterFetch` | src/App.jsx:471-485 | an empty response leaves the columns as they were, because reading `json[0]` throws first; otherwise the column names are the first record's keys |
| `Columns.SpaceBeforeCapitals` | src/App.jsx:241 | empty iff the name is empty; a leading capital gets a space before it, and any other first character stays first |
| `Columns.CapitaliseFirst` | src/App.jsx:242 | the length is kept, the first character is upper-cased unless `.` cannot match it, and the rest is kept |
| `Columns.SpaceInsertionRoundTrip` | src/App.jsx:241 | dropping each space that stands before a capital gives the column name back |
| `Columns.SpaceInsertionShape` | src/App.jsx:241 | exactly one space is inserted per capital, and every capital after the first position follows a space |
| `Columns.HumaniseRoundTrip` | src/App.jsx:240-242 | the header text with the inserted spaces dropped is the name with its first character upper-cased |
| `Filter.FilterRows` | src/App.jsx:350-361 | the filtered rows are an order-preserving subsequence of the data; a row is kept iff the post-id box is empty or the row's `postId` equals the number, and the search box is empty or the lower-cased join of the row's values contains the lower-cased search text; kept rows keep their multiplicity |
| `Filter.EmptyQueryKeepsAll` | src/App.jsx:350-361 | with both boxes empty every row is shown, in order |
| `Filter.FilterConjunction` | src/App.jsx:360 | filtering by both boxes is filtering by the post id, then by the search text |
| `Filter.SearchIgnoresCase` | src/App.jsx:357-358 | lower-casing the search text first changes nothing |
| `Pagination.TotalPages` | src/Hooks/usePagination.js:6 | at least 1; exactly 1 for no items; otherwise the smallest page count whose pages hold all the items |
| `Pagination.TotalPagesMonotonic` | src/Hooks/usePagination.js:6 | more items never give fewer pages |
| `Pagination.SliceBound` | src/Hooks/usePagination.js:7-10 | `slice` normalises every index into `[0, length]` |
| `Pagination.PageItems` | src/Hooks/usePagination.js:7-10 | for a page of at least 1 the window is `data[(p-1)*size .. min(p*size, n))`; it never holds more than `size` items |
| `Pagination.PageOutOfRangeIsEmpty` | src/Hooks/usePagination.js:7-10 | the window of a page past the last one, or of page 0, is empty |
| `Pagination.NegativePageCountsFromEnd` | src/Hooks/usePagination.js:19 | a negative page, which the unchecked setter allows, selects a window counted from the end of the data |
| `Pagination.PagesUpToIsPrefix` | src/Hooks/usePagination.js:7-10 | pages 1 to k laid end to end are the first `min(k*size, n)` items |
| `Pagination.AllPagesReassemble` | src/Hooks/usePagination.js:6-10 | pages 1 to `totalPages` laid end to end give back the data exactly |
| `Pagination.ItemPage` | src/Hooks/usePagination.js:6-10 | item i is on page `i / size + 1`, a page that exists, at position `i % size` |
| `Pagination.PagesAreDisjoint` | src/Hooks/usePagination.js:7-10 | item i falls in the window of a page iff that page is `i / size + 1`, so no item is on two pages |
| `Pagination.ClampPage` | src/Hooks/usePagination.js:13-15 | the clamped page is at most the previous page and at most the page count; it is one of the two, and it is at least 1 when the previous page was |
| `Pagination.ClampOnDataChange` | src/Hooks/usePagination.js:13-15 | a page in range stays in range; it is unchanged when the data grows, and it becomes the new last page when it was beyond it |
| `Pagination.ClampKeepsLowPage` | src/Hooks/usePagination.js:14 | the clamp does not repair a page below 1 |
| `Pagination.StepsStayInRange` | src/App.jsx:429-453 | Prev and Next keep a page inside `[1, totalPages]`, stop at the ends, and undo each other away from the ends |
| `Pagination.DeletionScenario` | src/App.jsx:368-371 | 250 records in pages of 100 make 3 pages; after deleting 160, page 3 is clamped to 1 |
| `Pagination.Paginator.constructor` | src/Hooks/usePagination.js:5 | the hook starts on page 1 |
| `Pagination.Paginator.CurrentItems` | src/Hooks/usePagination.js:7-10 | the current page's window over the data, never more than a page |
| `Pagination.Paginator.SetCurrentPage` | src/Hooks/usePagination.js:19 | the exposed setter stores any page without checking it |
| `Pagination.Paginator.DataChanged` | src/Hooks/usePagination.js:13-15 | the effect clamps the page, and a page of at least 1 ends up in `[1, totalPages]` |
| `StableSort.InsertWith` | src/Hooks/useSort.js:18 | inserting adds exactly that element to the multiset and nothing else |
| `StableSort.SortWith` | src/Hooks/useSort.js:18 | the sorted copy is a permutation of the input |
| `StableSort.InsertSorted` | src/Hooks/useSort.js:18 | inserting into a sorted list with a consistent comparator keeps it sorted |
| `StableSort.SortWithAllIn` | src/Hooks/useSort.js:18 | sorting only rearranges, so every output element belongs to any domain the input belongs to |
| `StableSort.SortWithSorted` | src/Hooks/useSort.js:18 | with a comparator consistent on the elements' domain, no pair of outputs is out of order |
| `StableSort.InsertStable` | src/Hooks/useSort.js:18 | insertion places the new element before every element that ties with it; `SortWith` inserts from the back, so among ties the earlier input element ends up first |
| `StableSort.SortWithStable` | src/Hooks/useSort.js:18 | mutually tying elements keep their input order |
| `StableSort.SortWithIdempotent` | src/Hooks/useSort.js:18 | a list already sorted for the comparator is returned unchanged |
| `StableSort.SortWithAgree` | src/Hooks/useSort.js:18 | two comparators that agree in sign on the elements' domain give the same output |
| `Sorting.NextConfig` | src/Hooks/useSort.js:9-16 | after `handleSort(k)` the key is `k`; the direction is descending exactly when the state was `{k, asc}` |
| `Sorting.ClickSequence` | src/Hooks/useSort.js:9-16 | from another key, clicks on `k` give asc, then desc, then asc |
| `Sorting.ClicksAlternate` | src/Hooks/useSort.js:9-16 | after the first click the direction alternates with period two |
| `Sorting.UnitsDetermineChar` | src/Hooks/useSort.js:26 | a character is determined by its UTF-16 code units |
| `Sorting.UnitLessIsStrictTotalOrder` | src/Hooks/useSort.js:26 | comparing characters by UTF-16 code units is irreflexive, asymmetric, total and transitive |
| `Sorting.SupplementaryBeforeHighBmp` | src/Hooks/useSort.js:26 | U+1F600 is less than U+FF61, because its first code unit 0xD83D is below 0xFF61, the reverse of code-point order |
| `Sorting.StrLessIrreflexive` | src/Hooks/useSort.js:26 | no string is less than itself in UTF-16 code-unit order |
| `Sorting.StrLessTransitive` | src/Hooks/useSort.js:26 | string comparison by UTF-16 code units is transitive |
| `Sorting.StrLessTotal` | src/Hooks/useSort.js:26 | of two different strings one is less than the other in UTF-16 code-unit order |
| `Sorting.StrLessAsymmetric` | src/Hooks/useSort.js:26 | string comparison by UTF-16 code units is asymmetric |
| `Sorting.GreaterIsStrictTotalOrder` | src/Hooks/useSort.js:26 | `>` on key values is irreflexive, asymmetric, total and transitive |
| `Sorting.Compare` | src/Hooks/useSort.js:18-28 | the comparator returns -1, 0 or 1, and 0 exactly when the key is falsy or the two records' values are identical |
| `Sorting.CompareMeaning` | src/Hooks/useSort.js:24-27 | with a key, a record may precede another iff, ascending, its value is not greater, or, descending, not smaller |
| `Sorting.CompareAntisymmetric` | src/Hooks/useSort.js:24-27 | swapping the records negates the result |
| `Sorting.CompareTransitive` | src/Hooks/useSort.js:24-27 | "may precede" is transitive |
| `Sorting.ComparatorIsOrdering` | src/Hooks/useSort.js:18-28 | the comparator is consistent on all records, as the engine's sort requires |
| `Sorting.SortBy` | src/Hooks/useSort.js:18-28 | the sorted copy is a permutation of the data with no pair out of order |
| `Sorting.SortStable` | src/Hooks/useSort.js:18-28 | records that tie keep their input order |
| `Sorting.InactiveKeepsOrder` | src/Hooks/useSort.js:19 | with a `null` or empty key the data comes back in its input order |
| `Sorting.SortIdempotent` | src/Hooks/useSort.js:18-28 | sorting data already sorted for the configuration changes nothing |
| `Sorting.SortByOrdersKeys` | src/Hooks/useSort.js:21-27 | the keys come out non-decreasing ascending and non-increasing descending |
| `Sorting.SortState.constructor` | src/Hooks/useSort.js:4-7 | the hook starts with the initial key, ascending |
| `Sorting.SortState.HandleSort` | src/Hooks/useSort.js:9-16 | the configuration takes the `handleSort` transition, and the key is the one clicked |
| `Sorting.SortState.SortedData` | src/Hooks/useSort.js:18-28 | `sortedData` is a permutation of the data sorted for the current configuration |
| `HtmlEscape.ReplaceAll` | src/Utils/ExportUtils.js:9-13 | a global replace leaves a string without the character unchanged, and a replacement without the character removes it |
| `HtmlEscape.ReplaceAllAppend` | src/Utils/ExportUtils.js:9-13 | a global replace works on each part of a concatenation separately |
| `HtmlEscape.Entity` | src/Utils/ExportUtils.js:7-14 | an ordinary character stands for itself; a special one becomes an entity, which starts with `&` and ends with `;` |
| `HtmlEscape.EscapeHtmlAppend` | src/Utils/ExportUtils.js:7-14 | escaping works on each part of a concatenation separately |
| `HtmlEscape.EscapeAmp` | src/Utils/ExportUtils.js:9 | `&` becomes `&amp;`, and the later passes leave it alone |
| `HtmlEscape.EscapeLt` | src/Utils/ExportUtils.js:10 | `<` becomes `&lt;` |
| `HtmlEscape.EscapeGt` | src/Utils/ExportUtils.js:11 | `>` becomes `&gt;` |
| `HtmlEscape.EscapeQuot` | src/Utils/ExportUtils.js:12 | `"` becomes `&quot;` |
| `HtmlEscape.EscapeApos` | src/Utils/ExportUtils.js:13 | `'` becomes `&#039;` |
| `HtmlEscape.EscapePlain` | src/Utils/ExportUtils.js:7-14 | any other character is left as it is |
| `HtmlEscape.EscapeHtmlChar` | src/Utils/ExportUtils.js:7-14 | each one-character string escapes to its entity |
| `HtmlEscape.EscapeHtmlIsPerChar` | src/Utils/ExportUtils.js:7-14 | the five chained passes equal escaping character by character |
| `HtmlEscape.UnescapeEntity` | src/Utils/ExportUtils.js:7-14 | decoding turns each entity back into its character |
| `HtmlEscape.EscapeRoundTrip` | src/Utils/ExportUtils.js:7-14 | decoding the output gives the input back exactly, so nothing is escaped twice |
| `HtmlEscape.EscapeHtmlHasNoRawSpecials` | src/Utils/ExportUtils.js:7-14 | the output contains no raw `<`, `>`, `"` or `'` |
| `HtmlEscape.EntityHasNoRawSpecials` | src/Utils/ExportUtils.js:7-14 | no entity contains a raw `<`, `>`, `"` or `'` |
| `HtmlEscape.EscapeHtmlIdentity` | src/Utils/ExportUtils.js:7-14 | a string with none of the five special characters is left unchanged |
| `Export.VisibleColumns` | src/Utils/ExportUtils.js:95 | the visible columns are an order-preserving subsequence; a column is visible iff `isShown` is not `false`, so a missing flag counts as shown; each visible column keeps its number of occurrences and a hidden one has none |
| `Export.ProjectOntoReads` | src/Utils/ExportUtils.js:98-102 | the built object holds `value(k)` under every listed name and nothing under any other |
| `Export.ProjectOntoKeys` | src/Utils/ExportUtils.js:98-102 | the built object's keys are exactly the listed names |
| `Export.ProjectOntoKeyOrder` | src/Utils/ExportUtils.js:98-102 | with distinct names the keys come in the order of the names |
| `Export.BuildProjection` | src/Utils/ExportUtils.js:98-102 | the `forEach` that assigns `out[name]` in turn builds the projection of the record onto the names |
| `Export.ProjectRows` | src/Utils/ExportUtils.js:97-104 | the `data.map` gives one projected object per record, in record order |
| `Export.SheetRowContents` | src/Utils/ExportUtils.js:97-104 | a worksheet row has exactly the visible column names as keys, holds `row[name] ?? ""` under each, and never holds `null` |
| `Export.ExportToExcel` | src/Utils/ExportUtils.js:89-104 | no data gives no worksheet; otherwise one worksheet row per record, in order |
| `Export.PrintGridLayout` | src/Utils/ExportUtils.js:151-179 | one header cell per visible column, holding the humanised name; one row per record; one cell per visible column in each row; every cell is escaped text without raw `<` or `>` that decodes to `String(value ?? "")` |
| `Export.PrintAllData` | src/Utils/ExportUtils.js:143-184 | no data gives no output; otherwise the output is the table markup of those header and body cells |
| `Export.FindActionsColumn` | src/Utils/ExportUtils.js:64-69 | the index is -1 iff no header cell's trimmed, lower-cased text is "actions"; otherwise it is the last such cell |
| `Export.CutCell` | src/Utils/ExportUtils.js:78-79 | a row with a cell at the index loses exactly that cell, and the cells before and after it keep their order; a shorter row is left as it is |
| `Export.TableClone.constructor` | src/Utils/ExportUtils.js:130 | the copy holds the given header and body rows in a new array |
| `Export.TableClone.RemoveActionsColumn` | src/Utils/ExportUtils.js:63-82 | with no "actions" header the table is unchanged; otherwise the cell at the last such index leaves the header and every row long enough to have one |
| `Export.TableClone.CutColumn` | src/Utils/ExportUtils.js:71-81 | the header loses its cell at the index, and so does every row long enough to have one |
| `Export.TableClone.CutRows` | src/Utils/ExportUtils.js:76-80 | every body row loses its cell at the index when it has one, in place |
| `App.DeleteRow` | src/App.jsx:490-493 | an order-preserving subsequence holding exactly the records whose `id` differs from the deleted row's, each with its multiplicity; no record with that `id` is left |
| `App.DeleteRowShrinks` | src/App.jsx:490-493 | deleting a row that is in the data makes the data shorter |
| `App.MaxId` | src/App.jsx:497 | `Math.max` of the ids is at least every id and is one of them |
| `App.NewId` | src/App.jsx:496-497 | the new id is 1 for empty data, otherwise one more than some existing id, and larger than every existing id |
| `App.NewRowFields` | src/App.jsx:498-503 | the new record has keys `postId`, `id`, `name`, `email` in that order, with the given id and post id |
| `App.AddRow` | src/App.jsx:495-505 | exactly one record is appended, and the old records are kept; its `postId` is the drawn number and its id is the new id, which no existing record has |
| `App.SortByPostIdDesc` | src/App.jsx:511-513 | the result is a permutation of the data |
| `App.PostIdDiffConsistent` | src/App.jsx:512 | `b.postId - a.postId` is a consistent comparator on records whose `postId` is a number |
| `App.SortByPostIdDescOrders` | src/App.jsx:511-513 | when no `postId` converts to `NaN` (numbers, `null`, integer strings), the converted post ids come out non-increasing |
| `App.SortByPostIdDescStable` | src/App.jsx:511-513 | records with the same `postId` keep their order |
| `App.SortByPostIdDescIsHeaderSort` | src/App.jsx:511-513 | with numeric post ids the button's order equals the sort hook's order for `postId`, descending |
| `App.ShownColumns` | src/App.jsx:23-24 | the shown columns are an order-preserving subsequence; a column is kept iff `isShown` is `true`, with its number of occurrences, and any other column has none |
| `App.ShownAreVisible` | src/App.jsx:23-24 | every column the table exports is also exported by the export helpers |
| `App.TableSheetRowContents` | src/App.jsx:21-29 | a row has exactly the shown column names as keys and holds the record's value under each, `undefined` included |
| `App.HandleExportToExcel` | src/App.jsx:20-29 | one object per record, in order, with no check for empty data |
| `App.ActionsIsActions` | src/App.jsx:56-60 | the header cell "Actions" that the table appends matches the removal test |
| `App.PrintDropsAppendedActions` | src/App.jsx:53-69 | the column removed for printing is the appended "Actions" one, even when a data column is also called "actions"; the other header cells are kept |
| `App.TableView.Filtered` | src/App.jsx:350-361 | the filtered records are never more than the records |
| `App.TableView.PageCount` | src/App.jsx:366 | the page count on the filtered records is at least 1 and at most the count of pages of all records |
| `App.TableView.CurrentItems` | src/App.jsx:363-365 | the visible window never holds more than a page, and is empty when the page is past the last filtered page |
| `App.TableView.constructor` | src/App.jsx:342-344 | the table starts empty, with no filter, on page 1 |
| `App.TableView.ClampToData` | src/App.jsx:368-371 | the page becomes `min(prev, pages of all records)`, which is within range |
| `App.TableView.ReceiveData` | src/App.jsx:471-485 | a fetch replaces the records, sets the columns derived from the first record, and clamps the page |
| `App.TableView.OnDeleteRow` | src/App.jsx:490-493 | the records lose the deleted id, and the page is clamped into range |
| `App.TableView.OnAddRow` | src/App.jsx:495-505 | the row is appended, and the page does not move |
| `App.TableView.OnSortByPostIdDesc` | src/App.jsx:511-515 | the records are sorted, and the page does not move |
| `App.TableView.SetPostIdFilter` | src/App.jsx:389 | only the post-id filter changes; the page is not clamped |
| `App.TableView.SetSearch` | src/App.jsx:397 | only the search text changes; the page is not clamped |
| `App.TableView.GoToPage` | src/App.jsx:437-440 | the numbered button `index` selects page `index + 1`, one of the filtered pages |
| `App.TableView.Prev` | src/App.jsx:430 | Prev moves to `max(p - 1, 1)`, never forward |
| `App.TableView.Next` | src/App.jsx:451-452 | Next moves to `min(p + 1, totalPages)` and ends within the filtered pages |
| `App.FilterLeavesStalePage` | src/App.jsx:363-371 | on page 2 of two one-record pages, filtering down to one record leaves one page and an empty window |

## Left out

- Network, logging and errors: `fetch`, the promise chain and `console` output are I/O.
  `App.TableView.ReceiveData` takes the parsed response as a parameter. A failed request changes
  nothing and is not modelled.
- The spreadsheet library, DOM and windows: the XLSX calls, `window.open`, `document.write`,
  `print`, the CSS and `alert`. The model stops at the worksheet rows, the print-all markup and
  the header/body cell grid of the table copy. Looking up the table element by id and
  `cloneNode` are not modelled.
- The printed title: it is inserted into the page unescaped, and the model makes no claim about
  it. The title lookup of `handlePrint` is DOM access.
- Presentation: JSX, styles, hover handlers, the row menus and their `isMenuOpen` flags, the
  header's `showMenu` flag, and the "View" action's alert text.
- Column display order: the `isFixed` comparator of `Table` returns -1 for both orders of equal
  items, so it is not a consistent comparator and the engine decides the order. Only the
  `isShown` filtering is modelled.
- The render between a change of the records and the clamp effect: the model applies the clamp
  inside the operation that changes the records.
- `App.AddRow`: requires every existing id to be a number. `Math.max` reads a `null` id as 0 and
  a numeric string as its number, and gives `NaN` for an `undefined` id or a non-numeric string;
  none of these cases is modelled.
- `App.AddRow`: the `Math.random()` post id is a parameter in 1..100.
- `App.SortByPostIdDesc`: the engine sorts a copy in place; the model uses a pure stable
  insertion sort on sequences. A difference that is `NaN` is read as a tie. `Number` is modelled
  on blank strings and optionally signed decimal integers only: a `postId` string with a
  fraction, an exponent, a hexadecimal prefix or `Infinity` is treated as `NaN`, so such records
  tie where the program orders them.
- `App.SortByPostIdDescOrders`: the ordering is only stated for records whose `postId` is a
  number or `null`, because the engine's order is unspecified for an inconsistent comparator.
- Values: numbers are integers. Floating point, `NaN`, booleans and nested objects are not
  modelled. Strings are converted to numbers only where `postId`s are subtracted. `Number(filterTxt)` is modelled as the post-id box holding an
  optional integer.
- `Sorting.Greater`: `>` between values of different types is defined by the engine through
  conversions to numbers, but it is not a consistent order (a non-numeric string compares false
  both ways with every number). The model gives every pair of values of different types a fixed
  rank order instead, `undefined`, then `null`, then numbers, then strings, also where the engine
  would compare a numeric string with a number by value.
- Case mapping and white space: `toLowerCase` and `toUpperCase` are ASCII-only. `trim` uses the
  ECMAScript white-space and line-terminator set.
- Property order: integer-like keys, which JavaScript lists first, are not given their special
  order.
- Missing arguments: the export helpers' `data || []` and `columns || []` guards for `null`
  arguments are not modelled; the arguments are always lists.
- `App.TableView.CurrentItems`: states the size bound and emptiness past the last page, not the
  window contents. The window contents are stated by `Pagination.PageItems`, which it returns.
