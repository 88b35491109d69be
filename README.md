# Todo list store, modelled in Dafny

The todo-list page's store, in `src/js/index.js`, keeps its state in four module-level variables:

- `filter`: the trimmed caption of the last filter button pressed;
- `mode`: `ADD_TODO` or `EDIT_TODO`;
- `todos`: the working list shown on screen and exported;
- `todoId`: the id the next edit retitles.

Beside them sits the persisted list in local storage. The add/edit submit, remove and toggle handlers read that list whole, transform it, and write it back whole. The filter handler and the page-load handler only read it. Starting an edit and the three exporters neither read nor write it: they use the page's own variables. This project models that store and proves what each handler does to it.

- `text.dfy` (module `Text`): `Trim`, the whitespace trimming the page applies to filter captions and titles. It is specified by what it removes and what it keeps, with lemmas for uniqueness, idempotence, padding and emptiness.
- `todos.dfy` (module `Todos`): the `Todo` record, the `Mode` and `Verdict` datatypes, and the pure list transformations. These are the status filter and the view it selects, title validation, the edit step (`Retitle`), the completion toggle (`Toggle`) and removal (`Without`). Lemmas cover partitioning, involution, id uniqueness and the as-written validation quirks.
- `export.dfy` (module `Export`): the rows the PDF, spreadsheet and word-processor exporters build from a list, and the decimal rendering of the row number, with a round-trip lemma.
- `store.dfy` (module `TodoApp`): class `TodoStore`, which holds the state as fields. Its handler methods have `modifies this` and state the whole new state. `Valid()` says three things: ids in storage are unique, no stored title is blank once trimmed, and the working list is always the persisted list with some items left out, in storage order. Add stores only a candidate that passed the blank test, and edit stores a trimmed candidate that passed it (lines 97-108, 139, 147), so every handler keeps the second clause. Distinct trimmed titles are not an invariant of the code: two stored items can share a trimmed title, because the duplicate test sees only the working list (`Todos.HiddenDuplicateAccepted`).

`getTodosFromStorage` is a read of the `storage` field. The filter, submit, remove and toggle handlers copy that field into a local `stashed` first, as the page does. `Load` assigns the field to the working list directly.

The model keeps the code's behaviour where it departs from what a todo store is usually expected to do:

- Validation checks duplicates against the working list `todos`. That list may be filtered, so a title held only by a hidden item is accepted (`Todos.HiddenDuplicateAccepted`).
- Validation excludes no item. In edit mode, resubmitting the item's own title is rejected when the item is in the working list (`Todos.OwnTitleRejected`). A filter applied after the edit started can hide the item; then its own title is accepted and the item is retitled (`TodoApp.Scenario`).
- Add stores the raw title. Edit stores the trimmed title.
- After any mutation, `todos` becomes the whole persisted list, even while a filter is active.
- There is no "not found" error. Starting an edit does not look the id up. Removing or toggling an absent id leaves the list unchanged. An edit whose target was removed changes nothing, but it still returns the mode to add (`Todos.EditAfterRemove`).
- Removal does not clear `mode` or `todoId`. A successful edit resets `mode` but leaves `todoId` as it was.
- The filter captions are `completed` and `inCompleted`. Any other caption shows everything.
- A stored list that does not parse is not recovered from. The doc comment of `getTodosFromStorage` promises a try/catch, but the code has none (see "Left out").

The whitespace set of `Trim` is an assumption of the model. It is that of ECMAScript `String.prototype.trim`: WhiteSpace (tab, VT, FF, space, NBSP, BOM and the Unicode space separators) and LineTerminator (LF, CR, LS, PS).

## Model

| member | source | states |
|---|---|---|
| Text.Trim | src/js/index.js:94-97 | The trimmed string is a slice of the input. Everything before and after the slice is whitespace. The slice is empty or neither starts nor ends with whitespace. |
| Text.TrimUnique | src/js/index.js:94-97 | Any slice with the shape above is exactly `Trim`'s result. |
| Text.TrimBare | src/js/index.js:52 | A caption or title with no whitespace at either end is its own trim. |
| Text.TrimIdempotent | src/js/index.js:52 | Trimming an already trimmed caption or title changes nothing. |
| Text.TrimEmptyIff | src/js/index.js:97 | The trimmed title is empty exactly when the title is all whitespace. |
| Text.TrimPadded | src/js/index.js:94-96 | Surrounding whitespace does not change the trimmed form, so padded titles count as equal in the duplicate check. |
| Todos.WithStatus | src/js/index.js:56-64 | The result keeps exactly the items with the requested completion flag. It is no longer than the input and is a subsequence of the stored list, in storage order. |
| Todos.StatusPartition | src/js/index.js:55-69 | Each item lands in exactly one of the "completed" and "inCompleted" views, as often as it is stored. The two views' lengths add up to the list's length. |
| Todos.View | src/js/index.js:55-69 | `completed` keeps exactly the completed items. `inCompleted` keeps exactly the incomplete ones. Any other caption gives the whole list. The result is always a subsequence of the stored list. |
| Todos.IsDuplicate | src/js/index.js:94-96 | True exactly when some item of the list has a trimmed title equal to the trimmed candidate. |
| Todos.Validate | src/js/index.js:93-122 | `EmptyTitle` exactly when the candidate is all whitespace, and this test comes first. Otherwise `Duplicate` exactly when some listed item has the same trimmed title. Otherwise `Ok`. |
| Todos.OwnTitleRejected | src/js/index.js:94-121 | Resubmitting the title of any item in the list, with any whitespace added before it and any whitespace added after it, is never `Ok`. This includes the item being edited. |
| Todos.HiddenDuplicateAccepted | src/js/index.js:94-96 | For any stored list: a non-blank candidate whose trimmed title only completed items hold passes validation against the `inCompleted` view. When some item holds it, the same candidate is a duplicate against the full view. |
| Todos.Retitle | src/js/index.js:147 | The length is kept. Each item keeps its id and completion flag. Only an item whose id equals the edit target gets the new title. A missing target matches nothing. |
| Todos.RetitleOne | src/js/index.js:147 | With unique ids, an edit aimed at item k retitles that item and leaves every other item identical. |
| Todos.RetitleAbsent | src/js/index.js:147 | An edit target that no item has leaves the list unchanged. |
| Todos.EditAfterRemove | src/js/index.js:232-238 | After removing an id, an edit aimed at that id leaves the list unchanged. |
| Todos.Toggle | src/js/index.js:249 | The length is kept. Ids and titles are kept. The completion flag flips exactly on the items with the given id. |
| Todos.ToggleTwice | src/js/index.js:248-251 | Toggling the same id twice restores the list. |
| Todos.Without | src/js/index.js:234 | The result holds exactly the items whose id differs from the given one. Each kept item occurs as often as in the input, and each removed one not at all. It is a subsequence of the input, in the original order. |
| Todos.WithoutKeepsUnique | src/js/index.js:234 | Removal keeps ids unique. |
| Todos.WithoutLacksId | src/js/index.js:234 | No item with the removed id is left. |
| Todos.WithoutRemovesOne | src/js/index.js:232-238 | With unique ids, removing a stored id shortens the list by exactly one. |
| Todos.WithoutAbsent | src/js/index.js:234 | Removing an id nobody has leaves the list unchanged. |
| Todos.AppendKeepsUnique | src/js/index.js:137-142 | Appending an item whose id is fresh keeps ids unique. |
| Export.Status | src/js/index.js:285 | The status is `Completed` exactly when the item is completed and `Pending` exactly when it is not. |
| Export.RowsFrom | src/js/index.js:281-286 | There is one row per item, in order. Row k carries number offset+k+1, the item's id and title, and its status. |
| Export.PdfBody | src/js/index.js:281-286 | There is one row per item, in order. Row k is [k+1, id, title, status]. |
| Export.ExcelSheet | src/js/index.js:297-302 | There is one record per item, in order. Record k is the field list Row = k+1, ID = the id, Title = the title, Status = the status, in that order. The field names always follow the column headings. |
| Export.WordTable | src/js/index.js:329-387 | The header row `Row, ID, Title, Status` comes first, then one row per item. Row k+1 is [the decimal numeral of k+1, id, title, status]. |
| Export.Decimal | src/js/index.js:352 | The row number's numeral is non-empty and all digits, with no leading zero unless it is "0". |
| Export.DecimalRoundTrip | src/js/index.js:352 | Reading the numeral back gives the row number. |
| Export.DecimalInjective | src/js/index.js:352 | Different row numbers give different numerals. |
| TodoApp.TodoStore.constructor | src/js/index.js:34-37 | The initial state is: filter `all`, mode add, no edit target, an empty working list, and storage as persisted. `Valid()` holds from the start. |
| TodoApp.TodoStore.Load | src/js/index.js:424-427 | The working list becomes the persisted list. Nothing else changes. |
| TodoApp.TodoStore.ApplyFilter | src/js/index.js:48-72 | A click off a button changes nothing. A click on a button sets the filter to the trimmed caption and the working list to the matching view of storage. Storage, mode and edit target are untouched. |
| TodoApp.TodoStore.Submit | src/js/index.js:130-155 | The verdict is validation against the old working list. A rejection changes nothing. In add mode, exactly one item is appended: the fresh id, the raw title, not completed. In edit mode, the target is retitled with the trimmed title and the mode returns to add. On success the working list equals storage. The filter and edit target are kept. Ids stay unique. |
| TodoApp.TodoStore.Remove | src/js/index.js:232-238 | Storage becomes exactly the items with a different id, in order, and the working list equals it. Filter, mode and edit target are untouched. |
| TodoApp.TodoStore.ChangeStatus | src/js/index.js:246-253 | Storage becomes the toggled list, and the working list equals it. Filter, mode and edit target are untouched. |
| TodoApp.TodoStore.BeginEdit | src/js/index.js:263-269 | The mode becomes edit and the target becomes the given id, which is not checked. The lists and filter are untouched. |
| TodoApp.TodoStore.PdfExport | src/js/index.js:276-289 | The PDF body has one row per item of the working list, not of storage. Row k is [k+1, the k-th shown item's id, title and status]. |
| TodoApp.TodoStore.ExcelExport | src/js/index.js:296-309 | The spreadsheet has one record per item of the working list. Record k is Row = k+1, ID, Title and Status of the k-th shown item, in that order. |
| TodoApp.TodoStore.WordExport | src/js/index.js:316-396 | The word-processor table is the heading row, then one row per item of the working list. Row k+1 is [the decimal numeral of k+1, id, title, status of the k-th shown item]. |
| TodoApp.ExportCompleted | src/js/index.js:48-58 | Pressing a button whose trimmed caption is `completed` and then exporting to PDF gives exactly the completed stored items, numbered 1..n in storage order, each with status `Completed`. Afterwards the filter is `completed` and the working list is the completed stored items. Storage, mode and edit target are untouched. |
| TodoApp.Scenario | src/js/index.js:130-155 | In a fresh session with a non-blank title, one item is exported under the completed filter. After starting an edit of that item and switching to the `inCompleted` filter, resubmitting its own title is `Ok`, and storage then holds the item with the trimmed title, still completed. |

## Left out

- DOM rendering is not modelled: `loadTodoToDom`, `createButtonWithIcon`, the icon swaps at lines 150 and 265, the `classList.toggle` at line 247, and the pre-filling of the input at line 268. None of them affects the store's data.
- The Toastify notifications are not modelled. `Submit` returns a `Verdict` (`Ok`, `EmptyTitle` or `Duplicate`) instead.
- localStorage and JSON (de)serialisation are not modelled. Storage is the `storage` field, and a missing key reads as the empty list. A stored value that fails to parse would throw in the page; that case is not modelled.
- `crypto.randomUUID` is not modelled. `Submit` takes the new id as `freshId` and requires it to be absent from storage only on the path that uses it: add mode with a valid candidate.
- The constructor requires that the persisted list already has unique ids. This follows from every earlier session having used fresh ids.
- The constructor requires that no persisted title is blank once trimmed. This follows from every earlier session having stored only titles that passed the blank test.
- The candidate title is a parameter of `Submit`. The page reads it from the input element. Validation (lines 95 and 97) refers to an undeclared `input`, which the model takes to be the same element.
- Events are not modelled. Listener wiring and `preventDefault` are left out. The check that the clicked element is a button becomes the `onButton` parameter of `ApplyFilter`.
- File generation by jsPDF/autoTable, XLSX and docx is not modelled: the header styling, cell borders and widths, the heading paragraph, the sheet name, file names and the asynchronous blob download. Only the rows are modelled, plus the header row of the word table.
- Strings are sequences of Unicode scalar values, not UTF-16 code units. `Trim`, title equality and the emptiness test agree with the page only on well-formed strings; unpaired surrogates are not modelled.
- The `console.log` at line 61 and the Tailwind class strings are not modelled.
