# Kanban board task store — Dafny model

This project models the in-memory task store of a single-page kanban board
(`js/index.js`). The store is an ordered list of task records
`{id, content, currentStatus}`. It is loaded once from browser local storage and
saved after every change. Users change it through four gestures: add a task,
drag a task to another column (move), delete a task, and commit an inline edit.
On every change the page rebuilds its three columns (todo, doing, done) from the
list.

Layout:

- `text.dfy`, module `Text`: JavaScript's `String.prototype.trim`, with the exact
  ECMAScript set of white-space and line-terminator characters.
- `seqs.dfy`, module `Seqs`: an order-preserving `Filter`, the model of
  `Array.prototype.filter`.
- `tasks.dfy`, module `Tasks`: the task record, status validity, the persisted
  blob and the load-time filter, and the pure rules behind move (`find` and then
  a guarded status change), delete (`filter` by id), add, edit-commit and the
  column routing of `render`. It also holds the lemmas about these rules.
- `store.dfy`, module `Store`: class `Board`. It has the module-global `list`,
  the persisted blob `stored` and the add field's `input`, with one method per
  function or event handler of the page. Each method's `ensures` ties the new
  state to the pure function in `Tasks`. Each method also keeps the invariant
  `Valid()`: every task has status `todo`, `doing` or `done`. `Move` keeps it
  only when its target status is one of those three. Every caller (the three
  drop handlers) passes one of them.

Stand-ins for things outside the program:

- `localStorage.getItem` plus `JSON.parse` is the `Blob` datatype (`Absent`,
  `Unparseable`, `NotArray`, `Array(items)`).
- Each parsed array element is a `RawItem`: `Nullish`, `Untagged`, or
  `Entry(task)`.
- `localStorage.setItem` is the board's `stored` field plus a `writeOk` flag. The
  flag is false when the write throws.
- `Date.now()` is a `newId` parameter.
- The drag payload and the clicked row's `data-id` are an `id` parameter.

Behaviours of the code worth noting:

- When nothing is stored, load leaves the list as it was (it is empty at start-up).
  It does not assign an empty list.
- Edit-commit saves only when the trimmed field is non-empty.
- Committing the unchanged text of a record that was loaded with surrounding
  white space trims that text. `Tasks.CommitUnchanged` states exactly when
  committing a record's own content leaves it unchanged.
- The edit field is pre-filled with the clicked row's text, but the record
  edited is the first one with the row's id. With unique ids these are the same
  record. With a shared id, opening and committing the second row unchanged
  copies its text into the first record (`Tasks.DuplicateIdEditScenario`).
- An array element that is `null` makes the status lookup throw inside the
  filter. The `catch` then empties the whole list, valid records included
  (`Tasks.LoadNullScenario`).
- Records with a shared id: move changes only the first one, delete removes
  all of them (`Tasks.DuplicateIdScenario`), and an edit always writes into the
  first one.

## Model

| member | source | states |
|---|---|---|
| `Text.LeadingSpace` | js/index.js:120 | the counted prefix is all white space and the next character is not |
| `Text.TrailingSpace` | js/index.js:120 | the counted suffix is all white space and the character before it is not |
| `Text.Trim` | js/index.js:247 | `trim()` yields empty exactly for all-white-space input; otherwise the result neither starts nor ends with white space |
| `Text.IsSpace` | js/index.js:120 | the characters `trim` strips: ECMAScript white space and line terminators |
| `Text.TrimSlice` | js/index.js:120 | the trimmed text is a contiguous slice of the input with only white space cut off either side |
| `Text.TrimIdempotent` | js/index.js:120 | trimming twice equals trimming once |
| `Text.TrimOfTrimmed` | js/index.js:247 | a text with non-space ends is its own trim |
| `Seqs.Filter` | js/index.js:143 | `filter` keeps only elements that pass, taken from the input, never more of them |
| `Seqs.FilterMembership` | js/index.js:143 | an element is in the filtered sequence iff it is in the input and passes |
| `Seqs.FilterAppend` | js/index.js:143 | filtering distributes over concatenation, so relative order is kept |
| `Seqs.FilterSnoc` | js/index.js:43-75 | extending the input by one element extends the result by it exactly when it passes |
| `Seqs.FilterKeepsAll` | js/index.js:143 | when every element passes, filtering returns the input unchanged |
| `Seqs.FilterDropsAll` | js/index.js:73 | when no element passes, filtering returns the empty sequence |
| `Tasks.IsValidStatus` | js/index.js:28 | a status is valid iff it is `todo`, `doing` or `done` |
| `Tasks.StatusNamesAreValid` | js/index.js:28 | a status is valid iff it is the name of one of the three columns |
| `Tasks.Kept` | js/index.js:27-29 | the load filter keeps only entries with a valid status, taken from the parsed array |
| `Tasks.Loaded` | js/index.js:19-36 | an absent blob leaves the list as it was; unparseable text, a non-array or an array with a null element yields the empty list; an array without null yields exactly its entries with a valid status, in order |
| `Tasks.KeptMembership` | js/index.js:28-29 | a record survives the load filter iff it is an entry of the array with a valid status |
| `Tasks.KeptAppend` | js/index.js:29 | the load filter keeps the records' relative order |
| `Tasks.LoadedValid` | js/index.js:19-36 | load preserves the invariant that every status is valid |
| `Tasks.Entries` | js/index.js:12 | the saved array holds each task of the list, in order, one entry per task |
| `Tasks.Serialize` | js/index.js:12 | the saved blob is an array without null, one entry per task, which the load filter gives back unchanged when every status is valid |
| `Tasks.KeptEntries` | js/index.js:12-29 | the load filter gives back a saved valid list unchanged |
| `Tasks.LoadAfterSave` | js/index.js:10-36 | loading what a successful save wrote reproduces the saved list, order and fields included |
| `Tasks.FindFirst` | js/index.js:87 | `find` returns the index of a task with the id and no earlier task has it; none only when no task has it |
| `Tasks.Moved` | js/index.js:84-93 | move keeps the length, every id and every content |
| `Tasks.MoveNoOp` | js/index.js:84-90 | move changes nothing iff the id is empty, no task has it, or the first match already has the status |
| `Tasks.MoveChangesFirstOnly` | js/index.js:87-92 | otherwise the first match gets the new status and every other task, later duplicates included, is unchanged |
| `Tasks.MovedValid` | js/index.js:161-168 | moving to a valid status keeps every status valid |
| `Tasks.Deleted` | js/index.js:143 | the list after delete is no longer than before and holds only tasks of the old list without the id |
| `Tasks.DeleteMembership` | js/index.js:143 | delete removes every task with the id and keeps every task without it |
| `Tasks.DeleteLength` | js/index.js:175 | the length drops by exactly the number of tasks with the id |
| `Tasks.DeleteOrder` | js/index.js:206 | the surviving tasks keep their relative order |
| `Tasks.DeleteAbsent` | js/index.js:143 | deleting an id no task carries leaves the list unchanged |
| `Tasks.DeletedValid` | js/index.js:143 | delete preserves the invariant that every status is valid |
| `Tasks.Added` | js/index.js:246-258 | add grows the list by one task for non-blank input and by none for blank input, leaves the earlier tasks untouched, and keeps every status valid |
| `Tasks.AddAppends` | js/index.js:247-254 | non-blank input appends exactly one `todo` task with the new id and the trimmed text; earlier tasks are untouched |
| `Tasks.AddRejectsBlank` | js/index.js:248-257 | empty or white-space-only input leaves the list unchanged |
| `Tasks.AddedContentTrimmed` | js/index.js:247-251 | a task created by add has non-empty content with no surrounding white space |
| `Tasks.AddedValid` | js/index.js:249-253 | add preserves the invariant that every status is valid |
| `Tasks.CommittedContent` | js/index.js:120-122 | the committed content is either the old content or the non-empty trimmed field, and is never empty when the old content was not |
| `Tasks.Edited` | js/index.js:119-124 | an edit commit keeps every id and status and changes no task other than the edited one |
| `Tasks.CommitContent` | js/index.js:120-122 | a non-blank field becomes the trimmed content; a blank field leaves the content as it was |
| `Tasks.CommitIdempotent` | js/index.js:109-124 | committing twice with the same field value (Enter, then blur) equals committing once |
| `Tasks.CommitUnchanged` | js/index.js:119-124 | committing the unchanged content is a no-op iff that content is already trimmed or is blank |
| `Tasks.EditedValid` | js/index.js:119-124 | an edit commit preserves the invariant that every status is valid |
| `Tasks.ColumnTasks` | js/index.js:67-72 | a column holds only tasks of the list with that column's status, never more than the list |
| `Tasks.Misrouted` | js/index.js:73-75 | the alert branch is taken only for tasks of the list whose status is invalid |
| `Tasks.RoutingStep` | js/index.js:43-75 | routing one more task extends exactly the bucket of its status by that task |
| `Tasks.RoutingPartition` | js/index.js:67-75 | every task goes to exactly one of the three columns or the alert branch (as multisets) |
| `Tasks.RoutingMembership` | js/index.js:67-72 | a task is in a column iff it is in the list with that column's status |
| `Tasks.RoutingValid` | js/index.js:67-75 | on a valid list the alert branch is never reached, and the three columns together hold exactly the list |
| `Tasks.BuyMilkScenario` | js/index.js:246-258 | adding "buy milk", moving it to doing and deleting it gives the expected lists |
| `Tasks.DuplicateIdScenario` | js/index.js:84-93 | with a shared id, move changes only the first task, and delete removes both |
| `Tasks.DuplicateIdEditScenario` | js/index.js:99-124 | with a shared id, the session is on the first task, and committing the second row's text copies it into the first task |
| `Tasks.LoadDropsInvalidScenario` | js/index.js:27-29 | an invalid record between two valid ones is dropped, and the two valid ones stay |
| `Tasks.LoadNullScenario` | js/index.js:22-34 | a null element empties the list, valid records included |
| `Store.Board.constructor` | js/index.js:8 | the list starts empty |
| `Store.Board.Load` | js/index.js:19-36 | the new list is the load of the stored blob; absent blob leaves the list; the invariant is preserved |
| `Store.Board.Save` | js/index.js:10-17 | a successful write stores the list and keeps it, and reloading gives it back; a failed write keeps the store and empties the list |
| `Store.Board.Move` | js/index.js:84-93 | the new list is the guarded first-match status change; the invariant is kept when the target status is valid |
| `Store.Board.AddTask` | js/index.js:246-258 | accepts iff the input is not blank; the list gets the new task and the input is cleared, or both stay as they were |
| `Store.Board.StartEditing` | js/index.js:99-159 | a session opens iff some task has the id; it is on the first such task, and the field holds the clicked row's displayed text |
| `Store.Board.FinishEditing` | js/index.js:119-128 | a blank field changes and saves nothing; otherwise the content is replaced by the trimmed field and saved; the displayed text is the resulting content |
| `Store.Board.OnDeleteClick` | js/index.js:139-147 | the list loses every task with the id and is saved (or emptied if the write fails) |
| `Store.Board.OnDrop` | js/index.js:161-168 | the dragged task moves to the column's status and the list is saved (or emptied if the write fails) |
| `Store.Board.OnAdd` | js/index.js:233-244 | add runs, then the list is saved even when the input was rejected (or emptied if the write fails) |
| `Store.Board.Render` | js/index.js:38-77 | each column receives exactly the tasks of its status, in list order; the alerts are exactly the tasks with any other status; on a valid list there are none |

## Left out

- DOM construction and styling in `render` (js/index.js:39-65) are not modelled. `Render` returns the three column contents and the alerted tasks instead.
- Event-listener wiring, the `closest`/`matches`/`dataset` lookups and the drag-and-drop `dataTransfer` payload are not modelled. They are browser plumbing; the handlers take the id, the target column and the clicked row's displayed text as parameters.
- The deferred focus of the edit field (`setTimeout`) is not modelled. It does not affect the list.
- `alert` and `console.warn` messages are not modelled. They are user and operator output only; `AddTask` reports a rejection through its `accepted` result.
- `localStorage` and the JSON text format are not modelled. They are foreign calls. Load reads an already-parsed `Blob`; save writes `Serialize(list)` and takes a `writeOk` flag for a write that throws.
- `Date.now()` id generation is not modelled. It reads the wall clock, so the id is a parameter and the model makes no uniqueness claim.
- Records are values, not shared objects. The in-place assignments to `item.currentStatus` and `item.content` become updates of one element of the list.
- Store.Board.FinishEditing: an edit session refers to a list index that must still be in the list (`requires k < |list|`). The source holds a reference to the record object instead. So an edit committed after its record was deleted, or after a failed save emptied the list, is not modelled. The source would change the detached object and save an unchanged list.
- Loaded records are assumed to carry string `id` and `content`. JSON values of other types in those fields are outside the model. Only the status field is checked, as in the source.
- `JSON.stringify` failing is not modelled. It cannot fail on records of strings; only the storage write can fail.
