# To-do list task store

A model of the task store of a single-page to-do list (`script.js`). The page
keeps an ordered list of `{ id, text, completed }` records in a closure
variable and mirrors it into one browser storage slot (`todoTasks`). Four
operations act on it:

- `addTask` trims the text typed by the user. Text that is empty after
  trimming is ignored. Otherwise the store appends an incomplete task whose
  id is the current clock reading, then saves.
- `toggleCompletion` maps over the list. Every task with the given id has its
  `completed` flag flipped. Then the store saves.
- `deleteTask` filters out every task with the given id, then saves.
- `loadTasks` replaces the list with the stored snapshot, when there is one.

Modules:

- `Wrappers` (`wrappers.dfy`): the `Option` type used for the storage slot.
- `Text` (`text.dfy`): `Trim`, ECMAScript's `String.prototype.trim`
  (section 22.1.3.32 of ECMA-262). It strips WhiteSpace (section 12.2) and
  LineTerminator (section 12.3) code points, written out in `IsWhiteSpace`.
- `Tasks` (`tasks.dfy`): the `Task` record, and the two list transformations
  as pure functions: `ToggleSeq` (the `map`) and `DeleteSeq` (the `filter`).
  Lemmas about them follow.
- `TodoStore` (`store.dfy`): the class `TaskStore`. Its field `tasks` is the
  closure variable. Its field `stored` is the storage slot: `None` while the
  key is unset, `Some(list)` once saved. Its methods are the four operations
  and `Save`. `Session` is a client that runs a whole session, then reloads
  the page from the slot.

Ids are not assumed unique: two tasks added within the same millisecond share
an id. So every contract speaks of *every* task with a given id. `Session`
states the outcome for both cases.

The model keeps these behaviours of the code, two of which matter because ids can collide:

- Deletion removes every task with the id, however many there are.
- Toggling flips every task with the id, however many there are.
- Loading with no snapshot keeps the current list as it is.
  At page start that list is empty (`script.js:8`).

## Model

| member | source | states |
|---|---|---|
| Text.IsWhiteSpace | script.js:77 | exactly the WhiteSpace and LineTerminator code points of ECMA-262 that `trim()` strips; all of them lie in the Basic Multilingual Plane |
| Text.SkipLeading | script.js:77 | the first index from `i` on that is not whitespace; only whitespace lies before it |
| Text.SkipTrailing | script.js:77 | the start of the run of trailing whitespace that ends at `j`, never below `lo`; the character before it is not whitespace |
| Text.Trim | script.js:77 | `String.prototype.trim`: the result is empty exactly when the input is all whitespace; otherwise its first and last characters are not whitespace; never longer than the input |
| Text.TrimIsCore | script.js:77 | the trimmed string is exactly `s[i..j]` for any `i`, `j` with only whitespace before `i` and from `j` on, and `s[i..j]` free of whitespace at both ends |
| Text.TrimKeepsTrimmed | script.js:77 | a string with no whitespace at either end is unchanged by trimming |
| Text.TrimIdempotent | script.js:77 | trimming twice equals trimming once |
| Tasks.Flip | script.js:94 | the spread `{ ...task, completed: !task.completed }` on a match: id and text kept, completion negated exactly when the id matches |
| Tasks.CountId | script.js:102 | the number of tasks with the id; zero exactly when no task has it |
| Tasks.ToggleSeq | script.js:93-95 | same length and order; every task with the id has `completed` negated and keeps id and text; every other task is identical |
| Tasks.ToggleTwice | script.js:93-95 | toggling the same id twice returns the original list |
| Tasks.ToggleAbsent | script.js:93-95 | toggling an id no task has leaves the list unchanged |
| Tasks.ToggleAppend | script.js:93-95 | toggling distributes over concatenation, so order is preserved |
| Tasks.ToggleCommutes | script.js:93-95 | toggles of two ids commute |
| Tasks.DeleteSeq | script.js:102 | no task with the id remains; the length drops by exactly the number of matches |
| Tasks.DeleteKeepsOthers | script.js:102 | each task with another id keeps its multiplicity; tasks with the id have none |
| Tasks.DeleteAbsent | script.js:102 | deleting an id no task has leaves the list unchanged |
| Tasks.DeleteAppend | script.js:102 | deletion distributes over concatenation, so the survivors keep their relative order |
| Tasks.DeleteTwice | script.js:102 | deleting an id twice equals deleting it once |
| Tasks.DeleteAfterToggle | script.js:93-102 | toggling an id and then deleting it equals deleting it |
| Tasks.DeleteUndoesAppend | script.js:79-84 | appending a task whose id is new, then deleting that id, gives the original list |
| TodoStore.TaskStore.constructor | script.js:8 | at page start the list is empty and the slot holds what an earlier visit saved |
| TodoStore.TaskStore.Mirrored | script.js:20-22 | the slot holds exactly the in-memory list, the relation `saveTasks` establishes |
| TodoStore.TaskStore.Load | script.js:11-15 | with a snapshot, the list becomes the snapshot; without one, the list is kept; the slot is unchanged; loading right after a save returns the same list |
| TodoStore.TaskStore.Save | script.js:20-22 | the slot is overwritten with the whole list; the list is unchanged |
| TodoStore.TaskStore.Add | script.js:76-85 | empty trimmed input: list and slot unchanged; otherwise the list is the old list plus `Task(now, Trim(input), false)` at the end, and the slot mirrors it |
| TodoStore.TaskStore.Toggle | script.js:92-96 | the list becomes `ToggleSeq` of the old list; the slot mirrors it even when no task has the id |
| TodoStore.TaskStore.Delete | script.js:101-103 | the list becomes `DeleteSeq` of the old list; the slot mirrors it even when no task has the id |
| TodoStore.Session | script.js:8-138 | add "Buy milk" and "Walk dog", toggle the first, delete the second, reload: with distinct clock readings exactly `[Task(t1, "Buy milk", true)]` is restored; with equal readings nothing is |

## Left out

- Rendering (`renderTasks`, `script.js:25-73`) and the calls to it after each operation: presentation only.
- Clearing the input field after an add (`script.js:87`): presentation only.
- Event wiring and delegation (`script.js:108-135`): this covers the click and Enter handlers, `closest`, the checkbox and delete-button tests, and `parseInt` of the `data-task-id` attribute. It depends on browser event objects. The model's operations take the text and the id directly.
- `localStorage` and JSON (`script.js:12, 14, 21`): a foreign browser API. The slot holds the list itself. Serialising and parsing it back is taken to give the same list. The truthiness test on the stored string is read as "the key is set", because a serialised array is never the empty string. The exception `JSON.parse` throws on malformed data is not modelled.
- `Date.now()` (`script.js:80`): a clock. Its reading is the parameter `now` of `Add`. Nothing is claimed about ids being unique or increasing.
- Storage failures: writes to the slot are taken to succeed. `setItem`'s `QuotaExceededError` and the `SecurityError` that `getItem` or `setItem` throws when storage is blocked are not modelled. When a write throws, the list has already changed and the slot has not, so `Mirrored` fails after that operation. `Add`, `Toggle` and `Delete` promise `Mirrored` only on the assumption that the write succeeds.
- Number semantics of ids: JavaScript numbers are modelled as mathematical integers. `NaN` ids from a failed `parseInt` are not modelled.
- Strings: JavaScript strings are sequences of UTF-16 code units, while `string` here is a sequence of Unicode scalar values. So a task text containing a lone surrogate cannot be represented. `Trim` is unaffected, because every code point it strips lies in the Basic Multilingual Plane.
