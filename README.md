# To-do list: the task collection as a verified state machine

This project models the part of the to-do list web page that owns the
tasks: the `TodoApp` class and its subclass `EnhancedTodoApp` in
`js/script.js`. The application object holds two fields, `tasks` (an
ordered list of records `{id, text, completed, createdAt}`, newest first)
and `taskIdCounter` (the id the next task receives). The page calls six
operations on them: add, toggle, delete, clear completed, clear all and
import, and it shows three counts (total, completed, pending).

The model is in four files:

- `wrappers.dfy` (module `Wrappers`): `Option`.
- `text.dfy` (module `Text`): `trim`, lower-casing and the JavaScript
  string `length`, which counts UTF-16 code units.
- `tasks.dfy` (module `Tasks`): the task record and the expression-level
  parts of the source: `filter`, the counts behind `updateStats`,
  `isDuplicateTask`, `find`, and the add validation. It also holds the
  lemmas about them and the id invariant: ids are distinct and below the
  counter.
- `app.dfy` (module `App`): class `App.TodoApp` with the two fields and one
  method per operation. Each method changes the fields in place and states
  the new state in terms of the old one. The module also has the load/save
  image of the two storage keys and two verified scenarios.

As far as the task state goes, the two JavaScript classes differ only in
`addTask`: the enhanced one also refuses a text longer than 100
characters, after the empty check and before the duplicate check. The model keeps one class whose `const variant`
(`Basic` or `Enhanced`) says which `addTask` runs.

Inputs the page gets from the browser are parameters. The answer of a
`confirm` dialog is a `bool`. The creation time is a `Timestamp` value that
is never inspected. What `JSON.parse` made of an imported file is a
`ParsedFile` value: an array of tasks, something other than an array, or a
parse failure.

The id invariant (`Tasks.WellFormed`) holds on a fresh start and is kept
by add, toggle, delete and both clears. Import is the exception. It
replaces the list without checking ids and without moving the counter. The
next added task gets exactly the old counter as id (js/script.js:55, 487),
so an imported task whose id equals the counter collides with that task,
and one whose id is larger collides with a later add, once the counter
reaches it. `App.ImportThenAdd` shows the collision: two tasks with
id 1. The model keeps this behaviour as the code has it.

A few facts about the code that shape the model:

- The constructor does not recover from a malformed stored list:
  `JSON.parse` at js/script.js:4 throws. The model gives the constructor
  stored values that are already parsed.
- `deleteTask` asks `confirm` itself (js/script.js:122); the model's
  `DeleteTask` takes the answer as a parameter.
- The two clear methods return nothing. `ClearOutcome` is the model's own
  result value: `clearCompleted` shows the removed count only in its prompt
  and its notification (js/script.js:141, 148), and `clearAll` shows the old
  length only in its prompt (js/script.js:158).
- `addTask` and `toggleTask` return nothing either. `AddOutcome` and the
  `Option<Task>` that `ToggleTask` returns are the model's own values: they
  name the branch the code took.

## Model

| member | source | states |
|---|---|---|
| `Text.IsSpace` | js/script.js:39 | the white space `trim` strips is ECMAScript's WhiteSpace and LineTerminator set; among ASCII characters it is exactly TAB to CR and space |
| `Text.LeadingSpace` | js/script.js:39 | counts the white space at the front: every counted code point is white space and the next one is not |
| `Text.TrailingSpace` | js/script.js:39 | counts the white space at the back: every counted code point is white space and the one before is not |
| `Text.Trim` | js/script.js:463 | `trim` returns the slice left after removing white space at both ends; it is empty exactly when the input is all white space, and otherwise starts and ends with a non-space |
| `Text.TrimOfTrimmed` | js/script.js:39 | a string with no white space at either end is its own trim |
| `Text.TrimIdempotent` | js/script.js:463 | trimming twice equals trimming once |
| `Text.LowerChar` | js/script.js:75 | the result is never an ASCII capital; it is the input, or the input's capital shifted to lower case |
| `Text.Lower` | js/script.js:75 | `toLowerCase` keeps the length and lower-cases every position |
| `Text.LowerIdempotent` | js/script.js:75 | lower-casing twice equals lower-casing once |
| `Text.LowerFixesNonUpper` | js/script.js:75 | a string with no ASCII capitals is unchanged by lower-casing |
| `Text.Utf16Length` | js/script.js:472 | the JavaScript `length` lies between the number of code points and twice that, and equals it exactly when every code point is in the Basic Multilingual Plane; one code point counts 2 above U+FFFF and 1 otherwise |
| `Text.Utf16Append` | js/script.js:472 | the `length` of a concatenation is the sum of the lengths, which with the one-code-point case fixes the count for every string |
| `Tasks.Filter` | js/script.js:123 | `filter` never lengthens the list |
| `Tasks.FilterMembers` | js/script.js:123 | a filter keeps exactly the tasks its test accepts |
| `Tasks.FilterAppend` | js/script.js:123 | filtering a concatenation is concatenating the filtered parts, so survivors keep their order |
| `Tasks.FilterKeepsAll` | js/script.js:142 | a filter whose test accepts every task returns the list unchanged |
| `Tasks.FilterDropsAll` | js/script.js:134 | a filter whose test rejects every task returns the empty list |
| `Tasks.FilterDropsOne` | js/script.js:123 | when the test rejects exactly one position, filtering removes exactly that position |
| `Tasks.FilterIdempotent` | js/script.js:123 | filtering twice by the same test is filtering once |
| `Tasks.FilterUpdateLength` | js/script.js:171 | replacing one task changes a filter's length by the change in whether that position passes |
| `Tasks.CompletedTasks` | js/script.js:134 | the completed filter keeps exactly the completed tasks |
| `Tasks.PendingTasks` | js/script.js:142 | the clear-completed filter keeps exactly the uncompleted tasks |
| `Tasks.CompletedPlusPending` | js/script.js:170-172 | the completed and uncompleted counts add up to the list's length |
| `Tasks.StatsOf` | js/script.js:169-172 | total is the list length, completed is the number of completed tasks, and pending (computed as total minus completed) is the number of uncompleted tasks |
| `Tasks.IsDuplicate` | js/script.js:73-77 | true exactly when some task's text equals the given text after both are lower-cased |
| `Tasks.Validate` | js/script.js:463-484 | an empty trimmed text is refused as empty; too long is refused exactly for a non-empty text over 100 code units in the enhanced variant; a duplicate refusal means some task matches case-insensitively; and a text is accepted exactly when it is non-empty, within the limit, and matches no task |
| `Tasks.BasicHasNoLengthLimit` | js/script.js:38-52 | the base variant never refuses a text for its length |
| `Tasks.DuplicateIgnoresCase` | js/script.js:48-52 | a non-empty, short enough input whose trim matches an existing text case-insensitively is refused as a duplicate |
| `Tasks.BuyMilkMatchesBuyMILK` | js/script.js:75 | "Buy milk" and "buy MILK" are equal after lower-casing |
| `Tasks.BuyMilkBlocksBuyMILK` | js/script.js:73-77 | with "Buy milk" in the list, "buy MILK" is refused as a duplicate |
| `Tasks.FindIndex` | js/script.js:109 | `find` gives the first position with the id, or none exactly when no task has the id |
| `Tasks.FindIndexOnlyReadsIds` | js/script.js:109 | two lists with the same ids in the same positions give the same look-up result |
| `Tasks.Flip` | js/script.js:111 | `completed` is negated and the id, text and creation time are kept |
| `Tasks.Toggled` | js/script.js:108-111 | toggling keeps length, order, ids, texts and timestamps, flips `completed` on the first task with the id only, and is a no-op when no task has the id |
| `Tasks.ToggleTwice` | js/script.js:108-111 | toggling the same id twice restores the original list |
| `Tasks.ToggleMovesOneTask` | js/script.js:108-111 | a toggle keeps the total and moves exactly one task between the completed and pending counts |
| `Tasks.WithoutId` | js/script.js:121-123 | after deleting, no task has the id, and the survivors are exactly the original tasks with other ids |
| `Tasks.DeleteTwice` | js/script.js:121-123 | deleting the same id again changes nothing |
| `Tasks.DeleteAbsent` | js/script.js:123 | deleting an id no task has changes nothing |
| `Tasks.DeleteKeepsOrder` | js/script.js:123 | deleting from a concatenation is deleting from each part, so the survivors keep their relative order |
| `Tasks.DeleteAt` | js/script.js:123 | when only one position holds the id, deleting it removes exactly that position |
| `Tasks.DeleteRemovesOne` | js/script.js:121-123 | with distinct ids, deleting a present id removes exactly that task, and the total goes down by one |
| `Tasks.ClearCompletedNone` | js/script.js:133-139 | with no completed task, the clear-completed filter keeps the whole list |
| `Tasks.ClearCompletedRemovesCompleted` | js/script.js:133-142 | clearing completed tasks removes as many tasks as the completed count and leaves stats with zero completed |
| `Tasks.AddKeepsWellFormed` | js/script.js:54-61 | prepending a task whose id is the counter and advancing the counter keeps the ids distinct and below the counter |
| `Tasks.FilterKeepsUniqueIds` | js/script.js:123 | any filter keeps ids distinct |
| `Tasks.FilterKeepsWellFormed` | js/script.js:142 | any filter keeps the id invariant for the same counter, so delete and clear-completed keep it |
| `Tasks.ToggleKeepsWellFormed` | js/script.js:108-111 | toggling keeps the id invariant |
| `App.LoadTasks` | js/script.js:4 | a missing stored list loads as the empty list; a present one loads as itself |
| `App.LoadCounter` | js/script.js:5 | a missing, unparsable or zero counter loads as 1, any other value as itself; the loaded counter is never 0 |
| `App.Save` | js/script.js:189-192 | both keys are written: `todoTasks` with the list and `taskIdCounter` with the counter, as they are |
| `App.SaveThenLoad` | js/script.js:189-192 | reloading what was saved restores the list and the counter, except that 0 comes back as 1, and the id invariant survives |
| `App.TodoApp.constructor` | js/script.js:3-5 | the fields are the loaded list and counter; starting without a stored list satisfies the id invariant |
| `App.TodoApp.AddTask` | js/script.js:38-61 | a refused input changes neither field and reports the first failing check; an accepted one puts a new uncompleted task with the trimmed text and the old counter as id in front of the unchanged old list, and advances the counter by one; the id invariant is kept |
| `App.TodoApp.ToggleTask` | js/script.js:108-119 | the list becomes the toggled list and the counter stays; the result is none exactly when no task has the id, and otherwise the task with its completion flipped |
| `App.TodoApp.DeleteTask` | js/script.js:121-131 | a confirmed delete leaves the list without that id; an unconfirmed one changes nothing; the counter stays and the id invariant is kept |
| `App.TodoApp.ClearCompleted` | js/script.js:133-150 | with no completed task it refuses and changes nothing; declined it changes nothing; confirmed it keeps only the pending tasks and reports the completed count, which is the number removed; the counter stays |
| `App.TodoApp.ClearAll` | js/script.js:152-167 | on an empty list it refuses; declined it changes nothing; confirmed it empties the list and the model returns the old length; the counter stays |
| `App.TodoApp.ImportTasks` | js/script.js:246-269 | a parsed array replaces the list exactly; no file, an unparsable file or a non-array changes nothing; the counter is never touched |
| `App.AcceptsFirst` | js/script.js:463-484 | "A" trims to itself and is accepted into an empty list |
| `App.AcceptsSecond` | js/script.js:463-484 | "B" trims to itself and is accepted next to a task "A" |
| `App.OneOfTwoCompleted` | js/script.js:169-172 | with a completed task in front of a pending one, the stats are 2/1/1 and clearing completed keeps the pending one |
| `App.Walkthrough` | js/script.js:38-150 | from empty storage, adding "A" then "B" gives A id 1 and B id 2, so the list's ids in order are [2, 1]; toggling 2 gives stats 2/1/1, and clearing completed reports 1 and leaves only task A |
| `App.ImportThenAdd` | js/script.js:253-255 | importing a task with id 1 into a fresh app and then adding a task gives two tasks with id 1 |

## Left out

- Rendering, the empty-state view, notifications, shake and success animations, focus handling, modals, keyboard shortcuts, smooth scrolling and service-worker registration (js/script.js:79-106, 179-228, 277-437, 536-546): these are page effects with nothing to state about the task list.
- The `localStorage` calls and the enhanced `saveToStorage` try/catch (js/script.js:189-192, 514-522): browser I/O. `App.Save` is the image written. A failed write is not modelled; in the code it leaves the in-memory state as it is.
- `JSON.parse` and `JSON.stringify`: foreign library calls. The constructor receives the stored values already parsed, so the exception `JSON.parse` throws on malformed stored data (js/script.js:4) is not modelled. A stored list that parses to something other than an array is not modelled either.
- `exportTasks` (js/script.js:231-243): serialization and file download only, with no effect on the state.
- The `Blob`, `FileReader` and object-URL plumbing of import and export: the parse result is an input.
- Import shape: the source does not check the shape of imported records. The model can only represent task-shaped records, so a record with a non-string text (which would make a later `isDuplicateTask` throw) is not captured.
- `new Date().toISOString()`: the clock is the `now` parameter.
- The try/catch around the enhanced `addTask` (js/script.js:462, 507-510): nothing in the modelled steps can throw.
- The two `DOMContentLoaded` handlers (js/script.js:273-275, 526-534), which create the application object twice: event wiring, not task logic.
- Text.Lower: lower-cases only the ASCII letters A-Z, where JavaScript's `toLowerCase` applies the full Unicode case mapping, so a duplicate that differs only in non-ASCII case is not detected by the model.
- Text.Utf16Length: a Dafny string holds Unicode scalar values, so a JavaScript string with a lone surrogate cannot be represented.
- App.TodoApp.ToggleTask: the task is replaced by an updated value in the list. The code mutates the shared record object in place, but no other reference to that record is used afterwards, so nothing else is affected.
- Ids and the counter are unbounded integers: JavaScript numbers lose integer precision above 2^53, and imported ids of other JSON types are not represented.
