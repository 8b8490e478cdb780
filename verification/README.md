# To-do list state machine

A Dafny model of the in-memory task list behind a single-page to-do client
(`src/App.jsx`, the `App` component). The component keeps two lists of tasks
`{id, title, completed}` — every task, and the tasks shown in the completed
view — together with four flags: whether the edit dialog is open, the working
copy being edited, which view is selected, and whether the narrow-window
drawer is open. Every user action is a handler that rewrites this state with
a prepend, a filter by id or a map by id.

The model has three modules:

- `Tasks` (`tasks.dfy`): the `Task` record and the list transforms the
  handlers use — `CompletedOnly` (filter by flag), `RemoveId` (filter by id),
  `FlipId` and `ReplaceId` (map by id), `FindId` (find by id) — with their
  laws: deleting is idempotent and keeps order, toggling is an involution
  that keeps ids and titles, committing an edit is idempotent and keeps ids.
- `Consistency` (`consistency.dfy`): the invariant that the ids of the
  completed list are exactly the ids of the completed tasks of the full list,
  and one lemma per handler showing that it is kept. The invariant is about
  sets of ids only: toggling relies on ids being distinct, and the order of
  the completed list can differ from the order of the full list. A stronger
  invariant (`ListsCoherent`: consistent, distinct ids, only completed tasks
  in the completed list) is kept by every handler that can run while the
  edit dialog is closed, and it is what guarantees that committing an edit
  keeps the lists consistent.
  It also shows that the id `length + 1` given to a new task is fresh while
  the ids are distinct and all lie between 1 and the length of the list (as
  in a list built only by adds from empty), and that one delete can break
  this: add, add, delete id 1, add gives two tasks with id 2.
- `TodoApp` (`app.dfy`): class `App`, one field per state slot and one
  method per handler, each specified by the new state as a function of the
  old one and by the invariants it keeps; three client methods that chain
  handlers (rename through the dialog, cancel the dialog, switch view twice)
  and a walkthrough from a one-task seed.

Notes on the code's behaviour, which the model follows:

- The completed list is a second stored list, updated by each handler, not
  a view computed from the full list when rendering.
- Committing an edit closes the dialog but does not clear the working copy.
- Both drawer buttons flip the view; neither selects a fixed view.
- Adding a task does not check the title; only the form's `required`
  attribute keeps it non-empty.
- The edit dialog is modal: while it is open, only its title field, Cancel
  and Confirm can act, so no list handler runs between opening and
  committing an edit.

## Model

| member | source | states |
|---|---|---|
| Tasks.CompletedOnly | src/App.jsx:53 | the result is no longer than the input and holds exactly the input's completed tasks |
| Tasks.CompletedOnlyAppend | src/App.jsx:53 | the completed filter distributes over concatenation, so it keeps the order and repetitions of the completed tasks |
| Tasks.RemoveId | src/App.jsx:115 | the result is no longer than the input and holds exactly the input's tasks whose id differs from the given id |
| Tasks.FlipId | src/App.jsx:122-127 | same length, same ids and titles at every position; the flag is negated exactly at positions carrying the id |
| Tasks.ReplaceId | src/App.jsx:100-105 | same length; every position carrying the working copy's id holds the working copy, every other position is unchanged |
| Tasks.FindId | src/App.jsx:129 | a task is found iff the id occurs in the list; the found task is in the list, has that id, and no earlier task has it |
| Tasks.RemoveAbsentId | src/App.jsx:115 | deleting an id no task carries leaves the list unchanged |
| Tasks.RemoveIdIdempotent | src/App.jsx:114-118 | deleting the same id twice equals deleting it once |
| Tasks.RemoveIdAppend | src/App.jsx:115 | deleting distributes over concatenation, so survivors keep their relative order |
| Tasks.RemoveIdIds | src/App.jsx:115 | the ids after a delete are the old ids minus the deleted id |
| Tasks.RemoveIdShrinks | src/App.jsx:115 | the list gets shorter iff some task carries the deleted id |
| Tasks.RemoveIdKeepsDistinct | src/App.jsx:115 | deleting keeps distinct ids distinct |
| Tasks.FlipIdInvolution | src/App.jsx:122-127 | toggling the same id twice restores the full list |
| Tasks.FlipIdKeepsIds | src/App.jsx:122-127 | toggling keeps the set of ids and their distinctness |
| Tasks.ReplaceIdIdempotent | src/App.jsx:100-105 | committing the same working copy twice equals committing it once |
| Tasks.ReplaceIdKeepsIds | src/App.jsx:100-105 | committing an edit keeps the set of ids and their distinctness |
| Tasks.CompletedOnlyRemoveId | src/App.jsx:53 | the completed-only filter commutes with deleting an id |
| Consistency.InCompletedIds | src/App.jsx:53 | an id is a completed id iff some completed position of the list carries it |
| Consistency.SameCompletedIds | src/App.jsx:100-105 | lists that agree position by position on ids and flags have the same completed ids |
| Consistency.PrependIds | src/App.jsx:135 | prepending a task adds exactly its id to the ids |
| Consistency.FlipKeepsOtherCompletedIds | src/App.jsx:122-127 | toggling one id leaves every other id's completed status alone |
| Consistency.FlipNegatesCompletedId | src/App.jsx:122-127 | with distinct ids, toggling a present id negates whether it is a completed id |
| Consistency.CompletedIdsAfterFlip | src/App.jsx:122-127 | with distinct ids, toggling a present id removes it from the completed ids if it was there and adds it otherwise |
| Consistency.CompletedIdsWithin | src/App.jsx:53 | every completed id is an id of the full list |
| Consistency.AddKeepsConsistent | src/App.jsx:79 | prepending the new uncompleted task to the full list alone keeps the two lists consistent |
| Consistency.DeleteKeepsConsistent | src/App.jsx:115-118 | deleting an id from both lists keeps them consistent |
| Consistency.ToggleKeepsConsistent | src/App.jsx:122-136 | with distinct ids, flipping the task in the full list and removing it from, or prepending its flipped copy to, the completed list keeps them consistent |
| Consistency.CommitKeepsConsistent | src/App.jsx:100-108 | committing a working copy whose flag matches the tasks it replaces keeps the lists consistent |
| Consistency.AddKeepsDenseIds | src/App.jsx:74 | while ids are distinct and all lie in 1..length, the new id is fresh and both properties survive the add |
| Consistency.SeedIsCoherent | src/App.jsx:52-53 | a seed with distinct ids makes the lists coherent: consistent, distinct ids, only completed tasks in the completed list |
| Consistency.AddKeepsCoherent | src/App.jsx:74-79 | with ids in 1..length, adding keeps the lists coherent and the ids in 1..length |
| Consistency.DeleteKeepsCoherent | src/App.jsx:114-118 | deleting keeps the lists coherent and keeps a working copy's flag agreeing with the full list |
| Consistency.ToggleKeepsCoherent | src/App.jsx:121-136 | toggling a task shown in either list keeps the lists coherent, so the copy it prepends is completed |
| Consistency.OpenEditAgrees | src/App.jsx:95-98 | with coherent lists, opening the dialog on a task shown in either list gives a working copy whose flag matches every task of its id |
| Consistency.CommitKeepsCoherent | src/App.jsx:100-108 | with coherent lists and an agreeing working copy, the commit keeps the lists coherent |
| Consistency.AddAfterDeleteDuplicatesId | src/App.jsx:74 | from empty, add, add, delete id 1, add yields two tasks with id 2 |
| Consistency.CompletedOrderDiffers | src/App.jsx:122-135 | from [1, 2] with nothing completed, toggling 1 then 2 gives a consistent completed list [2, 1], not the in-order filter [1, 2] |
| TodoApp.App.constructor | src/App.jsx:42-47 | both lists empty, dialog closed, no working copy, full view, drawer closed |
| TodoApp.App.LoadSeed | src/App.jsx:51-54 | the full list becomes the data and the completed list its completed tasks, so the lists are consistent, and coherent when the data's ids are distinct and the dialog is closed |
| TodoApp.App.HandleAddTask | src/App.jsx:70-82 | the full list grows by one: head `{old length + 1, title, false}`, tail the old list; completed list untouched; consistency kept; distinct dense ids kept; coherence kept with the dialog closed and ids in 1..length |
| TodoApp.App.HandleDelete | src/App.jsx:114-119 | both lists lose every task with the id and nothing else; consistency, distinct ids and coherence kept |
| TodoApp.App.HandleCompleted | src/App.jsx:121-137 | flag flipped by id in the full list; completed list loses the id if present, else gains the flipped copy in front; consistency kept while ids are distinct and the task is in the full list; coherence kept for a task shown in either list with the dialog closed |
| TodoApp.App.ToggleEditDialogBox | src/App.jsx:84-86 | the dialog flag is negated and nothing else changes; closing keeps coherence |
| TodoApp.App.OnUpdateTask | src/App.jsx:88-93 | the working copy's title becomes the text; its id and flag stay, so coherence is kept |
| TodoApp.App.HandleEdit | src/App.jsx:95-112 | closed dialog: opens it on the task, lists unchanged; open dialog: writes the working copy over its id in both lists, closes the dialog, keeps the working copy; coherence is kept when the dialog is opened on a task shown in either list, and so the commit keeps the lists consistent; distinct ids kept |
| TodoApp.App.HandleDrawerToggle | src/App.jsx:58-60 | the drawer flag is negated |
| TodoApp.App.ToggleCompletedTask | src/App.jsx:62-68 | the view flag is negated, and the drawer flag too iff the width is at most 1300 |
| TodoApp.App.Shown | src/App.jsx:264 | the full view shows the full list and the completed view the completed list; with consistent lists the completed view shows exactly the completed ids, all of them ids of the full list |
| TodoApp.OpenAndType | src/App.jsx:88-98 | open the dialog on a task and type: the dialog is open on a copy of the task with the typed title, both lists, the view and the drawer unchanged |
| TodoApp.RenameThroughDialog | src/App.jsx:95-112 | open, type, confirm: every task with the id becomes the task with the new title, all other tasks, both lengths, the view and the drawer unchanged |
| TodoApp.CancelThroughDialog | src/App.jsx:284-285 | open, type, cancel: both lists, the view and the drawer unchanged and the dialog closed |
| TodoApp.ToggleViewTwice | src/App.jsx:258-259 | choosing a view twice restores the view and drawer flags and leaves the lists and the dialog alone |
| TodoApp.Walkthrough | src/App.jsx:51-137 | seed task 1, add "B", complete task 1, completed view, delete task 2: the view shows task 1 completed and it is the only task left |

## Left out

- The seed fetch (src/App.jsx:49-56) is network I/O; `LoadSeed` takes the decoded list, and a failed fetch, which is only logged, leaves the state as the constructor made it.
- The race between the seed fetch and early user actions is a scheduling concern; each handler is one atomic transition on the current state.
- React's deferred, batched functional updaters versus the values a handler reads from its closure are not modelled: every read sees the state before the handler.
- The in-place write `todo.completed = !todo.completed` (src/App.jsx:134) and its aliasing with the object held in the full list are not modelled; the prepended entry is a value copy with the flag negated.
- The window width and its comparison with the string `'1300'` become an integer parameter compared numerically, as JavaScript coerces it.
- Form plumbing (`preventDefault`, reading the input, `reset`, the `required` attribute) is left out; the title is a plain string.
- Rendering, theme, drawer and dialog presentation (src/App.jsx:139-290) are UI only, including the dialog's default text `allTasks.find(...).title` (src/App.jsx:278).
- TodoApp.App.ToggleEditDialogBox: requires a working copy when it would open the dialog, since it is reached only from the open dialog's Cancel button and close event; the code would otherwise render a dialog over `null`.
- TodoApp.App.OnUpdateTask: requires a working copy, since the title field exists only inside the open dialog; on `null` the code would build a record without an id.
- TodoApp.App.HandleCompleted: coherence is promised only with the dialog closed, since the modal dialog keeps the task buttons from being pressed while it is open.
- TodoApp.App.HandleAddTask: coherence is promised only with the dialog closed and ids in 1..length; after a delete the length-based id can repeat an existing id, and the code then no longer keeps ids distinct.
