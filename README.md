# Task screen state manager, modelled in Dafny

This project models the state manager of `TasksScreen` in `app/tasks.tsx`, the
task screen of a terminal-styled to-do app. The screen keeps a list of tasks,
a list of categories (called "projects" in the UI) that starts as
`["Uncategorized"]`, and the selected category. Each user handler rebuilds one
of the lists with `map`, `filter` or a spread, replaces the state with the
result, and writes the whole list to storage.

Layout:

- `text.dfy` (module `Text`): JavaScript's `trim`, which every guard of the
  screen uses.
- `tasks.dfy` (module `TaskList`): the `Task` record and the task-list
  transforms of `addTask`, `toggleTask`, `updateTask`, `deleteTask`, the
  priority setter, the category filter and the task half of renaming and
  deleting a category. It also holds a generic `Filter` for `Array.prototype.filter`.
- `categories.dfy` (module `Categories`): the category-list transforms of
  `addCategory`, `updateCategory` and `handleConfirmDeleteCategory`.
- `progress.dfy` (module `Progress`): `getCompletionPercentage` and the
  progress bar's filled-block count.
- `consistency.dfy` (module `Consistency`): the invariant that ties the two
  lists together, and lemmas showing that each handler preserves it.
  The invariant says that "Uncategorized" and the selected category are listed,
  no category is listed twice, and every task's category is listed.
- `screen.dfy` (module `Screen`): class `TasksScreen`. Its fields are the
  component's state and the last list written under each storage key. Its
  methods are the handlers. Each one calls the pure transforms and keeps
  `Valid()`: the invariant, usable category names, no pending edit or
  deletion of "Uncategorized", and storage in step with memory.

Ids and creation timestamps come from `Date.now()` and `new Date()` in the
app. Here they are parameters of `AddTask`.

Some facts about the code that the model keeps:

- Editing a task accepts empty or blank text. The edit dialog refuses a blank
  name only for projects (`app/tasks.tsx:132-140`).
- Deleting a category moves its tasks to "Uncategorized"
  (`app/tasks.tsx:1685-1689`).
- Categories are plain strings.
- Tasks stay in insertion order.

## Model

| member | source | states |
|---|---|---|
| `Text.Trim` | app/tasks.tsx:1484 | `s.trim()` is `""` exactly when `s` is all whitespace; otherwise it starts and ends with non-whitespace |
| `Text.TrimDecomposes` | app/tasks.tsx:1484 | the input is a blank prefix, then `s.trim()`, then a blank suffix; with `Text.Trim`'s non-whitespace ends this fixes `trim` exactly |
| `Text.TrimStartDrops` | app/tasks.tsx:1484 | the leading part `trim` removes is all whitespace, and the rest is a suffix of the input |
| `Text.TrimEndDrops` | app/tasks.tsx:1484 | the trailing part `trim` removes is all whitespace, and the rest is a prefix of the input |
| `Text.TrimOfTrimmed` | app/tasks.tsx:1652 | a name that neither starts nor ends with whitespace is its own trim |
| `Text.TrimIdempotent` | app/tasks.tsx:1503 | trimming an already trimmed name changes nothing |
| `TaskList.Filter` | app/tasks.tsx:1524-1530 | `Array.prototype.filter` never returns more elements than it was given; membership, copies and order are stated by `TaskList.FilterMembers`, `TaskList.FilterCount` and `TaskList.FilterSubsequence` |
| `TaskList.FilterMembers` | app/tasks.tsx:1646 | `filter` keeps an element exactly when it is in the list and passes the test |
| `TaskList.FilterCount` | app/tasks.tsx:1646 | `filter` keeps every copy of an element that passes and no copy of one that fails |
| `TaskList.FilterSubsequence` | app/tasks.tsx:1646 | `filter` keeps the relative order of what it keeps |
| `TaskList.FilterConcat` | app/tasks.tsx:1646 | filtering a concatenation is the concatenation of the filtered parts |
| `TaskList.FilterKeepsAll` | app/tasks.tsx:1646 | a filter that every element passes returns the list unchanged |
| `TaskList.AddTask` | app/tasks.tsx:1483-1500 | blank input leaves the list unchanged; otherwise exactly one task is appended after the unchanged old tasks, with the given id and timestamp, the untrimmed text, `completed = false`, the given category and no priority |
| `TaskList.ToggleTask` | app/tasks.tsx:1514-1521 | same length; `completed` flips exactly on the tasks with that id; every other field of every task is unchanged |
| `TaskList.UpdateTask` | app/tasks.tsx:1637-1643 | same length; the text of the tasks with that id becomes the new text, even a blank one; nothing else changes |
| `TaskList.SetPriority` | app/tasks.tsx:1988-1994 | same length; the priority of the tasks with that id is set or cleared; nothing else changes |
| `TaskList.DeleteTask` | app/tasks.tsx:1645-1649 | the result holds exactly the tasks whose id differs, each with all its copies, in their original relative order |
| `TaskList.InCategory` | app/tasks.tsx:1842-1844 | the shown tasks are exactly those of the category, each with all its copies, in list order |
| `TaskList.MoveTasks` | app/tasks.tsx:1662-1664 | same length; tasks in `from` get category `to`; every other task and every other field is unchanged |
| `TaskList.ToggleTwice` | app/tasks.tsx:1514-1521 | toggling the same id twice restores the list |
| `TaskList.UpdateTaskLastWins` | app/tasks.tsx:1637-1643 | of two text edits of the same id, the later one wins |
| `TaskList.SetPriorityLastWins` | app/tasks.tsx:1988-1994 | of two priority choices for the same id, the later one wins |
| `TaskList.DeleteTaskCount` | app/tasks.tsx:1645-1649 | the kept tasks plus the tasks with the id make up the whole list, so no other task is dropped |
| `TaskList.DeleteAddedTask` | app/tasks.tsx:1483-1500 | deleting a task that was just added under a fresh id restores the list |
| `TaskList.MoveTasksCounts` | app/tasks.tsx:1685-1689 | after the move no task is left in `from`, and `to` holds the tasks of both categories |
| `TaskList.MoveTasksBack` | app/tasks.tsx:1662-1664 | moving tasks back out of a category that held none undoes the move |
| `Categories.AddCategory` | app/tasks.tsx:1502-1512 | a blank or already listed name changes nothing; otherwise the trimmed name is appended; the list stays free of duplicates |
| `Categories.RenameCategory` | app/tasks.tsx:1658-1660 | same length; `from` is replaced in place by the new name; a fresh name keeps the list free of duplicates |
| `Categories.RenameCategoryMembers` | app/tasks.tsx:1658-1660 | after a rename the listed names are the old ones except `from`, plus the new name if `from` was listed |
| `Categories.RemoveCategory` | app/tasks.tsx:1684 | the result lists every other category with all its copies, in order, and never the removed one |
| `Categories.SubsequenceMembers` | app/tasks.tsx:1684 | everything a filtered list holds was in the original list |
| `Categories.SubsequenceNoDuplicates` | app/tasks.tsx:1684 | filtering a list that has no duplicates leaves no duplicates |
| `Categories.RemoveCategoryLength` | app/tasks.tsx:1684 | removing a listed category shortens a list without duplicates by exactly one |
| `Categories.AddThenRemoveCategory` | app/tasks.tsx:1502-1512 | deleting a category that was just added restores the list |
| `Categories.RenameBack` | app/tasks.tsx:1658-1660 | renaming to a fresh name and back restores the list |
| `Categories.InitialNames` | app/tasks.tsx:1389 | the initial list holds only trimmed, non-empty names |
| `Categories.IsNewName` | app/tasks.tsx:1652-1653 | the add and rename guard passes exactly when the input is not all whitespace and its trimmed form is not listed |
| `Categories.NewNameIsName` | app/tasks.tsx:1503 | a name that passes the add or rename guard is non-empty and trimmed |
| `Categories.AddCategoryNames` | app/tasks.tsx:1502-1512 | adding keeps every listed name trimmed and non-empty |
| `Categories.RenameCategoryNames` | app/tasks.tsx:1651-1660 | renaming keeps every listed name trimmed and non-empty |
| `Progress.Percent` | app/tasks.tsx:1527-1531 | 100 when there are no tasks; otherwise the integer nearest to 100·done/total, with halves rounded up; always within 0..100 |
| `Progress.PercentBound` | app/tasks.tsx:1531 | the rounded percentage never exceeds 100 |
| `Progress.Completed` | app/tasks.tsx:1528-1530 | the completed part holds exactly the completed tasks, each with all its copies, in list order |
| `Progress.CompletionPercentage` | app/tasks.tsx:1523-1532 | within 0..100; 100 when the category has no tasks; otherwise the integer nearest to 100 times the category's completed count over its task count, halves rounded up |
| `Progress.CompletionExtremes` | app/tasks.tsx:1523-1532 | a category whose tasks are all done shows 100%; a non-empty one with none done shows 0% |
| `Progress.AllOrNone` | app/tasks.tsx:1528-1530 | when every task is done the completed part is the whole list; when none is, it is empty |
| `Progress.PercentAll` | app/tasks.tsx:1531 | all tasks done rounds to exactly 100 |
| `Progress.PercentNone` | app/tasks.tsx:1531 | no task done out of a non-empty list rounds to 0 |
| `Progress.PercentMonotone` | app/tasks.tsx:1531 | completing more tasks never lowers the percentage |
| `Progress.PercentExamples` | app/tasks.tsx:1531-1537 | 1 of 3 gives 33%, 2 of 3 gives 67%, an empty category gives 100%; 33%, 67% and 100% fill 3, 7 and 10 blocks |
| `Progress.FilledBlocks` | app/tasks.tsx:1534-1537 | the nearest whole number of the ten blocks, halves rounded up; within 0..10; all ten exactly from 95%, none exactly below 5% |
| `Consistency.InitialConsistent` | app/tasks.tsx:1386-1390 | the initial empty task list, `["Uncategorized"]` and selection "Uncategorized" satisfy the invariant |
| `Consistency.AddTaskKeeps` | app/tasks.tsx:1483-1500 | adding a task to the selected category keeps the invariant |
| `Consistency.TaskEditsKeep` | app/tasks.tsx:1514-1521 | toggling, editing text, setting priority and deleting tasks keep the invariant |
| `Consistency.AddCategoryKeeps` | app/tasks.tsx:1502-1512 | adding a category and selecting it keeps the invariant |
| `Consistency.RenameKeeps` | app/tasks.tsx:1651-1675 | renaming a category other than "Uncategorized" to a fresh name, with its tasks and the selection following, keeps the invariant |
| `Consistency.RemoveKeeps` | app/tasks.tsx:1683-1701 | deleting a category other than "Uncategorized", with its tasks moved to "Uncategorized" and the selection reset, keeps the invariant |
| `Consistency.RenamingUncategorizedBreaks` | app/tasks.tsx:1743 | renaming "Uncategorized" to any other name removes it from the list and breaks the invariant for every task list and selection, which is why the screen offers no Edit button for it |
| `Consistency.RenameRoundTrip` | app/tasks.tsx:1651-1675 | renaming a category to a fresh name and then back restores the tasks, the categories and the selection |
| `Screen.TasksScreen.constructor` | app/tasks.tsx:1386-1400 | empty tasks, `["Uncategorized"]`, "Uncategorized" selected, empty inputs, no dialog open, nothing stored; the invariant holds |
| `Screen.TasksScreen.SetNewTask` | app/tasks.tsx:1926-1928 | the task input holds the typed text |
| `Screen.TasksScreen.SetNewCategory` | app/tasks.tsx:1786-1788 | the project input holds the typed text |
| `Screen.TasksScreen.AddTask` | app/tasks.tsx:1483-1500 | the task list becomes `TaskList.AddTask` of the old one; on success it is stored and the input cleared, and on blank input nothing changes |
| `Screen.TasksScreen.AddCategory` | app/tasks.tsx:1502-1512 | the category list becomes `Categories.AddCategory` of the old one; on success it is stored, the new name selected and the input cleared, and otherwise nothing changes |
| `Screen.TasksScreen.SelectCategory` | app/tasks.tsx:1728-1731 | a listed category becomes the selection |
| `Screen.TasksScreen.ToggleTask` | app/tasks.tsx:1514-1521 | tasks become `TaskList.ToggleTask` of the old list and are stored; the invariant holds |
| `Screen.TasksScreen.UpdateTask` | app/tasks.tsx:1637-1643 | tasks become `TaskList.UpdateTask` of the old list and are stored; the invariant holds |
| `Screen.TasksScreen.SetPriority` | app/tasks.tsx:1988-1994 | tasks become `TaskList.SetPriority` of the old list and are stored; the invariant holds |
| `Screen.TasksScreen.DeleteTask` | app/tasks.tsx:1645-1649 | tasks become `TaskList.DeleteTask` of the old list and are stored; the invariant holds |
| `Screen.TasksScreen.EditCategory` | app/tasks.tsx:1743-1750 | a listed project other than "Uncategorized" becomes the one being edited |
| `Screen.TasksScreen.UpdateCategory` | app/tasks.tsx:1651-1675 | a blank or listed name changes no list; a fresh one renames in place, moves the tasks, makes the selection follow and stores both lists; the edited project is cleared either way |
| `Screen.TasksScreen.SaveCategoryEdit` | app/tasks.tsx:2018-2025 | a blank name changes nothing and leaves the dialog open; otherwise the dialog closes, and the project being edited is renamed exactly when the name is fresh, with both lists stored |
| `Screen.TasksScreen.DeleteCategory` | app/tasks.tsx:1677-1681 | "Uncategorized" is never scheduled for deletion; any other category is, and the confirmation shows |
| `Screen.TasksScreen.CancelDeleteCategory` | app/tasks.tsx:2048-2063 | the confirmation closes and nothing is scheduled |
| `Screen.TasksScreen.ConfirmDeleteCategory` | app/tasks.tsx:1683-1701 | the category is removed; its tasks move to "Uncategorized" with the task count unchanged; the selection resets if it was the deleted one; both lists are stored; the invariant holds |

## Left out

- Loading the lists, theme and premium flag from storage at start-up (`app/tasks.tsx:1411-1452`). The loaded lists are not checked. They can break the invariant, for example a stored category list without "Uncategorized", and the model assumes they do not.
- Storage failures (`app/tasks.tsx:1455-1472`): they are caught and only logged, so the model treats every write as succeeding.
- Progress.Percent: uses exact rational arithmetic. The app computes `Math.round(c / t * 100)` in doubles, which can round an exact half down. For 23 of 40 the double product is just below 57.5, which gives 57 where the exact value rounds to 58.
- The percentage in the stats line (`app/tasks.tsx:1591-1596`) is not modelled. It uses floating point with `|| 0` and `toFixed`, and shows 0% for an empty category where the progress bar shows 100%.
- The `Date.now()` ids and `new Date()` timestamps are parameters. Nothing makes ids unique, so every per-id transform acts on all tasks with that id.
- The visibility flags of forms and dialogs are not modelled: `isAddingTask`, `isAddingCategory`, `isCategoryModalVisible`, `editingTask`, the dialog's error text. Neither are theme and premium state, `handleUpgrade`, analytics calls and all rendering.
- React's batching of state updates and stale closures: handlers are modelled as running one at a time on the current state.
- Strings are sequences of Unicode characters. JavaScript strings are UTF-16 code units, so a lone surrogate cannot be represented. This does not affect `trim` or equality on ordinary text.
