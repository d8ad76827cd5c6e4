# Task manager: task-list mutations, list filter and dashboard statistics

A Dafny model of the logic of a client-side task tracker. The store is an
ordered list of tasks. Each task has an id, a title, a description, a status
(To Do, In Progress or Done), an optional due date and a creation time. The
page changes the list in three ways:

- the submit handler creates a task or updates the one being edited, and
  ignores a blank title;
- the quick status change sets one task's status;
- delete removes a task.

The page also shows a filtered view of the list (by status and by due date).
A dashboard panel computes per-status counts, an overdue count and a
completion percentage.

Every operation is a pure function from `seq<Task>` to `seq<Task>`, or to a
`Stats` record. JavaScript's `Array.prototype.filter` is modelled once, as
`Seqs.Filter`. Its contract, together with `Seqs.FilterMultiset`, says the
result is an order-preserving subsequence of the input that keeps each
passing element with its multiplicity and nothing else. Delete, the list filter and every dashboard count are built on
it, as they are in the source.

Files:

- `seqs.dfy`: `Filter`, the subsequence relation, and counting lemmas
  (concatenation, monotonicity, disjoint split, permutation).
- `js_string.dfy`: `String.prototype.trim` over the ECMAScript white-space
  and line-terminator code points, and the blank-title test.
- `task.dfy`: the `Task` record, the form fields and the store invariants
  (unique ids, non-blank titles).
- `task_manager.dfy`: quick status change, update, create, submit and
  delete, with their frame, round-trip and invariant lemmas.
- `task_filter.dfy`: the status and date filters of the list view.
- `dashboard_stats.dfy`: `getStats` and how it relates to the list view.

Abstractions:

- Dates are `Instant`s (integers, in milliseconds). A due date is
  `Option<Instant>`. `None` stands for the empty string, and also for any
  string that does not parse. JavaScript treats both the same way: the
  string is falsy or the date is `NaN`, so every comparison is false.
- "Today" compares `day(dueDate) == day(now)`. Here `day` is a function the
  caller passes in, standing in for `toDateString()`.
- The clock reading `now` is a parameter. So is the new task's id, which
  stands in for `Date.now().toString()`. Freshness of that id is a
  hypothesis of the uniqueness lemmas; `Create` does not require it.
- The task being edited is given by its id, because the submit handler
  reads only `editingTask.id`.

## Model

| member | source | states |
|---|---|---|
| Seqs.Filter | app/page.tsx:106 | The result of `filter` is an order-preserving subsequence of the input. It holds exactly the input elements that pass the predicate. |
| Seqs.FilterMultiset | app/page.tsx:106 | `filter` keeps each passing element as often as it occurs in the input, and no failing element. |
| JsString.Trim | app/page.tsx:70 | `trim()` returns a contiguous slice of the title. All characters outside the slice are white space, and the slice neither starts nor ends with white space. |
| JsString.StripBothEnds | app/page.tsx:70 | Removing leading and then trailing white space leaves a slice of the title with only white space around it and none at either end. |
| JsString.BlankIffAllWhiteSpace | app/page.tsx:70 | The guard `!title.trim()` rejects a title exactly when every character is white space. This includes the empty title. |
| TaskModel.FormOf | app/page.tsx:94-103 | The edit button loads the task's title, description, status and due date into the form. Writing them back onto the task gives the task unchanged. |
| TaskManager.SetStatus | app/page.tsx:60-66 | Quick status change keeps the length and order. A matching task takes the new status and no other field changes. Every other task is unchanged. |
| TaskManager.SetStatusAbsent | app/page.tsx:60-66 | A status change for an id that is not in the list leaves it unchanged. |
| TaskManager.SetStatusLastWins | app/page.tsx:60-66 | Of two status changes to the same id, the later one decides, so repeating a change is idempotent. |
| TaskManager.SetStatusKeepsInvariant | app/page.tsx:62-63 | A status change keeps the set of ids, keeps them unique and keeps every title non-blank. |
| TaskManager.Update | app/page.tsx:74-78 | Update keeps the length and order. Every task keeps its id and creation time. A matching task takes all four form fields and every other task is unchanged. |
| TaskManager.UpdateAbsent | app/page.tsx:74-78 | Editing an id that is not in the list leaves it unchanged. |
| TaskManager.EditUnchangedRoundTrip | app/page.tsx:68-103 | If ids are unique, loading a task into the edit form and submitting it unchanged gives back the same list. |
| TaskManager.Create | app/page.tsx:82-87 | Create appends one task after the unchanged existing tasks. The new task carries the supplied id and creation time and exactly the form's four fields. |
| TaskManager.Submit | app/page.tsx:68-92 | A blank title leaves the list unchanged, whether creating or editing. With a non-blank title, editing keeps the length: every task carrying the edited id takes the four form fields and every other task is unchanged. Creating appends one task after the unchanged list, carrying the supplied id, the clock reading and the form's fields. Existing tasks always keep their position, id and creation time. |
| TaskManager.Delete | app/page.tsx:105-107 | Delete gives a subsequence of the list with no task carrying the id. Every task not carrying it is still present, in the original order. An absent id is a no-op. |
| TaskManager.DeleteKeepsMultiplicity | app/page.tsx:105-107 | Every task not carrying the deleted id occurs as often after the delete as before it. |
| TaskManager.DeleteUndoesCreate | app/page.tsx:82-107 | Deleting a task just created with a fresh id restores the previous list. |
| TaskManager.DeleteIdempotent | app/page.tsx:105-107 | Deleting the same id twice is the same as deleting it once. |
| TaskManager.DeleteRemovesOne | app/page.tsx:105-107 | If ids are unique, deleting a present id removes exactly one task. |
| TaskManager.DeleteKeepsUniqueIds | app/page.tsx:105-107 | Delete never introduces a duplicate id. |
| TaskManager.DeleteKeepsTitles | app/page.tsx:105-107 | Delete never introduces a blank title. |
| TaskManager.DeleteIds | app/page.tsx:105-107 | The ids present after a delete are exactly the old ones other than the deleted id. |
| TaskManager.SubsequenceUniqueIds | app/page.tsx:106 | Removing tasks while keeping the order of the rest preserves the uniqueness of ids. |
| TaskManager.CreateKeepsInvariant | app/page.tsx:82-87 | Appending a task with a fresh id and a non-blank title keeps ids unique and titles non-blank. |
| TaskManager.UpdateKeepsInvariant | app/page.tsx:74-78 | Overwriting the edited task with a non-blank title keeps ids unique and titles non-blank. |
| TaskManager.SubmitKeepsInvariant | app/page.tsx:68-92 | A submission keeps ids unique and keeps every title non-blank. Only a create with a non-blank title needs the supplied id to be fresh. |
| TaskManager.RunKeepsInvariant | app/page.tsx:60-107 | Any sequence of submissions, status changes and deletes keeps ids unique and titles non-blank, provided every submission that actually creates a task (no task being edited, non-blank title) uses an id not yet in the list. |
| TaskFilter.FilteredTasks | app/page.tsx:115-139 | The view is an order-preserving subsequence of the store. It holds exactly the tasks that pass both filters. With a specific status, every shown task has it. A date filter other than all shows only dated tasks, due before now (overdue), on today's day (today) or after now (upcoming). |
| TaskFilter.FilteredTasksMultiplicity | app/page.tsx:115-139 | Every task that passes both filters appears in the view as often as in the store. |
| TaskFilter.ShowAll | app/page.tsx:115-139 | With status all and date all, the view is the whole store in order. |
| TaskFilter.NoDueDateHiddenByDateFilters | app/page.tsx:122-133 | Tasks without a due date never pass the overdue, today or upcoming filters. |
| TaskFilter.OverdueIgnoresStatus | app/page.tsx:127-128 | The overdue view does not depend on status: no quick status change alters how many tasks it shows. |
| DashboardStats.CompletionRate | components/dashboard-stats.tsx:37-38 | The rate is 0 for an empty list. Otherwise it is the integer within half a unit of 100·done/total, with halves rounded up, and it is at most 100. |
| DashboardStats.RoundHalfUpBounds | components/dashboard-stats.tsx:37-38 | `(200·done + total) div (2·total)` is `Math.round(done/total·100)` in exact arithmetic. |
| DashboardStats.GetStats | components/dashboard-stats.tsx:24-48 | The total is the list length, and the three status counts sum to it. The overdue count is at most To Do plus In Progress. The rate is the rounded percentage of Done tasks, `CompletionRate(done, total)`, and lies in 0..100. An empty list gives all zeros. |
| DashboardStats.StatsAppend | components/dashboard-stats.tsx:25-36 | Appending a task adds one to the total and one to the count of its own status only. It adds one to the overdue count exactly when the task has a due date before now and is not Done. With the empty-list case of `GetStats`, this fixes every count for every list. |
| DashboardStats.StatusCountsPartition | components/dashboard-stats.tsx:25-30 | Every task has exactly one status. The To Do, In Progress and Done counts add up to the total, and the tasks not Done are the To Do and In Progress ones. |
| DashboardStats.StatsPermutationInvariant | components/dashboard-stats.tsx:25-36 | All statistics are unchanged by any reordering of the list. |
| DashboardStats.OverdueSkipsUndatedAndDone | components/dashboard-stats.tsx:31-36 | Adding a task without a due date, or a Done task, never changes the overdue count. |
| DashboardStats.OverdueCountVersusFilter | components/dashboard-stats.tsx:31-36 | The number of tasks in the list's overdue view equals the panel's overdue count plus the number of Done tasks past their due date. So the panel's count is at most the view's length. |
| DashboardStats.TwoOfThreeDone | components/dashboard-stats.tsx:37-38 | Two Done tasks and one To Do task give a completion rate of 67. |
| DashboardStats.DoneTaskPastDue | components/dashboard-stats.tsx:31-36 | A Done task due before now is not counted as overdue by the panel, but is shown by the list's overdue view. |

## Left out

- Loading and saving the list through browser storage (app/page.tsx:40-49) is browser I/O plus JSON serialisation and is not modelled. `JSON.parse` at app/page.tsx:43 has no guard, so a malformed stored value throws.
- Parsing of date strings, time zones and `toDateString` are not modelled. They become opaque instants and the caller-supplied `day` function.
- The source calls `new Date()` afresh for each task it compares. The model uses one `now` per computation.
- Id generation with `Date.now().toString()` is not modelled. It does not guarantee uniqueness (two creations in the same millisecond collide), so the caller supplies the id, and freshness is a hypothesis where uniqueness is proved.
- DashboardStats.CompletionRate: computed in exact integer arithmetic, so it does not model floating-point rounding of `done / total * 100` before `Math.round`. This matters only where the floating-point product lands on the other side of a .5 boundary.
- React state handling is not modelled: `isAddingTask`, clearing `editingTask` after an update, `resetForm` and `handleCancel` (app/page.tsx:51-58, 79, 90-91, 109-113). These only reset form fields and visibility flags, not the task list.
- The form, filter-control, list and card components are presentation only. The card's `isOverdue`/`isToday` helpers (components/task-card.tsx:69-76) repeat the list filter's overdue and today tests.
