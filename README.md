# Task manager: a verified model of app.js

app.js is a browser task list. A `TaskManager` keeps an insertion-ordered
list of `Task` records: a timestamp id, title, description, priority Low,
Medium or High, category, and a completed flag. Three operations change the
list: `addTask` appends, `deleteTask` filters out an id and
`toggleTaskCompletion` flips the flag of the first task with an id. After
each change the page is redrawn by `renderTasks`. That method copies the
list, keeps the tasks whose lower-cased title or description contains the
lower-cased search text, keeps those of the selected category, and sorts
the result by priority ascending or descending with
`Array.prototype.sort`. The sort is stable: section 23.1.3.30 of
ECMA-262 (2023 edition) requires that. `updateCategoryFilter` lists the
distinct categories in order of first appearance. The submit handler
refuses an empty title or description and otherwise adds a new task. A
notification appears for High-priority tasks.

This project models these parts in four modules:

- `Seqs` (seqs.dfy) holds the sequence idioms the code relies on:
  `Array.prototype.filter` and the de-duplication `[...new Set(xs)]`,
  together with the facts about them that the proofs use.
- `Tasks` (tasks.dfy) holds the `Task` record, the `priorityValue` scale,
  the High-priority notification gate and the submit validation.
- `View` (view.dfy) holds the data part of `renderTasks`:
  - the search filter and the category filter;
  - the comparator;
  - a reference stable sort defined by priority groups;
  - an in-place insertion sort on an array, proved equal to that reference
    sort;
  - the whole display projection;
  - the category list.
- `Store` (store.dfy) holds the list operations as functions of the old
  list, the `TaskManager` class that updates its `tasks` field through
  methods, and the submit handler.

Stability is stated as follows: for every priority, the tasks of that
priority appear in the output in the same order as in the input
(`SameOrderWithinPriority`). Any sorted sequence with that property equals
the reference sort (`StableSortUnique`). Any sequence with that property is
a permutation of the input (`SameOrderIsPermutation`).

Two details of the code shape the model:

- Ids come from `Date.now()` (app.js:4), so two tasks created in the same
  millisecond share an id. The model does not assume ids are unique.
  `deleteTask` removes every task with the id, because it uses `filter`
  (app.js:26). `toggleTaskCompletion` flips only the first, because it uses
  `find` (app.js:32).
- `toggleTaskCompletion` does not call `updateCategoryFilter`
  (app.js:31-37). `Store.ToggleKeepsCategories` shows that it does not need
  to.

## Model

| member | source | states |
|---|---|---|
| Seqs.Filter | app.js:26 | `Array.prototype.filter` returns no more elements than its input, and every element it keeps satisfies the predicate |
| Seqs.FilterIsSubsequence | app.js:59-62 | the elements a filter keeps appear in their original relative order |
| Seqs.FilterMembers | app.js:59-62 | an element is in the filter's result exactly when it is in the input and satisfies the predicate |
| Seqs.FilterMultiset | app.js:67 | the filter keeps every satisfying element as many times as it occurs in the input, and drops all others |
| Seqs.FilterIdempotent | app.js:26 | filtering twice with the same predicate is the same as filtering once |
| Seqs.IndexOf | app.js:41 | the position of the first occurrence: it holds the element and no earlier position does |
| Seqs.Distinct | app.js:41 | `[...new Set(xs)]` has no duplicates and the same members as `xs`, in order of first occurrence in `xs` |
| Tasks.NewTask | app.js:3-10 | a new task copies its arguments, takes the supplied id, and starts out not completed |
| Tasks.PriorityValue | app.js:111-113 | `priorityValue` maps every priority into 1..3 |
| Tasks.PriorityValueOrder | app.js:111-113 | `priorityValue` orders Low < Medium < High, and distinct priorities get distinct values |
| Tasks.Notification | app.js:94-95 | a notification is shown exactly when the priority is High, and it carries the given message |
| Tasks.AddedNotice | app.js:22 | adding a task notifies with "New High Priority Task: " plus its title, and only for a High task |
| Tasks.ValidateSubmission | app.js:124-127 | the alert "Title and description are required!" is raised exactly when the title or the description is empty |
| View.Lower | app.js:53 | `toLowerCase` keeps the length, maps each character on its own, and leaves no upper-case ASCII letter |
| View.LowerIdempotent | app.js:53 | lower-casing twice is the same as lower-casing once |
| View.SearchFilter | app.js:58-63 | with an empty query the input is returned unchanged. Otherwise the result keeps, in their order, exactly the tasks whose lower-cased title or description contains the lower-cased query, each as often as in the input |
| View.SearchIgnoresQueryCase | app.js:53-61 | the search gives the same result for a query and its lower-cased form |
| View.BuyMilkMatchesMilk | app.js:59-61 | a task titled "Buy Milk" is found by the query "milk" |
| View.CategoryFilter | app.js:66-68 | with an empty selection the input is returned unchanged. Otherwise the result keeps, in their order, exactly the tasks of the selected category, each as often as in the input |
| View.FiltersCompose | app.js:58-68 | the search step followed by the category step keeps exactly what a single filter by "passes both" keeps, in the same order |
| View.Rank | app.js:72-74 | the position of a priority in the requested direction is one of 0, 1, 2 |
| View.PriorityAtRank | app.js:72-74 | the priority at each position of the requested direction has that position |
| View.RankInverse | app.js:72-74 | converting a priority to its position and back gives the same priority |
| View.Comparator | app.js:72-74 | both comparators are the difference of the priorities' positions in the requested direction |
| View.OfPriority | app.js:70-75 | the group of one priority contains only tasks of that priority |
| View.OfPriorityTwice | app.js:70-75 | the group of one priority, narrowed to a different priority, is empty; narrowed to the same priority, it is unchanged |
| View.SameOrderIsPermutation | app.js:70-75 | an output that keeps every priority group of the input in order is a permutation of the input |
| View.StablePrioritySortSorted | app.js:71-74 | the reference sort is ordered by the comparator |
| View.StablePrioritySortStable | app.js:71-74 | the reference sort keeps every priority group in its original order and is a permutation of its input |
| View.StablePrioritySortGroup | app.js:71-74 | each priority group of the reference sort equals that group of the input |
| View.OfPriorityRankedAfter | app.js:71-74 | when every task is placed after some position, the group at that position is empty |
| View.SortedIsGrouped | app.js:71-74 | a sequence sorted by the comparator is the concatenation of its priority groups in order |
| View.StableSortUnique | app.js:71-74 | a sorted sequence that keeps the order within every priority group of its input is the reference sort of that input, so a stable sort has only one possible result |
| View.SortByOption | app.js:70-75 | "asc" gives non-decreasing and "desc" non-increasing `priorityValue`. Any other option leaves the order unchanged. The result is always a permutation, and stable |
| View.SortAscExample | app.js:71-72 | High, Low, Medium sorted "asc" gives Low, Medium, High |
| View.SortDescExample | app.js:73-74 | High, Low, Medium sorted "desc" gives High, Medium, Low |
| View.SwapKeepsOrderWithinPriority | app.js:72 | exchanging two neighbours of different priority keeps every priority group in order |
| View.MoveLeft | app.js:72 | one exchange of the insertion sort keeps the sortedness around the element being inserted, and keeps every priority group in order |
| View.HoleClosed | app.js:72 | an insertion step stops with the prefix sorted |
| View.InsertInPlace | app.js:72 | one insertion step extends the sorted prefix by one element and keeps every priority group in order |
| View.SortInPlace | app.js:72-74 | the in-place sort of the array leaves it ordered by the comparator, with every priority group in its original order |
| View.SortedCopy | app.js:72-74 | sorting a copy in place gives exactly the reference stable sort |
| View.Projection | app.js:52-75 | the displayed tasks are exactly the stored tasks that pass both filters, each as often as stored. They are sorted for "asc" and "desc". Every priority group keeps the store's order, and with any other option the whole list does |
| View.CategoryColumn | app.js:41 | `tasks.map(task => task.category)`, position by position |
| View.CategoryColumnMembers | app.js:41 | a string is in the category column exactly when some task has it as its category |
| View.Categories | app.js:41 | the listed categories have no duplicates, contain the category of every task and nothing else, and are ordered by first occurrence |
| View.DistinctExample | app.js:41 | values met as x, y, x are listed as x, y |
| View.CategoriesExample | app.js:41 | categories Work, Home, Work are listed as Work, Home |
| View.ButtonLabel | app.js:87 | the button reads "Undo" exactly on a completed task and "Complete" exactly on an open one |
| Store.FindFirst | app.js:32 | `find` by id returns the first position with the id, and finds nothing exactly when no task has it |
| Store.FindFirstByIds | app.js:32 | the position `find` returns depends only on the ids |
| Store.WithoutId | app.js:26 | deleting keeps, in their order, exactly the tasks whose id differs, each as often as before |
| Store.WithoutAbsentId | app.js:26 | deleting an id no task has leaves the list unchanged |
| Store.WithoutIdIdempotent | app.js:26 | deleting the same id twice is the same as deleting it once |
| Store.DeleteUndoesAdd | app.js:19-26 | adding a task with a new id and then deleting that id restores the list |
| Store.Toggled | app.js:31-37 | a toggle keeps the length and every field except `completed`. It flips `completed` exactly at the first task with the id |
| Store.ToggleAbsentId | app.js:32-33 | toggling an id no task has changes nothing |
| Store.ToggleTwice | app.js:31-37 | two toggles of the same id restore the original list |
| Store.ToggleKeepsCategories | app.js:34-35 | a toggle does not change the category list |
| Store.CategoriesAfterAdd | app.js:19-20 | after adding a task, its category is appended to the category list if no task had it before; otherwise the list is unchanged |
| Store.TaskManager.constructor | app.js:14-16 | a new manager holds no tasks |
| Store.TaskManager.AddTask | app.js:18-22 | `tasks` becomes the old list plus the new task at the end, and the High-priority notice is returned |
| Store.TaskManager.DeleteTask | app.js:25-26 | `tasks` becomes the old list without the tasks carrying the id |
| Store.TaskManager.ToggleTaskCompletion | app.js:31-37 | `tasks` becomes the old list with the first task carrying the id toggled |
| Store.TaskManager.UpdateCategoryFilter | app.js:39-41 | the options of the category selector are the category list of the stored tasks |
| Store.TaskManager.RenderTasks | app.js:51-75 | the rendered tasks are the display projection of the stored tasks, built step by step on a copy without changing the store |
| Store.Submit | app.js:117-130 | an empty title or description raises the alert and leaves the store unchanged. Otherwise exactly one new, open task is appended and the High-priority notice is returned |

## Left out

- Markup and DOM access are left out:
  - the page elements, `innerHTML` and `createElement`;
  - the styling of the notification;
  - `alert`;
  - the form `reset`;
  - the theme toggle.

  The values `renderTasks` reads from the page are parameters (search text, selected category, sort option). The alert and the notification are returned as values.
- The 3-second `setTimeout` that removes the notification is left out, because it is a timer.
- `Date.now()` is not modelled. The id is a parameter of `Submit` and `NewTask`, and ids are not assumed unique.
- The event-listener wiring, the global `taskManager` instance and `applyFilters` are plumbing. `Submit` takes the manager as a parameter. After a change, a caller re-renders by calling `RenderTasks` and `UpdateCategoryFilter` on the new state; the change methods do not make these calls themselves.
- Rebuilding the selector's options in `updateCategoryFilter` resets the browser's selected category to "All Categories". That is DOM behaviour and is not modelled: the render after a change takes whatever selection is passed.
- A task whose category is the empty string gets an option whose value is also empty. Selecting it therefore acts as "All Categories". The model reproduces this through the empty-selection case of `CategoryFilter`, without modelling the selector itself.
- Tasks are values. `toggleTaskCompletion` mutates the shared task object; the model replaces the list element instead. This loses nothing observable. Each submit builds a new task object (app.js:129), so every object sits at only one position of the list. `renderTasks` shares the objects through its shallow copy (app.js:52), but keeps no reference after it returns: the markup only copies field values and the id into strings (app.js:83-89).
- View.Lower: lower-cases ASCII letters only. Unicode case mapping in `toLowerCase` is not modelled.
- Priorities other than Low, Medium and High are left out: `priorityValue` returns `undefined` for them, and the comparator then returns `NaN`. The priority is a three-valued datatype.
- View.SortInPlace: the engine's sort algorithm is replaced by an insertion sort. Any stable sort with this comparator gives the same result (`StableSortUnique`).
