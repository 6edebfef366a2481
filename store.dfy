/** The `TaskManager` of app.js: the task list it owns, the three operations
    that change it (`addTask`, `deleteTask`, `toggleTaskCompletion`), the
    data part of `renderTasks` and `updateCategoryFilter`, and the submit
    handler that validates a new task before adding it. */
module Store {
  import opened Seqs
  import opened Tasks
  import View

  // ---------------------------------------------------------------------
  // The list operations, as functions of the old list
  // ---------------------------------------------------------------------

  /** `tasks.find(task => task.id === id)`, as the position of the task it
      finds: the first task carrying `id`, or `None` when there is none. */
  function FindFirst(ts: seq<Task>, id: int): (r: Option<nat>)
    ensures r.Some? ==> r.value < |ts| && FirstWithId(ts, id, r.value)
    ensures r.None? <==> forall i :: 0 <= i < |ts| ==> ts[i].id != id
  {
    if ts == [] then None
    else if ts[0].id == id then Some(0)
    else
      match FindFirst(ts[1..], id)
      case None => None
      case Some(k) => Some(k + 1)
  }

  /** Position `j` holds the first task of `ts` whose id is `id`. */
  predicate FirstWithId(ts: seq<Task>, id: int, j: nat)
    requires j < |ts|
  {
    ts[j].id == id && forall i :: 0 <= i < j ==> ts[i].id != id
  }

  /** The first matching position is determined by the ids alone. */
  lemma FindFirstByIds(a: seq<Task>, b: seq<Task>, id: int)
    requires |a| == |b|
    requires forall j :: 0 <= j < |a| ==> a[j].id == b[j].id
    ensures FindFirst(a, id) == FindFirst(b, id)
  {
    match FindFirst(a, id)
    case None =>
    case Some(k) =>
      assert FirstWithId(b, id, k);
      var kb := FindFirst(b, id).value;
      assert !(kb < k) && !(k < kb);
  }

  function IdDiffers(id: int): Task -> bool {
    (t: Task) => t.id != id
  }

  /** `tasks.filter(task => task.id !== id)`: every task whose id is not
      `id` (all of them, if several share it), in their original order. */
  function WithoutId(ts: seq<Task>, id: int): (r: seq<Task>)
    ensures IsSubsequence(r, ts)
    ensures forall t :: t in r <==> t in ts && t.id != id
    ensures forall t :: multiset(r)[t] == if t.id == id then 0 else multiset(ts)[t]
  {
    FilterIsSubsequence(ts, IdDiffers(id));
    FilterMembers(ts, IdDiffers(id));
    FilterMultiset(ts, IdDiffers(id));
    Filter(ts, IdDiffers(id))
  }

  /** Deleting an id no task carries changes nothing. */
  lemma WithoutAbsentId(ts: seq<Task>, id: int)
    requires forall t :: t in ts ==> t.id != id
    ensures WithoutId(ts, id) == ts
  {
    FilterKeepsAll(ts, IdDiffers(id));
  }

  /** Deleting the same id twice is deleting it once. */
  lemma WithoutIdIdempotent(ts: seq<Task>, id: int)
    ensures WithoutId(WithoutId(ts, id), id) == WithoutId(ts, id)
  {
    FilterIdempotent(ts, IdDiffers(id));
  }

  /** Deleting the id of a task just added, when no earlier task carries it,
      restores the list as it was before the addition. */
  lemma DeleteUndoesAdd(ts: seq<Task>, t: Task)
    requires forall u :: u in ts ==> u.id != t.id
    ensures WithoutId(ts + [t], t.id) == ts
  {
    FilterConcat(ts, [t], IdDiffers(t.id));
    assert [t][1..] == [];
    WithoutAbsentId(ts, t.id);
  }

  /** `toggleTaskCompletion` on the list: the first task carrying `id` has
      its `completed` flag negated; with no such task the list is unchanged. */
  function Toggled(ts: seq<Task>, id: int): (r: seq<Task>)
    ensures |r| == |ts|
    ensures forall j :: 0 <= j < |ts| ==> r[j].(completed := ts[j].completed) == ts[j]
    ensures forall j :: 0 <= j < |ts| ==> (r[j].completed != ts[j].completed <==> FirstWithId(ts, id, j))
  {
    match FindFirst(ts, id)
    case None => ts
    case Some(k) =>
      assert forall j :: 0 <= j < |ts| && j != k ==> !FirstWithId(ts, id, j);
      ts[k := ts[k].(completed := !ts[k].completed)]
  }

  /** Toggling an id no task carries changes nothing. */
  lemma ToggleAbsentId(ts: seq<Task>, id: int)
    requires forall t :: t in ts ==> t.id != id
    ensures Toggled(ts, id) == ts
  {
    assert forall j :: 0 <= j < |ts| ==> !FirstWithId(ts, id, j) by {
      forall j | 0 <= j < |ts|
        ensures !FirstWithId(ts, id, j)
      {
        assert ts[j] in ts;
      }
    }
  }

  /** Two toggles with the same id restore the original list. */
  lemma ToggleTwice(ts: seq<Task>, id: int)
    ensures Toggled(Toggled(ts, id), id) == ts
  {
    var once := Toggled(ts, id);
    FindFirstByIds(ts, once, id);
    assert forall j :: 0 <= j < |ts| ==> (FirstWithId(once, id, j) <==> FirstWithId(ts, id, j));
  }

  /** A toggle leaves every category in place, so the category selector
      needs no refresh after it (the source only re-renders). */
  lemma ToggleKeepsCategories(ts: seq<Task>, id: int)
    ensures View.Categories(Toggled(ts, id)) == View.Categories(ts)
  {
    assert View.CategoryColumn(Toggled(ts, id)) == View.CategoryColumn(ts);
  }

  /** Adding a task puts its category at the end of the category list,
      unless some task already carries it. */
  lemma CategoriesAfterAdd(ts: seq<Task>, t: Task)
    ensures View.Categories(ts + [t]) ==
      if t.category in View.CategoryColumn(ts) then View.Categories(ts)
      else View.Categories(ts) + [t.category]
  {
    var col := View.CategoryColumn(ts + [t]);
    assert col[..|col| - 1] == View.CategoryColumn(ts);
  }

  // ---------------------------------------------------------------------
  // The task manager
  // ---------------------------------------------------------------------

  class TaskManager {
    /** The stored tasks, in insertion order. */
    var tasks: seq<Task>

    constructor()
      ensures tasks == []
    {
      tasks := [];
    }

    /** `addTask`: appends `task` and returns the notification it raises. */
    method AddTask(task: Task) returns (notice: Option<string>)
      modifies this
      ensures tasks == old(tasks) + [task]
      ensures notice == AddedNotice(task)
    {
      tasks := tasks + [task];
      notice := Notification(NotificationPrefix + task.title, task.priority);
    }

    /** `deleteTask`: keeps exactly the tasks whose id is not `id`. */
    method DeleteTask(id: int)
      modifies this
      ensures tasks == WithoutId(old(tasks), id)
    {
      tasks := Filter(tasks, IdDiffers(id));
    }

    /** `toggleTaskCompletion`: flips `completed` on the first task with
        `id`, if there is one. */
    method ToggleTaskCompletion(id: int)
      modifies this
      ensures tasks == Toggled(old(tasks), id)
    {
      var found := FindFirst(tasks, id);
      if found.Some? {
        var k := found.value;
        tasks := tasks[k := tasks[k].(completed := !tasks[k].completed)];
      }
    }

    /** The options of the category selector built by `updateCategoryFilter`
        (after the fixed "All Categories" entry). */
    method UpdateCategoryFilter() returns (categories: seq<string>)
      ensures categories == View.Categories(tasks)
    {
      categories := Distinct(View.CategoryColumn(tasks));
    }

    /** The tasks `renderTasks` displays, in display order, for the search
        text, selected category and sort option read from the page. It works
        on a copy: the stored list is not changed. */
    method RenderTasks(query: string, selectedCategory: string, sortOption: string) returns (shown: seq<Task>)
      ensures shown == View.Projection(tasks, query, selectedCategory, sortOption)
    {
      var filtered := tasks;
      var q := View.Lower(query);
      if q != [] {
        filtered := Filter(filtered, View.Matching(q));
      }
      if selectedCategory != [] {
        filtered := Filter(filtered, View.InCategory(selectedCategory));
      }
      assert filtered == View.CategoryFilter(View.SearchFilter(tasks, query), selectedCategory);
      if sortOption == "asc" || sortOption == "desc" {
        filtered := View.SortedCopy(filtered, sortOption == "desc");
      }
      shown := filtered;
    }
  }

  /** The submit handler: an empty title or description raises the alert
      and adds nothing; otherwise exactly one new, not yet completed task is
      added, with `id` standing for the creation time. */
  method Submit(m: TaskManager, id: int, title: string, description: string, priority: Priority, category: string)
    returns (alert: Option<string>, notice: Option<string>)
    modifies m
    ensures alert == ValidateSubmission(title, description)
    ensures alert.Some? ==> m.tasks == old(m.tasks) && notice.None?
    ensures alert.None? ==> m.tasks == old(m.tasks) + [NewTask(id, title, description, priority, category)]
    ensures alert.None? ==> notice == AddedNotice(NewTask(id, title, description, priority, category))
  {
    alert := ValidateSubmission(title, description);
    if alert.Some? {
      notice := None;
      return;
    }
    var task := NewTask(id, title, description, priority, category);
    notice := m.AddTask(task);
  }
}
