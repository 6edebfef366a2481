/** The `Task` record of app.js, the priority scale `priorityValue`, and the
    two small gates around task creation: the high-priority notification
    and the submit-form validation. */
module Tasks {
  import opened Seqs

  /** The three values the priority selector offers. */
  datatype Priority = Low | Medium | High

  /** A task. `id` is the creation timestamp in the source; here it is
      supplied by the caller and is not assumed to be unique. */
  datatype Task = Task(
    id: int,
    title: string,
    description: string,
    priority: Priority,
    category: string,
    completed: bool)

  /** The `Task` constructor: copies its arguments and starts out not
      completed. */
  function NewTask(id: int, title: string, description: string, priority: Priority, category: string): (t: Task)
    ensures !t.completed
    ensures t.id == id && t.title == title && t.description == description
    ensures t.priority == priority && t.category == category
  {
    Task(id, title, description, priority, category, false)
  }

  /** `priorityValue`: the rank used by the priority sort. */
  function PriorityValue(p: Priority): (v: int)
    ensures 1 <= v <= 3
  {
    match p
    case Low => 1
    case Medium => 2
    case High => 3
  }

  /** The intended order of the priority scale, stated independently of
      the numeric ranks. */
  predicate Below(p: Priority, q: Priority) {
    (p == Low && q != Low) || (p == Medium && q == High)
  }

  /** The ranks order the priorities Low < Medium < High, and distinct
      priorities get distinct ranks. */
  lemma PriorityValueOrder(p: Priority, q: Priority)
    ensures PriorityValue(p) < PriorityValue(q) <==> Below(p, q)
    ensures PriorityValue(p) == PriorityValue(q) <==> p == q
  {
  }

  const NotificationPrefix := "New High Priority Task: "

  /** `showNotification`: the message is displayed exactly when the
      priority is High; `None` means nothing is shown. */
  function Notification(message: string, priority: Priority): (shown: Option<string>)
    ensures shown.Some? <==> priority == High
    ensures shown.Some? ==> shown.value == message
  {
    if priority == High then Some(message) else None
  }

  /** The notification `addTask` asks for when `t` is added. */
  function AddedNotice(t: Task): (shown: Option<string>)
    ensures shown.Some? <==> t.priority == High
    ensures shown.Some? ==> shown.value == NotificationPrefix + t.title
  {
    Notification(NotificationPrefix + t.title, t.priority)
  }

  const RequiredMessage := "Title and description are required!"

  /** The submit handler's check `!title || !description`: an alert when
      either field is empty, `None` when the submission may proceed. */
  function ValidateSubmission(title: string, description: string): (alert: Option<string>)
    ensures alert.None? <==> title != [] && description != []
    ensures alert.Some? ==> alert.value == RequiredMessage
  {
    if title == [] || description == [] then Some(RequiredMessage) else None
  }
}
