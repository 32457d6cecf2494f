/** The reminder worker of reminder_worker.js: it keeps a task list that the page replaces wholesale,
    and each check posts a notification for every task due within the next second. Times are
    integer milliseconds. */
module ReminderWorker {
  import opened Wrappers

  const Window: int := 1000
  const PollInterval: nat := 1000

  /** A task as the page sends it. `dueTime` is None when `new Date(task.due_time)` is an invalid
      date, whose difference with now is NaN and so fails every comparison. */
  datatype Task = Task(id: int, description: string, dueTime: Option<int>)

  /** `{type: 'show_notification', task: task}`, carrying the task object itself. */
  datatype Notification = ShowNotification(task: Task)

  /** A message from the page: `start`, `load_tasks` with its list, or any other type. */
  datatype Incoming = Start | LoadTasks(tasks: seq<Task>) | OtherMessage(kind: string)

  /** The check's condition: due strictly after now and at most one second after it. */
  predicate DueSoon(t: Task, now: int)
  {
    t.dueTime.Some? && 0 < t.dueTime.value - now <= Window
  }

  /** The notifications one check posts, in task-list order. */
  function Due(tasks: seq<Task>, now: int): seq<Notification>
  {
    if tasks == [] then []
    else Due(tasks[..|tasks| - 1], now)
         + (if DueSoon(tasks[|tasks| - 1], now) then [ShowNotification(tasks[|tasks| - 1])] else [])
  }

  /** A check posts a notification for a task exactly when it is due within the window, and every
      notification carries a task of the list unchanged. */
  lemma {:induction false} DueExactly(tasks: seq<Task>, now: int)
    ensures forall n :: n in Due(tasks, now) ==> n.task in tasks && DueSoon(n.task, now)
    ensures forall i :: 0 <= i < |tasks| && DueSoon(tasks[i], now) ==> ShowNotification(tasks[i]) in Due(tasks, now)
    ensures |Due(tasks, now)| <= |tasks|
    decreases |tasks|
  {
    if tasks != [] {
      var init := tasks[..|tasks| - 1];
      DueExactly(init, now);
      assert forall i :: 0 <= i < |init| ==> init[i] == tasks[i];
    }
  }

  /** Tasks already due, or due more than a second from now, produce no notification. */
  lemma NotDueNotPosted(tasks: seq<Task>, now: int, t: Task)
    requires t.dueTime.Some? && (t.dueTime.value <= now || t.dueTime.value > now + Window)
    ensures ShowNotification(t) !in Due(tasks, now)
  {
    DueExactly(tasks, now);
  }

  /** Notifications come out in task-list order: the check over a longer list extends the check over
      its prefix. */
  lemma {:induction false} DueInOrder(tasks: seq<Task>, more: seq<Task>, now: int)
    ensures Due(tasks + more, now) == Due(tasks, now) + Due(more, now)
    decreases |more|
  {
    if more == [] {
      assert tasks + more == tasks;
    } else {
      var init := more[..|more| - 1];
      DueInOrder(tasks, init, now);
      assert (tasks + more)[..|tasks + more| - 1] == tasks + init;
    }
  }

  class Worker {
    var tasks: seq<Task>
    /** How many 1000 ms `checkReminders` intervals have been started. */
    var pollers: nat

    constructor ()
      ensures tasks == [] && pollers == 0
    {
      tasks := [];
      pollers := 0;
    }

    /** `self.onmessage`: `start` starts one more polling interval, `load_tasks` replaces the list
        (nothing is merged), anything else is ignored. */
    method OnMessage(m: Incoming)
      modifies this
      ensures m.Start? ==> tasks == old(tasks) && pollers == old(pollers) + 1
      ensures m.LoadTasks? ==> tasks == m.tasks && pollers == old(pollers)
      ensures m.OtherMessage? ==> tasks == old(tasks) && pollers == old(pollers)
    {
      match m
      case Start => pollers := pollers + 1;
      case LoadTasks(ts) => tasks := ts;
      case OtherMessage(_) =>
    }

    /** `checkReminders`: walks the list and returns the messages it posts; it changes nothing. */
    method CheckReminders(now: int) returns (posted: seq<Notification>)
      ensures posted == Due(tasks, now)
    {
      posted := [];
      var i := 0;
      while i < |tasks|
        invariant 0 <= i <= |tasks|
        invariant posted == Due(tasks[..i], now)
      {
        var task := tasks[i];
        var difference := if task.dueTime.Some? then task.dueTime.value - now else 0;
        if task.dueTime.Some? && difference > 0 && difference <= Window {
          posted := posted + [ShowNotification(task)];
        }
        assert tasks[..i + 1][..i] == tasks[..i];
        i := i + 1;
      }
      assert tasks[..i] == tasks;
    }
  }
}
