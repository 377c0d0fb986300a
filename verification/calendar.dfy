/** The calendar view (components/task-calendar.tsx): the tasks listed for the
    selected day and the days the calendar marks as having tasks. Which day a
    timestamp falls on is the caller-supplied `dayOf`, standing for the date
    library's local-calendar `isSameDay`. */
module Calendar {
  import opened Wrappers
  import opened Tasks
  import Seqs

  predicate HasDueDate(t: Task) {
    t.dueDate.Some?
  }

  /** The task is listed for the selected day: it has a due date, a day is selected,
      and both fall on the same calendar day. */
  predicate DueOnSelectedDay(t: Task, selected: Option<Timestamp>, dayOf: Timestamp -> int) {
    t.dueDate.Some? && selected.Some? && dayOf(t.dueDate.value) == dayOf(selected.value)
  }

  /** The list shown beside the calendar; its length is the badge count. */
  function TasksForDate(tasks: seq<Task>, selected: Option<Timestamp>, dayOf: Timestamp -> int): (r: seq<Task>)
    ensures selected.None? ==> r == []
    ensures forall t :: t in r <==> t in tasks && DueOnSelectedDay(t, selected, dayOf)
    ensures |r| <= |tasks|
  {
    var r := Seqs.Filter(tasks, (t: Task) => DueOnSelectedDay(t, selected, dayOf));
    assert |r| > 0 ==> r[0] in r;
    r
  }

  /** The due dates of the tasks that have one, in list order: the calendar's markers. */
  function DaysWithTasks(tasks: seq<Task>): (r: seq<Timestamp>)
    ensures |r| == |Seqs.Filter(tasks, HasDueDate)|
    ensures forall d :: d in r <==> exists t :: t in tasks && t.dueDate == Some(d)
  {
    if |tasks| == 0 then []
    else
      var rest := DaysWithTasks(tasks[1..]);
      assert forall t :: t in tasks <==> t == tasks[0] || t in tasks[1..];
      match tasks[0].dueDate
      case Some(d) => [d] + rest
      case None => rest
  }

  /** The listing keeps the input order. */
  lemma TasksForDateKeepOrder(a: seq<Task>, b: seq<Task>, selected: Option<Timestamp>, dayOf: Timestamp -> int)
    ensures TasksForDate(a + b, selected, dayOf) == TasksForDate(a, selected, dayOf) + TasksForDate(b, selected, dayOf)
  {
    Seqs.FilterConcat(a, b, (t: Task) => DueOnSelectedDay(t, selected, dayOf));
  }

  /** Completed tasks are listed like any other: a done task due on the selected day is shown. */
  lemma DoneTasksAreListed(tasks: seq<Task>, t: Task, selected: Timestamp, dayOf: Timestamp -> int)
    requires t in tasks && t.status == Done && t.dueDate.Some?
    requires dayOf(t.dueDate.value) == dayOf(selected)
    ensures t in TasksForDate(tasks, Some(selected), dayOf)
  {
  }

  /** Every listed task's due date is among the markers, and the selected day lists
      some task exactly when the calendar marks that day. */
  lemma ListedIffMarked(tasks: seq<Task>, selected: Timestamp, dayOf: Timestamp -> int)
    ensures forall t :: t in TasksForDate(tasks, Some(selected), dayOf) ==> t.dueDate.value in DaysWithTasks(tasks)
    ensures |TasksForDate(tasks, Some(selected), dayOf)| > 0
            <==> exists d :: d in DaysWithTasks(tasks) && dayOf(d) == dayOf(selected)
  {
    var r := TasksForDate(tasks, Some(selected), dayOf);
    var marks := DaysWithTasks(tasks);
    if |r| > 0 {
      assert r[0] in r;
      assert r[0].dueDate.value in marks;
    }
    if exists d :: d in marks && dayOf(d) == dayOf(selected) {
      var d :| d in marks && dayOf(d) == dayOf(selected);
      var t :| t in tasks && t.dueDate == Some(d);
      assert t in r;
    }
  }
}
