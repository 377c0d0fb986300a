/** The list view's local edits (components/task-list.tsx): ticking a task's checkbox
    and deleting a task. Both rewrite the view's own list at once and send an update
    to the backend; the list is replaced by the backend's rows on the next refetch. */
module TaskList {
  import opened Tasks
  import Seqs

  /** The row fields the checkbox writes to the backend. */
  datatype CompletionUpdate = CompletionUpdate(taskId: string, isCompleted: bool, status: string)

  /** What a checkbox click produces: the optimistic local list and the persisted update. */
  datatype Toggle = Toggle(local: seq<Task>, update: CompletionUpdate)

  /** Clicking the checkbox of a task with id `taskId` whose shown completion flag is `current`. */
  function ToggleTask(tasks: seq<Task>, taskId: string, current: bool): (r: Toggle)
    ensures |r.local| == |tasks|
    ensures forall i :: 0 <= i < |tasks| && tasks[i].id == taskId ==>
              r.local[i] == tasks[i].(isCompleted := !current)
    ensures forall i :: 0 <= i < |tasks| && tasks[i].id != taskId ==> r.local[i] == tasks[i]
    ensures forall i :: 0 <= i < |tasks| ==> r.local[i].status == tasks[i].status
    ensures r.update.taskId == taskId && r.update.isCompleted == !current
    ensures r.update.status == (if r.update.isCompleted then Done else Todo)
    ensures r.update.status != InProgress
  {
    Toggle(
      Seqs.MapWhere(tasks, (t: Task) => t.id == taskId, (t: Task) => t.(isCompleted := !current)),
      CompletionUpdate(taskId, !current, if !current then Done else Todo))
  }

  /** A backend row after the checkbox update has been applied to it. */
  function ApplyCompletion(row: Task, u: CompletionUpdate): (r: Task)
    requires row.id == u.taskId
    ensures r.(isCompleted := row.isCompleted, status := row.status) == row
    ensures r.isCompleted == u.isCompleted && r.status == u.status
  {
    row.(isCompleted := u.isCompleted, status := u.status)
  }

  /** Clicking a checkbox negates the flag the task showed: the clicked task's own
      `isCompleted` is what the view passes as `current`. */
  lemma ToggleNegatesShownFlag(tasks: seq<Task>, i: nat)
    requires i < |tasks|
    requires forall j :: 0 <= j < |tasks| && tasks[j].id == tasks[i].id ==> j == i
    ensures var r := ToggleTask(tasks, tasks[i].id, tasks[i].isCompleted).local;
            r[i].isCompleted == !tasks[i].isCompleted
            && r[..i] == tasks[..i] && r[i + 1..] == tasks[i + 1..]
  {
    var r := ToggleTask(tasks, tasks[i].id, tasks[i].isCompleted).local;
    assert |r| == |tasks|;
    forall j | 0 <= j < |tasks| && j != i
      ensures r[j] == tasks[j]
    {
      assert tasks[j].id != tasks[i].id;
    }
    assert r[..i] == tasks[..i];
    assert r[i + 1..] == tasks[i + 1..];
  }

  /** Clicking the same checkbox twice restores the list, provided every copy of the
      task showed the flag the first click started from. */
  lemma ToggleTwiceRestores(tasks: seq<Task>, taskId: string, current: bool)
    requires forall t :: t in tasks && t.id == taskId ==> t.isCompleted == current
    ensures ToggleTask(ToggleTask(tasks, taskId, current).local, taskId, !current).local == tasks
  {
  }

  /** The optimistic row and the persisted row of a toggled task differ at most in
      `status`: the list shows the old status until the next refetch. */
  lemma LocalDiffersFromPersistedOnlyInStatus(tasks: seq<Task>, taskId: string, current: bool, i: nat)
    requires i < |tasks| && tasks[i].id == taskId
    ensures var r := ToggleTask(tasks, taskId, current);
            r.local[i].(status := r.update.status) == ApplyCompletion(tasks[i], r.update)
            && r.local[i].status == tasks[i].status
  {
  }

  /** Clicking the trash button of the task with id `taskId`. */
  function DeleteTask(tasks: seq<Task>, taskId: string): (r: seq<Task>)
    ensures forall t :: t in r <==> t in tasks && t.id != taskId
    ensures |r| <= |tasks|
  {
    Seqs.Filter(tasks, (t: Task) => t.id != taskId)
  }

  /** The survivors of a delete keep their original relative order. */
  lemma DeleteKeepsOrder(a: seq<Task>, b: seq<Task>, taskId: string)
    ensures DeleteTask(a + b, taskId) == DeleteTask(a, taskId) + DeleteTask(b, taskId)
  {
    Seqs.FilterConcat(a, b, (t: Task) => t.id != taskId);
  }

  /** Deleting an id that no task carries leaves the list unchanged; otherwise the list shrinks. */
  lemma DeleteShrinksIffPresent(tasks: seq<Task>, taskId: string)
    ensures (forall t :: t in tasks ==> t.id != taskId) <==> DeleteTask(tasks, taskId) == tasks
    ensures (exists t :: t in tasks && t.id == taskId) <==> |DeleteTask(tasks, taskId)| < |tasks|
  {
    var keep := (t: Task) => t.id != taskId;
    Seqs.FilterComplement(tasks, keep);
    var gone := Seqs.Filter(tasks, (x: Task) => !keep(x));
    assert |gone| > 0 ==> gone[0] in gone;
    if forall t :: t in tasks ==> t.id != taskId {
      Seqs.FilterAll(tasks, keep);
    } else {
      var t :| t in tasks && t.id == taskId;
      assert t in gone;
    }
  }

  /** Deleting the same id twice is deleting it once. */
  lemma DeleteIdempotent(tasks: seq<Task>, taskId: string)
    ensures DeleteTask(DeleteTask(tasks, taskId), taskId) == DeleteTask(tasks, taskId)
  {
    Seqs.FilterIdempotent(tasks, (t: Task) => t.id != taskId);
  }
}
