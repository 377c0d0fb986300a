/** The home page (app/page.tsx): it holds the workspace's task list, rewrites it
    optimistically in `updateTaskStatus`, and hands that function to the board as the
    handler of its move buttons. Refetches order the list newest first. */
module Dashboard {
  import opened Wrappers
  import opened Tasks
  import Seqs
  import Board
  import TaskInput
  import EditDialog

  /** The local list after moving every task with id `taskId` to `newStatus`. */
  function UpdateTaskStatus(tasks: seq<Task>, taskId: string, newStatus: string): (r: seq<Task>)
    ensures |r| == |tasks|
    ensures forall i :: 0 <= i < |r| ==> r[i].id == tasks[i].id
    ensures forall i :: 0 <= i < |r| && tasks[i].id == taskId ==>
              r[i].status == newStatus && r[i].(status := tasks[i].status) == tasks[i]
    ensures forall i :: 0 <= i < |r| && tasks[i].id != taskId ==> r[i] == tasks[i]
  {
    Seqs.MapWhere(tasks, (t: Task) => t.id == taskId, (t: Task) => t.(status := newStatus))
  }

  /** Applying the same status update twice is the same as applying it once. */
  lemma UpdateTaskStatusIdempotent(tasks: seq<Task>, taskId: string, newStatus: string)
    ensures UpdateTaskStatus(UpdateTaskStatus(tasks, taskId, newStatus), taskId, newStatus)
         == UpdateTaskStatus(tasks, taskId, newStatus)
  {
  }

  /** An id that no task carries leaves the list as it was. */
  lemma UpdateTaskStatusAbsent(tasks: seq<Task>, taskId: string, newStatus: string)
    requires forall i :: 0 <= i < |tasks| ==> tasks[i].id != taskId
    ensures UpdateTaskStatus(tasks, taskId, newStatus) == tasks
  {
  }

  /** A later update of the same task overrides an earlier one. */
  lemma UpdateTaskStatusLastWins(tasks: seq<Task>, taskId: string, s1: string, s2: string)
    ensures UpdateTaskStatus(UpdateTaskStatus(tasks, taskId, s1), taskId, s2)
         == UpdateTaskStatus(tasks, taskId, s2)
  {
  }

  /** The page's task list after pressing a move button on `card` in column `colId`. */
  function PressMove(tasks: seq<Task>, card: Task, colId: string, dir: Board.Direction): (r: seq<Task>)
    ensures |r| == |tasks|
    ensures Board.Move(colId, dir).None? ==> r == tasks
    ensures Board.Move(colId, dir).Some? ==> r == UpdateTaskStatus(tasks, card.id, Board.Move(colId, dir).value)
  {
    match Board.Move(colId, dir)
    case None => tasks
    case Some(target) => UpdateTaskStatus(tasks, card.id, target)
  }

  /** After an enabled move every copy of the card shows in the target column and in no other. */
  lemma PressMoveLandsInTarget(tasks: seq<Task>, card: Task, colId: string, dir: Board.Direction, other: string)
    requires Board.Move(colId, dir).Some?
    ensures var target := Board.Move(colId, dir).value;
            var r := PressMove(tasks, card, colId, dir);
            && (forall t :: t in r && t.id == card.id ==> t in Board.ColumnTasks(r, target))
            && (other != target ==> forall t :: t in Board.ColumnTasks(r, other) ==> t.id != card.id)
  {
  }

  /** A task added through the form shows first in the To Do column after the refetch
      and in no other column. */
  lemma NewTaskShowsInTodo(tasks: seq<Task>, form: TaskInput.TaskForm, workspaceId: string, userId: string, id: string)
    requires TaskInput.AddTask(form, workspaceId, Some(userId)).insert.Some?
    ensures var row := TaskInput.Materialize(TaskInput.AddTask(form, workspaceId, Some(userId)).insert.value, id);
            && Board.ColumnTasks([row] + tasks, Todo) == [row] + Board.ColumnTasks(tasks, Todo)
            && row !in Board.ColumnTasks([row] + tasks, InProgress)
            && row !in Board.ColumnTasks([row] + tasks, Done)
  {
  }

  /** Opening the edit dialog for `task` as the page is written. The dialog is rendered
      once a task has been chosen and stays mounted after it closes, and its form is
      seeded by `useState` initialisers, which run only on the first mount: `mounted`
      is the form of a dialog left mounted by an earlier edit, `None` before the first. */
  function OpenEditorAsWritten(mounted: Option<EditDialog.EditForm>, task: Task): (f: EditDialog.EditForm)
    ensures mounted.None? ==> f == EditDialog.InitialForm(Some(task))
    ensures mounted.Some? ==> f == mounted.value
  {
    match mounted
    case None => EditDialog.InitialForm(Some(task))
    case Some(stale) => stale
  }

  /** As written, editing a second task shows the first task's values, and pressing
      Save without changes writes them over the second task. */
  lemma StaleEditorOverwritesNextTask()
    ensures var a := Task("a", "w", "u", "Buy milk", None, Todo, High, None, false);
            var b := Task("b", "w", "u", "Pay rent", None, Todo, Low, Some(0), false);
            var f := OpenEditorAsWritten(Some(EditDialog.InitialForm(Some(a))), b);
            var p := EditDialog.HandleSave(Some(b), f, false).payload.value;
            && p.taskId == b.id
            && p.title == a.title && p.title != b.title
            && p.priority == a.priority && p.dueDate == None
            && EditDialog.ApplyEdit(b, p).title != b.title
  {
  }

  /** Opening the edit dialog for `task` with the form seeded from that task on every
      opening, as remounting the dialog per task (a `key` of the task's id) gives. */
  function OpenEditor(mounted: Option<EditDialog.EditForm>, task: Task): (f: EditDialog.EditForm)
    ensures f.title == task.title && f.date == task.dueDate
  {
    EditDialog.InitialForm(Some(task))
  }

  /** With the corrected opening, saving an unedited dialog writes the opened task's own
      values to that task, whatever dialog was mounted before. */
  lemma EditorSavesOpenedTask(mounted: Option<EditDialog.EditForm>, t: Task)
    ensures var p := EditDialog.HandleSave(Some(t), OpenEditor(mounted, t), false).payload.value;
            && p.taskId == t.id && p.title == t.title && p.dueDate == t.dueDate
            && (EditDialog.ApplyEdit(t, p) == t <==> t.description.Some? && t.priority != "")
  {
  }
}
