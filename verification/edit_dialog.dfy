/** The edit dialog (components/edit-task-dialog.tsx): its form is seeded from the
    task it was opened for, and saving sends a four-field update for that task's id
    and closes the dialog when the backend reports no error. */
module EditDialog {
  import opened Wrappers
  import opened Tasks
  import opened Accounts

  datatype EditForm = EditForm(title: string, description: string, priority: string, date: Option<Timestamp>)

  /** The update `handleSave` sends; every other column of the row is left alone. */
  datatype EditPayload = EditPayload(taskId: string, title: string, description: string, priority: string, dueDate: Option<Timestamp>)

  /** The result of pressing Save: the update sent, if any, and whether the dialog closes. */
  datatype SaveOutcome = SaveOutcome(payload: Option<EditPayload>, closes: bool)

  /** The form state the dialog starts from. `task` is `None` for the dialog's null task. */
  function InitialForm(task: Option<Task>): (f: EditForm)
    ensures task.None? ==> f == EditForm("", "", Medium, None)
    ensures task.Some? ==>
              && f.title == task.value.title
              && f.description == task.value.description.GetOr("")
              && f.priority == (if task.value.priority == "" then Medium else task.value.priority)
              && f.date == task.value.dueDate
    ensures f.priority != ""
  {
    match task
    case None => EditForm("", "", Medium, None)
    case Some(t) => EditForm(OrElse(Some(t.title), ""), OrElse(t.description, ""), OrElse(Some(t.priority), Medium), t.dueDate)
  }

  /** Pressing Save with form `f`; `updateFails` is whether the backend returns an error. */
  function HandleSave(task: Option<Task>, f: EditForm, updateFails: bool): (r: SaveOutcome)
    ensures task.None? ==> r == SaveOutcome(None, false)
    ensures task.Some? ==> r.payload == Some(EditPayload(task.value.id, f.title, f.description, f.priority, f.date))
    ensures r.payload.Some? ==> (r.payload.value.dueDate.None? <==> f.date.None?)
    ensures r.closes <==> task.Some? && !updateFails
  {
    match task
    case None => SaveOutcome(None, false)
    case Some(t) => SaveOutcome(Some(EditPayload(t.id, f.title, f.description, f.priority, f.date)), !updateFails)
  }

  /** The backend row after the update: only title, description, priority and due date change. */
  function ApplyEdit(row: Task, p: EditPayload): (r: Task)
    requires row.id == p.taskId
    ensures r.(title := row.title, description := row.description, priority := row.priority, dueDate := row.dueDate) == row
    ensures r.title == p.title && r.description == Some(p.description)
    ensures r.priority == p.priority && r.dueDate == p.dueDate
    ensures r.status == row.status && r.isCompleted == row.isCompleted
  {
    row.(title := p.title, description := Some(p.description), priority := p.priority, dueDate := p.dueDate)
  }

  /** The priority selector starts on one of its four items exactly when the row's
      priority is one of them or empty (an empty priority falls back to `medium`). */
  lemma InitialPriorityIsOffered(task: Option<Task>)
    ensures InitialForm(task).priority in Priorities
            <==> task.None? || task.value.priority in Priorities || task.value.priority == ""
  {
  }

  /** Opening the dialog and saving without touching the form rewrites the row to
      itself exactly when the row has a description and a non-empty priority: a
      missing description is saved as the empty string and an empty priority as
      `medium`. */
  lemma SaveUnchangedIsIdentityIff(t: Task)
    ensures var r := HandleSave(Some(t), InitialForm(Some(t)), false);
            r.payload.Some?
            && (ApplyEdit(t, r.payload.value) == t <==> t.description.Some? && t.priority != "")
  {
  }
}
