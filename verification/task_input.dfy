/** The new-task form (components/task-input.tsx): a title box, an optional due date
    and a priority selector; submitting validates the title, inserts a row for the
    signed-in user and resets the form. */
module TaskInput {
  import opened Wrappers
  import opened Tasks

  /** The code points `String.prototype.trim` strips: ECMAScript's WhiteSpace
      (tab, vertical tab, form feed, space, no-break space, byte order mark and the
      Unicode space separators) and LineTerminator (LF, CR, LS, PS). */
  predicate IsJsWhitespace(c: char) {
    || c == '\t' || c == '\n' || c == '\U{000B}' || c == '\U{000C}' || c == '\r' || c == ' '
    || c == '\U{00A0}' || c == '\U{1680}' || ('\U{2000}' <= c <= '\U{200A}')
    || c == '\U{2028}' || c == '\U{2029}' || c == '\U{202F}' || c == '\U{205F}'
    || c == '\U{3000}' || c == '\U{FEFF}'
  }

  predicate AllWhitespace(s: string) {
    forall i :: 0 <= i < |s| ==> IsJsWhitespace(s[i])
  }

  /** `s` without its leading whitespace. */
  function TrimStart(s: string): (r: string)
    ensures |r| <= |s| && r == s[|s| - |r|..]
    ensures AllWhitespace(s[..|s| - |r|])
    ensures |r| > 0 ==> !IsJsWhitespace(r[0])
  {
    if |s| > 0 && IsJsWhitespace(s[0]) then TrimStart(s[1..]) else s
  }

  /** `s` without its trailing whitespace. */
  function TrimEnd(s: string): (r: string)
    ensures |r| <= |s| && r == s[..|r|]
    ensures AllWhitespace(s[|r|..])
    ensures |r| > 0 ==> !IsJsWhitespace(r[|r| - 1])
  {
    if |s| > 0 && IsJsWhitespace(s[|s| - 1]) then TrimEnd(s[..|s| - 1]) else s
  }

  /** `s.trim()`: the middle of `s` left once a whitespace prefix and a whitespace
      suffix are cut off, and with no whitespace at either end. */
  function Trim(s: string): (r: string)
    ensures exists a, b :: 0 <= a <= b <= |s| && r == s[a..b] && AllWhitespace(s[..a]) && AllWhitespace(s[b..])
    ensures r == [] <==> AllWhitespace(s)
    ensures |r| > 0 ==> !IsJsWhitespace(r[0]) && !IsJsWhitespace(r[|r| - 1])
  {
    var e := TrimEnd(s);
    var r := TrimStart(e);
    assert |e| > 0 ==> e[|e| - 1] == s[|e| - 1];
    assert s == e + s[|e|..];
    assert |r| > 0 ==> r[|r| - 1] == e[|e| - 1];
    var a := |e| - |r|;
    assert r == s[a..|e|];
    assert AllWhitespace(s[..a]) by { assert s[..a] == e[..a]; }
    r
  }

  /** The form's state. */
  datatype TaskForm = TaskForm(title: string, date: Option<Timestamp>, priority: string)

  /** The form as first shown and as reset after an insert. */
  const EmptyForm: TaskForm := TaskForm("", None, Medium)

  /** The priority selector starts, and is reset, on one of its four items, and the
      insert carries whichever item the form holds. */
  lemma FormPriorityIsOffered(form: TaskForm, workspaceId: string, userId: Option<string>)
    ensures EmptyForm.priority in Priorities
    ensures var r := AddTask(form, workspaceId, userId);
            r.form.priority in Priorities <==> (r.insert.Some? || form.priority in Priorities)
  {
  }

  /** The record the form sends to the `tasks` table. */
  datatype TaskInsert = TaskInsert(
    title: string,
    workspaceId: string,
    creatorId: string,
    status: string,
    priority: string,
    dueDate: Option<Timestamp>
  )

  /** What a submit produces: the insert sent, if any, and the form afterwards. */
  datatype Submission = Submission(insert: Option<TaskInsert>, form: TaskForm)

  /** Submitting `form` in workspace `workspaceId`; `userId` is the signed-in user's id,
      `None` when nobody is signed in. */
  function AddTask(form: TaskForm, workspaceId: string, userId: Option<string>): (r: Submission)
    ensures r.insert.Some? <==> !AllWhitespace(form.title) && userId.Some?
    ensures r.insert.None? ==> r.form == form
    ensures r.insert.Some? ==>
              && r.insert.value.title == form.title
              && r.insert.value.workspaceId == workspaceId
              && r.insert.value.creatorId == userId.value
              && r.insert.value.status == Todo
              && r.insert.value.priority == form.priority
              && r.insert.value.dueDate == form.date
              && r.form == EmptyForm
  {
    if Trim(form.title) == [] then Submission(None, form)
    else match userId
      case None => Submission(None, form)
      case Some(uid) =>
        Submission(Some(TaskInsert(form.title, workspaceId, uid, Todo, form.priority, form.date)), EmptyForm)
  }

  /** The row the database stores for an insert, once it has assigned an id. New rows
      start uncompleted and without a description. */
  function Materialize(ins: TaskInsert, id: string): (t: Task)
    ensures t.id == id && t.status == ins.status && t.dueDate == ins.dueDate
    ensures t.title == ins.title && t.creatorId == ins.creatorId && t.workspaceId == ins.workspaceId
  {
    Task(id, ins.workspaceId, ins.creatorId, ins.title, None, ins.status, ins.priority, ins.dueDate, false)
  }
}
