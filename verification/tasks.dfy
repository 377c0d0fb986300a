/** The task row shared by the list, board, calendar and edit views and read by the
    reminder job, together with the status and priority vocabulary of the UI. */
module Tasks {
  import opened Wrappers

  /** Milliseconds since the epoch; the ISO strings of the database are abstracted to this. */
  type Timestamp = int

  /** Length of the one-day reminder window, in milliseconds. */
  const DayMs: int := 86_400_000

  const Todo: string := "todo"
  const InProgress: string := "in-progress"
  const Done: string := "done"

  const Low: string := "low"
  const Medium: string := "medium"
  const High: string := "high"
  const Urgent: string := "urgent"

  /** The priorities the task-input and edit-dialog selectors offer. */
  const Priorities: seq<string> := [Low, Medium, High, Urgent]

  /** One row of the `tasks` table. `status` is free text in the database: the UI only
      knows three values, and a row carrying any other string is representable. */
  datatype Task = Task(
    id: string,
    workspaceId: string,
    creatorId: string,
    title: string,
    description: Option<string>,
    status: string,
    priority: string,
    dueDate: Option<Timestamp>,
    isCompleted: bool
  )

  /** True when `s` is one of the three statuses the board has a column for. */
  predicate IsColumnStatus(s: string) {
    s == Todo || s == InProgress || s == Done
  }
}
