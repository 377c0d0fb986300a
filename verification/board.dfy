/** The Kanban board (components/task-board.tsx): three fixed columns, the cards each
    column shows, its badge count, and the left/right move buttons on every card. */
module Board {
  import opened Wrappers
  import opened Tasks
  import Seqs

  datatype Column = Column(id: string, heading: string)

  /** The board's columns, left to right. */
  const Columns: seq<Column> := [Column(Todo, "To Do"), Column(InProgress, "In Progress"), Column(Done, "Done")]

  datatype Direction = Left | Right

  /** The columns are the three known statuses, each exactly once, in workflow order. */
  lemma ColumnsAreTheStatuses()
    ensures |Columns| == 3
    ensures Columns[0].id == Todo && Columns[1].id == InProgress && Columns[2].id == Done
    ensures forall s :: IsColumnStatus(s) <==> exists i :: 0 <= i < |Columns| && Columns[i].id == s
    ensures forall i, j :: 0 <= i < j < |Columns| ==> Columns[i].id != Columns[j].id
  {
  }

  /** The cards a column shows: the tasks whose status is exactly the column id, in list order. */
  function ColumnTasks(tasks: seq<Task>, colId: string): (r: seq<Task>)
    ensures forall t :: t in r <==> t in tasks && t.status == colId
    ensures forall i :: 0 <= i < |r| ==> r[i].status == colId
  {
    Seqs.Filter(tasks, (t: Task) => t.status == colId)
  }

  /** The number on a column's badge. */
  function ColumnCount(tasks: seq<Task>, colId: string): (n: nat)
    ensures n <= |tasks|
    ensures n == 0 <==> forall t :: t in tasks ==> t.status != colId
  {
    var cards := ColumnTasks(tasks, colId);
    assert |cards| > 0 ==> cards[0] in cards;
    |cards|
  }

  /** Tasks whose status names no column; the board never shows them. */
  function UnplacedTasks(tasks: seq<Task>): (r: seq<Task>)
    ensures forall t :: t in r <==> t in tasks && !IsColumnStatus(t.status)
  {
    Seqs.Filter(tasks, (t: Task) => !IsColumnStatus(t.status))
  }

  /** A column lists its cards in the order of the input list. */
  lemma ColumnTasksKeepOrder(a: seq<Task>, b: seq<Task>, colId: string)
    ensures ColumnTasks(a + b, colId) == ColumnTasks(a, colId) + ColumnTasks(b, colId)
  {
    Seqs.FilterConcat(a, b, (t: Task) => t.status == colId);
  }

  /** Every task lands in exactly one of the three columns or among the unplaced ones. */
  lemma {:induction false} ColumnsPartitionTasks(tasks: seq<Task>)
    ensures ColumnCount(tasks, Todo) + ColumnCount(tasks, InProgress) + ColumnCount(tasks, Done)
            + |UnplacedTasks(tasks)| == |tasks|
  {
    if |tasks| > 0 {
      ColumnsPartitionTasks(tasks[1..]);
    }
  }

  /** The badges add up to at most the number of tasks, with equality exactly when
      every task has one of the three column statuses. */
  lemma ColumnCountsCoverValidTasks(tasks: seq<Task>)
    ensures ColumnCount(tasks, Todo) + ColumnCount(tasks, InProgress) + ColumnCount(tasks, Done) <= |tasks|
    ensures ColumnCount(tasks, Todo) + ColumnCount(tasks, InProgress) + ColumnCount(tasks, Done) == |tasks|
            <==> forall t :: t in tasks ==> IsColumnStatus(t.status)
  {
    ColumnsPartitionTasks(tasks);
    if forall t :: t in tasks ==> IsColumnStatus(t.status) {
      var rest := UnplacedTasks(tasks);
      assert |rest| > 0 ==> rest[0] in rest;
    }
  }

  /** The status the left-arrow button of a card in column `colId` sends, or `None`
      when the button is disabled. */
  function MoveLeft(colId: string): (r: Option<string>)
    ensures r.None? <==> colId == Todo
    ensures r.Some? ==> IsColumnStatus(r.value) && r.value != Done
  {
    if colId == Todo then None
    else Some(if colId == Done then InProgress else Todo)
  }

  /** The status the right-arrow button of a card in column `colId` sends, or `None`
      when the button is disabled. */
  function MoveRight(colId: string): (r: Option<string>)
    ensures r.None? <==> colId == Done
    ensures r.Some? ==> IsColumnStatus(r.value) && r.value != Todo
  {
    if colId == Done then None
    else Some(if colId == Todo then InProgress else Done)
  }

  /** The moves step to the neighbouring column in board order, and the outer edges are disabled. */
  lemma MovesFollowColumnOrder(i: nat)
    requires i < |Columns|
    ensures MoveLeft(Columns[i].id) == (if i == 0 then None else Some(Columns[i - 1].id))
    ensures MoveRight(Columns[i].id) == (if i == |Columns| - 1 then None else Some(Columns[i + 1].id))
  {
  }

  /** Undoing an enabled move with the opposite button returns the card to its column. */
  lemma MoveRoundTrip(colId: string)
    requires IsColumnStatus(colId)
    ensures MoveRight(colId).Some? ==> MoveLeft(MoveRight(colId).value) == Some(colId)
    ensures MoveLeft(colId).Some? ==> MoveRight(MoveLeft(colId).value) == Some(colId)
  {
  }

  /** The status a move button sends, or `None` when it is disabled. */
  function Move(colId: string, dir: Direction): (r: Option<string>)
    ensures dir == Left ==> r == MoveLeft(colId)
    ensures dir == Right ==> r == MoveRight(colId)
  {
    match dir
    case Left => MoveLeft(colId)
    case Right => MoveRight(colId)
  }
}
