# GoalGrid task logic, modelled in Dafny

GoalGrid is a personal task manager: a Next.js front end bound to a hosted
backend (auth, a `tasks` table, realtime refetch) plus a scheduled endpoint that
emails each user their tasks due today. This project models the small amount of
deterministic task logic inside it, as pure functions over immutable records:

- the Kanban board's three status columns, the cards and badge count of each, and
  the left/right move buttons with their disabled edges (`Board`);
- the home page's optimistic status rewrite, the board-to-page wiring of the move
  buttons, and the page's mounting of the edit dialog (`Dashboard`);
- the list view's checkbox toggle, with the status it persists, and delete (`TaskList`);
- the new-task form: JavaScript `trim` validation, the inserted record, the form reset (`TaskInput`);
- the calendar's tasks-for-the-selected-day list and its day markers (`Calendar`);
- the edit dialog's initial form and its save payload and close rule (`EditDialog`);
- the settings page: defaults, loading from user metadata, profile and password saves,
  the offered reminder hours (`Settings`);
- the reminder job: preferred hour with its default of 9, task selection over a
  half-open one-day window, send-only-when-non-empty, and the report of delivered
  emails, as a method with a loop proved against a recursive specification (`Reminders`).

Shared modules: `Wrappers` (`Option`, `Result`), `Seqs` (order-preserving filter and
conditional map with their lemmas), `Tasks` (the task row and status vocabulary),
`Accounts` (users and their metadata), `Digits` (`parseInt` and number rendering on
digit strings).

Backend calls are replaced by inputs and outputs: a query is a filter over a given
table, an update is a returned payload record, and a call's error is an input flag or
message. The reminder job takes the current India Standard Time hour, the user listing,
and, per user, the midnight read from the clock (a millisecond timestamp) and the
mail transport's outcome as inputs. The calendar's "same day" test is a caller-supplied
`dayOf` function.

Failed deliveries are not reported: the code records only delivered emails
(`Reminders.Results`). The "today" window starts at the server's local midnight, not
at midnight in India Standard Time, and the code reads that midnight from the clock
afresh for each user it handles, so the model takes one observed midnight per user
position, alongside that user's delivery outcome.

## Model

| member | source | states |
|---|---|---|
| Board.ColumnsAreTheStatuses | components/task-board.tsx:28-32 | The board has exactly three columns, `todo`, `in-progress`, `done` in that order, with distinct ids that are exactly the known statuses. |
| Board.ColumnTasks | components/task-board.tsx:49 | A column shows exactly the tasks whose status equals its id. |
| Board.ColumnCount | components/task-board.tsx:43 | The badge count is at most the number of tasks and is zero exactly when no task has the column's status. |
| Board.ColumnTasksKeepOrder | components/task-board.tsx:49 | A column lists its cards in input order: the cards of a joined list are the cards of each part, joined. |
| Board.ColumnsPartitionTasks | components/task-board.tsx:43-49 | The three badge counts plus the tasks with an unknown status add up to the number of tasks. |
| Board.ColumnCountsCoverValidTasks | components/task-board.tsx:43-49 | The badge counts sum to at most the number of tasks, with equality if and only if every task has one of the three statuses. |
| Board.MoveLeft | components/task-board.tsx:77-80 | Move-left is disabled exactly in `todo`; an enabled move targets a column status other than `done`. |
| Board.MoveRight | components/task-board.tsx:89-92 | Move-right is disabled exactly in `done`; an enabled move targets a column status other than `todo`. |
| Board.MovesFollowColumnOrder | components/task-board.tsx:28-92 | In column i, move-left sends column i-1's id and move-right sends column i+1's id; they are disabled at the first and last column. |
| Board.MoveRoundTrip | components/task-board.tsx:77-92 | From any column, an enabled move followed by the opposite move returns the original status. |
| Dashboard.UpdateTaskStatus | app/page.tsx:56 | Length and positions are kept; every task with the id gets the new status and keeps all other fields; tasks with other ids are untouched. |
| Dashboard.UpdateTaskStatusIdempotent | app/page.tsx:56 | Applying the same status update twice equals applying it once. |
| Dashboard.UpdateTaskStatusAbsent | app/page.tsx:56 | When no task has the id, the list is unchanged. |
| Dashboard.UpdateTaskStatusLastWins | app/page.tsx:56 | Two updates of the same task equal the later one alone. |
| Dashboard.PressMoveLandsInTarget | app/page.tsx:55-58 | After an enabled move every copy of the card is in the target column and in no other column. |
| Dashboard.NewTaskShowsInTodo | components/task-input.tsx:38-45 | A task added through the form appears first in the To Do column after the newest-first refetch, and in neither other column. |
| Dashboard.StaleEditorOverwritesNextTask | components/edit-task-dialog.tsx:29-43 | Concrete case: after editing one task, saving the dialog for a second task unchanged writes the first task's title and priority to the second task's id. |
| Dashboard.EditorSavesOpenedTask | components/edit-task-dialog.tsx:29-43 | With the corrected opening, an unedited save writes the opened task's own values, and it rewrites the row to itself if and only if the row has a description and a non-empty priority. |
| TaskList.ToggleTask | components/task-list.tsx:52-59 | Locally only `is_completed` of the tasks with the id changes, to the negated flag, and status is untouched; the persisted status is `done` exactly when the new flag is true, else `todo`, never `in-progress`. |
| TaskList.ToggleNegatesShownFlag | components/task-list.tsx:54 | Clicking a task with a unique id flips its own flag and leaves every other position unchanged. |
| TaskList.ToggleTwiceRestores | components/task-list.tsx:54 | Clicking the same checkbox twice restores the original list. |
| TaskList.LocalDiffersFromPersistedOnlyInStatus | components/task-list.tsx:54-58 | The optimistic row and the persisted row of a toggled task differ only in `status`. |
| TaskList.DeleteTask | components/task-list.tsx:62 | A task survives a delete if and only if its id differs from the deleted id. |
| TaskList.DeleteKeepsOrder | components/task-list.tsx:62 | The survivors keep their original relative order. |
| TaskList.DeleteShrinksIffPresent | components/task-list.tsx:62 | The list is unchanged if and only if no task has the id, and it shrinks if and only if some task has it. |
| TaskList.DeleteIdempotent | components/task-list.tsx:62 | Deleting the same id twice equals deleting it once. |
| TaskInput.Trim | components/task-input.tsx:32 | The trimmed title is a contiguous part of the title whose prefix and suffix before and after it are all JavaScript whitespace; it is empty exactly when every character is whitespace, and otherwise starts and ends with a non-whitespace character. |
| TaskInput.FormPriorityIsOffered | components/task-input.tsx:96-99 | The form starts and is reset on one of the four offered priorities; after a submit the form holds an offered priority exactly when an insert reset it or it already held one. |
| TaskInput.AddTask | components/task-input.tsx:30-52 | An insert happens if and only if the title is not blank and a user is signed in; then it carries the untrimmed title, the workspace, the user as creator, status `todo`, the chosen priority and the date or null, and the form resets to empty, no date, `medium`; otherwise the form is unchanged. |
| Calendar.TasksForDate | components/task-calendar.tsx:21-23 | Nothing is listed when no day is selected; otherwise exactly the tasks with a due date on the selected day, whatever their status. |
| Calendar.DaysWithTasks | components/task-calendar.tsx:26-28 | One marker per task with a due date; the markers are exactly those due dates. |
| Calendar.TasksForDateKeepOrder | components/task-calendar.tsx:21-23 | The listing keeps input order. |
| Calendar.DoneTasksAreListed | components/task-calendar.tsx:21-23 | A done task due on the selected day is listed. |
| Calendar.ListedIffMarked | components/task-calendar.tsx:21-28 | Every listed task's due date is a marker, and the selected day lists a task if and only if some marker falls on that day. |
| EditDialog.InitialForm | components/edit-task-dialog.tsx:29-32 | The form copies title and due date, takes the description or the empty string, and the priority or `medium` when it is empty; with no task it is empty with `medium`. |
| EditDialog.HandleSave | components/edit-task-dialog.tsx:34-49 | With no task nothing is sent and the dialog stays; otherwise the four-field update goes to the task's id, its due date is null exactly when no date is chosen, and the dialog closes if and only if the update reports no error. |
| EditDialog.ApplyEdit | components/edit-task-dialog.tsx:38-43 | The update changes only title, description, priority and due date; status, completion and every other field are untouched. |
| EditDialog.InitialPriorityIsOffered | components/edit-task-dialog.tsx:80-83 | The selector starts on one of its four items exactly when there is no task, or the row's priority is one of them or empty. |
| EditDialog.SaveUnchangedIsIdentityIff | components/edit-task-dialog.tsx:29-43 | Opening and saving without edits rewrites the row to itself if and only if it has a description and a non-empty priority. |
| Settings.LoadSettings | app/settings/page.tsx:34-39 | A stored name or hour replaces the form's value only when present and non-empty; the password and message are kept. |
| Settings.SaveProfile | app/settings/page.tsx:45-64 | On success the metadata becomes the stored metadata merged with both fields and a success message shows; on error the metadata is unchanged and the error message shows; the form's fields are kept. |
| Settings.UpdatePassword | app/settings/page.tsx:66-82 | The password field is cleared on success and kept on error; name and hour are untouched. |
| Settings.SaveThenLoadRoundTrip | app/settings/page.tsx:34-55 | Loading after a successful save restores the saved name, and restores the hour if and only if it is non-empty; an empty hour comes back as `9`. |
| Settings.AllowedHoursAreHours | app/settings/page.tsx:131-138 | Every offered hour parses to one of 6, 7, 8, 9, 10, 11, 12, 18, all within 0..23. |
| Settings.SettingsAgreeWithReminderJob | app/settings/page.tsx:17-39 | For any stored metadata, the hour the settings page shows after loading parses to the hour the reminder job uses. |
| Settings.SavedHourIsReminderHour | app/settings/page.tsx:126-139 | A user who saves an offered hour is reminded at exactly that hour. |
| Digits.ParseNatToString | app/api/send-reminders/route.ts:90 | Rendering a number and parsing it back returns the number. |
| Reminders.PreferredHour | app/api/send-reminders/route.ts:43 | The preferred hour is the parsed stored hour, or 9 when it is missing or empty. |
| Reminders.DueToday | app/api/send-reminders/route.ts:51-62 | A task is selected if and only if the user created it, its due date lies in [today, today + one day), and its status is not `done`. |
| Reminders.Greeting | app/api/send-reminders/route.ts:72 | The greeting is the display name when present and non-empty, else `there`. |
| Reminders.Plan | app/api/send-reminders/route.ts:46-72 | An email is composed if and only if the preferred hour equals the current hour and at least one task is selected; it goes to the user's address, lists the selected tasks and its subject carries their count. |
| Reminders.SendReminders | app/api/send-reminders/route.ts:10-97 | A listing error gives status 500 with the error and no emails; otherwise status 200, the current hour as `H:00`, the emails in user order, each selecting tasks in the window of the midnight read for that user, and one `sent` entry per delivered email in user order. |
| Reminders.ResultsAreDeliveredAttempts | app/api/send-reminders/route.ts:64-83 | Every entry is `sent` for a listed user due now with tasks selected in the window of the midnight read for that user; entries are no more than attempts, attempts no more than users. |
| Reminders.Entry | app/api/send-reminders/route.ts:64-83 | A user contributes at most one entry, exactly when an email was composed for them and its delivery succeeded, and that entry is their address with status `sent`. |
| Reminders.ResultsSnoc | app/api/send-reminders/route.ts:41-86 | Appending a user to the listing appends exactly that user's entry to the report. |
| Reminders.ResultsConcat | app/api/send-reminders/route.ts:41-86 | Users are handled independently: the report for a split listing is the two reports joined. |
| Reminders.FailedDeliveryAddsNothing | app/api/send-reminders/route.ts:80-83 | A failed delivery adds no entry and the report of the rest is unaffected. |
| Reminders.OtherHoursAreSkipped | app/api/send-reminders/route.ts:46 | A user whose preferred hour differs from the current hour gets no email and no entry. |
| Reminders.DayWindowsAreDisjoint | app/api/send-reminders/route.ts:51-62 | Windows of midnights a whole number of days apart overlap only when they are the same window. |
| Reminders.DayWindowsCoverTime | app/api/send-reminders/route.ts:51-62 | Every due timestamp lies in the window of some midnight of a daily series. |
| Reminders.SubjectDeterminesCount | app/api/send-reminders/route.ts:70 | Different task counts give different subject lines. |

## Findings

| source | as written | input that shows it | evidently intended | confidence | as-written member | corrected member |
|---|---|---|---|---|---|---|
| app/page.tsx:125-131 | The edit dialog (components/edit-task-dialog.tsx:29-32) stays mounted after its first use and seeds its form only on mount, so reopening it for another task shows the earlier task's values, and Save writes them to the new task's id. | Edit task `a` titled "Buy milk", close, open task `b` titled "Pay rent", press Save: `b` is renamed "Buy milk" and gets `a`'s priority and due date. | The form shows the task the dialog was opened for, and an unedited save leaves that task as it was. | not executed; React state semantics reasoned from the code | Dashboard.StaleEditorOverwritesNextTask | Dashboard.EditorSavesOpenedTask |

## Left out

- Computing the current hour in India Standard Time with a named time zone: the hour is an input.
- Server-local midnight, day arithmetic and ISO-string conversion: timestamps are integers in milliseconds, each handled user's midnight is an observed input, and tomorrow is that midnight plus 86 400 000. A daylight-saving day of 23 or 25 hours is not modelled.
- Date formatting and the date library's `isSameDay`: the calendar day of a timestamp is the caller-supplied `dayOf`.
- Backend calls: authentication, the user listing's pagination, queries, inserts, updates, deletes, row-level policies and the realtime refetch. A query is a filter over a given table and an update is a returned payload record.
- A per-user task query that fails returns no data and the code skips the user; the model filters a table that is always available, so this case is not represented.
- The mail transport and the email's HTML body: an email keeps its recipient, subject, greeting and task list, and delivery is an input per user. Console logging is not modelled.
- React lifecycle: hooks, effects, loading flags, routing, `router.refresh`, rendering and priority colours, and the home page's welcome name.
- app/login/page.tsx, app/layout.tsx and utils/supabase/client.ts are not part of this model: they hold authentication and captcha plumbing over external services, static metadata, and a client constructor.
- Reminders.PreferredHour: `parseInt` is modelled on digit strings only; leading whitespace, signs and trailing non-digits, which `parseInt` accepts, parse to `None` here, standing for the `NaN` that matches no hour.
- Calendar.ListedIffMarked: the listing reads a due date with `parseISO` (local time) and the day markers with `new Date` (UTC for a date-only string); the model reads both as one timestamp, so the lemma assumes the stored string carries a time or an offset, as the `toISOString()` strings the app itself writes do. A date-only string can put the marker on the previous day west of UTC while the task is listed on the stored day.
- Calendar.TasksForDate: a due date stored as the empty string is falsy in the code and is modelled as a missing due date.
