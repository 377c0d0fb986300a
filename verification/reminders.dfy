/** The scheduled reminder job (app/api/send-reminders/route.ts). For every user
    whose preferred reminder hour equals the current hour in India Standard Time,
    it selects that user's unfinished tasks due in the one-day window starting at
    today's server-local midnight and, when there is at least one, emails them; each
    delivered email is reported in the response. The current hour, the user listing
    and the task table are inputs, and so is what the job observes per user: the
    midnight it reads from the clock while handling that user, and the mail
    transport's outcome. */
module Reminders {
  import opened Wrappers
  import opened Tasks
  import opened Accounts
  import opened Digits
  import Seqs

  /** The hour used when a user has stored no preference. */
  const DefaultReminderHour: string := "9"

  /** The status string of a report entry. */
  const Sent: string := "sent"

  /** The HTTP statuses the job answers with. */
  const HttpOk: nat := 200
  const HttpServerError: nat := 500

  datatype Email = Email(to: string, subject: string, greeting: string, tasks: seq<Task>)

  datatype SendResult = SendResult(user: string, status: string)

  datatype Body =
    | Report(success: bool, currentTimeIst: string, results: seq<SendResult>)
    | ErrorBody(error: string)

  datatype Response = Response(status: nat, body: Body)

  /** The hour at which `meta`'s owner wants reminders: the stored hour, or 9 when
      it is missing or empty. `None` stands for a stored value that is not a number. */
  function PreferredHour(meta: Metadata): (r: Option<nat>)
    ensures !Truthy(meta.reminderHour) ==> r == Some(9)
    ensures Truthy(meta.reminderHour) ==> r == ParseDigits(meta.reminderHour.value)
  {
    assert DefaultReminderHour[..0] == [];
    ParseDigits(OrElse(meta.reminderHour, DefaultReminderHour))
  }

  /** The user is handled in this run. */
  predicate IsDueNow(u: User, hourIst: nat) {
    PreferredHour(u.metadata) == Some(hourIst)
  }

  /** `due` lies in the half-open day `[dayStart, dayStart + one day)`. */
  predicate InDayWindow(due: Timestamp, dayStart: Timestamp) {
    dayStart <= due < dayStart + DayMs
  }

  /** The task query: the user's own tasks, due today, not done. */
  function DueToday(table: seq<Task>, userId: string, todayStart: Timestamp): (r: seq<Task>)
    ensures forall t :: t in r <==>
              && t in table
              && t.creatorId == userId
              && t.dueDate.Some? && InDayWindow(t.dueDate.value, todayStart)
              && t.status != Done
    ensures |r| <= |table|
  {
    Seqs.Filter(table, (t: Task) =>
      t.creatorId == userId && t.dueDate.Some? && InDayWindow(t.dueDate.value, todayStart) && t.status != Done)
  }

  /** The subject line for `n` tasks. */
  function Subject(n: nat): string {
    SubjectPrefix + NatToString(n) + SubjectSuffix
  }

  const SubjectPrefix: string := "You have "
  const SubjectSuffix: string := " tasks due today! \U{1F4C5}"

  /** The name the email greets: the display name, or `there`. */
  function Greeting(meta: Metadata): (r: string)
    ensures Truthy(meta.displayName) ==> r == meta.displayName.value
    ensures !Truthy(meta.displayName) ==> r == "there"
  {
    OrElse(meta.displayName, "there")
  }

  /** The email the job composes for `u`, or `None` when it sends nothing to `u`. */
  function Plan(u: User, table: seq<Task>, hourIst: nat, todayStart: Timestamp): (r: Option<Email>)
    ensures r.Some? <==> IsDueNow(u, hourIst) && |DueToday(table, u.id, todayStart)| > 0
    ensures r.Some? ==>
              && r.value.to == u.email
              && r.value.tasks == DueToday(table, u.id, todayStart)
              && |r.value.tasks| > 0
              && r.value.subject == Subject(|r.value.tasks|)
              && r.value.greeting == Greeting(u.metadata)
  {
    if !IsDueNow(u, hourIst) then None
    else
      var tasks := DueToday(table, u.id, todayStart);
      if |tasks| > 0 then Some(Email(u.email, Subject(|tasks|), Greeting(u.metadata), tasks)) else None
  }

  /** What the job observes while handling one user: today's server-local midnight,
      which the code reads from the clock afresh for every user whose hour matches, and
      the transport's outcome, read only when an email to that user is attempted. */
  datatype Observation = Observation(midnight: Timestamp, delivered: bool)

  /** The emails attempted, in user-list order; `env[i]` is what the job observes while
      handling `users[i]`. */
  function Outbox(users: seq<User>, table: seq<Task>, hourIst: nat, env: seq<Observation>): seq<Email>
    requires |env| == |users|
  {
    if |users| == 0 then []
    else
      var n := |users| - 1;
      Outbox(users[..n], table, hourIst, env[..n])
        + (match Plan(users[n], table, hourIst, env[n].midnight) case Some(m) => [m] case None => [])
  }

  /** The report entries: one per email the transport delivered, in user-list order. */
  function Results(users: seq<User>, table: seq<Task>, hourIst: nat, env: seq<Observation>): seq<SendResult>
    requires |env| == |users|
  {
    if |users| == 0 then []
    else
      var n := |users| - 1;
      Results(users[..n], table, hourIst, env[..n]) + Entry(users[n], table, hourIst, env[n])
  }

  /** The report entry one user contributes: a `sent` entry when an email was composed
      for the user and the transport delivered it, nothing otherwise. */
  function Entry(u: User, table: seq<Task>, hourIst: nat, o: Observation): (r: seq<SendResult>)
    ensures |r| <= 1
    ensures |r| == 1 <==> Plan(u, table, hourIst, o.midnight).Some? && o.delivered
    ensures |r| == 1 ==> r[0] == SendResult(u.email, Sent)
  {
    if Plan(u, table, hourIst, o.midnight).Some? && o.delivered then [SendResult(u.email, Sent)] else []
  }

  /** The scheduled handler. `listing` is the user listing or its error; `env` holds what
      the clock and the transport report per user position. */
  method SendReminders(listing: Result<seq<User>, string>, table: seq<Task>, hourIst: nat, env: seq<Observation>)
    returns (response: Response, outbox: seq<Email>)
    requires listing.Success? ==> |env| == |listing.value|
    ensures listing.Failure? ==> response == Response(HttpServerError, ErrorBody(listing.error)) && outbox == []
    ensures listing.Success? ==>
              && outbox == Outbox(listing.value, table, hourIst, env)
              && response == Response(HttpOk, Report(true, NatToString(hourIst) + ":00",
                                        Results(listing.value, table, hourIst, env)))
  {
    if listing.Failure? {
      return Response(HttpServerError, ErrorBody(listing.error)), [];
    }
    var users := listing.value;
    var results: seq<SendResult> := [];
    outbox := [];
    var i := 0;
    while i < |users|
      invariant i <= |users|
      invariant outbox == Outbox(users[..i], table, hourIst, env[..i])
      invariant results == Results(users[..i], table, hourIst, env[..i])
    {
      var u := users[i];
      if PreferredHour(u.metadata) == Some(hourIst) {
        var todayStart := env[i].midnight;
        var tasks := DueToday(table, u.id, todayStart);
        if |tasks| > 0 {
          outbox := outbox + [Email(u.email, Subject(|tasks|), Greeting(u.metadata), tasks)];
          if env[i].delivered {
            results := results + [SendResult(u.email, Sent)];
          }
        }
      }
      assert users[..i + 1][..i] == users[..i];
      assert env[..i + 1][..i] == env[..i];
      i := i + 1;
    }
    assert users[..|users|] == users;
    assert env[..|users|] == env;
    response := Response(HttpOk, Report(true, NatToString(hourIst) + ":00", results));
  }

  /** Every report entry is a `sent` entry for a user who was due now and had tasks due
      on the day the job read for that user; there are at most as many entries as
      attempted emails, and at most as many attempted emails as users. */
  lemma {:induction false} ResultsAreDeliveredAttempts(users: seq<User>, table: seq<Task>, hourIst: nat, env: seq<Observation>)
    requires |env| == |users|
    ensures var rs := Results(users, table, hourIst, env);
            var out := Outbox(users, table, hourIst, env);
            && |rs| <= |out| <= |users|
            && (forall e :: e in rs ==>
                  && e.status == Sent
                  && (exists i :: 0 <= i < |users| && users[i].email == e.user && IsDueNow(users[i], hourIst)
                                  && |DueToday(table, users[i].id, env[i].midnight)| > 0))
  {
    if |users| > 0 {
      var n := |users| - 1;
      ResultsAreDeliveredAttempts(users[..n], table, hourIst, env[..n]);
      assert forall i :: 0 <= i < n ==> users[..n][i] == users[i] && env[..n][i] == env[i];
    }
  }

  /** Handling one more user appends that user's entry to the report. */
  lemma ResultsSnoc(users: seq<User>, u: User, env: seq<Observation>, o: Observation, table: seq<Task>, hourIst: nat)
    requires |env| == |users|
    ensures Results(users + [u], table, hourIst, env + [o])
         == Results(users, table, hourIst, env) + Entry(u, table, hourIst, o)
  {
    assert (users + [u])[..|users|] == users;
    assert (env + [o])[..|users|] == env;
  }

  /** Peeling the last element off the right operand of a concatenation. */
  lemma SplitLast<T>(a: seq<T>, b: seq<T>)
    requires |b| > 0
    ensures b == b[..|b| - 1] + [b[|b| - 1]]
    ensures a + b == (a + b[..|b| - 1]) + [b[|b| - 1]]
  {
  }

  /** The job treats users independently: the report for a listing split in two is the
      two reports joined, so a failed delivery does not stop later users being served. */
  lemma {:induction false} ResultsConcat(a: seq<User>, b: seq<User>, ea: seq<Observation>, eb: seq<Observation>, table: seq<Task>, hourIst: nat)
    requires |ea| == |a| && |eb| == |b|
    ensures Results(a + b, table, hourIst, ea + eb)
         == Results(a, table, hourIst, ea) + Results(b, table, hourIst, eb)
  {
    if |b| == 0 {
      assert a + b == a && ea + eb == ea;
    } else {
      var n := |b| - 1;
      ResultsConcat(a, b[..n], ea, eb[..n], table, hourIst);
      SplitLast(a, b);
      SplitLast(ea, eb);
      ResultsSnoc(a + b[..n], b[n], ea + eb[..n], eb[n], table, hourIst);
      ResultsSnoc(b[..n], b[n], eb[..n], eb[n], table, hourIst);
    }
  }

  /** A user whose delivery fails adds no entry to the report. */
  lemma FailedDeliveryAddsNothing(users: seq<User>, u: User, env: seq<Observation>, midnight: Timestamp, table: seq<Task>, hourIst: nat)
    requires |env| == |users|
    ensures Results(users + [u], table, hourIst, env + [Observation(midnight, false)])
         == Results(users, table, hourIst, env)
  {
    assert (users + [u])[..|users|] == users;
    assert (env + [Observation(midnight, false)])[..|users|] == env;
  }

  /** A user whose preference does not match the current hour gets no email and no
      entry, whatever the clock and the transport would have reported. */
  lemma OtherHoursAreSkipped(users: seq<User>, u: User, env: seq<Observation>, o: Observation, table: seq<Task>, hourIst: nat)
    requires |env| == |users|
    requires !IsDueNow(u, hourIst)
    ensures Outbox(users + [u], table, hourIst, env + [o]) == Outbox(users, table, hourIst, env)
    ensures Results(users + [u], table, hourIst, env + [o]) == Results(users, table, hourIst, env)
  {
    assert (users + [u])[..|users|] == users;
    assert (env + [o])[..|users|] == env;
  }

  /** The reminder windows of consecutive days do not overlap: a due timestamp lies in
      the window of at most one midnight of a series spaced one day apart. */
  lemma DayWindowsAreDisjoint(due: Timestamp, day1: Timestamp, day2: Timestamp, k: int)
    requires day2 == day1 + k * DayMs
    requires InDayWindow(due, day1) && InDayWindow(due, day2)
    ensures k == 0 && day1 == day2
  {
  }

  /** Every due timestamp lies in the window of some midnight of the series starting at `base`. */
  lemma DayWindowsCoverTime(due: Timestamp, base: Timestamp)
    ensures InDayWindow(due, base + ((due - base) / DayMs) * DayMs)
  {
  }

  /** The task count can be read back from the subject line: different counts give different subjects. */
  lemma SubjectDeterminesCount(a: nat, b: nat)
    requires Subject(a) == Subject(b)
    ensures a == b
  {
    var p := SubjectPrefix;
    var sa := NatToString(a);
    var sb := NatToString(b);
    assert |sa| == |sb|;
    assert Subject(a)[|p|..|p| + |sa|] == sa;
    assert Subject(b)[|p|..|p| + |sb|] == sb;
    NatToStringInjective(a, b);
  }
}
