/** app.js: the flash-message middleware, the root redirect and the
    dashboard. */
module App {
  import opened Common
  import opened Text
  import opened Query
  import opened Store
  import opened Ordering
  import AuthMiddleware
  import Appointments

  // ---------------------------------------------------------------------------
  // Flash messages turned into a SweetAlert script
  // ---------------------------------------------------------------------------

  /** `s.replace(/'/g, "\\'")`: a backslash before every single quote.
      Backslashes already in `s` are not escaped, so a message holding `\'`
      would not read back as itself inside the script; the app's flash
      texts are fixed phrases and counts, which hold no backslash. */
  function Escape(s: string): (r: string)
    ensures |r| == |s| + Occurrences(s, '\'')
    ensures r == [] || r[0] != '\''
  {
    if s == [] then []
    else if s[0] == '\'' then ['\\', '\''] + Escape(s[1..])
    else [s[0]] + Escape(s[1..])
  }

  /** Undoing `Escape`: drops the backslash in front of each quote. This is
      not how the browser reads the script text, since that would also
      turn a lone `\\` into one backslash. */
  function DropInsertedBackslashes(r: string): string
  {
    if |r| >= 2 && r[0] == '\\' && r[1] == '\'' then ['\''] + DropInsertedBackslashes(r[2..])
    else if r == [] then []
    else [r[0]] + DropInsertedBackslashes(r[1..])
  }

  /** Removing the inserted backslashes gives the message back. */
  lemma {:induction false} EscapeRoundTrip(s: string)
    ensures DropInsertedBackslashes(Escape(s)) == s
  {
    if s != [] {
      EscapeRoundTrip(s[1..]);
      var rest := Escape(s[1..]);
      if s[0] == '\'' {
        assert (['\\', '\''] + rest)[2..] == rest;
      } else {
        assert ([s[0]] + rest)[1..] == rest;
      }
      assert [s[0]] + s[1..] == s;
    }
  }

  /** Every quote in the escaped text has a backslash right before it. */
  lemma {:induction false} EscapeGuardsQuotes(s: string)
    ensures forall i :: 0 <= i < |Escape(s)| && Escape(s)[i] == '\'' ==> i > 0 && Escape(s)[i - 1] == '\\'
  {
    if s != [] {
      EscapeGuardsQuotes(s[1..]);
      var rest := Escape(s[1..]);
      var head: string := if s[0] == '\'' then ['\\', '\''] else [s[0]];
      assert Escape(s) == head + rest;
      forall i | 0 <= i < |head + rest| && (head + rest)[i] == '\'' ensures i > 0 && (head + rest)[i - 1] == '\\' {
        if i > |head| {
          assert (head + rest)[i] == rest[i - |head|];
          assert (head + rest)[i - 1] == rest[i - |head| - 1];
        }
      }
    }
  }

  function ErrorScript(message: string): string
  {
    "<script>Swal.fire({ title: 'Error!', text: '" + Escape(message) + "', icon: 'error' });</script>"
  }

  function SuccessScript(message: string): string
  {
    "<script>Swal.fire({ title: 'Success!', text: '" + Escape(message)
      + "', icon: 'success', timer: 3000, timerProgressBar: true });</script>"
  }

  /** The script chosen for the messages of this request: the error one when
      there is an error message, else the success one, else none. */
  function FlashScript(success: Option<string>, error: Option<string>): (script: Option<string>)
    ensures script.None? <==> !Truthy(error) && !Truthy(success)
    ensures Truthy(error) ==> script == Some(ErrorScript(error.value))
    ensures !Truthy(error) && Truthy(success) ==> script == Some(SuccessScript(success.value))
  {
    if Truthy(error) then Some(ErrorScript(error.value))
    else if Truthy(success) then Some(SuccessScript(success.value))
    else None
  }

  /** The queued flash messages in the session, by key (connect-flash). */
  class FlashStore {
    var queues: map<string, seq<string>>

    constructor (queues: map<string, seq<string>>)
      ensures this.queues == queues
    {
      this.queues := queues;
    }

    function Queue(key: string): seq<string>
      reads this
    {
      if key in queues then queues[key] else []
    }

    /** `req.flash(key)`: the messages queued under `key`, which are removed. */
    method Take(key: string) returns (messages: seq<string>)
      modifies this
      ensures messages == old(Queue(key))
      ensures queues == old(queues) - {key}
    {
      messages := Queue(key);
      queues := queues - {key};
    }
  }

  /** `res.locals` as the middleware leaves them for the views. */
  class Locals {
    var successMsg: Option<string>
    var errorMsg: Option<string>
    var flashScript: Option<string>

    constructor ()
      ensures successMsg.None? && errorMsg.None? && flashScript.None?
    {
      successMsg, errorMsg, flashScript := None, None, None;
    }
  }

  /** `list[0]`: `undefined` for an empty list. */
  function First(messages: seq<string>): Option<string>
  {
    if messages == [] then None else Some(messages[0])
  }

  /** The flash middleware. The first success message and the first error
      message (from `error_msg`, or from `error` when that is falsy) are
      taken; the `error` queue is consumed only when it is consulted; the
      error takes priority in the script. */
  method FlashMiddleware(flash: FlashStore, locals: Locals)
    modifies flash, locals
    ensures locals.successMsg == First(old(flash.Queue("success_msg")))
    ensures Truthy(First(old(flash.Queue("error_msg")))) ==>
      && locals.errorMsg == First(old(flash.Queue("error_msg")))
      && flash.queues == old(flash.queues) - {"success_msg"} - {"error_msg"}
    ensures !Truthy(First(old(flash.Queue("error_msg")))) ==>
      && locals.errorMsg == First(old(flash.Queue("error")))
      && flash.queues == old(flash.queues) - {"success_msg"} - {"error_msg"} - {"error"}
    ensures locals.flashScript == FlashScript(locals.successMsg, locals.errorMsg)
  {
    var successes := flash.Take("success_msg");
    var successMsg := First(successes);
    var errors := flash.Take("error_msg");
    var errorMsg := First(errors);
    if !Truthy(errorMsg) {
      var others := flash.Take("error");
      errorMsg := First(others);
    }
    locals.successMsg := successMsg;
    locals.errorMsg := errorMsg;
    locals.flashScript := None;
    if Truthy(errorMsg) {
      locals.flashScript := Some(ErrorScript(errorMsg.value));
    } else if Truthy(successMsg) {
      locals.flashScript := Some(SuccessScript(successMsg.value));
    }
  }

  // ---------------------------------------------------------------------------
  // GET /
  // ---------------------------------------------------------------------------

  /** GET /: to the dashboard with a signed-in session, to the login page
      otherwise. */
  function RootRedirect(session: Session): (location: string)
    reads session
  {
    if session.userId.Some? && session.userId.value != 0 then "/dashboard" else "/auth/login"
  }

  /** The root route sends to the dashboard exactly the sessions the
      authentication gate lets through, and everyone else to the login
      page the gate would send them to. */
  lemma RootAgreesWithGate(session: Session)
    ensures RootRedirect(session) == "/dashboard" <==> AuthMiddleware.EnsureAuthenticated(session).callsNext
    ensures RootRedirect(session) != "/dashboard" ==>
      Some(RootRedirect(session)) == AuthMiddleware.EnsureAuthenticated(session).redirectTo
  {
  }

  // ---------------------------------------------------------------------------
  // GET /dashboard: the counts
  // ---------------------------------------------------------------------------

  /** `user_id = ? AND date(appointment_date) = date('now')`. */
  function OnDay(userId: int, day: int): Appointment -> bool
  {
    (a: Appointment) => a.userId == userId && a.date.day == day
  }

  /** … `AND status = 'Completed'`. */
  function CompletedOnDay(userId: int, day: int): Appointment -> bool
  {
    (a: Appointment) => a.userId == userId && a.date.day == day && a.status == Completed
  }

  /** `user_id = ?` on patients. */
  function OwnedPatient(userId: int): Patient -> bool
  {
    (p: Patient) => p.userId == userId
  }

  /** `user_id = ? AND date(created_at) >= date('now', '-6 days')`. */
  function CreatedSince(userId: int, day: int): Patient -> bool
  {
    (p: Patient) => p.userId == userId && p.createdAt.day >= day
  }

  /** `user_id = ? AND status = 'Scheduled' AND date(appointment_date) >= date('now')`. */
  function ScheduledFrom(userId: int, day: int): Appointment -> bool
  {
    (a: Appointment) => a.userId == userId && a.status == Scheduled && a.date.day >= day
  }

  /** … `> date('now') AND date(appointment_date) <= date('now', '+7 days')`. */
  function ScheduledWithin(userId: int, after: int, last: int): Appointment -> bool
  {
    (a: Appointment) => a.userId == userId && a.status == Scheduled && after < a.date.day <= last
  }

  /** A user's Scheduled appointments on one day. */
  function ScheduledOn(userId: int, day: int): Appointment -> bool
  {
    (a: Appointment) => a.userId == userId && a.status == Scheduled && a.date.day == day
  }

  /** … `date(a.appointment_date) < date('now') AND a.status = 'Scheduled'`. */
  function PastDue(userId: int, today: int): Appointment -> bool
  {
    (a: Appointment) => a.userId == userId && a.date.day < today && a.status == Scheduled
  }

  /** A dashboard figure: a count, or 'N/A' when the dashboard failed. */
  datatype Stat = Count(n: nat) | NotAvailable

  // ---------------------------------------------------------------------------
  // GET /dashboard: the 5-day forecast
  // ---------------------------------------------------------------------------

  /** `WITH RECURSIVE dates(date)`: `first`, then the next day while the last
      one is before `last`. */
  function DateSeries(first: int, last: int): (days: seq<int>)
    requires first <= last
    decreases last - first
    ensures |days| == last - first + 1
    ensures forall k :: 0 <= k < |days| ==> days[k] == first + k
  {
    if first < last then [first] + DateSeries(first + 1, last) else [first]
  }

  /** `LEFT JOIN appointments … GROUP BY d.date`: `COUNT(a.id)` per listed
      day, 0 for a day without appointments. */
  function ForecastCounts(appointments: seq<Appointment>, userId: int, days: seq<int>): (counts: seq<nat>)
    ensures |counts| == |days|
    ensures forall k :: 0 <= k < |days| ==> counts[k] == CountWhere(appointments, ScheduledOn(userId, days[k]))
  {
    if days == [] then [] else [CountWhere(appointments, ScheduledOn(userId, days[0]))] + ForecastCounts(appointments, userId, days[1..])
  }

  /** The forecast over a run of consecutive days adds up to the count of
      Scheduled appointments in that run. */
  lemma {:induction false} ForecastSum(appointments: seq<Appointment>, userId: int, first: int, last: int)
    requires first <= last
    decreases last - first
    ensures Sum(ForecastCounts(appointments, userId, DateSeries(first, last)))
         == CountWhere(appointments, ScheduledWithin(userId, first - 1, last))
  {
    var days := DateSeries(first, last);
    var counts := ForecastCounts(appointments, userId, days);
    assert counts[1..] == ForecastCounts(appointments, userId, days[1..]);
    if first < last {
      assert days[1..] == DateSeries(first + 1, last);
      ForecastSum(appointments, userId, first + 1, last);
      CountWhereDisjoint(appointments, ScheduledOn(userId, first), ScheduledWithin(userId, first, last),
                         ScheduledWithin(userId, first - 1, last));
    } else {
      assert counts[1..] == [];
      CountWhereExt(appointments, ScheduledOn(userId, first), ScheduledWithin(userId, first - 1, last));
    }
  }

  // ---------------------------------------------------------------------------
  // GET /dashboard: the two lists
  // ---------------------------------------------------------------------------

  /** `ORDER BY a.appointment_date ASC` on joined rows. */
  predicate OldestFirstRow(x: (Appointment, Option<Patient>), y: (Appointment, Option<Patient>))
  {
    OldestFirst(x.0, y.0)
  }

  /** `ORDER BY a.appointment_date DESC` on inner-joined rows. */
  predicate NewestFirstJoined(x: (Appointment, Patient), y: (Appointment, Patient))
  {
    NewestFirst(x.0, y.0)
  }

  lemma DashboardOrdersTotal()
    ensures TotalPreorder(OldestFirstRow) && TotalPreorder(NewestFirstJoined)
  {
  }

  /** Today's schedule: the user's appointments of today with the patient
      they join to (if any), earliest first, at most 10. A joined row left
      out is no earlier than any row listed. */
  function TodaysSchedule(appointments: seq<Appointment>, patients: seq<Patient>, userId: int, today: int)
    : (rows: seq<(Appointment, Option<Patient>)>)
    ensures forall i :: 0 <= i < |rows| ==>
      rows[i].0 in appointments && OnDay(userId, today)(rows[i].0)
    ensures forall i, j :: 0 <= i < j < |rows| ==> OldestFirst(rows[i].0, rows[j].0)
    ensures FirstRowsOf(rows, LeftJoin(Filter(appointments, OnDay(userId, today)), patients, Appointments.JoinOn), OldestFirstRow, 10)
  {
    var todays := Filter(appointments, OnDay(userId, today));
    LeftJoinRowsFromLeft(todays, patients, Appointments.JoinOn);
    DashboardOrdersTotal();
    Top(LeftJoin(todays, patients, Appointments.JoinOn), OldestFirstRow, 10)
  }

  /** With the patients' keys distinct, the schedule holds all of today's
      appointments when there are at most 10, and 10 otherwise. */
  lemma TodaysScheduleLength(appointments: seq<Appointment>, patients: seq<Patient>, userId: int, today: int)
    requires DistinctKeys(patients, PatientKey)
    ensures var n := CountWhere(appointments, OnDay(userId, today));
      |TodaysSchedule(appointments, patients, userId, today)| == if n < 10 then n else 10
  {
    var todays := Filter(appointments, OnDay(userId, today));
    forall i | 0 <= i < |todays| ensures CountWhere(patients, MatchOf(Appointments.JoinOn, todays[i])) <= 1 {
      Appointments.JoinFindsAtMostOne(patients, todays[i]);
    }
    LeftJoinIsLookup(todays, patients, Appointments.JoinOn);
  }

  /** Every row of a LEFT JOIN carries a left row. */
  lemma {:induction false} LeftJoinRowsFromLeft<A, B>(left: seq<A>, right: seq<B>, on: (A, B) -> bool)
    ensures forall x :: x in LeftJoin(left, right, on) ==> x.0 in left
  {
    if left != [] {
      LeftJoinRowsFromLeft(left[1..], right, on);
      assert forall x :: x in left[1..] ==> x in left;
    }
  }

  /** Past-due appointments: the user's Scheduled appointments before today
      that join to one of the user's patients, newest first, at most 5. */
  function PastDueList(appointments: seq<Appointment>, patients: seq<Patient>, userId: int, today: int)
    : (rows: seq<(Appointment, Patient)>)
    ensures FirstRowsOf(rows, InnerJoin(Filter(appointments, PastDue(userId, today)), patients, Appointments.JoinOn), NewestFirstJoined, 5)
    ensures forall i :: 0 <= i < |rows| ==>
      && rows[i].0 in appointments && PastDue(userId, today)(rows[i].0)
      && rows[i].1 in patients && Appointments.JoinOn(rows[i].0, rows[i].1)
    ensures forall i, j :: 0 <= i < j < |rows| ==> NewestFirst(rows[i].0, rows[j].0)
  {
    var due := Filter(appointments, PastDue(userId, today));
    InnerJoinRowsMatch(due, patients, Appointments.JoinOn);
    DashboardOrdersTotal();
    Top(InnerJoin(due, patients, Appointments.JoinOn), NewestFirstJoined, 5)
  }

  /** Every row of a JOIN is a left row and a right row that match. */
  lemma InnerJoinRowsMatch<A, B>(left: seq<A>, right: seq<B>, on: (A, B) -> bool)
    ensures forall x :: x in InnerJoin(left, right, on) ==> x.0 in left && x.1 in right && on(x.0, x.1)
  {
    var joined := InnerJoin(left, right, on);
    forall x | x in joined ensures x.0 in left && x.1 in right && on(x.0, x.1) {
      var k :| 0 <= k < |joined| && joined[k] == x;
    }
  }

  // ---------------------------------------------------------------------------
  // GET /dashboard
  // ---------------------------------------------------------------------------

  datatype Dashboard = Dashboard(
    todayAppointments: Stat,
    completedToday: Stat,
    totalPatients: Stat,
    newPatientsWeek: Stat,
    scheduledAppointments: Stat,
    upcomingAppointments: Stat,
    todaysSchedule: seq<(Appointment, Option<Patient>)>,
    forecastDays: seq<int>,
    forecastData: seq<nat>,
    pastDueAppointments: seq<(Appointment, Patient)>,
    error: Option<string>)

  /** GET /dashboard for the day `today`. The nine queries either all
      succeed or the page shows 'N/A' everywhere and no lists. */
  function DashboardView(appointments: seq<Appointment>, patients: seq<Patient>, userId: int, today: int, fails: bool)
    : (d: Dashboard)
    ensures fails ==> d == Dashboard(NotAvailable, NotAvailable, NotAvailable, NotAvailable, NotAvailable, NotAvailable,
                                     [], [], [], [], Some("Could not load dashboard statistics."))
    ensures !fails ==>
      && d.error.None?
      && d.todayAppointments == Count(CountWhere(appointments, OnDay(userId, today)))
      && d.completedToday == Count(CountWhere(appointments, CompletedOnDay(userId, today)))
      && d.totalPatients == Count(CountWhere(patients, OwnedPatient(userId)))
      && d.newPatientsWeek == Count(CountWhere(patients, CreatedSince(userId, today - 6)))
      && d.scheduledAppointments == Count(CountWhere(appointments, ScheduledFrom(userId, today)))
      && d.upcomingAppointments == Count(CountWhere(appointments, ScheduledWithin(userId, today, today + 7)))
      && d.forecastDays == DateSeries(today, today + 4)
      && d.forecastData == ForecastCounts(appointments, userId, d.forecastDays)
      && d.todaysSchedule == TodaysSchedule(appointments, patients, userId, today)
      && d.pastDueAppointments == PastDueList(appointments, patients, userId, today)
  {
    if fails then
      Dashboard(NotAvailable, NotAvailable, NotAvailable, NotAvailable, NotAvailable, NotAvailable,
                [], [], [], [], Some("Could not load dashboard statistics."))
    else
      var days := DateSeries(today, today + 4);
      Dashboard(
        Count(CountWhere(appointments, OnDay(userId, today))),
        Count(CountWhere(appointments, CompletedOnDay(userId, today))),
        Count(CountWhere(patients, OwnedPatient(userId))),
        Count(CountWhere(patients, CreatedSince(userId, today - 6))),
        Count(CountWhere(appointments, ScheduledFrom(userId, today))),
        Count(CountWhere(appointments, ScheduledWithin(userId, today, today + 7))),
        TodaysSchedule(appointments, patients, userId, today),
        days,
        ForecastCounts(appointments, userId, days),
        PastDueList(appointments, patients, userId, today),
        None)
  }

  /** Every figure of the dashboard is a count. */
  predicate AllCounted(d: Dashboard)
  {
    && d.todayAppointments.Count? && d.completedToday.Count? && d.totalPatients.Count?
    && d.newPatientsWeek.Count? && d.scheduledAppointments.Count? && d.upcomingAppointments.Count?
  }

  /** Every figure of the dashboard is 'N/A'. */
  predicate NoneAvailable(d: Dashboard)
  {
    && d.todayAppointments == NotAvailable && d.completedToday == NotAvailable && d.totalPatients == NotAvailable
    && d.newPatientsWeek == NotAvailable && d.scheduledAppointments == NotAvailable && d.upcomingAppointments == NotAvailable
  }

  /** Either every figure is a count (with no error) or every figure is
      'N/A' (with the error text): the queries succeed or fail together. */
  lemma DashboardAllOrNothing(appointments: seq<Appointment>, patients: seq<Patient>, userId: int, today: int, fails: bool)
    ensures var d := DashboardView(appointments, patients, userId, today, fails);
      (AllCounted(d) && d.error.None? && !fails) || (NoneAvailable(d) && d.error.Some? && fails)
  {
  }

  /** Completed-today never exceeds today's appointments. */
  lemma CompletedTodayAtMostToday(appointments: seq<Appointment>, patients: seq<Patient>, userId: int, today: int)
    ensures var d := DashboardView(appointments, patients, userId, today, false);
      d.completedToday.n <= d.todayAppointments.n
  {
    CountWhereMono(appointments, CompletedOnDay(userId, today), OnDay(userId, today));
  }

  /** The next seven days' Scheduled appointments are among those from today
      on. */
  lemma UpcomingAtMostScheduled(appointments: seq<Appointment>, patients: seq<Patient>, userId: int, today: int)
    ensures var d := DashboardView(appointments, patients, userId, today, false);
      d.upcomingAppointments.n <= d.scheduledAppointments.n
  {
    CountWhereMono(appointments, ScheduledWithin(userId, today, today + 7), ScheduledFrom(userId, today));
  }

  /** The forecast has five entries for today and the next four days, in
      order, and together they count no more than the Scheduled figure. */
  lemma ForecastShape(appointments: seq<Appointment>, patients: seq<Patient>, userId: int, today: int)
    ensures var d := DashboardView(appointments, patients, userId, today, false);
      && |d.forecastDays| == 5 && |d.forecastData| == 5
      && (forall k :: 0 <= k < 5 ==> d.forecastDays[k] == today + k)
      && (forall k :: 0 <= k < 5 ==> d.forecastData[k] == CountWhere(appointments, ScheduledOn(userId, today + k)))
      && Sum(d.forecastData) <= d.scheduledAppointments.n
  {
    var d := DashboardView(appointments, patients, userId, today, false);
    ForecastDaysAhead(appointments, userId, today, 4);
    ForecastSum(appointments, userId, today, today + 4);
    CountWhereMono(appointments, ScheduledWithin(userId, today - 1, today + 4), ScheduledFrom(userId, today));
  }

  /** The forecast entry `k` counts the Scheduled appointments `k` days after
      the first. */
  lemma ForecastDaysAhead(appointments: seq<Appointment>, userId: int, first: int, ahead: nat)
    ensures var counts := ForecastCounts(appointments, userId, DateSeries(first, first + ahead));
      forall k :: 0 <= k <= ahead ==> counts[k] == CountWhere(appointments, ScheduledOn(userId, first + k))
  {
    var days := DateSeries(first, first + ahead);
    var counts := ForecastCounts(appointments, userId, days);
    forall k | 0 <= k <= ahead ensures counts[k] == CountWhere(appointments, ScheduledOn(userId, first + k)) {
      assert days[k] == first + k;
    }
  }
}
