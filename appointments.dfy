/** routes/appointments.js: the signed-in user's appointments. */
module Appointments {
  import opened Common
  import opened Http
  import opened Text
  import opened Query
  import opened Paging
  import opened Sql
  import opened Store
  import opened Ordering

  // ---------------------------------------------------------------------------
  // Row predicates
  // ---------------------------------------------------------------------------

  /** `WHERE id = ? AND user_id = ?`. */
  function Owned(appointmentId: int, userId: int): Appointment -> bool
  {
    (a: Appointment) => a.id == appointmentId && a.userId == userId
  }

  /** `LEFT JOIN patients p ON a.patient_id = p.id AND a.user_id = p.user_id`. */
  predicate JoinOn(a: Appointment, p: Patient)
  {
    a.patientId == p.id && a.userId == p.userId
  }

  /** The patient row an appointment joins to, NULL when there is none. */
  function JoinedPatient(patients: seq<Patient>): Appointment -> Option<Patient>
  {
    Lookup(patients, JoinOn)
  }

  /** The join is on the patients' primary key, so it finds at most one row. */
  lemma JoinFindsAtMostOne(patients: seq<Patient>, a: Appointment)
    requires DistinctKeys(patients, PatientKey)
    ensures CountWhere(patients, MatchOf(JoinOn, a)) <= 1
  {
    AtMostOneWithKey(patients, PatientKey, a.patientId, MatchOf(JoinOn, a));
  }

  /** `['Scheduled', 'Completed', 'Cancelled'].includes(status)`. */
  predicate KnownStatus(status: string)
  {
    status in [Scheduled, Completed, Cancelled]
  }

  /** A joined patient whose first or last name contains the search term. */
  predicate NameMatches(patient: Option<Patient>, search: string)
  {
    patient.Some? && (Contains(patient.value.firstName, search) || Contains(patient.value.lastName, search))
  }

  /** The appointments the list shows: the user's; with a search term, those
      joined to a patient whose name contains it; with a known status, those
      in that status. */
  function Visible(userId: int, search: string, status: string, patients: seq<Patient>): Appointment -> bool
  {
    (a: Appointment) =>
      && a.userId == userId
      && (search == "" || NameMatches(JoinedPatient(patients)(a), search))
      && (!KnownStatus(status) || a.status == status)
  }

  // ---------------------------------------------------------------------------
  // GET /appointments: the WHERE clause and parameter arrays
  // ---------------------------------------------------------------------------

  function SearchConditions(search: string): seq<Condition>
  {
    if search == "" then [] else [NameLike]
  }

  function StatusConditions(status: string): seq<Condition>
  {
    if KnownStatus(status) then [StatusIs] else []
  }

  function ListConditions(search: string, status: string): seq<Condition>
  {
    [UserIs] + SearchConditions(search) + StatusConditions(status)
  }

  function SearchParams(search: string): seq<Param>
  {
    if search == "" then [] else [TextParam(LikePattern(search)), TextParam(LikePattern(search))]
  }

  function StatusParams(status: string): seq<Param>
  {
    if KnownStatus(status) then [TextParam(status)] else []
  }

  function ListCountParams(userId: int, search: string, status: string): seq<Param>
  {
    [IntParam(userId)] + SearchParams(search) + StatusParams(status)
  }

  lemma ListConditionsArity(userId: int, search: string, status: string)
    ensures TotalArity([UserIs] + SearchConditions(search)) == 1 + |SearchParams(search)|
    ensures TotalArity(ListConditions(search, status)) == |ListCountParams(userId, search, status)|
  {
    TotalArityAppend([], UserIs);
    assert [] + [UserIs] == [UserIs];
    if search != "" {
      TotalArityAppend([UserIs], NameLike);
    } else {
      assert [UserIs] + SearchConditions(search) == [UserIs];
    }
    if KnownStatus(status) {
      TotalArityAppend([UserIs] + SearchConditions(search), StatusIs);
    } else {
      assert ListConditions(search, status) == [UserIs] + SearchConditions(search);
    }
  }

  /** The status condition is present exactly for a known status, the name
      condition exactly for a non-empty search term. */
  lemma ListConditionsPresent(search: string, status: string)
    ensures StatusIs in ListConditions(search, status) <==> KnownStatus(status)
    ensures NameLike in ListConditions(search, status) <==> search != ""
  {
    var cs := ListConditions(search, status);
    if search == "" && KnownStatus(status) {
      assert cs == [UserIs, StatusIs];
    } else if search == "" {
      assert cs == [UserIs];
    } else if KnownStatus(status) {
      assert cs == [UserIs, NameLike, StatusIs];
    } else {
      assert cs == [UserIs, NameLike];
    }
  }

  /** Building `whereClauses`, `countSqlParams` and `baseSqlParams`: the user
      condition, then the name search when a term is given, then the status
      condition only when the status is exactly one of the three known ones. */
  method BuildListQuery(userId: int, search: string, status: string, page: int) returns (q: ListQuery)
    ensures q.conditions == ListConditions(search, status)
    ensures StatusIs in q.conditions <==> KnownStatus(status)
    ensures NameLike in q.conditions <==> search != ""
    ensures q.countParams == ListCountParams(userId, search, status)
    ensures |q.countParams| == 1 + (if search == "" then 0 else 2) + (if KnownStatus(status) then 1 else 0)
    ensures q.whereClauses == WhereText(q.conditions, true)
    ensures Occurrences(q.whereClauses, '?') == |q.countParams| == TotalArity(q.conditions)
    ensures q.dataParams == q.countParams + [IntParam(PageSize), IntParam(Offset(page))]
    ensures q.Limit() == Some(PageSize as int) && q.OffsetParam() == Some(Offset(page))
  {
    var conditions := [UserIs];
    var baseSqlParams := [IntParam(userId)];
    var countSqlParams := [IntParam(userId)];
    var whereClauses := "WHERE " + ConditionText(UserIs, true);
    if search != "" {
      WhereTextAppend(conditions, NameLike, true);
      conditions := conditions + [NameLike];
      whereClauses := whereClauses + " AND " + ConditionText(NameLike, true);
      var searchTerm := LikePattern(search);
      baseSqlParams := baseSqlParams + [TextParam(searchTerm), TextParam(searchTerm)];
      countSqlParams := countSqlParams + [TextParam(searchTerm), TextParam(searchTerm)];
    }
    if status != "" && KnownStatus(status) {
      WhereTextAppend(conditions, StatusIs, true);
      conditions := conditions + [StatusIs];
      whereClauses := whereClauses + " AND " + ConditionText(StatusIs, true);
      baseSqlParams := baseSqlParams + [TextParam(status)];
      countSqlParams := countSqlParams + [TextParam(status)];
    }
    baseSqlParams := baseSqlParams + [IntParam(PageSize), IntParam(Offset(page))];
    assert conditions == ListConditions(search, status);
    ListConditionsPresent(search, status);
    WhereTextPlaceholders(conditions, true);
    ListConditionsArity(userId, search, status);
    q := ListQuery(conditions, whereClauses, countSqlParams, baseSqlParams);
    LimitOffsetFollowWhere(q, PageSize, Offset(page));
  }

  /** The row an appointment presents to the WHERE clause, joined to
      `patient` (NULL name columns when there is none). */
  function JoinedView(a: Appointment, patient: Option<Patient>): RowView
  {
    match patient
    case Some(p) => RowView(a.userId, Some(p.firstName), Some(p.lastName), Some(a.status))
    case None => RowView(a.userId, None, None, Some(a.status))
  }

  /** The WHERE clause with its count parameters (and anything after them)
      holds of a row exactly when each condition that was added holds. */
  lemma ListQueryHolds(userId: int, search: string, status: string, extra: seq<Param>, row: RowView)
    ensures Holds(ListConditions(search, status), ListCountParams(userId, search, status) + extra, row) <==>
      && row.userId == userId
      && (search == "" || (row.firstName.Some? && Contains(row.firstName.value, search))
                       || (row.lastName.Some? && Contains(row.lastName.value, search)))
      && (!KnownStatus(status) || row.status == Some(status))
  {
    var cs, params := ListConditions(search, status), ListCountParams(userId, search, status);
    ListConditionsArity(userId, search, status);
    HoldsIgnoresTrailing(cs, params, extra, row);
    HoldsAppend([UserIs] + SearchConditions(search), [IntParam(userId)] + SearchParams(search),
                StatusConditions(status), StatusParams(status), row);
    HoldsAppend([UserIs], [IntParam(userId)], SearchConditions(search), SearchParams(search), row);
    HoldsSingle(UserIs, [IntParam(userId)], row);
    if search != "" {
      HoldsSingle(NameLike, SearchParams(search), row);
      LikePatternMatches(row.firstName, search);
      LikePatternMatches(row.lastName, search);
    }
    if KnownStatus(status) {
      HoldsSingle(StatusIs, StatusParams(status), row);
    }
  }

  // ---------------------------------------------------------------------------
  // GET /appointments: the listing
  // ---------------------------------------------------------------------------

  /** The count query's row: joined to the patient only when searching. */
  function CountSelected(cs: seq<Condition>, params: seq<Param>, patients: seq<Patient>, joined: bool): Appointment -> bool
  {
    (a: Appointment) => Holds(cs, params, if joined then JoinedView(a, JoinedPatient(patients)(a)) else JoinedView(a, None))
  }

  /** The data query's filter over the joined rows. */
  function DataSelected(cs: seq<Condition>, params: seq<Param>): ((Appointment, Option<Patient>)) -> bool
  {
    (row: (Appointment, Option<Patient>)) => Holds(cs, params, JoinedView(row.0, row.1))
  }

  /** Both queries select the visible appointments: the count query (with or
      without its join) and the data query over the LEFT JOIN. */
  lemma ListQueriesSelectVisible(appointments: seq<Appointment>, patients: seq<Patient>,
                                 userId: int, search: string, status: string, page: int)
    ensures var cs, params := ListConditions(search, status), ListCountParams(userId, search, status);
      && Filter(appointments, CountSelected(cs, params, patients, search != "")) == Filter(appointments, Visible(userId, search, status, patients))
      && Filter(appointments, Through(DataSelected(cs, params + [IntParam(PageSize), IntParam(Offset(page))]), JoinedPatient(patients)))
         == Filter(appointments, Visible(userId, search, status, patients))
  {
    var cs, params := ListConditions(search, status), ListCountParams(userId, search, status);
    var extra := [IntParam(PageSize), IntParam(Offset(page))];
    var visible := Visible(userId, search, status, patients);
    var data := Through(DataSelected(cs, params + extra), JoinedPatient(patients));
    var count := CountSelected(cs, params, patients, search != "");
    forall i | 0 <= i < |appointments|
      ensures count(appointments[i]) == visible(appointments[i])
      ensures data(appointments[i]) == visible(appointments[i])
    {
      var a := appointments[i];
      var patient := JoinedPatient(patients)(a);
      ListQueryHolds(userId, search, status, [], JoinedView(a, patient));
      ListQueryHolds(userId, search, status, [], JoinedView(a, None));
      ListQueryHolds(userId, search, status, extra, JoinedView(a, patient));
      assert params + [] == params;
    }
    FilterExt(appointments, count, visible);
    FilterExt(appointments, data, visible);
  }

  /** The data query over the LEFT JOIN yields each visible appointment
      once, paired with the patient it joins to. */
  lemma DataRowsAreVisiblePairs(appointments: seq<Appointment>, patients: seq<Patient>,
                                userId: int, search: string, status: string, page: int)
    requires DistinctKeys(patients, PatientKey)
    ensures var cs, params := ListConditions(search, status), ListCountParams(userId, search, status);
      Filter(LeftJoin(appointments, patients, JoinOn), DataSelected(cs, params + [IntParam(PageSize), IntParam(Offset(page))]))
      == Pair(Filter(appointments, Visible(userId, search, status, patients)), JoinedPatient(patients))
  {
    var cs, params := ListConditions(search, status), ListCountParams(userId, search, status);
    var data := DataSelected(cs, params + [IntParam(PageSize), IntParam(Offset(page))]);
    forall i | 0 <= i < |appointments| ensures CountWhere(patients, MatchOf(JoinOn, appointments[i])) <= 1 {
      JoinFindsAtMostOne(patients, appointments[i]);
    }
    LeftJoinIsLookup(appointments, patients, JoinOn);
    FilterPair(appointments, JoinedPatient(patients), data);
    ListQueriesSelectVisible(appointments, patients, userId, search, status, page);
  }

  /** A listed row: the appointment and `p.first_name || ' ' || p.last_name`. */
  datatype ListedAppointment = ListedAppointment(appointment: Appointment, patientName: Option<string>)

  /** `p.first_name || ' ' || p.last_name`, NULL when the join found nothing. */
  function PatientName(patient: Option<Patient>): Option<string>
  {
    match patient
    case Some(p) => Some(p.firstName + " " + p.lastName)
    case None => None
  }

  function Listed(rows: seq<(Appointment, Option<Patient>)>): (r: seq<ListedAppointment>)
    ensures |r| == |rows|
    ensures forall i :: 0 <= i < |rows| ==> r[i] == ListedAppointment(rows[i].0, PatientName(rows[i].1))
  {
    seq(|rows|, i requires 0 <= i < |rows| => ListedAppointment(rows[i].0, PatientName(rows[i].1)))
  }

  lemma ListedPairMember(s: seq<Appointment>, g: Appointment -> Option<Patient>, x: ListedAppointment)
    requires x in Listed(Pair(s, g))
    ensures x.appointment in s && x.patientName == PatientName(g(x.appointment))
  {
    var rows := Listed(Pair(s, g));
    var k :| 0 <= k < |rows| && rows[k] == x;
  }

  lemma ListedPairsMembers(s: seq<Appointment>, g: Appointment -> Option<Patient>, rows: seq<ListedAppointment>)
    requires forall i :: 0 <= i < |rows| ==> rows[i] in Listed(Pair(s, g))
    ensures forall i :: 0 <= i < |rows| ==> rows[i].appointment in s && rows[i].patientName == PatientName(g(rows[i].appointment))
  {
    forall i | 0 <= i < |rows| ensures rows[i].appointment in s && rows[i].patientName == PatientName(g(rows[i].appointment)) {
      ListedPairMember(s, g, rows[i]);
    }
  }

  /** `ORDER BY a.appointment_date DESC` on joined rows. */
  predicate NewestFirstRow(x: (Appointment, Option<Patient>), y: (Appointment, Option<Patient>))
  {
    NewestFirst(x.0, y.0)
  }

  lemma NewestFirstRowTotalPreorder()
    ensures TotalPreorder(NewestFirstRow)
  {
  }

  /** `ORDER BY a.appointment_date DESC LIMIT ? OFFSET ?` over the selected
      joined rows: the window of those rows put newest first (ties in any
      order). */
  function PageRows(selected: seq<(Appointment, Option<Patient>)>, limit: nat, offset: int): (rows: seq<ListedAppointment>)
    ensures |rows| == |Window(selected, limit, offset)|
    ensures forall i :: 0 <= i < |rows| ==> rows[i] in Listed(selected)
    ensures forall i, j :: 0 <= i < j < |rows| ==> NewestFirst(rows[i].appointment, rows[j].appointment)
    ensures exists t :: SortedOrderOf(t, selected, NewestFirstRow) && rows == Listed(Window(t, limit, offset))
  {
    NewestFirstRowTotalPreorder();
    var sorted := SortBy(selected, NewestFirstRow);
    assert SortedOrderOf(sorted, selected, NewestFirstRow);
    SortedOrderWindow(selected, sorted, limit, offset, NewestFirstRow);
    var window := Window(sorted, limit, offset);
    var rows := Listed(window);
    assert forall i :: 0 <= i < |rows| ==> rows[i] in Listed(selected) by {
      forall i | 0 <= i < |rows| ensures rows[i] in Listed(selected) {
        var k :| 0 <= k < |selected| && selected[k] == window[i];
        assert Listed(selected)[k] == rows[i];
      }
    }
    rows
  }

  /** The page of the visible appointments, each with its patient: as long
      as the window, newest first, each row a visible appointment with its
      own patient's name, and the window of one newest-first order. */
  lemma VisiblePage(appointments: seq<Appointment>, patients: seq<Patient>, userId: int, search: string, status: string, page: int)
    ensures var visible := Filter(appointments, Visible(userId, search, status, patients));
      var rows := PageRows(Pair(visible, JoinedPatient(patients)), PageSize, Offset(page));
      && |rows| == |Window(visible, PageSize, Offset(page))|
      && (forall i :: 0 <= i < |rows| ==>
            && rows[i].appointment in appointments
            && Visible(userId, search, status, patients)(rows[i].appointment)
            && rows[i].patientName == PatientName(JoinedPatient(patients)(rows[i].appointment)))
      && (forall i, j :: 0 <= i < j < |rows| ==> NewestFirst(rows[i].appointment, rows[j].appointment))
      && exists t :: SortedOrderOf(t, Pair(visible, JoinedPatient(patients)), NewestFirstRow)
           && rows == Listed(Window(t, PageSize, Offset(page)))
  {
    var visible := Filter(appointments, Visible(userId, search, status, patients));
    var selected := Pair(visible, JoinedPatient(patients));
    var rows := PageRows(selected, PageSize, Offset(page));
    ListedPairsMembers(visible, JoinedPatient(patients), rows);
    WindowLength(selected, visible, PageSize, Offset(page));
  }

  /** What the list view is given. */
  datatype AppointmentListing = AppointmentListing(
    rows: seq<ListedAppointment>,
    currentPage: int,
    totalPages: nat,
    totalItems: nat,
    errorMsg: Option<string>)

  /** GET /appointments. The count query and the data query select the same
      appointments (the LEFT JOIN on the patients' key drops and duplicates
      none); the page holds at most 15 of them, newest first. */
  method ListAppointments(db: Database, userId: int, search: string, status: string, pageQuery: Option<string>, fails: bool)
    returns (listing: AppointmentListing)
    requires db.Valid()
    ensures fails ==> listing == AppointmentListing([], 1, 0, 0, Some("Error fetching appointments."))
    ensures !fails ==>
      && listing.errorMsg.None?
      && listing.currentPage == PageNumber(pageQuery)
      && listing.totalItems == CountWhere(db.appointments, Visible(userId, search, status, db.patients))
      && listing.totalPages == TotalPages(listing.totalItems)
      && |listing.rows| == |Window(Filter(db.appointments, Visible(userId, search, status, db.patients)), PageSize, Offset(listing.currentPage))|
      && (forall i :: 0 <= i < |listing.rows| ==>
            && listing.rows[i].appointment in db.appointments
            && Visible(userId, search, status, db.patients)(listing.rows[i].appointment)
            && listing.rows[i].patientName == PatientName(JoinedPatient(db.patients)(listing.rows[i].appointment)))
      && (forall i, j :: 0 <= i < j < |listing.rows| ==> NewestFirst(listing.rows[i].appointment, listing.rows[j].appointment))
      && exists t :: SortedOrderOf(t, Pair(Filter(db.appointments, Visible(userId, search, status, db.patients)), JoinedPatient(db.patients)), NewestFirstRow)
           && listing.rows == Listed(Window(t, PageSize, Offset(listing.currentPage)))
  {
    var page := PageNumber(pageQuery);
    var q := BuildListQuery(userId, search, status, page);
    if fails {
      return AppointmentListing([], 1, 0, 0, Some("Error fetching appointments."));
    }
    var appointments, patients := db.appointments, db.patients;
    var counted := Filter(appointments, CountSelected(q.conditions, q.countParams, patients, search != ""));
    var joined := LeftJoin(appointments, patients, JoinOn);
    var selected := Filter(joined, DataSelected(q.conditions, q.dataParams));
    DataRowsAreVisiblePairs(appointments, patients, userId, search, status, page);
    ListQueriesSelectVisible(appointments, patients, userId, search, status, page);
    var rows := PageRows(selected, q.Limit().value as nat, q.OffsetParam().value);
    VisiblePage(appointments, patients, userId, search, status, page);
    var totalItems := |counted|;
    listing := AppointmentListing(rows, page, TotalPages(totalItems), totalItems, None);
  }

  // ---------------------------------------------------------------------------
  // POST /appointments/add
  // ---------------------------------------------------------------------------

  /** The submitted appointment form; a field left empty is `None` or "". */
  datatype AppointmentForm = AppointmentForm(
    patientId: Option<int>,
    date: Option<DateTime>,
    reason: string,
    status: string)

  /** The row `INSERT INTO appointments (user_id, patient_id,
      appointment_date, reason)` adds: status takes the column default
      'Scheduled', an empty reason is NULL. */
  function NewAppointment(id: int, userId: int, form: AppointmentForm, now: DateTime): Appointment
    requires form.patientId.Some? && form.date.Some?
  {
    Appointment(id, userId, form.patientId.value, form.date.value, NullIfEmpty(form.reason), Scheduled, now)
  }

  /** POST /appointments/add. A missing patient or date is refused with no
      insert; otherwise exactly one row is appended, owned by the session
      user, in status 'Scheduled'. Whether the patient belongs to the user is
      not checked. */
  method AddAppointment(db: Database, userId: int, form: AppointmentForm, now: DateTime, insertFails: bool)
    returns (resp: Response)
    requires db.Valid()
    modifies db
    ensures db.Valid()
    ensures db.users == old(db.users) && db.patients == old(db.patients)
    ensures db.nextAppointmentId == old(db.nextAppointmentId) + (|db.appointments| - |old(db.appointments)|)
    ensures db.nextUserId == old(db.nextUserId) && db.nextPatientId == old(db.nextPatientId)
    ensures form.patientId.None? || form.date.None? ==>
      resp == Render("appointments/add", Some("Patient and Appointment Date are required."))
      && db.appointments == old(db.appointments)
    ensures form.patientId.Some? && form.date.Some? && insertFails ==>
      resp == Render("appointments/add", Some("Failed to add appointment. Please try again."))
      && db.appointments == old(db.appointments)
    ensures form.patientId.Some? && form.date.Some? && !insertFails ==>
      && resp == Redirect("/appointments", SuccessFlash("Appointment added successfully!"))
      && db.appointments == old(db.appointments) + [NewAppointment(old(db.nextAppointmentId), userId, form, now)]
  {
    if form.patientId.None? || form.date.None? {
      return Render("appointments/add", Some("Patient and Appointment Date are required."));
    }
    if insertFails {
      return Render("appointments/add", Some("Failed to add appointment. Please try again."));
    }
    var row := NewAppointment(db.nextAppointmentId, userId, form, now);
    AppendFreshKey(db.appointments, row, AppointmentKey, db.nextAppointmentId);
    db.appointments := db.appointments + [row];
    db.nextAppointmentId := db.nextAppointmentId + 1;
    resp := Redirect("/appointments", SuccessFlash("Appointment added successfully!"));
  }

  // ---------------------------------------------------------------------------
  // GET and POST /appointments/edit/:id
  // ---------------------------------------------------------------------------

  /** GET /appointments/edit/:id: the form for an owned appointment,
      otherwise back to the list. */
  function EditAppointmentForm(appointments: seq<Appointment>, userId: int, appointmentId: int, fetchFails: bool): (resp: Response)
    ensures resp == Redirect("/appointments", NoFlash) || resp == Render("appointments/edit", None)
    ensures resp.Render? <==> !fetchFails && CountWhere(appointments, Owned(appointmentId, userId)) > 0
  {
    var appointment := FindFirst(appointments, Owned(appointmentId, userId));
    if fetchFails || appointment.None? then Redirect("/appointments", NoFlash) else Render("appointments/edit", None)
  }

  /** `UPDATE appointments SET patient_id = ?, appointment_date = ?, reason
      = ?, status = ?`: the status is written as submitted. */
  function ApplyEdit(form: AppointmentForm): Appointment -> Appointment
    requires form.patientId.Some? && form.date.Some?
  {
    (a: Appointment) => a.(patientId := form.patientId.value, date := form.date.value,
                           reason := NullIfEmpty(form.reason), status := form.status)
  }

  predicate EditComplete(form: AppointmentForm)
  {
    form.patientId.Some? && form.date.Some? && form.status != ""
  }

  /** POST /appointments/edit/:id. An incomplete form is refused with no
      update; the update writes only the owned row with that id, with any
      non-empty status; when no such row exists nothing changes. The
      re-rendered form on a refusal or a failed update is always shown: its
      row fetch is issued without a callback and never comes back empty. */
  method EditAppointment(db: Database, userId: int, appointmentId: int, form: AppointmentForm, updateFails: bool)
    returns (resp: Response)
    requires db.Valid()
    modifies db
    ensures db.Valid()
    ensures db.users == old(db.users) && db.patients == old(db.patients)
    ensures db.nextUserId == old(db.nextUserId) && db.nextPatientId == old(db.nextPatientId)
      && db.nextAppointmentId == old(db.nextAppointmentId)
    ensures !EditComplete(form) ==>
      resp == Render("appointments/edit", Some("Patient, Appointment Date, and Status are required."))
      && db.appointments == old(db.appointments)
    ensures EditComplete(form) && updateFails ==>
      resp == Render("appointments/edit", Some("Failed to update appointment. Please try again."))
      && db.appointments == old(db.appointments)
    ensures EditComplete(form) && !updateFails ==>
      && db.appointments == UpdateWhere(old(db.appointments), Owned(appointmentId, userId), ApplyEdit(form))
      && resp == Redirect("/appointments",
           if CountWhere(old(db.appointments), Owned(appointmentId, userId)) == 0
           then ErrorFlash("Appointment not found or no changes made.")
           else SuccessFlash("Appointment updated successfully!"))
  {
    if form.patientId.None? || form.date.None? || form.status == "" {
      return Render("appointments/edit", Some("Patient, Appointment Date, and Status are required."));
    }
    if updateFails {
      return Render("appointments/edit", Some("Failed to update appointment. Please try again."));
    }
    var changes := CountWhere(db.appointments, Owned(appointmentId, userId));
    UpdateKeepsDistinct(db.appointments, Owned(appointmentId, userId), ApplyEdit(form), AppointmentKey);
    db.appointments := UpdateWhere(db.appointments, Owned(appointmentId, userId), ApplyEdit(form));
    if changes == 0 {
      resp := Redirect("/appointments", ErrorFlash("Appointment not found or no changes made."));
    } else {
      resp := Redirect("/appointments", SuccessFlash("Appointment updated successfully!"));
    }
  }

  /** An update keyed by `id = ? AND user_id = ?` that keeps id and owner
      touches at most one row, the owned row with that id; every other row
      is unchanged, and with no owned row the table is unchanged. */
  lemma {:induction false} UpdateTouchesOnlyOwnedRow(appointments: seq<Appointment>, userId: int, appointmentId: int,
                                                    f: Appointment -> Appointment)
    requires DistinctKeys(appointments, AppointmentKey)
    requires forall a :: f(a).id == a.id && f(a).userId == a.userId
    ensures CountWhere(appointments, Owned(appointmentId, userId)) <= 1
    ensures var r := UpdateWhere(appointments, Owned(appointmentId, userId), f);
      && |r| == |appointments|
      && (forall i :: 0 <= i < |r| && (appointments[i].id != appointmentId || appointments[i].userId != userId) ==>
            r[i] == appointments[i])
      && (forall i :: 0 <= i < |r| ==> r[i].id == appointments[i].id && r[i].userId == appointments[i].userId)
    ensures CountWhere(appointments, Owned(appointmentId, userId)) == 0 ==>
      UpdateWhere(appointments, Owned(appointmentId, userId), f) == appointments
  {
    AtMostOneWithKey(appointments, AppointmentKey, appointmentId, Owned(appointmentId, userId));
    if CountWhere(appointments, Owned(appointmentId, userId)) == 0 {
      UpdateWhereNoMatch(appointments, Owned(appointmentId, userId), f);
    }
  }

  // ---------------------------------------------------------------------------
  // POST /appointments/delete/:id
  // ---------------------------------------------------------------------------

  /** POST /appointments/delete/:id: only the owned row with that id is
      removed; zero removed rows is reported as not found. */
  method DeleteAppointment(db: Database, userId: int, appointmentId: int, deleteFails: bool)
    returns (resp: Response)
    requires db.Valid()
    modifies db
    ensures db.Valid()
    ensures db.users == old(db.users) && db.patients == old(db.patients)
    ensures db.nextUserId == old(db.nextUserId) && db.nextPatientId == old(db.nextPatientId)
      && db.nextAppointmentId == old(db.nextAppointmentId)
    ensures resp.Redirect? && resp.location == "/appointments"
    ensures deleteFails ==>
      resp.flash == ErrorFlash("Error deleting appointment. Please try again.") && db.appointments == old(db.appointments)
    ensures !deleteFails ==>
      && db.appointments == DeleteWhere(old(db.appointments), Owned(appointmentId, userId))
      && resp.flash == if CountWhere(old(db.appointments), Owned(appointmentId, userId)) == 0
                       then ErrorFlash("Appointment not found.")
                       else SuccessFlash("Appointment deleted successfully.")
  {
    if deleteFails {
      return Redirect("/appointments", ErrorFlash("Error deleting appointment. Please try again."));
    }
    var changes := CountWhere(db.appointments, Owned(appointmentId, userId));
    FilterKeepsDistinct(db.appointments, Not(Owned(appointmentId, userId)), AppointmentKey);
    FilterKeepsKeysBelow(db.appointments, Not(Owned(appointmentId, userId)), AppointmentKey, db.nextAppointmentId);
    db.appointments := DeleteWhere(db.appointments, Owned(appointmentId, userId));
    if changes == 0 {
      resp := Redirect("/appointments", ErrorFlash("Appointment not found."));
    } else {
      resp := Redirect("/appointments", SuccessFlash("Appointment deleted successfully."));
    }
  }

  /** A delete with no owned row of that id leaves the table as it was; one
      with such a row removes exactly that row. */
  lemma DeleteRemovesOnlyOwnedRow(appointments: seq<Appointment>, userId: int, appointmentId: int)
    requires DistinctKeys(appointments, AppointmentKey)
    ensures CountWhere(appointments, Owned(appointmentId, userId)) == 0 ==>
      DeleteWhere(appointments, Owned(appointmentId, userId)) == appointments
    ensures |DeleteWhere(appointments, Owned(appointmentId, userId))| >= |appointments| - 1
    ensures forall i :: 0 <= i < |appointments| && (appointments[i].id != appointmentId || appointments[i].userId != userId) ==>
      appointments[i] in DeleteWhere(appointments, Owned(appointmentId, userId))
  {
    AtMostOneWithKey(appointments, AppointmentKey, appointmentId, Owned(appointmentId, userId));
    if CountWhere(appointments, Owned(appointmentId, userId)) == 0 {
      FilterAll(appointments, Not(Owned(appointmentId, userId)));
    }
  }

  // ---------------------------------------------------------------------------
  // The redirect back to the list, keeping the referring page's query
  // ---------------------------------------------------------------------------

  /** `'/appointments' + (referer ? '?' + referer.split('?')[1] : '')`; a
      missing piece `[1]` is `undefined`, which concatenates as that word. */
  function RedirectTarget(referer: Option<string>): string
  {
    if !Truthy(referer) then "/appointments"
    else
      var parts := Split(referer.value, '?');
      "/appointments" + "?" + (if |parts| >= 2 then parts[1] else "undefined")
  }

  /** Without a referer the target is the bare list. */
  lemma RedirectWithoutReferer(referer: Option<string>)
    requires !Truthy(referer)
    ensures RedirectTarget(referer) == "/appointments"
  {
  }

  /** With a referer whose first `?` is at `i`, the target keeps the text
      after it, up to the next `?` or the end. */
  lemma RedirectKeepsQuery(referer: string, i: nat)
    requires i < |referer| && referer[i] == '?' && '?' !in referer[..i]
    ensures RedirectTarget(Some(referer)) == "/appointments?" + UpTo(referer[i + 1..], '?')
  {
    SplitSecond(referer, '?', i);
  }

  /** A referer without `?` gives the literal query `?undefined`. */
  lemma RedirectWithoutQuery(referer: string)
    requires referer != "" && '?' !in referer
    ensures RedirectTarget(Some(referer)) == "/appointments?undefined"
  {
    SplitWithout(referer, '?');
  }

  // ---------------------------------------------------------------------------
  // POST /appointments/mark-complete/:id and /appointments/cancel/:id
  // ---------------------------------------------------------------------------

  /** `UPDATE appointments SET status = ?`. */
  function SetStatus(status: string): Appointment -> Appointment
  {
    (a: Appointment) => a.(status := status)
  }

  /** The shared body of the two quick actions: set the owned row's status,
      whatever it was, and go back to the list with the referer's query and
      the action's own success message. */
  method ChangeStatus(db: Database, userId: int, appointmentId: int, newStatus: string, success: string, referer: Option<string>, updateFails: bool)
    returns (resp: Response)
    requires db.Valid()
    modifies db
    ensures db.Valid()
    ensures db.users == old(db.users) && db.patients == old(db.patients)
    ensures db.nextUserId == old(db.nextUserId) && db.nextPatientId == old(db.nextPatientId)
      && db.nextAppointmentId == old(db.nextAppointmentId)
    ensures resp.Redirect? && resp.location == RedirectTarget(referer)
    ensures updateFails ==>
      resp.flash == ErrorFlash("Failed to update appointment status.") && db.appointments == old(db.appointments)
    ensures !updateFails ==>
      && db.appointments == UpdateWhere(old(db.appointments), Owned(appointmentId, userId), SetStatus(newStatus))
      && resp.flash == if CountWhere(old(db.appointments), Owned(appointmentId, userId)) == 0
                       then ErrorFlash("Appointment not found or already updated.")
                       else SuccessFlash(success)
  {
    if updateFails {
      return Redirect(RedirectTarget(referer), ErrorFlash("Failed to update appointment status."));
    }
    var changes := CountWhere(db.appointments, Owned(appointmentId, userId));
    UpdateKeepsDistinct(db.appointments, Owned(appointmentId, userId), SetStatus(newStatus), AppointmentKey);
    db.appointments := UpdateWhere(db.appointments, Owned(appointmentId, userId), SetStatus(newStatus));
    if changes == 0 {
      resp := Redirect(RedirectTarget(referer), ErrorFlash("Appointment not found or already updated."));
    } else {
      resp := Redirect(RedirectTarget(referer), SuccessFlash(success));
    }
  }

  /** POST /appointments/mark-complete/:id. */
  method MarkComplete(db: Database, userId: int, appointmentId: int, referer: Option<string>, updateFails: bool)
    returns (resp: Response)
    requires db.Valid()
    modifies db
    ensures db.Valid()
    ensures db.users == old(db.users) && db.patients == old(db.patients)
    ensures db.nextUserId == old(db.nextUserId) && db.nextPatientId == old(db.nextPatientId)
      && db.nextAppointmentId == old(db.nextAppointmentId)
    ensures resp.Redirect? && resp.location == RedirectTarget(referer)
    ensures updateFails ==>
      resp.flash == ErrorFlash("Failed to update appointment status.") && db.appointments == old(db.appointments)
    ensures !updateFails ==>
      && db.appointments == UpdateWhere(old(db.appointments), Owned(appointmentId, userId), SetStatus(Completed))
      && resp.flash == if CountWhere(old(db.appointments), Owned(appointmentId, userId)) == 0
                       then ErrorFlash("Appointment not found or already updated.")
                       else SuccessFlash("Appointment marked as Completed.")
  {
    resp := ChangeStatus(db, userId, appointmentId, Completed, "Appointment marked as Completed.", referer, updateFails);
  }

  /** POST /appointments/cancel/:id. */
  method Cancel(db: Database, userId: int, appointmentId: int, referer: Option<string>, updateFails: bool)
    returns (resp: Response)
    requires db.Valid()
    modifies db
    ensures db.Valid()
    ensures db.users == old(db.users) && db.patients == old(db.patients)
    ensures db.nextUserId == old(db.nextUserId) && db.nextPatientId == old(db.nextPatientId)
      && db.nextAppointmentId == old(db.nextAppointmentId)
    ensures resp.Redirect? && resp.location == RedirectTarget(referer)
    ensures updateFails ==>
      resp.flash == ErrorFlash("Failed to update appointment status.") && db.appointments == old(db.appointments)
    ensures !updateFails ==>
      && db.appointments == UpdateWhere(old(db.appointments), Owned(appointmentId, userId), SetStatus(Cancelled))
      && resp.flash == if CountWhere(old(db.appointments), Owned(appointmentId, userId)) == 0
                       then ErrorFlash("Appointment not found or already updated.")
                       else SuccessFlash("Appointment marked as Cancelled.")
  {
    resp := ChangeStatus(db, userId, appointmentId, Cancelled, "Appointment marked as Cancelled.", referer, updateFails);
  }

  /** Setting a status leaves id and owner alone, so the WHERE clause still
      matches afterwards: repeating mark-complete (or cancel) on an owned
      row reports success again, and "not found or already updated" arises
      only when the user owns no row with that id. */
  lemma RepeatedStatusChangeStillMatches(appointments: seq<Appointment>, userId: int, appointmentId: int, status: string)
    ensures var once := UpdateWhere(appointments, Owned(appointmentId, userId), SetStatus(status));
      && CountWhere(once, Owned(appointmentId, userId)) == CountWhere(appointments, Owned(appointmentId, userId))
      && UpdateWhere(once, Owned(appointmentId, userId), SetStatus(status)) == once
  {
    var p, f := Owned(appointmentId, userId), SetStatus(status);
    UpdateKeepsMatchCount(appointments, p, f);
    var once := UpdateWhere(appointments, p, f);
    var twice := UpdateWhere(once, p, f);
    assert forall i :: 0 <= i < |once| ==> twice[i] == once[i];
  }
}
