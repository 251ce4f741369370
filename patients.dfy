/** routes/patients.js: the signed-in user's patients. Every statement is
    scoped by `user_id = ?` bound to the session user. */
module Patients {
  import opened Common
  import opened Http
  import opened Text
  import opened Query
  import opened Paging
  import opened Sql
  import opened Store
  import opened Ordering

  // ---------------------------------------------------------------------------
  // Age: (strftime('%Y', 'now') - strftime('%Y', dob))
  //      - (strftime('%m-%d', 'now') < strftime('%m-%d', dob))
  // ---------------------------------------------------------------------------

  /** The age column, computed as the SQL does: the difference of the years,
      less one when today's `MM-DD` text sorts before the birthday's. */
  function Age(dob: CivilDate, today: CivilDate): int
    requires ValidCivil(dob) && ValidCivil(today)
  {
    var beforeBirthday := LexLess(MonthDayText(today.month, today.day), MonthDayText(dob.month, dob.day));
    (today.year - dob.year) - (if beforeBirthday then 1 else 0)
  }

  /** (month, day) comes strictly before (month', day') within a year. */
  predicate BeforeInYear(month: nat, day: nat, month': nat, day': nat)
  {
    month < month' || (month == month' && day < day')
  }

  /** The age is the number of birthdays reached: the year difference, less
      one while this year's birthday is still ahead. */
  lemma AgeIsCompletedYears(dob: CivilDate, today: CivilDate)
    requires ValidCivil(dob) && ValidCivil(today)
    ensures Age(dob, today) ==
      (today.year - dob.year) - (if BeforeInYear(today.month, today.day, dob.month, dob.day) then 1 else 0)
  {
    MonthDayTextOrder(today.month, today.day, dob.month, dob.day);
  }

  /** On the n-th birthday the age is n. */
  lemma AgeOnBirthday(dob: CivilDate, n: int)
    requires ValidCivil(dob)
    ensures Age(dob, CivilDate(dob.year + n, dob.month, dob.day)) == n
  {
    AgeIsCompletedYears(dob, CivilDate(dob.year + n, dob.month, dob.day));
  }

  /** Any day of the n-th year before the birthday (the day before it
      included) still gives n - 1. */
  lemma AgeBeforeBirthday(dob: CivilDate, today: CivilDate, n: int)
    requires ValidCivil(dob) && ValidCivil(today)
    requires today.year == dob.year + n
    requires BeforeInYear(today.month, today.day, dob.month, dob.day)
    ensures Age(dob, today) == n - 1
  {
    AgeIsCompletedYears(dob, today);
  }

  /** From the birthday to the end of the year the age is n. */
  lemma AgeFromBirthday(dob: CivilDate, today: CivilDate, n: int)
    requires ValidCivil(dob) && ValidCivil(today)
    requires today.year == dob.year + n
    requires !BeforeInYear(today.month, today.day, dob.month, dob.day)
    ensures Age(dob, today) == n
  {
    AgeIsCompletedYears(dob, today);
  }

  /** The `age` column of a patient row: NULL when the date of birth is
      missing or not a date strftime understands. */
  function PatientAge(p: Patient, today: CivilDate): Option<int>
    requires ValidCivil(today)
  {
    match p.dateOfBirth
    case Some(dob) => if ValidCivil(dob) then Some(Age(dob, today)) else None
    case None => None
  }

  // ---------------------------------------------------------------------------
  // Row predicates
  // ---------------------------------------------------------------------------

  /** `WHERE id = ? AND user_id = ?`. */
  function Owned(patientId: int, userId: int): Patient -> bool
  {
    (p: Patient) => p.id == patientId && p.userId == userId
  }

  /** `SELECT COUNT(*) FROM appointments WHERE patient_id = ? AND user_id = ?`. */
  function BookedFor(patientId: int, userId: int): Appointment -> bool
  {
    (a: Appointment) => a.patientId == patientId && a.userId == userId
  }

  /** The patients the list shows: the user's, and with a search term, those
      whose first or last name contains it. */
  function Visible(userId: int, search: string): Patient -> bool
  {
    (p: Patient) => p.userId == userId && (search == "" || Contains(p.firstName, search) || Contains(p.lastName, search))
  }

  /** The columns of a patient row the list's WHERE clause reads. */
  function PatientRow(p: Patient): RowView
  {
    RowView(p.userId, Some(p.firstName), Some(p.lastName), None)
  }

  // ---------------------------------------------------------------------------
  // GET /patients: the WHERE clause and parameter arrays
  // ---------------------------------------------------------------------------

  function ListConditions(search: string): seq<Condition>
  {
    if search == "" then [UserIs] else [UserIs, NameLike]
  }

  function ListCountParams(userId: int, search: string): seq<Param>
  {
    if search == "" then [IntParam(userId)]
    else [IntParam(userId), TextParam(LikePattern(search)), TextParam(LikePattern(search))]
  }

  /** Building `whereClauses`, `countSqlParams` and `baseSqlParams`. The
      clause has one `?` per count parameter; the data parameters are the
      count parameters followed by LIMIT 15 and the page's OFFSET. */
  method BuildListQuery(userId: int, search: string, page: int) returns (q: ListQuery)
    ensures q.conditions == ListConditions(search)
    ensures q.countParams == ListCountParams(userId, search)
    ensures q.whereClauses == WhereText(q.conditions, false)
    ensures Occurrences(q.whereClauses, '?') == |q.countParams| == TotalArity(q.conditions)
    ensures q.dataParams == q.countParams + [IntParam(PageSize), IntParam(Offset(page))]
    ensures q.Limit() == Some(PageSize as int) && q.OffsetParam() == Some(Offset(page))
  {
    var conditions := [UserIs];
    var baseSqlParams := [IntParam(userId)];
    var countSqlParams := [IntParam(userId)];
    var whereClauses := "WHERE " + ConditionText(UserIs, false);
    if search != "" {
      conditions := conditions + [NameLike];
      whereClauses := whereClauses + " AND " + ConditionText(NameLike, false);
      assert conditions[..1] == [UserIs];
      var searchTerm := LikePattern(search);
      baseSqlParams := baseSqlParams + [TextParam(searchTerm), TextParam(searchTerm)];
      countSqlParams := countSqlParams + [TextParam(searchTerm), TextParam(searchTerm)];
    }
    baseSqlParams := baseSqlParams + [IntParam(PageSize), IntParam(Offset(page))];
    WhereTextPlaceholders(conditions, false);
    ListConditionsArity(search);
    q := ListQuery(conditions, whereClauses, countSqlParams, baseSqlParams);
    LimitOffsetFollowWhere(q, PageSize, Offset(page));
  }

  lemma ListConditionsArity(search: string)
    ensures TotalArity(ListConditions(search)) == if search == "" then 1 else 3
  {
    var cs := ListConditions(search);
    assert cs[..|cs| - 1] == if search == "" then [] else [UserIs];
  }

  /** The rows a WHERE clause selects with these parameters bound. */
  function SelectedBy(cs: seq<Condition>, params: seq<Param>): Patient -> bool
  {
    (p: Patient) => Holds(cs, params, PatientRow(p))
  }

  /** The WHERE clause with its count parameters, and with anything appended
      after them, selects exactly the visible patients. */
  lemma ListQuerySelectsVisible(userId: int, search: string, extra: seq<Param>, p: Patient)
    ensures SelectedBy(ListConditions(search), ListCountParams(userId, search) + extra)(p)
      <==> Visible(userId, search)(p)
  {
    var cs, params, row := ListConditions(search), ListCountParams(userId, search), PatientRow(p);
    ListConditionsArity(search);
    HoldsIgnoresTrailing(cs, params, extra, row);
    assert cs[1..] == if search == "" then [] else [NameLike];
    assert Holds(cs, params, row) == (p.userId == userId && Holds(cs[1..], params[1..], row));
    if search != "" {
      var t := TextParam(LikePattern(search));
      LikePatternMatches(Some(p.firstName), search);
      LikePatternMatches(Some(p.lastName), search);
      assert params[1..] == [t, t];
      assert [t, t][2..] == [];
      assert Holds([NameLike], [t, t], row) == (Like(row.firstName, t) || Like(row.lastName, t));
    } else {
      assert Contains(p.firstName, search) by { assert OccursAt(p.firstName, search, 0); }
    }
  }

  /** Both list queries select the visible patients: the count query with
      its parameters, the data query with LIMIT and OFFSET appended. */
  lemma ListQueriesSelectVisible(patients: seq<Patient>, userId: int, search: string, page: int)
    ensures var cs, params := ListConditions(search), ListCountParams(userId, search);
      && Filter(patients, SelectedBy(cs, params)) == Filter(patients, Visible(userId, search))
      && Filter(patients, SelectedBy(cs, params + [IntParam(PageSize), IntParam(Offset(page))]))
         == Filter(patients, Visible(userId, search))
  {
    var cs, params := ListConditions(search), ListCountParams(userId, search);
    var extra := [IntParam(PageSize), IntParam(Offset(page))];
    forall i | 0 <= i < |patients|
      ensures SelectedBy(cs, params)(patients[i]) == Visible(userId, search)(patients[i])
      ensures SelectedBy(cs, params + extra)(patients[i]) == Visible(userId, search)(patients[i])
    {
      ListQuerySelectsVisible(userId, search, [], patients[i]);
      assert params + [] == params;
      ListQuerySelectsVisible(userId, search, extra, patients[i]);
    }
    FilterExt(patients, SelectedBy(cs, params), Visible(userId, search));
    FilterExt(patients, SelectedBy(cs, params + extra), Visible(userId, search));
  }

  // ---------------------------------------------------------------------------
  // GET /patients: the listing
  // ---------------------------------------------------------------------------

  /** A listed patient row with its computed `age` column. */
  datatype ListedPatient = ListedPatient(patient: Patient, age: Option<int>)

  /** What the list view is given. */
  datatype PatientListing = PatientListing(
    rows: seq<ListedPatient>,
    currentPage: int,
    totalPages: nat,
    totalItems: nat,
    errorMsg: Option<string>)

  /** The patients of a page, without their age column. */
  function PatientsOf(rows: seq<ListedPatient>): (ps: seq<Patient>)
    ensures |ps| == |rows| && forall i :: 0 <= i < |rows| ==> ps[i] == rows[i].patient
  {
    seq(|rows|, i requires 0 <= i < |rows| => rows[i].patient)
  }

  /** `ORDER BY last_name, first_name LIMIT ? OFFSET ?` over the selected
      rows, each with its age column: the window of the selected rows put in
      name order (ties in any order). */
  function PageRows(selected: seq<Patient>, limit: nat, offset: int, today: CivilDate): (rows: seq<ListedPatient>)
    requires ValidCivil(today)
    ensures |rows| == |Window(selected, limit, offset)|
    ensures forall i :: 0 <= i < |rows| ==>
      rows[i].patient in selected && rows[i].age == PatientAge(rows[i].patient, today)
    ensures forall i, j :: 0 <= i < j < |rows| ==> NameOrder(rows[i].patient, rows[j].patient)
    ensures exists t :: SortedOrderOf(t, selected, NameOrder) && PatientsOf(rows) == Window(t, limit, offset)
  {
    NameOrderTotalPreorder();
    var sorted := SortBy(selected, NameOrder);
    assert SortedOrderOf(sorted, selected, NameOrder);
    SortedOrderWindow(selected, sorted, limit, offset, NameOrder);
    var window := Window(sorted, limit, offset);
    var rows := seq(|window|, i requires 0 <= i < |window| => ListedPatient(window[i], PatientAge(window[i], today)));
    assert PatientsOf(rows) == window;
    rows
  }

  /** GET /patients. The count and the page come from the same WHERE clause;
      the page holds at most 15 of the user's matching patients, sorted by
      last then first name; if either query fails the view gets an empty
      first page and the error text. */
  method ListPatients(db: Database, userId: int, search: string, pageQuery: Option<string>, today: CivilDate, fails: bool)
    returns (listing: PatientListing)
    requires ValidCivil(today)
    ensures fails ==> listing == PatientListing([], 1, 0, 0, Some("Error fetching patients."))
    ensures !fails ==>
      && listing.errorMsg.None?
      && listing.currentPage == PageNumber(pageQuery)
      && listing.totalItems == CountWhere(db.patients, Visible(userId, search))
      && listing.totalPages == TotalPages(listing.totalItems)
      && |listing.rows| == |Window(Filter(db.patients, Visible(userId, search)), PageSize, Offset(listing.currentPage))|
      && (forall i :: 0 <= i < |listing.rows| ==>
            && listing.rows[i].patient in db.patients
            && Visible(userId, search)(listing.rows[i].patient)
            && listing.rows[i].age == PatientAge(listing.rows[i].patient, today))
      && (forall i, j :: 0 <= i < j < |listing.rows| ==> NameOrder(listing.rows[i].patient, listing.rows[j].patient))
      && exists t :: SortedOrderOf(t, Filter(db.patients, Visible(userId, search)), NameOrder)
           && PatientsOf(listing.rows) == Window(t, PageSize, Offset(listing.currentPage))
  {
    var page := PageNumber(pageQuery);
    var q := BuildListQuery(userId, search, page);
    if fails {
      return PatientListing([], 1, 0, 0, Some("Error fetching patients."));
    }
    var counted := Filter(db.patients, SelectedBy(q.conditions, q.countParams));
    var selected := Filter(db.patients, SelectedBy(q.conditions, q.dataParams));
    ListQueriesSelectVisible(db.patients, userId, search, page);
    var totalItems := |counted|;
    var rows := PageRows(selected, q.Limit().value as nat, q.OffsetParam().value, today);
    listing := PatientListing(rows, page, TotalPages(totalItems), totalItems, None);
  }

  // ---------------------------------------------------------------------------
  // POST /patients/add, POST /patients/edit/:id
  // ---------------------------------------------------------------------------

  /** The submitted patient form; an optional field left empty is "". The
      date of birth is already read as a date, `None` when left empty. */
  datatype PatientForm = PatientForm(
    firstName: string,
    lastName: string,
    dateOfBirth: Option<CivilDate>,
    gender: string,
    contactNumber: string,
    email: string,
    address: string,
    medicalHistory: string)

  predicate NamesGiven(form: PatientForm)
  {
    form.firstName != "" && form.lastName != ""
  }

  /** The columns `UPDATE patients SET …` writes, with `x || null` applied to
      the optional fields; id, owner and creation time stay. */
  function ApplyForm(form: PatientForm): Patient -> Patient
  {
    (p: Patient) => p.(
      firstName := form.firstName,
      lastName := form.lastName,
      dateOfBirth := form.dateOfBirth,
      gender := NullIfEmpty(form.gender),
      contactNumber := NullIfEmpty(form.contactNumber),
      email := NullIfEmpty(form.email),
      address := NullIfEmpty(form.address),
      medicalHistory := NullIfEmpty(form.medicalHistory))
  }

  /** The row `INSERT INTO patients …` adds: the form's columns, owned by the
      session user, with the next id and the insertion time. */
  function NewPatient(id: int, userId: int, form: PatientForm, now: DateTime): Patient
  {
    ApplyForm(form)(Patient(id, userId, "", "", None, None, None, None, None, None, now))
  }

  /** POST /patients/add. Missing names are refused before the insert;
      otherwise exactly one row is appended, owned by the session user. */
  method AddPatient(db: Database, userId: int, form: PatientForm, now: DateTime, insertFails: bool)
    returns (resp: Response)
    requires db.Valid()
    modifies db
    ensures db.Valid()
    ensures db.users == old(db.users) && db.appointments == old(db.appointments)
    ensures db.nextPatientId == old(db.nextPatientId) + (|db.patients| - |old(db.patients)|)
    ensures db.nextUserId == old(db.nextUserId) && db.nextAppointmentId == old(db.nextAppointmentId)
    ensures !NamesGiven(form) ==>
      resp == Render("patients/add", Some("First Name and Last Name are required.")) && db.patients == old(db.patients)
    ensures NamesGiven(form) && insertFails ==>
      resp == Render("patients/add", Some("Failed to add patient. Please try again.")) && db.patients == old(db.patients)
    ensures NamesGiven(form) && !insertFails ==>
      && resp == Redirect("/patients", SuccessFlash("Patient added successfully!"))
      && db.patients == old(db.patients) + [NewPatient(old(db.nextPatientId), userId, form, now)]
  {
    if form.firstName == "" || form.lastName == "" {
      return Render("patients/add", Some("First Name and Last Name are required."));
    }
    if insertFails {
      return Render("patients/add", Some("Failed to add patient. Please try again."));
    }
    var row := NewPatient(db.nextPatientId, userId, form, now);
    AppendFreshKey(db.patients, row, PatientKey, db.nextPatientId);
    db.patients := db.patients + [row];
    db.nextPatientId := db.nextPatientId + 1;
    resp := Redirect("/patients", SuccessFlash("Patient added successfully!"));
  }

  /** A form the edit page is re-rendered with after a failure: the stored
      row is fetched again, and if that fails or finds nothing the browser
      goes back to the list. */
  function RerenderEdit(patients: seq<Patient>, userId: int, patientId: int, fetchFails: bool, message: string): (resp: Response)
    ensures resp == Redirect("/patients", NoFlash) || resp == Render("patients/edit", Some(message))
    ensures resp.Render? <==> !fetchFails && CountWhere(patients, Owned(patientId, userId)) > 0
  {
    var patient := FindFirst(patients, Owned(patientId, userId));
    if fetchFails || patient.None? then Redirect("/patients", NoFlash) else Render("patients/edit", Some(message))
  }

  /** GET /patients/edit/:id: the form for an owned patient, otherwise back
      to the list. */
  function EditPatientForm(patients: seq<Patient>, userId: int, patientId: int, fetchFails: bool): (resp: Response)
    ensures resp == Redirect("/patients", NoFlash) || resp == Render("patients/edit", None)
    ensures resp.Render? <==> !fetchFails && CountWhere(patients, Owned(patientId, userId)) > 0
  {
    var patient := FindFirst(patients, Owned(patientId, userId));
    if fetchFails || patient.None? then Redirect("/patients", NoFlash) else Render("patients/edit", None)
  }

  /** POST /patients/edit/:id. Missing names are refused with no update. The
      update writes only the owned row with that id; when no such row exists
      it changes nothing and says so. */
  method EditPatient(db: Database, userId: int, patientId: int, form: PatientForm, updateFails: bool, fetchFails: bool)
    returns (resp: Response)
    requires db.Valid()
    modifies db
    ensures db.Valid()
    ensures db.users == old(db.users) && db.appointments == old(db.appointments)
    ensures db.nextUserId == old(db.nextUserId) && db.nextPatientId == old(db.nextPatientId)
      && db.nextAppointmentId == old(db.nextAppointmentId)
    ensures !NamesGiven(form) ==>
      && resp == RerenderEdit(old(db.patients), userId, patientId, fetchFails, "First Name and Last Name are required.")
      && db.patients == old(db.patients)
    ensures NamesGiven(form) && updateFails ==>
      && resp == RerenderEdit(old(db.patients), userId, patientId, fetchFails, "Failed to update patient. Please try again.")
      && db.patients == old(db.patients)
    ensures NamesGiven(form) && !updateFails ==>
      && db.patients == UpdateWhere(old(db.patients), Owned(patientId, userId), ApplyForm(form))
      && resp == Redirect("/patients",
           if CountWhere(old(db.patients), Owned(patientId, userId)) == 0
           then ErrorFlash("Patient not found or no changes made.")
           else SuccessFlash("Patient updated successfully!"))
  {
    if form.firstName == "" || form.lastName == "" {
      return RerenderEdit(db.patients, userId, patientId, fetchFails, "First Name and Last Name are required.");
    }
    if updateFails {
      return RerenderEdit(db.patients, userId, patientId, fetchFails, "Failed to update patient. Please try again.");
    }
    var changes := CountWhere(db.patients, Owned(patientId, userId));
    UpdateKeepsDistinct(db.patients, Owned(patientId, userId), ApplyForm(form), PatientKey);
    db.patients := UpdateWhere(db.patients, Owned(patientId, userId), ApplyForm(form));
    if changes == 0 {
      resp := Redirect("/patients", ErrorFlash("Patient not found or no changes made."));
    } else {
      resp := Redirect("/patients", SuccessFlash("Patient updated successfully!"));
    }
  }

  /** An edit touches at most one row, the owned row with that id; every
      other row is unchanged, and with no owned row nothing changes. */
  lemma {:induction false} EditTouchesOnlyOwnedRow(patients: seq<Patient>, userId: int, patientId: int, form: PatientForm)
    requires DistinctKeys(patients, PatientKey)
    ensures CountWhere(patients, Owned(patientId, userId)) <= 1
    ensures var r := UpdateWhere(patients, Owned(patientId, userId), ApplyForm(form));
      && |r| == |patients|
      && (forall i :: 0 <= i < |r| && (patients[i].id != patientId || patients[i].userId != userId) ==> r[i] == patients[i])
      && (forall i :: 0 <= i < |r| ==> r[i].id == patients[i].id && r[i].userId == patients[i].userId)
    ensures CountWhere(patients, Owned(patientId, userId)) == 0 ==>
      UpdateWhere(patients, Owned(patientId, userId), ApplyForm(form)) == patients
  {
    AtMostOneWithKey(patients, PatientKey, patientId, Owned(patientId, userId));
    if CountWhere(patients, Owned(patientId, userId)) == 0 {
      UpdateWhereNoMatch(patients, Owned(patientId, userId), ApplyForm(form));
    }
  }

  // ---------------------------------------------------------------------------
  // POST /patients/delete/:id
  // ---------------------------------------------------------------------------

  /** The refusal message, with the appointment count written in decimal. */
  function BlockedDeleteMessage(count: nat): string
  {
    "Cannot delete patient. They have " + NatToString(count) + " associated appointment(s). Delete or reassign appointments first."
  }

  /** The refusal message names the number of appointments. */
  lemma BlockedDeleteMessageNamesCount(count: nat)
    ensures Contains(BlockedDeleteMessage(count), NatToString(count))
  {
    var prefix := "Cannot delete patient. They have ";
    var m := BlockedDeleteMessage(count);
    assert m[|prefix|..|prefix| + |NatToString(count)|] == NatToString(count);
    assert OccursAt(m, NatToString(count), |prefix|);
  }

  /** POST /patients/delete/:id. While any of the user's appointments points
      at the patient, nothing is deleted and the message gives their number;
      otherwise only the owned row with that id is removed. */
  method DeletePatient(db: Database, userId: int, patientId: int, countFails: bool, deleteFails: bool)
    returns (resp: Response)
    requires db.Valid()
    modifies db
    ensures db.Valid()
    ensures db.users == old(db.users) && db.appointments == old(db.appointments)
    ensures db.nextUserId == old(db.nextUserId) && db.nextPatientId == old(db.nextPatientId)
      && db.nextAppointmentId == old(db.nextAppointmentId)
    ensures resp.Redirect? && resp.location == "/patients"
    ensures countFails ==>
      resp.flash == ErrorFlash("Error checking existing appointments. Patient not deleted.") && db.patients == old(db.patients)
    ensures !countFails ==>
      var booked := CountWhere(old(db.appointments), BookedFor(patientId, userId));
      if booked > 0 then
        resp.flash == ErrorFlash(BlockedDeleteMessage(booked)) && db.patients == old(db.patients)
      else if deleteFails then
        resp.flash == ErrorFlash("Error deleting patient. Please try again.") && db.patients == old(db.patients)
      else
        && db.patients == DeleteWhere(old(db.patients), Owned(patientId, userId))
        && resp.flash == if CountWhere(old(db.patients), Owned(patientId, userId)) == 0
                         then ErrorFlash("Patient not found.")
                         else SuccessFlash("Patient deleted successfully.")
  {
    if countFails {
      return Redirect("/patients", ErrorFlash("Error checking existing appointments. Patient not deleted."));
    }
    var count := CountWhere(db.appointments, BookedFor(patientId, userId));
    if count > 0 {
      return Redirect("/patients", ErrorFlash(BlockedDeleteMessage(count)));
    }
    if deleteFails {
      return Redirect("/patients", ErrorFlash("Error deleting patient. Please try again."));
    }
    var changes := CountWhere(db.patients, Owned(patientId, userId));
    FilterKeepsDistinct(db.patients, Not(Owned(patientId, userId)), PatientKey);
    FilterKeepsKeysBelow(db.patients, Not(Owned(patientId, userId)), PatientKey, db.nextPatientId);
    db.patients := DeleteWhere(db.patients, Owned(patientId, userId));
    if changes == 0 {
      resp := Redirect("/patients", ErrorFlash("Patient not found."));
    } else {
      resp := Redirect("/patients", SuccessFlash("Patient deleted successfully."));
    }
  }

  /** A delete removes at most the one owned row with that id and keeps every
      other row; a patient the user does not own is never removed. */
  lemma DeleteRemovesOnlyOwnedRow(patients: seq<Patient>, userId: int, patientId: int)
    requires DistinctKeys(patients, PatientKey)
    ensures |DeleteWhere(patients, Owned(patientId, userId))| >= |patients| - 1
    ensures forall i :: 0 <= i < |patients| && (patients[i].id != patientId || patients[i].userId != userId) ==>
      patients[i] in DeleteWhere(patients, Owned(patientId, userId))
  {
    AtMostOneWithKey(patients, PatientKey, patientId, Owned(patientId, userId));
  }

  // ---------------------------------------------------------------------------
  // GET /patients/details/:id
  // ---------------------------------------------------------------------------

  datatype PatientDetails = PatientDetails(patient: Patient, age: Option<int>, appointments: seq<Appointment>)

  /** GET /patients/details/:id: the owned patient with its age and its
      appointment history, newest first; `None` (back to the list) when the
      patient is not the user's or a query fails. */
  function Details(patients: seq<Patient>, appointments: seq<Appointment>, userId: int, patientId: int,
                   today: CivilDate, fails: bool): (r: Option<PatientDetails>)
    requires ValidCivil(today)
    ensures r.None? <==> fails || CountWhere(patients, Owned(patientId, userId)) == 0
    ensures r.Some? ==>
      && r.value.patient in patients
      && r.value.patient.id == patientId && r.value.patient.userId == userId
      && r.value.age == PatientAge(r.value.patient, today)
      && multiset(r.value.appointments) == multiset(Filter(appointments, BookedFor(patientId, userId)))
      && SortedBy(r.value.appointments, NewestFirst)
  {
    var patient := FindFirst(patients, Owned(patientId, userId));
    DateOrdersTotalPreorders();
    var history := SortBy(Filter(appointments, BookedFor(patientId, userId)), NewestFirst);
    if fails || patient.None? then None
    else Some(PatientDetails(patient.value, PatientAge(patient.value, today), history))
  }
}
