/** routes/reports.js: the reports page, six grouped queries over the
    signed-in user's rows and the JavaScript that shapes them for the
    charts. */
module Reports {
  import opened Common
  import opened Text
  import opened Query
  import opened Grouping
  import opened Store
  import opened Ordering
  import Patients
  import Appointments
  import App

  /** `daysToTrack`: the trend charts cover a week ending today. */
  const DaysToTrack: nat := 7

  // ---------------------------------------------------------------------------
  // getLastNDates
  // ---------------------------------------------------------------------------

  /** `array.reverse()`. */
  function Reversed<T>(s: seq<T>): (r: seq<T>)
    ensures |r| == |s|
    ensures forall i :: 0 <= i < |s| ==> r[i] == s[|s| - 1 - i]
  {
    if s == [] then [] else Reversed(s[1..]) + [s[0]]
  }

  /** `getLastNDates(n)`: today, yesterday, … pushed in that order, then
      reversed, so the result is the last `n` days in ascending order,
      ending today. */
  method LastNDates(n: nat, today: int) returns (dates: seq<int>)
    ensures |dates| == n
    ensures forall k :: 0 <= k < n ==> dates[k] == today - (n - 1) + k
  {
    var pushed: seq<int> := [];
    var i := 0;
    while i < n
      invariant 0 <= i <= n
      invariant |pushed| == i
      invariant forall k :: 0 <= k < i ==> pushed[k] == today - k
    {
      pushed := pushed + [today - i];
      i := i + 1;
    }
    dates := Reversed(pushed);
  }

  // ---------------------------------------------------------------------------
  // Appointment status counts
  // ---------------------------------------------------------------------------

  /** `{ Scheduled, Completed, Cancelled }`, in that key order. */
  datatype StatusTally = StatusTally(scheduled: nat, completed: nat, cancelled: nat)

  function OwnedAppointment(userId: int): Appointment -> bool
  {
    (a: Appointment) => a.userId == userId
  }

  function StatusOf(a: Appointment): string { a.status }

  /** `SELECT status, COUNT(*) … WHERE user_id = ? GROUP BY status`. */
  function StatusRows(appointments: seq<Appointment>, userId: int): seq<(string, nat)>
  {
    GroupBy(Filter(appointments, OwnedAppointment(userId)), StatusOf)
  }

  /** The zero-filled counts object: each row whose status is one of the
      three keys overwrites that key's count; other statuses are ignored. */
  method FillStatusCounts(rows: seq<(string, nat)>) returns (counts: StatusTally)
    ensures counts == StatusTally(LastCountOf(rows, Scheduled), LastCountOf(rows, Completed), LastCountOf(rows, Cancelled))
  {
    counts := StatusTally(0, 0, 0);
    var i := 0;
    while i < |rows|
      invariant 0 <= i <= |rows|
      invariant counts == StatusTally(LastCountOf(rows[..i], Scheduled), LastCountOf(rows[..i], Completed),
                                      LastCountOf(rows[..i], Cancelled))
    {
      var status, count := rows[i].0, rows[i].1;
      assert rows[..i + 1][..i] == rows[..i];
      if status == Scheduled {
        counts := counts.(scheduled := count);
      } else if status == Completed {
        counts := counts.(completed := count);
      } else if status == Cancelled {
        counts := counts.(cancelled := count);
      }
      i := i + 1;
    }
    assert rows[..|rows|] == rows;
  }

  /** `Object.values(appointmentStatusCounts)`. */
  function StatusData(t: StatusTally): seq<nat>
  {
    [t.scheduled, t.completed, t.cancelled]
  }

  /** The user's appointments with status `status`. */
  function OwnedWithStatus(userId: int, status: string): Appointment -> bool
  {
    (a: Appointment) => a.userId == userId && a.status == status
  }

  /** The user's appointments whose status is one of the three. */
  function OwnedKnownStatus(userId: int): Appointment -> bool
  {
    (a: Appointment) => a.userId == userId && Appointments.KnownStatus(a.status)
  }

  /** Each status count is the number of the user's appointments with that
      status, 0 when there are none. */
  lemma {:induction false} StatusCountIsCount(appointments: seq<Appointment>, userId: int, status: string)
    ensures LastCountOf(StatusRows(appointments, userId), status) == CountWhere(appointments, OwnedWithStatus(userId, status))
  {
    var rows := StatusRows(appointments, userId);
    LastIsFirstWhenDistinct(rows, status);
    CountFilter(appointments, OwnedAppointment(userId), KeyIs(StatusOf, status));
    OwnedWithStatusCount(appointments, userId, status);
  }

  /** The `WHERE user_id = ?` and `GROUP BY status` pair selects the same
      appointments as `OwnedWithStatus`. */
  lemma OwnedWithStatusCount(appointments: seq<Appointment>, userId: int, status: string)
    ensures CountWhere(appointments, And(OwnedAppointment(userId), KeyIs(StatusOf, status)))
         == CountWhere(appointments, OwnedWithStatus(userId, status))
  {
    var p, q := And(OwnedAppointment(userId), KeyIs(StatusOf, status)), OwnedWithStatus(userId, status);
    forall i | 0 <= i < |appointments| ensures p(appointments[i]) == q(appointments[i]) {
      var a := appointments[i];
      assert OwnedAppointment(userId)(a) == (a.userId == userId);
      assert KeyIs(StatusOf, status)(a) == (StatusOf(a) == status);
      assert p(a) == (a.userId == userId && a.status == status);
    }
    CountWhereExt(appointments, p, q);
  }

  /** The three statuses are different texts. */
  lemma StatusesDiffer()
    ensures Scheduled != Completed && Scheduled != Cancelled && Completed != Cancelled
  {
    assert Scheduled[0] != Completed[0] && Scheduled[0] != Cancelled[0] && Completed[1] != Cancelled[1];
  }

  /** `Object.values(counts).reduce((sum, count) => sum + count, 0)`. */
  lemma StatusDataSum(t: StatusTally)
    ensures Sum(StatusData(t)) == t.scheduled + t.completed + t.cancelled
  {
    var data := StatusData(t);
    assert data[1..] == [t.completed, t.cancelled];
    assert data[1..][1..] == [t.cancelled];
    assert data[1..][1..][1..] == [];
    assert Sum([t.cancelled]) == t.cancelled + Sum([]);
    assert Sum([t.completed, t.cancelled]) == t.completed + Sum([t.cancelled]);
  }

  /** `totalAppointments` adds up the three counts, so it counts the user's
      appointments with a known status and leaves any other status out. */
  lemma TotalCountsKnownStatuses(appointments: seq<Appointment>, userId: int)
    ensures var rows := StatusRows(appointments, userId);
      Sum(StatusData(StatusTally(LastCountOf(rows, Scheduled), LastCountOf(rows, Completed), LastCountOf(rows, Cancelled))))
        == CountWhere(appointments, OwnedKnownStatus(userId))
  {
    var rows := StatusRows(appointments, userId);
    StatusCountIsCount(appointments, userId, Scheduled);
    StatusCountIsCount(appointments, userId, Completed);
    StatusCountIsCount(appointments, userId, Cancelled);
    KnownStatusCountSplits(appointments, userId);
    StatusDataSum(StatusTally(LastCountOf(rows, Scheduled), LastCountOf(rows, Completed), LastCountOf(rows, Cancelled)));
  }

  /** The user's appointments with a known status are those with each of
      the three statuses, counted separately. */
  lemma KnownStatusCountSplits(appointments: seq<Appointment>, userId: int)
    ensures CountWhere(appointments, OwnedKnownStatus(userId))
         == CountWhere(appointments, OwnedWithStatus(userId, Scheduled))
          + CountWhere(appointments, OwnedWithStatus(userId, Completed))
          + CountWhere(appointments, OwnedWithStatus(userId, Cancelled))
  {
    StatusesDiffer();
    var scheduled, completed, cancelled :=
      OwnedWithStatus(userId, Scheduled), OwnedWithStatus(userId, Completed), OwnedWithStatus(userId, Cancelled);
    var early := (a: Appointment) => a.userId == userId && (a.status == Scheduled || a.status == Completed);
    forall a: Appointment ensures early(a) == (scheduled(a) || completed(a)) && !(scheduled(a) && completed(a)) {
    }
    CountWhereDisjoint(appointments, scheduled, completed, early);
    var known := OwnedKnownStatus(userId);
    forall a: Appointment ensures known(a) == (early(a) || cancelled(a)) && !(early(a) && cancelled(a)) {
      assert Appointments.KnownStatus(a.status) <==> a.status == Scheduled || a.status == Completed || a.status == Cancelled;
    }
    CountWhereDisjoint(appointments, early, cancelled, known);
  }

  /** The cancellation rate: 0 when there are no appointments, otherwise
      the share of cancelled ones (shown as a percentage with one decimal). */
  datatype Rate = NoAppointments | Share(cancelled: nat, total: nat)

  function CancellationRate(t: StatusTally): (r: Rate)
    ensures r.NoAppointments? <==> Sum(StatusData(t)) == 0
    ensures r.Share? ==> r.cancelled == t.cancelled && r.total == Sum(StatusData(t))
    ensures r.Share? ==> 0 < r.total && r.cancelled <= r.total
  {
    var total := t.scheduled + t.completed + t.cancelled;
    StatusDataSum(t);
    if total > 0 then Share(t.cancelled, total) else NoAppointments
  }

  // ---------------------------------------------------------------------------
  // Patient gender counts
  // ---------------------------------------------------------------------------

  /** `user_id = ? AND gender IS NOT NULL AND gender != ''`. */
  function Gendered(userId: int): Patient -> bool
  {
    (p: Patient) => p.userId == userId && Truthy(p.gender)
  }

  function GenderOf(p: Patient): string
  {
    if p.gender.Some? then p.gender.value else ""
  }

  /** `SELECT gender, COUNT(*) … GROUP BY gender`. */
  function GenderRows(patients: seq<Patient>, userId: int): seq<(string, nat)>
  {
    GroupBy(Filter(patients, Gendered(userId)), GenderOf)
  }

  /** The user's patients with gender `gender`. */
  function OwnedWithGender(userId: int, gender: string): Patient -> bool
  {
    (p: Patient) => p.userId == userId && p.gender == Some(gender) && gender != ""
  }

  /** The patients the gender object counts: the user's patients with a
      gender, less those whose gender is `__proto__`, which
      `acc[row.gender] = row.count` does not turn into a property. */
  function GenderListed(userId: int): Patient -> bool
  {
    (p: Patient) => p.userId == userId && Truthy(p.gender) && NotProto(GenderOf(p))
  }

  /** The gender rows that become properties, as the rows they group. */
  function KeptGendered(patients: seq<Patient>, userId: int): seq<Patient>
  {
    Filter(Filter(patients, Gendered(userId)), KeyPasses(GenderOf, NotProto))
  }

  /** The gender object is the grouping of the patients it keeps. */
  lemma GenderObjectIsGrouped(patients: seq<Patient>, userId: int)
    ensures TextObjectOf(GenderRows(patients, userId)) == GroupBy(KeptGendered(patients, userId), GenderOf)
  {
    TextObjectOfDistinctRows(GenderRows(patients, userId));
    GroupByFilterKeys(Filter(patients, Gendered(userId)), GenderOf, NotProto);
  }

  /** The kept patients of one gender are the user's patients of that
      gender, none for `__proto__`. */
  lemma KeptGenderCount(patients: seq<Patient>, userId: int, g: string)
    ensures CountWhere(KeptGendered(patients, userId), KeyIs(GenderOf, g))
         == if NotProto(g) then CountWhere(patients, OwnedWithGender(userId, g)) else 0
  {
    var gendered, kept := Gendered(userId), KeyPasses(GenderOf, NotProto);
    CountFilter(Filter(patients, gendered), kept, KeyIs(GenderOf, g));
    CountFilter(patients, gendered, And(kept, KeyIs(GenderOf, g)));
    var p := And(gendered, And(kept, KeyIs(GenderOf, g)));
    var q := OwnedWithGender(userId, g);
    forall i | 0 <= i < |patients| ensures p(patients[i]) == (NotProto(g) && q(patients[i])) {
      var x := patients[i];
      assert kept(x) == NotProto(GenderOf(x));
      assert KeyIs(GenderOf, g)(x) == (GenderOf(x) == g);
      assert p(x) == (x.userId == userId && Truthy(x.gender) && NotProto(GenderOf(x)) && GenderOf(x) == g);
    }
    if NotProto(g) {
      CountWhereExt(patients, p, q);
    }
  }

  /** The kept patients are those `GenderListed` selects. */
  lemma KeptGenderedAreListed(patients: seq<Patient>, userId: int)
    ensures |KeptGendered(patients, userId)| == CountWhere(patients, GenderListed(userId))
  {
    var gendered, kept := Gendered(userId), KeyPasses(GenderOf, NotProto);
    CountFilter(patients, gendered, kept);
    var p, q := And(gendered, kept), GenderListed(userId);
    forall i | 0 <= i < |patients| ensures p(patients[i]) == q(patients[i]) {
      var x := patients[i];
      assert kept(x) == NotProto(GenderOf(x));
    }
    CountWhereExt(patients, p, q);
  }

  /** The gender object: one property per gender that occurs, never the
      empty one nor `__proto__`, holding the number of the user's patients
      with it; its values add up to `totalPatients`, the user's patients
      with a gender other than `__proto__`. */
  lemma GenderObjectCounts(patients: seq<Patient>, userId: int)
    ensures var obj := TextObjectOf(GenderRows(patients, userId));
      && !HasKey(obj, "") && !HasKey(obj, ProtoKey)
      && (forall g :: CountOf(obj, g) == if NotProto(g) then CountWhere(patients, OwnedWithGender(userId, g)) else 0)
      && Sum(Values(obj)) == CountWhere(patients, GenderListed(userId))
  {
    var obj := TextObjectOf(GenderRows(patients, userId));
    GenderObjectIsGrouped(patients, userId);
    forall g ensures CountOf(obj, g) == if NotProto(g) then CountWhere(patients, OwnedWithGender(userId, g)) else 0 {
      KeptGenderCount(patients, userId, g);
    }
    KeptGenderedAreListed(patients, userId);
    KeptGenderCount(patients, userId, "");
    assert CountWhere(patients, OwnedWithGender(userId, "")) == 0;
  }

  /** `totalPatients` misses exactly the user's patients whose gender is
      `__proto__`. */
  lemma TotalPatientsLeavesOutProto(patients: seq<Patient>, userId: int)
    ensures CountWhere(patients, Gendered(userId))
         == CountWhere(patients, GenderListed(userId)) + CountWhere(patients, OwnedWithGender(userId, ProtoKey))
  {
    var listed, proto := GenderListed(userId), OwnedWithGender(userId, ProtoKey);
    forall x: Patient ensures Gendered(userId)(x) == (listed(x) || proto(x)) && !(listed(x) && proto(x)) {
      assert NotProto(GenderOf(x)) == (GenderOf(x) != ProtoKey);
    }
    CountWhereDisjoint(patients, listed, proto, Gendered(userId));
  }

  // ---------------------------------------------------------------------------
  // Trends over the last seven days
  // ---------------------------------------------------------------------------

  /** `user_id = ? AND date(appointment_date) >= date('now', '-6 days')`. */
  function AppointmentSince(userId: int, first: int): Appointment -> bool
  {
    (a: Appointment) => a.userId == userId && a.date.day >= first
  }

  function AppointmentDay(a: Appointment): int { a.date.day }

  function PatientDay(p: Patient): int { p.createdAt.day }

  /** `SELECT date(appointment_date) as day, COUNT(*) … GROUP BY day`. */
  function AppointmentTrendRows(appointments: seq<Appointment>, userId: int, first: int): seq<(int, nat)>
  {
    GroupBy(Filter(appointments, AppointmentSince(userId, first)), AppointmentDay)
  }

  /** `SELECT date(created_at) as day, COUNT(*) … GROUP BY day`. */
  function PatientTrendRows(patients: seq<Patient>, userId: int, first: int): seq<(int, nat)>
  {
    GroupBy(Filter(patients, App.CreatedSince(userId, first)), PatientDay)
  }

  /** `formatTrendData`: the raw rows folded into a day-to-count object, then
      read for each listed day with `|| 0`. Each entry is the last count the
      raw rows give for that day, 0 when they give none; raw days that are
      not listed are dropped. */
  function FormatTrend(raw: seq<(int, nat)>, dates: seq<int>): (data: seq<nat>)
    ensures |data| == |dates|
    ensures forall k :: 0 <= k < |dates| ==> data[k] == LastCountOf(raw, dates[k])
  {
    var trendMap := ObjectOf(raw);
    forall k | 0 <= k < |dates| ensures CountOf(trendMap, dates[k]) == LastCountOf(raw, dates[k]) {
      ObjectHoldsLastValue(raw, dates[k]);
    }
    seq(|dates|, k requires 0 <= k < |dates| => CountOf(trendMap, dates[k]))
  }

  /** The user's appointments on day `day`. */
  function AppointmentOn(userId: int, day: int): Appointment -> bool
  {
    (a: Appointment) => a.userId == userId && a.date.day == day
  }

  /** The user's patients added on day `day`. */
  function PatientAddedOn(userId: int, day: int): Patient -> bool
  {
    (p: Patient) => p.userId == userId && p.createdAt.day == day
  }

  /** On days of the window, the appointment trend is the number of the
      user's appointments on each day. */
  lemma AppointmentTrendIsDaily(appointments: seq<Appointment>, userId: int, first: int, dates: seq<int>)
    requires forall k :: 0 <= k < |dates| ==> dates[k] >= first
    ensures var data := FormatTrend(AppointmentTrendRows(appointments, userId, first), dates);
      forall k :: 0 <= k < |dates| ==> data[k] == CountWhere(appointments, AppointmentOn(userId, dates[k]))
  {
    var rows := AppointmentTrendRows(appointments, userId, first);
    forall k | 0 <= k < |dates| ensures LastCountOf(rows, dates[k]) == CountWhere(appointments, AppointmentOn(userId, dates[k])) {
      AppointmentDayCount(appointments, userId, first, dates[k]);
    }
  }

  /** One day of the appointment trend, on or after the window's first day. */
  lemma AppointmentDayCount(appointments: seq<Appointment>, userId: int, first: int, day: int)
    requires day >= first
    ensures LastCountOf(AppointmentTrendRows(appointments, userId, first), day) == CountWhere(appointments, AppointmentOn(userId, day))
  {
    LastIsFirstWhenDistinct(AppointmentTrendRows(appointments, userId, first), day);
    var p, q := And(AppointmentSince(userId, first), KeyIs(AppointmentDay, day)), AppointmentOn(userId, day);
    CountFilter(appointments, AppointmentSince(userId, first), KeyIs(AppointmentDay, day));
    forall i | 0 <= i < |appointments| ensures p(appointments[i]) == q(appointments[i]) {
      var a := appointments[i];
      assert AppointmentSince(userId, first)(a) == (a.userId == userId && a.date.day >= first);
      assert KeyIs(AppointmentDay, day)(a) == (AppointmentDay(a) == day);
      assert p(a) == (a.userId == userId && a.date.day >= first && a.date.day == day);
    }
    CountWhereExt(appointments, p, q);
  }

  /** On days of the window, the new-patient trend is the number of the
      user's patients added on each day. */
  lemma PatientTrendIsDaily(patients: seq<Patient>, userId: int, first: int, dates: seq<int>)
    requires forall k :: 0 <= k < |dates| ==> dates[k] >= first
    ensures var data := FormatTrend(PatientTrendRows(patients, userId, first), dates);
      forall k :: 0 <= k < |dates| ==> data[k] == CountWhere(patients, PatientAddedOn(userId, dates[k]))
  {
    var rows := PatientTrendRows(patients, userId, first);
    forall k | 0 <= k < |dates| ensures LastCountOf(rows, dates[k]) == CountWhere(patients, PatientAddedOn(userId, dates[k])) {
      PatientDayCount(patients, userId, first, dates[k]);
    }
  }

  /** One day of the new-patient trend, on or after the window's first day. */
  lemma PatientDayCount(patients: seq<Patient>, userId: int, first: int, day: int)
    requires day >= first
    ensures LastCountOf(PatientTrendRows(patients, userId, first), day) == CountWhere(patients, PatientAddedOn(userId, day))
  {
    LastIsFirstWhenDistinct(PatientTrendRows(patients, userId, first), day);
    var p, q := And(App.CreatedSince(userId, first), KeyIs(PatientDay, day)), PatientAddedOn(userId, day);
    CountFilter(patients, App.CreatedSince(userId, first), KeyIs(PatientDay, day));
    forall i | 0 <= i < |patients| ensures p(patients[i]) == q(patients[i]) {
      var x := patients[i];
      assert App.CreatedSince(userId, first)(x) == (x.userId == userId && x.createdAt.day >= first);
      assert KeyIs(PatientDay, day)(x) == (PatientDay(x) == day);
      assert p(x) == (x.userId == userId && x.createdAt.day >= first && x.createdAt.day == day);
    }
    CountWhereExt(patients, p, q);
  }

  // ---------------------------------------------------------------------------
  // Age distribution
  // ---------------------------------------------------------------------------

  /** The number of arms of the CASE expression, 'Unknown' included. */
  const AgeGroups: nat := 8

  /** The label of each arm; their order here is also their order as
      texts. */
  function AgeLabel(l: nat): string
    requires l < AgeGroups
  {
    match l
    case 0 => "0-10"
    case 1 => "11-20"
    case 2 => "21-30"
    case 3 => "31-40"
    case 4 => "41-50"
    case 5 => "51-60"
    case 6 => "60+"
    case _ => "Unknown"
  }

  /** The arm of 'Unknown'. */
  const UnknownGroup: nat := 7

  /** `strftime('%Y.%m%d', d)` read as a number, scaled by 10 000. */
  function DateNumber(d: CivilDate): int
  {
    d.year * 10000 + d.month * 100 + d.day
  }

  /** `CAST(strftime('%Y.%m%d', 'now') - strftime('%Y.%m%d', dob) AS INTEGER)`:
      the difference, truncated toward zero. */
  function SqlAge(dob: CivilDate, today: CivilDate): int
  {
    var n := DateNumber(today) - DateNumber(dob);
    if n >= 0 then n / 10000 else -((-n) / 10000)
  }

  /** The CASE arm an age falls in: 0-10, 11-20, …, 51-60, then 60+ above 60,
      and 'Unknown' for a negative age. */
  function BracketIndex(age: int): (b: nat)
    ensures b < AgeGroups
    ensures b == UnknownGroup <==> age < 0
    ensures b == 6 <==> age > 60
    ensures b < 6 ==> (if b == 0 then 0 else 10 * b + 1) <= age <= 10 * b + 10
  {
    if age < 0 then UnknownGroup
    else if age <= 10 then 0
    else if age <= 20 then 1
    else if age <= 30 then 2
    else if age <= 40 then 3
    else if age <= 50 then 4
    else if age <= 60 then 5
    else 6
  }

  /** The `age_group` of a patient row; a date of birth that is not a date
      makes every arm NULL and falls to 'Unknown'. */
  function AgeGroup(p: Patient, today: CivilDate): (l: nat)
    ensures l < AgeGroups
  {
    match p.dateOfBirth
    case Some(dob) => if ValidCivil(dob) then BracketIndex(SqlAge(dob, today)) else UnknownGroup
    case None => UnknownGroup
  }

  lemma DivByUnit(q: int, r: int)
    requires 0 <= r < 10000
    ensures (q * 10000 + r) / 10000 == q
  {
  }

  lemma DivAtLeastOne(x: int)
    requires x >= 10000
    ensures x / 10000 >= 1
  {
  }

  /** For a birth date not after today the SQL age is the patient's age in
      completed years, as the patient list computes it. */
  lemma SqlAgeIsCompletedYears(dob: CivilDate, today: CivilDate)
    requires ValidCivil(dob) && ValidCivil(today)
    requires DateNumber(dob) <= DateNumber(today)
    ensures SqlAge(dob, today) == Patients.Age(dob, today)
  {
    Patients.AgeIsCompletedYears(dob, today);
    var years := today.year - dob.year;
    var diff := (today.month * 100 + today.day) - (dob.month * 100 + dob.day);
    assert DateNumber(today) - DateNumber(dob) == years * 10000 + diff;
    if Patients.BeforeInYear(today.month, today.day, dob.month, dob.day) {
      assert -10000 < diff < 0;
      DivByUnit(years - 1, diff + 10000);
      assert years * 10000 + diff == (years - 1) * 10000 + (diff + 10000);
    } else {
      assert 0 <= diff < 10000;
      DivByUnit(years, diff);
    }
  }

  /** 'Unknown' is the label of a date of birth a year or more after today;
      a date of birth later than today but within the coming year counts as
      age 0 and falls in '0-10'. */
  lemma FutureBirthDates(dob: CivilDate, today: CivilDate)
    requires ValidCivil(dob) && ValidCivil(today)
    ensures BracketIndex(SqlAge(dob, today)) == UnknownGroup <==> DateNumber(dob) - DateNumber(today) >= 10000
    ensures 0 < DateNumber(dob) - DateNumber(today) < 10000 ==> BracketIndex(SqlAge(dob, today)) == 0
  {
    var n := DateNumber(today) - DateNumber(dob);
    if n < 0 {
      if -n < 10000 {
        DivByUnit(0, -n);
      } else {
        DivAtLeastOne(-n);
      }
    }
  }

  /** `user_id = ? AND date_of_birth IS NOT NULL`. */
  function WithBirthDate(userId: int): Patient -> bool
  {
    (p: Patient) => p.userId == userId && p.dateOfBirth.Some?
  }

  /** The CASE arm of each patient row, on the day `today`. */
  function AgeGroupOn(today: CivilDate): (group: Patient -> nat)
    ensures forall p :: group(p) < AgeGroups
  {
    (p: Patient) => AgeGroup(p, today)
  }

  function InGroup(group: Patient -> nat, l: nat): Patient -> bool
  {
    (p: Patient) => group(p) == l
  }

  function GroupFrom(group: Patient -> nat, l: nat): Patient -> bool
  {
    (p: Patient) => group(p) >= l
  }

  /** The number of rows of `dated` in each arm, arm by arm. */
  function ArmSizes(dated: seq<Patient>, group: Patient -> nat): (sizes: seq<nat>)
    ensures |sizes| == AgeGroups
    ensures forall l :: 0 <= l < AgeGroups ==> sizes[l] == CountWhere(dated, InGroup(group, l))
  {
    seq(AgeGroups, l requires 0 <= l < AgeGroups => CountWhere(dated, InGroup(group, l)))
  }

  /** The non-empty arms from `l` on, by arm number, with their sizes. */
  function NonEmptyFrom(sizes: seq<nat>, l: nat): (rows: seq<(nat, nat)>)
    requires l <= |sizes|
    decreases |sizes| - l
    ensures forall i :: 0 <= i < |rows| ==> l <= rows[i].0 < |sizes| && rows[i].1 == sizes[rows[i].0] && rows[i].1 >= 1
    ensures forall i, j :: 0 <= i < j < |rows| ==> rows[i].0 < rows[j].0
  {
    if l == |sizes| then []
    else
      var rest := NonEmptyFrom(sizes, l + 1);
      if sizes[l] > 0 then
        var rows := [(l, sizes[l])] + rest;
        assert forall i, j :: 0 <= i < j < |rows| ==> rows[i].0 < rows[j].0 by {
          forall i, j | 0 <= i < j < |rows| ensures rows[i].0 < rows[j].0 {
            assert rows[j] == rest[j - 1];
          }
        }
        rows
      else
        rest
  }

  /** Every non-empty arm from `l` on has its row: row `i`. */
  lemma {:induction false} NonEmptyCovers(sizes: seq<nat>, l: nat, m: nat) returns (i: nat)
    requires l <= m < |sizes| && sizes[m] > 0
    decreases m - l
    ensures i < |NonEmptyFrom(sizes, l)| && NonEmptyFrom(sizes, l)[i].0 == m
  {
    if m == l {
      i := 0;
    } else {
      var j := NonEmptyCovers(sizes, l + 1, m);
      i := if sizes[l] > 0 then j + 1 else j;
    }
  }

  /** The rows hold all of the arm sizes from `l` on. */
  lemma {:induction false} NonEmptySum(sizes: seq<nat>, l: nat)
    requires l <= |sizes|
    decreases |sizes| - l
    ensures Sum(Values(NonEmptyFrom(sizes, l))) == Sum(sizes[l..])
  {
    if l < |sizes| {
      NonEmptySum(sizes, l + 1);
      var rest := NonEmptyFrom(sizes, l + 1);
      assert sizes[l..] == [sizes[l]] + sizes[l + 1..];
      assert ([sizes[l]] + sizes[l + 1..])[1..] == sizes[l + 1..];
      if sizes[l] > 0 {
        var rows := [(l, sizes[l])] + rest;
        assert Values(rows) == [sizes[l]] + Values(rest);
        assert ([sizes[l]] + Values(rest))[1..] == Values(rest);
      }
    }
  }

  /** The arm sizes from `l` on add up to the rows in those arms. */
  lemma {:induction false} ArmSizesSum(dated: seq<Patient>, group: Patient -> nat, l: nat)
    requires l <= AgeGroups
    requires forall p :: group(p) < AgeGroups
    decreases AgeGroups - l
    ensures Sum(ArmSizes(dated, group)[l..]) == CountWhere(dated, GroupFrom(group, l))
  {
    var sizes := ArmSizes(dated, group);
    if l == AgeGroups {
      assert sizes[l..] == [];
      forall i | 0 <= i < |dated| ensures !GroupFrom(group, l)(dated[i]) {
      }
    } else {
      ArmSizesSum(dated, group, l + 1);
      assert sizes[l..] == [sizes[l]] + sizes[l + 1..];
      assert ([sizes[l]] + sizes[l + 1..])[1..] == sizes[l + 1..];
      CountWhereDisjoint(dated, InGroup(group, l), GroupFrom(group, l + 1), GroupFrom(group, l));
    }
  }

  /** The labels start with distinct, increasing characters, so they are in
      strictly increasing text order. */
  lemma AgeLabelsAscending()
    ensures forall i, j :: 0 <= i < j < AgeGroups ==> LexLess(AgeLabel(i), AgeLabel(j))
  {
    var firsts := ['0', '1', '2', '3', '4', '5', '6', 'U'];
    forall i | 0 <= i < AgeGroups ensures |AgeLabel(i)| > 0 && AgeLabel(i)[0] == firsts[i] {
    }
  }

  /** `SELECT CASE … END as age_group, COUNT(*) … WHERE user_id = ? AND
      date_of_birth IS NOT NULL GROUP BY age_group ORDER BY age_group`: one
      row per label that occurs, each label once, in text order; the counts
      add up to the user's patients with a date of birth. */
  function AgeDistribution(patients: seq<Patient>, userId: int, today: CivilDate): (rows: seq<(string, nat)>)
    ensures forall i, j :: 0 <= i < j < |rows| ==> LexLess(rows[i].0, rows[j].0)
    ensures forall i :: 0 <= i < |rows| ==> rows[i].1 >= 1
    ensures Sum(Values(rows)) == CountWhere(patients, WithBirthDate(userId))
  {
    var dated := Filter(patients, WithBirthDate(userId));
    var group := AgeGroupOn(today);
    var sizes := ArmSizes(dated, group);
    var idx := NonEmptyFrom(sizes, 0);
    NonEmptySum(sizes, 0);
    ArmSizesSum(dated, group, 0);
    FilterAll(dated, GroupFrom(group, 0));
    assert sizes[0..] == sizes;
    Labelled(idx)
  }

  /** Arm numbers replaced by their labels. */
  function Labelled(idx: seq<(nat, nat)>): (rows: seq<(string, nat)>)
    requires forall i :: 0 <= i < |idx| ==> idx[i].0 < AgeGroups
    requires forall i, j :: 0 <= i < j < |idx| ==> idx[i].0 < idx[j].0
    ensures |rows| == |idx| && forall i :: 0 <= i < |idx| ==> rows[i] == (AgeLabel(idx[i].0), idx[i].1)
    ensures forall i, j :: 0 <= i < j < |rows| ==> LexLess(rows[i].0, rows[j].0)
    ensures Values(rows) == Values(idx)
  {
    var rows := seq(|idx|, i requires 0 <= i < |idx| => (AgeLabel(idx[i].0), idx[i].1));
    AgeRowsOrdered(idx, rows);
    rows
  }

  /** Labels listed by increasing arm are in text order and keep the counts. */
  lemma AgeRowsOrdered(idx: seq<(nat, nat)>, rows: seq<(string, nat)>)
    requires forall i :: 0 <= i < |idx| ==> idx[i].0 < AgeGroups
    requires forall i, j :: 0 <= i < j < |idx| ==> idx[i].0 < idx[j].0
    requires |rows| == |idx| && forall i :: 0 <= i < |idx| ==> rows[i] == (AgeLabel(idx[i].0), idx[i].1)
    ensures forall i, j :: 0 <= i < j < |rows| ==> LexLess(rows[i].0, rows[j].0)
    ensures Values(rows) == Values(idx)
  {
    AgeLabelsAscending();
    forall i, j | 0 <= i < j < |rows| ensures LexLess(rows[i].0, rows[j].0) {
      assert idx[i].0 < idx[j].0;
    }
  }

  /** The patients counted by arm `l`: the user's, with a date of birth, in
      that arm. */
  function InArm(userId: int, today: CivilDate, l: nat): Patient -> bool
  {
    And(WithBirthDate(userId), InGroup(AgeGroupOn(today), l))
  }

  /** Each row of the distribution is an arm's label with the number of the
      user's patients in that arm. */
  lemma AgeRowIsArm(patients: seq<Patient>, userId: int, today: CivilDate, i: int) returns (l: nat)
    requires 0 <= i < |AgeDistribution(patients, userId, today)|
    ensures l < AgeGroups
    ensures AgeDistribution(patients, userId, today)[i] == (AgeLabel(l), CountWhere(patients, InArm(userId, today, l)))
  {
    var dated := Filter(patients, WithBirthDate(userId));
    var group := AgeGroupOn(today);
    var idx := NonEmptyFrom(ArmSizes(dated, group), 0);
    l := idx[i].0;
    CountFilter(patients, WithBirthDate(userId), InGroup(group, l));
  }

  /** Every arm some patient of the user falls in has its row. */
  lemma AgeArmIsListed(patients: seq<Patient>, userId: int, today: CivilDate, l: nat) returns (i: nat)
    requires l < AgeGroups
    requires CountWhere(patients, InArm(userId, today, l)) > 0
    ensures i < |AgeDistribution(patients, userId, today)|
    ensures AgeDistribution(patients, userId, today)[i].0 == AgeLabel(l)
  {
    var dated := Filter(patients, WithBirthDate(userId));
    var group := AgeGroupOn(today);
    CountFilter(patients, WithBirthDate(userId), InGroup(group, l));
    i := NonEmptyCovers(ArmSizes(dated, group), 0, l);
  }

  // ---------------------------------------------------------------------------
  // Upcoming appointments
  // ---------------------------------------------------------------------------

  /** `a.user_id = ? AND date(a.appointment_date) >= date('now') AND
      date(a.appointment_date) <= date('now', '+7 days') AND a.status = 'Scheduled'`. */
  function Upcoming(userId: int, today: int): Appointment -> bool
  {
    (a: Appointment) => a.userId == userId && today <= a.date.day <= today + 7 && a.status == Scheduled
  }

  predicate OldestFirstJoined(x: (Appointment, Patient), y: (Appointment, Patient))
  {
    OldestFirst(x.0, y.0)
  }

  lemma UpcomingOrderTotal()
    ensures TotalPreorder(OldestFirstJoined)
  {
  }

  /** The upcoming list: every upcoming appointment joined to its patient,
      earliest first, with no limit. */
  function UpcomingList(appointments: seq<Appointment>, patients: seq<Patient>, userId: int, today: int)
    : (rows: seq<(Appointment, Patient)>)
    ensures multiset(rows) == multiset(InnerJoin(Filter(appointments, Upcoming(userId, today)), patients, Appointments.JoinOn))
    ensures forall i, j :: 0 <= i < j < |rows| ==> OldestFirst(rows[i].0, rows[j].0)
  {
    UpcomingOrderTotal();
    SortBy(InnerJoin(Filter(appointments, Upcoming(userId, today)), patients, Appointments.JoinOn), OldestFirstJoined)
  }

  /** Every row of the upcoming list is an upcoming appointment of the user
      with the patient it refers to. */
  lemma UpcomingRowsMatch(appointments: seq<Appointment>, patients: seq<Patient>, userId: int, today: int)
    ensures forall x :: x in UpcomingList(appointments, patients, userId, today) ==>
      && x.0 in appointments && Upcoming(userId, today)(x.0)
      && x.1 in patients && Appointments.JoinOn(x.0, x.1)
  {
    var due := Filter(appointments, Upcoming(userId, today));
    var joined := InnerJoin(due, patients, Appointments.JoinOn);
    App.InnerJoinRowsMatch(due, patients, Appointments.JoinOn);
    UpcomingOrderTotal();
    SortByMembers(joined, OldestFirstJoined);
  }

  /** The reports window starts today while the dashboard's upcoming count
      starts tomorrow: the report covers today's Scheduled appointments as
      well as the dashboard's seven days. */
  lemma UpcomingWindowIncludesToday(appointments: seq<Appointment>, userId: int, today: int)
    ensures CountWhere(appointments, Upcoming(userId, today))
         == CountWhere(appointments, App.ScheduledOn(userId, today)) + CountWhere(appointments, App.ScheduledWithin(userId, today, today + 7))
  {
    CountWhereDisjoint(appointments, App.ScheduledOn(userId, today), App.ScheduledWithin(userId, today, today + 7), Upcoming(userId, today));
  }

  /** The gender chart read off the gender object: distinct labels, none
      empty or `__proto__`, each with the number of the user's patients of
      that gender. */
  lemma GenderChart(patients: seq<Patient>, userId: int)
    ensures var obj := TextObjectOf(GenderRows(patients, userId));
      && (forall i, j :: 0 <= i < j < |obj| ==> Keys(obj)[i] != Keys(obj)[j])
      && (forall i :: 0 <= i < |obj| ==> Keys(obj)[i] != "" && NotProto(Keys(obj)[i]))
      && (forall i :: 0 <= i < |obj| ==> Values(obj)[i] == CountWhere(patients, OwnedWithGender(userId, Keys(obj)[i])))
      && (forall g :: NotProto(g) && CountWhere(patients, OwnedWithGender(userId, g)) > 0 ==> g in Keys(obj))
      && Sum(Values(obj)) == CountWhere(patients, GenderListed(userId))
  {
    var obj := TextObjectOf(GenderRows(patients, userId));
    GenderObjectCounts(patients, userId);
    GendersLabelled(patients, userId);
    forall i | 0 <= i < |obj|
      ensures Keys(obj)[i] != "" && NotProto(Keys(obj)[i])
      ensures Values(obj)[i] == CountWhere(patients, OwnedWithGender(userId, Keys(obj)[i]))
    {
      assert HasKey(obj, obj[i].0);
      CountOfDistinct(obj, i);
    }
  }

  /** Every gender other than `__proto__` that some patient of the user has
      gets a label. */
  lemma GendersLabelled(patients: seq<Patient>, userId: int)
    ensures var obj := TextObjectOf(GenderRows(patients, userId));
      forall g :: NotProto(g) && CountWhere(patients, OwnedWithGender(userId, g)) > 0 ==> g in Keys(obj)
  {
    var obj := TextObjectOf(GenderRows(patients, userId));
    GenderObjectCounts(patients, userId);
    forall g | NotProto(g) && CountWhere(patients, OwnedWithGender(userId, g)) > 0 ensures g in Keys(obj) {
      CountedKeyListed(obj, g);
    }
  }

  // ---------------------------------------------------------------------------
  // GET /reports
  // ---------------------------------------------------------------------------

  /** What the reports view is given. */
  datatype ReportsPage =
    | ReportsPage(
        totalAppointments: nat,
        totalPatients: nat,
        cancellationRate: Rate,
        statusData: seq<nat>,
        genderLabels: seq<string>,
        genderData: seq<nat>,
        trendLabels: seq<int>,
        appointmentTrend: seq<nat>,
        patientTrend: seq<nat>,
        ageLabels: seq<string>,
        ageData: seq<nat>,
        upcoming: seq<(Appointment, Patient)>)
    | ReportsError(error: string)

  /** GET /reports on the day numbered `today`, whose calendar date is
      `date`. The caller passes the same day twice; the model does not tie
      the two together. The six queries either all succeed or the page shows
      only the error text; `fails` says which. */
  method ShowReports(appointments: seq<Appointment>, patients: seq<Patient>, userId: int, today: int, date: CivilDate,
                     fails: bool)
    returns (page: ReportsPage)
    ensures fails ==> page == ReportsError("Could not load report data.")
    ensures !fails ==> page.ReportsPage?
    ensures !fails ==>
      && page.statusData == [CountWhere(appointments, OwnedWithStatus(userId, Scheduled)),
                             CountWhere(appointments, OwnedWithStatus(userId, Completed)),
                             CountWhere(appointments, OwnedWithStatus(userId, Cancelled))]
      && page.totalAppointments == CountWhere(appointments, OwnedKnownStatus(userId))
      && (page.totalAppointments == 0 ==> page.cancellationRate == NoAppointments)
      && (page.totalAppointments > 0 ==>
            page.cancellationRate == Share(CountWhere(appointments, OwnedWithStatus(userId, Cancelled)), page.totalAppointments))
    ensures !fails ==>
      && page.totalPatients == CountWhere(patients, GenderListed(userId))
      && |page.genderLabels| == |page.genderData|
      && (forall i, j :: 0 <= i < j < |page.genderLabels| ==> page.genderLabels[i] != page.genderLabels[j])
      && (forall i :: 0 <= i < |page.genderLabels| ==>
            page.genderLabels[i] != "" && NotProto(page.genderLabels[i]) && page.genderData[i] == CountWhere(patients, OwnedWithGender(userId, page.genderLabels[i])))
      && (forall g :: NotProto(g) && CountWhere(patients, OwnedWithGender(userId, g)) > 0 ==> g in page.genderLabels)
      && Sum(page.genderData) == page.totalPatients
    ensures !fails ==>
      && |page.trendLabels| == DaysToTrack
      && (forall k :: 0 <= k < DaysToTrack ==> page.trendLabels[k] == today - 6 + k)
      && |page.appointmentTrend| == DaysToTrack && |page.patientTrend| == DaysToTrack
      && (forall k :: 0 <= k < DaysToTrack ==>
            && page.appointmentTrend[k] == CountWhere(appointments, AppointmentOn(userId, page.trendLabels[k]))
            && page.patientTrend[k] == CountWhere(patients, PatientAddedOn(userId, page.trendLabels[k])))
    ensures !fails ==>
      && page.ageLabels == Keys(AgeDistribution(patients, userId, date))
      && page.ageData == Values(AgeDistribution(patients, userId, date))
      && page.upcoming == UpcomingList(appointments, patients, userId, today)
  {
    if fails {
      return ReportsError("Could not load report data.");
    }
    var statusData, totalAppointments, rate := StatusChart(appointments, userId);
    var dates, appointmentTrend, patientTrend := TrendCharts(appointments, patients, userId, today);
    var genders := TextObjectOf(GenderRows(patients, userId));
    GenderObjectCounts(patients, userId);
    GenderChart(patients, userId);
    var ages := AgeDistribution(patients, userId, date);
    page := ReportsPage(
      totalAppointments, Sum(Values(genders)), rate, statusData,
      Keys(genders), Values(genders),
      dates, appointmentTrend, patientTrend,
      Keys(ages), Values(ages),
      UpcomingList(appointments, patients, userId, today));
  }

  /** The status chart, `totalAppointments` and the cancellation rate. */
  method StatusChart(appointments: seq<Appointment>, userId: int)
    returns (statusData: seq<nat>, totalAppointments: nat, rate: Rate)
    ensures statusData == [CountWhere(appointments, OwnedWithStatus(userId, Scheduled)),
                           CountWhere(appointments, OwnedWithStatus(userId, Completed)),
                           CountWhere(appointments, OwnedWithStatus(userId, Cancelled))]
    ensures totalAppointments == CountWhere(appointments, OwnedKnownStatus(userId))
    ensures totalAppointments == 0 ==> rate == NoAppointments
    ensures totalAppointments > 0 ==>
      rate == Share(CountWhere(appointments, OwnedWithStatus(userId, Cancelled)), totalAppointments)
  {
    var counts := FillStatusCounts(StatusRows(appointments, userId));
    StatusCountIsCount(appointments, userId, Scheduled);
    StatusCountIsCount(appointments, userId, Completed);
    StatusCountIsCount(appointments, userId, Cancelled);
    TotalCountsKnownStatuses(appointments, userId);
    statusData := StatusData(counts);
    totalAppointments := Sum(statusData);
    rate := CancellationRate(counts);
  }

  /** The trend labels (the last seven days) and both daily trends. */
  method TrendCharts(appointments: seq<Appointment>, patients: seq<Patient>, userId: int, today: int)
    returns (dates: seq<int>, appointmentTrend: seq<nat>, patientTrend: seq<nat>)
    ensures |dates| == DaysToTrack && |appointmentTrend| == DaysToTrack && |patientTrend| == DaysToTrack
    ensures forall k :: 0 <= k < DaysToTrack ==> dates[k] == today - 6 + k
    ensures forall k :: 0 <= k < DaysToTrack ==> appointmentTrend[k] == CountWhere(appointments, AppointmentOn(userId, dates[k]))
    ensures forall k :: 0 <= k < DaysToTrack ==> patientTrend[k] == CountWhere(patients, PatientAddedOn(userId, dates[k]))
  {
    dates := LastNDates(DaysToTrack, today);
    assert forall k :: 0 <= k < |dates| ==> dates[k] >= today - 6;
    appointmentTrend := FormatTrend(AppointmentTrendRows(appointments, userId, today - 6), dates);
    patientTrend := FormatTrend(PatientTrendRows(patients, userId, today - 6), dates);
    AppointmentTrendIsDaily(appointments, userId, today - 6, dates);
    PatientTrendIsDaily(patients, userId, today - 6, dates);
  }
}
