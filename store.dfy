/** The stand-in for bcrypt: `bcrypt.hash` and `bcrypt.compare`. The
    stored digest simply holds the password, so the stand-in is injective
    (a digest accepts exactly one password) but not one-way; no property of
    the model depends on the digest hiding the password. */
module Bcrypt {

  /** What `bcrypt.hash(password, saltRounds)` stores in `users.password`. */
  datatype Digest = Digest(hashed: string)

  /** `bcrypt.compare(password, digest)`. */
  predicate Matches(password: string, digest: Digest)
  {
    digest.hashed == password
  }

  /** `bcrypt.hash(password, saltRounds)`. */
  function Hash(password: string): (digest: Digest)
    ensures Matches(password, digest)
  {
    Digest(password)
  }

  /** A digest accepts the password it was made from and no other. */
  lemma MatchesOnlyOriginal(password: string, original: string)
    ensures Matches(password, Hash(original)) <==> password == original
  {
  }
}

/** The three SQLite tables (database/db.js) and the server-side session.
    Tables are sequences of rows; AUTOINCREMENT is a counter per table. */
module Store {
  import opened Common
  import opened Query
  import opened Bcrypt

  /** The three status values the application writes itself. */
  const Scheduled: string := "Scheduled"
  const Completed: string := "Completed"
  const Cancelled: string := "Cancelled"

  datatype User = User(id: int, username: string, email: string, password: Digest)

  datatype Patient = Patient(
    id: int,
    userId: int,
    firstName: string,
    lastName: string,
    dateOfBirth: Option<CivilDate>,
    gender: Option<string>,
    contactNumber: Option<string>,
    email: Option<string>,
    address: Option<string>,
    medicalHistory: Option<string>,
    createdAt: DateTime)

  datatype Appointment = Appointment(
    id: int,
    userId: int,
    patientId: int,
    date: DateTime,
    reason: Option<string>,
    status: string,
    createdAt: DateTime)

  function UserKey(u: User): int { u.id }
  function PatientKey(p: Patient): int { p.id }
  function AppointmentKey(a: Appointment): int { a.id }

  /** The UNIQUE constraints on `users.username` and `users.email`. */
  ghost predicate UniqueAccounts(users: seq<User>)
  {
    forall i, j :: 0 <= i < j < |users| ==> users[i].username != users[j].username && users[i].email != users[j].email
  }

  class Database {
    var users: seq<User>
    var patients: seq<Patient>
    var appointments: seq<Appointment>
    var nextUserId: int
    var nextPatientId: int
    var nextAppointmentId: int

    /** Primary keys are distinct and below the AUTOINCREMENT counters;
        usernames and emails are unique. No foreign-key constraint is
        enforced (db.js never turns `PRAGMA foreign_keys` on). */
    ghost predicate Valid()
      reads this
    {
      && DistinctKeys(users, UserKey) && KeysBelow(users, UserKey, nextUserId) && nextUserId >= 1
      && DistinctKeys(patients, PatientKey) && KeysBelow(patients, PatientKey, nextPatientId) && nextPatientId >= 1
      && DistinctKeys(appointments, AppointmentKey) && KeysBelow(appointments, AppointmentKey, nextAppointmentId)
      && nextAppointmentId >= 1
      && UniqueAccounts(users)
    }

    constructor ()
      ensures Valid()
      ensures users == [] && patients == [] && appointments == []
    {
      users, patients, appointments := [], [], [];
      nextUserId, nextPatientId, nextAppointmentId := 1, 1, 1;
    }
  }

  /** The session payload `{ userId, username }` kept by the session store. */
  class Session {
    var userId: Option<int>
    var username: Option<string>

    constructor ()
      ensures userId.None? && username.None?
    {
      userId, username := None, None;
    }
  }
}
