/** routes/settings.js: changing the signed-in user's password. */
module Settings {
  import opened Common
  import opened Http
  import opened Text
  import opened Query
  import opened Bcrypt
  import opened Store

  datatype PasswordForm = PasswordForm(currentPassword: string, newPassword: string, confirmPassword: string)

  /** The shortest new password accepted, in UTF-16 code units (`length`). */
  const MinPasswordLength: nat := 8

  /** `WHERE id = ?` on the users table. */
  function HasId(id: int): User -> bool
  {
    (u: User) => u.id == id
  }

  /** `SET password = ?`: only the password column is written. */
  function SetPassword(digest: Digest): User -> User
  {
    (u: User) => u.(password := digest)
  }

  predicate AllGiven(form: PasswordForm)
  {
    form.currentPassword != "" && form.newPassword != "" && form.confirmPassword != ""
  }

  /** Rewriting one user's password keeps ids distinct and below the
      counter, and keeps usernames and emails unique. */
  lemma SetPasswordKeepsValid(users: seq<User>, id: int, digest: Digest, bound: int)
    requires DistinctKeys(users, UserKey) && KeysBelow(users, UserKey, bound) && UniqueAccounts(users)
    ensures var r := UpdateWhere(users, HasId(id), SetPassword(digest));
      DistinctKeys(r, UserKey) && KeysBelow(r, UserKey, bound) && UniqueAccounts(r)
  {
    UpdateKeepsDistinct(users, HasId(id), SetPassword(digest), UserKey);
  }

  /** The update writes `digest` into the password of the row with that id
      and leaves every other column of every row as it was. */
  lemma {:induction false} SetPasswordOnlyTouchesPassword(users: seq<User>, id: int, digest: Digest)
    ensures var r := UpdateWhere(users, HasId(id), SetPassword(digest));
      && |r| == |users|
      && (forall i :: 0 <= i < |r| ==>
            && r[i].id == users[i].id && r[i].username == users[i].username && r[i].email == users[i].email
            && r[i].password == (if users[i].id == id then digest else users[i].password))
  {
    var r := UpdateWhere(users, HasId(id), SetPassword(digest));
    forall i | 0 <= i < |r|
      ensures r[i].id == users[i].id && r[i].username == users[i].username && r[i].email == users[i].email
      ensures r[i].password == (if users[i].id == id then digest else users[i].password)
    {
      assert r[i] == if HasId(id)(users[i]) then SetPassword(digest)(users[i]) else users[i];
    }
  }

  /** POST /settings/change-password. The checks run in this order: every
      field given, new equals confirmation, the account is found, the current
      password matches, the new one is long enough; only then is the one row
      updated. Every outcome is a redirect to `/settings` with a flash. */
  method ChangePassword(db: Database, userId: int, form: PasswordForm, lookupFails: bool, updateFails: bool)
    returns (resp: Response)
    requires db.Valid()
    modifies db
    ensures db.Valid()
    ensures resp.Redirect? && resp.location == "/settings"
    ensures db.patients == old(db.patients) && db.appointments == old(db.appointments)
    ensures db.nextUserId == old(db.nextUserId) && db.nextPatientId == old(db.nextPatientId)
      && db.nextAppointmentId == old(db.nextAppointmentId)
    ensures !AllGiven(form) ==>
      resp.flash == ErrorFlash("All password fields are required.") && db.users == old(db.users)
    ensures AllGiven(form) && form.newPassword != form.confirmPassword ==>
      resp.flash == ErrorFlash("New passwords do not match.") && db.users == old(db.users)
    ensures AllGiven(form) && form.newPassword == form.confirmPassword ==>
      var account := FindFirst(old(db.users), HasId(userId));
      if lookupFails || account.None? then
        resp.flash == ErrorFlash("Could not retrieve user information.") && db.users == old(db.users)
      else if !Matches(form.currentPassword, account.value.password) then
        resp.flash == ErrorFlash("Incorrect current password.") && db.users == old(db.users)
      else if Utf16Length(form.newPassword) < MinPasswordLength then
        resp.flash == ErrorFlash("New password must be at least 8 characters long.") && db.users == old(db.users)
      else if updateFails then
        resp.flash == ErrorFlash("Failed to update password. Please try again.") && db.users == old(db.users)
      else
        && resp.flash == SuccessFlash("Password updated successfully!")
        && db.users == UpdateWhere(old(db.users), HasId(userId), SetPassword(Hash(form.newPassword)))
  {
    if form.currentPassword == "" || form.newPassword == "" || form.confirmPassword == "" {
      return Redirect("/settings", ErrorFlash("All password fields are required."));
    }
    if form.newPassword != form.confirmPassword {
      return Redirect("/settings", ErrorFlash("New passwords do not match."));
    }
    if lookupFails {
      return Redirect("/settings", ErrorFlash("Could not retrieve user information."));
    }
    var user := FindFirst(db.users, HasId(userId));
    if user.None? {
      return Redirect("/settings", ErrorFlash("Could not retrieve user information."));
    }
    var matched := Matches(form.currentPassword, user.value.password);
    if !matched {
      return Redirect("/settings", ErrorFlash("Incorrect current password."));
    }
    if Utf16Length(form.newPassword) < MinPasswordLength {
      return Redirect("/settings", ErrorFlash("New password must be at least 8 characters long."));
    }
    var hashed := Hash(form.newPassword);
    if updateFails {
      return Redirect("/settings", ErrorFlash("Failed to update password. Please try again."));
    }
    SetPasswordKeepsValid(db.users, userId, hashed, db.nextUserId);
    db.users := UpdateWhere(db.users, HasId(userId), SetPassword(hashed));
    resp := Redirect("/settings", SuccessFlash("Password updated successfully!"));
  }
}
