/** routes/auth.js: registration, login and logout. */
module Auth {
  import opened Common
  import opened Http
  import opened Query
  import opened Bcrypt
  import opened Store

  const InvalidCredentials: string := "Invalid username or password."

  datatype RegisterForm = RegisterForm(username: string, email: string, password: string, confirmPassword: string)

  /** The rows `SELECT * FROM users WHERE username = ? OR email = ?` finds. */
  function SameAccount(username: string, email: string): User -> bool
  {
    (u: User) => u.username == username || u.email == email
  }

  /** The rows `SELECT * FROM users WHERE username = ?` finds. */
  function UserNamed(username: string): User -> bool
  {
    (u: User) => u.username == username
  }

  /** An account that the lookup did not find keeps usernames and emails
      unique when it is added. */
  lemma RegisterKeepsAccountsUnique(users: seq<User>, u: User)
    requires UniqueAccounts(users)
    requires CountWhere(users, SameAccount(u.username, u.email)) == 0
    ensures UniqueAccounts(users + [u])
  {
    forall i | 0 <= i < |users| ensures users[i].username != u.username && users[i].email != u.email {
      assert !SameAccount(u.username, u.email)(users[i]);
    }
  }

  /** POST /auth/register. The password check comes before any database
      access; no field is checked for emptiness. */
  method Register(db: Database, form: RegisterForm, lookupFails: bool, insertFails: bool) returns (resp: Response)
    requires db.Valid()
    modifies db
    ensures db.Valid()
    ensures db.patients == old(db.patients) && db.appointments == old(db.appointments)
    ensures db.nextUserId == old(db.nextUserId) + (|db.users| - |old(db.users)|)
    ensures db.nextPatientId == old(db.nextPatientId) && db.nextAppointmentId == old(db.nextAppointmentId)
    ensures form.password != form.confirmPassword ==>
      resp == Render("register", Some("Passwords do not match")) && db.users == old(db.users)
    ensures form.password == form.confirmPassword ==>
      if lookupFails then
        resp == Render("register", Some("An error occurred. Please try again.")) && db.users == old(db.users)
      else if CountWhere(old(db.users), SameAccount(form.username, form.email)) > 0 then
        resp == Render("register", Some("Username or Email already exists.")) && db.users == old(db.users)
      else if insertFails then
        resp == Render("register", Some("Failed to register user.")) && db.users == old(db.users)
      else
        && resp == Redirect("/auth/login", NoFlash)
        && db.users == old(db.users) + [User(old(db.nextUserId), form.username, form.email, Hash(form.password))]
  {
    if form.password != form.confirmPassword {
      return Render("register", Some("Passwords do not match"));
    }
    if lookupFails {
      return Render("register", Some("An error occurred. Please try again."));
    }
    var existing := FindFirst(db.users, SameAccount(form.username, form.email));
    if existing.Some? {
      return Render("register", Some("Username or Email already exists."));
    }
    var hashed := Hash(form.password);
    if insertFails {
      return Render("register", Some("Failed to register user."));
    }
    var user := User(db.nextUserId, form.username, form.email, hashed);
    RegisterKeepsAccountsUnique(db.users, user);
    AppendFreshKey(db.users, user, UserKey, db.nextUserId);
    db.users := db.users + [user];
    db.nextUserId := db.nextUserId + 1;
    resp := Redirect("/auth/login", NoFlash);
  }

  /** The account a login attempt signs in to: the user found by name, when
      the password matches its stored digest. */
  function Authenticate(users: seq<User>, username: string, password: string): (account: Option<User>)
    ensures account.Some? ==> account.value in users && account.value.username == username
    ensures account.Some? ==> Matches(password, account.value.password)
  {
    var row := FindFirst(users, UserNamed(username));
    if row.Some? && Matches(password, row.value.password) then row else None
  }

  /** With unique usernames, a login succeeds exactly when some account has
      that username and its digest matches the password. */
  lemma AuthenticateIffCredentials(users: seq<User>, username: string, password: string)
    requires UniqueAccounts(users)
    ensures Authenticate(users, username, password).Some? <==>
      exists i :: 0 <= i < |users| && users[i].username == username && Matches(password, users[i].password)
  {
    var row := FindFirst(users, UserNamed(username));
    if i :| 0 <= i < |users| && users[i].username == username && Matches(password, users[i].password) {
      assert UserNamed(username)(users[i]);
      assert row.Some?;
      var j :| 0 <= j < |users| && users[j] == row.value;
      assert users[j].username == username;
    }
  }

  /** POST /auth/login. An unknown username and a wrong password give the
      same message, and neither touches the session. */
  method Login(db: Database, session: Session, username: string, password: string, lookupFails: bool)
    returns (resp: Response)
    modifies session
    ensures lookupFails ==>
      resp == Render("login", Some("An error occurred. Please try again.")) && unchanged(session)
    ensures !lookupFails && Authenticate(db.users, username, password).None? ==>
      resp == Render("login", Some(InvalidCredentials)) && unchanged(session)
    ensures !lookupFails && Authenticate(db.users, username, password).Some? ==>
      var account := Authenticate(db.users, username, password).value;
      && resp == Redirect("/dashboard", NoFlash)
      && session.userId == Some(account.id)
      && session.username == Some(account.username)
  {
    if lookupFails {
      return Render("login", Some("An error occurred. Please try again."));
    }
    var user := FindFirst(db.users, UserNamed(username));
    if user.None? {
      return Render("login", Some(InvalidCredentials));
    }
    var matched := Matches(password, user.value.password);
    if matched {
      session.userId := Some(user.value.id);
      session.username := Some(user.value.username);
      resp := Redirect("/dashboard", NoFlash);
    } else {
      resp := Render("login", Some(InvalidCredentials));
    }
  }

  /** POST /auth/logout: the session is destroyed and the browser sent to
      the login page; if the store fails to destroy it, the session stays
      and the browser goes to `/`. */
  method Logout(session: Session, destroyFails: bool) returns (resp: Response)
    modifies session
    ensures destroyFails ==> resp == Redirect("/", NoFlash) && unchanged(session)
    ensures !destroyFails ==>
      resp == Redirect("/auth/login", NoFlash) && session.userId.None? && session.username.None?
  {
    if destroyFails {
      return Redirect("/", NoFlash);
    }
    session.userId, session.username := None, None;
    resp := Redirect("/auth/login", NoFlash);
  }
}
