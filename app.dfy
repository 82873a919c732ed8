/** The application shell (App.tsx): the route, the signed-in user and the login and register
    forms, over the users table. The stored session (`localStorage['session_user_id']`) is a
    field; the clock is a parameter. */
module App {
  import opened Outcomes
  import opened Types
  import opened Seqs
  import opened Db

  const InvalidCredentials := "Credenciales inv\U{00E1}lidas. Para demo admin use: admin@test.com / admin"
  const EmailTaken := "El correo electr\U{00F3}nico ya existe"

  /** What the shell renders. */
  datatype Screen = AdminScreen | ClientScreen | RoleSelectionScreen | RegisterScreen | LoginScreen(asAdmin: bool)

  /** Where a signed-in user of `role` is sent. */
  function DashboardFor(role: Role): (r: AppRoute)
    ensures r == AdminDashboard <==> role == Admin
    ensures r == ClientDashboard <==> role.Client?
  {
    if role == Admin then AdminDashboard else ClientDashboard
  }

  /** Some stored user has exactly this email and password. */
  ghost predicate CredentialsMatch(users: seq<User>, email: string, password: string) {
    exists k :: 0 <= k < |users| && users[k].email == email && users[k].passwordHash == password
  }

  /** The view chosen for a route and a signed-in user: a dashboard only when the route and the
      user's role agree; the role choice only while nobody is signed in; the login form in
      every other case. */
  function View(route: AppRoute, user: Option<User>, userType: Option<Role>): (s: Screen)
    ensures s == AdminScreen <==> route == AdminDashboard && user.Some? && user.value.role == Admin
    ensures s == ClientScreen <==> route == ClientDashboard && user.Some? && user.value.role == Client
    ensures s == RoleSelectionScreen <==> route == RoleSelection && user.None?
    ensures s == RegisterScreen <==> route == Register
    ensures s.LoginScreen? ==> s.asAdmin == (userType == Some(Admin))
  {
    if route == AdminDashboard && user.Some? && user.value.role == Admin then AdminScreen
    else if route == ClientDashboard && user.Some? && user.value.role == Client then ClientScreen
    else if route == RoleSelection && user.None? then RoleSelectionScreen
    else if route == Register then RegisterScreen
    else LoginScreen(userType == Some(Admin))
  }

  class App {
    const db: Database
    var route: AppRoute
    var user: Option<User>
    var userType: Option<Role>
    var email: string
    var password: string
    var regName: string
    var regEmail: string
    var regPass: string
    var error: string
    /** The key kept in `localStorage` under 'session_user_id'. */
    var sessionUserId: Option<nat>

    ghost predicate Valid()
      reads this, db
    {
      db.Valid() && UniqueEmails(db.users)
    }

    /** The shell as it first renders, with whatever session the browser kept. */
    constructor (db: Database, stored: Option<nat>)
      requires db.Valid() && UniqueEmails(db.users)
      ensures Valid()
      ensures this.db == db && sessionUserId == stored
      ensures route == RoleSelection && user.None? && userType.None? && error == ""
      ensures email == "" && password == "" && regName == "" && regEmail == "" && regPass == ""
    {
      this.db := db;
      route, user, userType := RoleSelection, None, None;
      email, password, regName, regEmail, regPass, error := "", "", "", "", "", "";
      sessionUserId := stored;
    }

    /** `handleLoginSuccess(u)`: signs `u` in, remembers the session and routes by role. */
    method HandleLoginSuccess(u: User)
      modifies this`user, this`sessionUserId, this`route
      ensures user == Some(u) && sessionUserId == Some(u.id) && route == DashboardFor(u.role)
    {
      user := Some(u);
      sessionUserId := Some(u.id);
      if u.role == Admin {
        route := AdminDashboard;
      } else {
        route := ClientDashboard;
      }
    }

    /** The start-up effect: seeds the admin, then resumes the remembered session when its
        user still exists. */
    method Init(now: int)
      requires Valid()
      modifies this`user, this`sessionUserId, this`route, db`users, db`nextUserId
      ensures Valid()
      ensures old(FirstWithEmail(db.users, AdminEmail)).Some? ==>
        db.users == old(db.users) && db.nextUserId == old(db.nextUserId)
      ensures old(FirstWithEmail(db.users, AdminEmail)).None? ==>
        && db.users == old(db.users) + [User(old(db.nextUserId), "System Administrator", AdminEmail, "admin", Admin, now)]
        && db.nextUserId == old(db.nextUserId) + 1
      ensures FirstWithEmail(db.users, AdminEmail).Some?
      ensures sessionUserId == old(sessionUserId)
      ensures var resumed := if old(sessionUserId).Some? then UserWithId(db.users, old(sessionUserId).value) else None;
        && (resumed.Some? ==> user == resumed && route == DashboardFor(resumed.value.role))
        && (resumed.None? ==> user == old(user) && route == old(route))
    {
      db.SeedAdmin(now);
      if sessionUserId.Some? {
        var u := UserWithId(db.users, sessionUserId.value);
        if u.Some? {
          HandleLoginSuccess(u.value);
        }
      }
    }

    /** `login()`: signs in the user whose email and password were typed, or reports the
        fixed error. */
    method Login()
      requires Valid()
      modifies this`user, this`sessionUserId, this`route, this`error
      ensures Valid()
      ensures error == "" <==> CredentialsMatch(db.users, email, password)
      ensures CredentialsMatch(db.users, email, password) ==>
        && user.Some? && user.value.email == email && user.value.passwordHash == password
        && (exists k :: 0 <= k < |db.users| && db.users[k] == user.value)
        && sessionUserId == Some(user.value.id)
        && route == DashboardFor(user.value.role)
      ensures !CredentialsMatch(db.users, email, password) ==>
        && error == InvalidCredentials && user == old(user) && route == old(route)
        && sessionUserId == old(sessionUserId)
    {
      error := "";
      var u := FirstWithEmail(db.users, email);
      LoginDecidedByFirstMatch(db.users, email, password);
      if u.Some? && u.value.passwordHash == password {
        HandleLoginSuccess(u.value);
      } else {
        error := InvalidCredentials;
      }
    }

    /** `register()`: refuses an email already taken; otherwise stores a new client and signs
        them in. */
    method Register(now: int)
      requires Valid()
      modifies this`user, this`sessionUserId, this`route, this`error, db`users, db`nextUserId
      ensures Valid()
      ensures FirstWithEmail(old(db.users), regEmail).Some? ==>
        && error == EmailTaken && db.users == old(db.users) && db.nextUserId == old(db.nextUserId)
        && user == old(user) && route == old(route) && sessionUserId == old(sessionUserId)
      ensures FirstWithEmail(old(db.users), regEmail).None? ==>
        var created := User(old(db.nextUserId), regName, regEmail, regPass, Client, now);
        && error == ""
        && db.users == old(db.users) + [created] && db.nextUserId == old(db.nextUserId) + 1
        && user == Some(created) && sessionUserId == Some(created.id) && route == ClientDashboard
    {
      error := "";
      var existing := FirstWithEmail(db.users, regEmail);
      if existing.Some? {
        error := EmailTaken;
        return;
      }
      ghost var before := db.users;
      var id := db.AddUser(User(0, regName, regEmail, regPass, Client, now));
      NewEmailKeepsUnique(before, db.users[|db.users| - 1]);
      var newUser := UserWithId(db.users, id);
      NewestFoundById(db.users, id);
      if newUser.Some? {
        HandleLoginSuccess(newUser.value);
      }
    }

    /** `logout()`: forgets the session and the typed credentials and returns to the role choice. */
    method Logout()
      modifies this`sessionUserId, this`user, this`userType, this`route, this`email, this`password
      ensures sessionUserId.None? && user.None? && userType.None? && route == RoleSelection
      ensures email == "" && password == ""
    {
      sessionUserId := None;
      user := None;
      userType := None;
      route := RoleSelection;
      email := "";
      password := "";
    }

    /** The role buttons: remember which login was asked for and open the form. */
    method ChooseRole(role: Role)
      modifies this`userType, this`route
      ensures userType == Some(role) && route == AppRoute.Login
    {
      userType := Some(role);
      route := AppRoute.Login;
    }
  }

  /** With unique emails, `first()` on the email settles the login: its user has the typed
      password exactly when some stored user has both. */
  lemma LoginDecidedByFirstMatch(users: seq<User>, email: string, password: string)
    requires UniqueEmails(users)
    ensures (FirstWithEmail(users, email).Some? && FirstWithEmail(users, email).value.passwordHash == password)
            <==> CredentialsMatch(users, email, password)
  {
    if CredentialsMatch(users, email, password) {
      var k :| 0 <= k < |users| && users[k].email == email && users[k].passwordHash == password;
      FirstWithEmailUnique(users, email, k);
    }
  }

  /** A user whose email nobody has keeps the emails unique. */
  lemma NewEmailKeepsUnique(users: seq<User>, u: User)
    requires UniqueEmails(users)
    requires FirstWithEmail(users, u.email).None?
    ensures UniqueEmails(users + [u])
  {
  }

  /** In a table in key order, the user just stored under the newest key is the one `get` finds. */
  lemma NewestFoundById(users: seq<User>, id: nat)
    requires |users| > 0 && users[|users| - 1].id == id
    requires IncreasingBy(users, UserKey)
    ensures UserWithId(users, id) == Some(users[|users| - 1])
  {
    forall i | 0 <= i < |users| - 1 ensures users[i].id < id {
      assert UserKey(users[i]) < UserKey(users[|users| - 1]);
    }
  }
}
