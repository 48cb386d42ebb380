/** Registration and login (app/routes/auth.py) over the user table
    (app/models/user.py). The password hasher is abstract: a stored hash
    remembers the password it was made from, and checking a password
    against a hash succeeds for that password and no other. */
module AuthRoutes {
  import opened Wrappers
  import opened Text

  datatype PasswordHash = Hashed(source: string)

  /** `check_password_hash`. */
  predicate CheckPassword(h: PasswordHash, password: string) {
    h.source == password
  }

  /** `generate_password_hash`: the hash accepts exactly the password it was
      made from. */
  function HashPassword(password: string): (h: PasswordHash)
    ensures forall p :: CheckPassword(h, p) <==> p == password
  {
    Hashed(password)
  }

  datatype User = User(id: nat, username: string, passwordHash: PasswordHash, displayName: string)

  /** User ids are positions and no two users share a username (the unique
      `username` column). */
  predicate UsersValid(users: seq<User>) {
    && (forall i :: 0 <= i < |users| ==> users[i].id == i + 1)
    && (forall i, j :: 0 <= i < j < |users| ==> users[i].username != users[j].username)
  }

  /** Position of the first user called `username`
      (`User.query.filter_by(username=...).first()`). */
  function FindUser(users: seq<User>, username: string): (r: Option<nat>)
    ensures r.Some? ==>
      && r.value < |users| && users[r.value].username == username
      && forall j :: 0 <= j < r.value ==> users[j].username != username
    ensures r.None? ==> forall j :: 0 <= j < |users| ==> users[j].username != username
  {
    if users == [] then None
    else if users[0].username == username then Some(0)
    else match FindUser(users[1..], username)
      case None => None
      case Some(i) => Some(i + 1)
  }

  /** Looking a name up after appending a user finds the old user if there
      was one, else the appended one if it has that name. */
  lemma {:induction false} FindUserAppend(users: seq<User>, u: User, username: string)
    ensures FindUser(users, username).Some? ==> FindUser(users + [u], username) == FindUser(users, username)
    ensures FindUser(users, username).None? && u.username == username ==>
      FindUser(users + [u], username) == Some(|users|)
    ensures FindUser(users, username).None? && u.username != username ==>
      FindUser(users + [u], username).None?
  {
    var r := FindUser(users + [u], username);
    if r.Some? && r.value < |users| {
      assert (users + [u])[r.value] == users[r.value];
    }
    if FindUser(users, username).None? && u.username == username {
      assert (users + [u])[|users|].username == username;
    }
    if FindUser(users, username).Some? {
      var i := FindUser(users, username).value;
      assert (users + [u])[i] == users[i];
    }
  }

  /** `login`: the submitted username is stripped; the login succeeds with
      the first user of that name when the password checks against that
      user's hash. */
  function Login(users: seq<User>, rawUsername: string, password: string): (r: Option<User>)
    ensures r.Some? ==>
      r.value in users && r.value.username == Strip(rawUsername) && CheckPassword(r.value.passwordHash, password)
  {
    match FindUser(users, Strip(rawUsername))
    case None => None
    case Some(i) => if CheckPassword(users[i].passwordHash, password) then Some(users[i]) else None
  }

  /** With unique usernames, a login succeeds exactly when some user has the
      stripped name and a hash the password checks against. */
  lemma {:induction false} LoginIff(users: seq<User>, rawUsername: string, password: string)
    requires UsersValid(users)
    ensures Login(users, rawUsername, password).Some? <==>
      exists u :: u in users && u.username == Strip(rawUsername) && CheckPassword(u.passwordHash, password)
  {
    var name := Strip(rawUsername);
    if u :| u in users && u.username == name && CheckPassword(u.passwordHash, password) {
      var j :| 0 <= j < |users| && users[j] == u;
      var i := FindUser(users, name).value;
      assert users[i].username == users[j].username;
    }
  }

  /** Why `register` turns a form down. */
  datatype RegisterError =
    | MissingField       // "Username and password are required."
    | PasswordMismatch   // "Passwords do not match."
    | PasswordTooShort   // "Password must be at least 8 characters."
    | UsernameTaken      // "Username already exists."

  const MinPasswordLength := 8

  /** The validation chain of `register` on the stripped username: the checks
      run in a fixed order and the first that fails decides the answer. */
  function RegistrationError(users: seq<User>, username: string, password: string, confirm: string)
    : (r: Option<RegisterError>)
    ensures r == Some(MissingField) <==> username == [] || password == []
    ensures r == Some(PasswordMismatch) <==> username != [] && password != [] && password != confirm
    ensures r == Some(PasswordTooShort) <==>
      username != [] && password != [] && password == confirm && |password| < MinPasswordLength
    ensures r == Some(UsernameTaken) <==>
      username != [] && password == confirm && |password| >= MinPasswordLength
      && FindUser(users, username).Some?
    ensures r == None <==>
      username != [] && password == confirm && |password| >= MinPasswordLength
      && forall u :: u in users ==> u.username != username
  {
    if username == [] || password == [] then Some(MissingField)
    else if password != confirm then Some(PasswordMismatch)
    else if |password| < MinPasswordLength then Some(PasswordTooShort)
    else if FindUser(users, username).Some? then Some(UsernameTaken)
    else None
  }

  /** `display_name or username`. */
  function DisplayNameOr(displayName: string, username: string): (r: string)
    ensures displayName != [] ==> r == displayName
    ensures displayName == [] ==> r == username
  {
    if displayName != [] then displayName else username
  }

  datatype RegisterOutcome = Rejected(error: RegisterError) | Registered(userId: nat)

  class UserStore {
    var users: seq<User>

    predicate Valid()
      reads this
    {
      UsersValid(users)
    }

    constructor ()
      ensures Valid() && users == []
    {
      users := [];
    }

    /** Adds a user under the next id, its password hashed. */
    method AddUser(username: string, password: string, displayName: string)
      requires Valid() && FindUser(users, username).None?
      modifies this
      ensures Valid()
      ensures users == old(users) + [User(|old(users)| + 1, username, HashPassword(password), displayName)]
    {
      users := users + [User(|users| + 1, username, HashPassword(password), displayName)];
    }

    /** `register` on a submitted form: the username and display name are
        stripped, the validation chain runs, and only when it passes is a
        user created, with the display name defaulting to the username. */
    method Register(rawUsername: string, password: string, confirm: string, rawDisplayName: string)
      returns (r: RegisterOutcome)
      requires Valid()
      modifies this
      ensures Valid()
      ensures var name := Strip(rawUsername);
        match RegistrationError(old(users), name, password, confirm)
        case Some(e) => r == Rejected(e) && users == old(users)
        case None =>
          && r == Registered(|old(users)| + 1)
          && users == old(users) + [User(|old(users)| + 1, name, HashPassword(password),
                                         DisplayNameOr(Strip(rawDisplayName), name))]
      ensures r.Registered? ==>
        |password| >= MinPasswordLength
        && Login(users, rawUsername, password) == Some(users[|users| - 1])
    {
      var name := Strip(rawUsername);
      var displayName := Strip(rawDisplayName);
      var error := RegistrationError(users, name, password, confirm);
      if error.Some? {
        return Rejected(error.value);
      }
      var u := User(|users| + 1, name, HashPassword(password), DisplayNameOr(displayName, name));
      FindUserAppend(users, u, name);
      users := users + [u];
      r := Registered(|users|);
    }
  }
}
