/** `src/app/services/auth.service.ts`: the in-memory credential store and the
    signed-in user. Session persistence in browser storage is not modelled. */
module Auth {
  import opened Wrappers
  import opened Model

  const InvalidCredentials := "Invalid credentials"
  const UserExists := "User already exists"

  const SeedUsers: seq<User> := [
    User("1", "admin@company.com", "admin", AdminRole, "admin123"),
    User("2", "user@company.com", "user", UserRole, "user123")
  ]

  /** The `login` callback: the identifier is the user's email or username and the
      password is equal. */
  predicate Accepts(u: User, identifier: string, password: string)
  {
    (u.email == identifier || u.username == identifier) && u.password == password
  }

  /** The first user accepting the credentials, if any. */
  function FindCredential(users: seq<User>, identifier: string, password: string): (r: Option<User>)
    ensures r.None? <==> forall j :: 0 <= j < |users| ==> !Accepts(users[j], identifier, password)
    ensures r.Some? ==> exists i :: 0 <= i < |users| && users[i] == r.value
                          && Accepts(r.value, identifier, password)
                          && forall j :: 0 <= j < i ==> !Accepts(users[j], identifier, password)
  {
    if users == [] then None
    else if Accepts(users[0], identifier, password) then Some(users[0])
    else
      var r := FindCredential(users[1..], identifier, password);
      assert r.Some? ==> exists i :: 0 <= i < |users| - 1 && users[1..][i] == r.value
                          && forall j :: 0 <= j < i ==> !Accepts(users[1..][j], identifier, password);
      r
  }

  /** Some user already has this email or this username. */
  predicate Taken(users: seq<User>, email: string, username: string)
  {
    exists i :: 0 <= i < |users| && (users[i].email == email || users[i].username == username)
  }

  /** The user list after `signup`: one new user appended, or "User already exists"
      when the email or the username is taken. `newId` stands for the generated id. */
  function SignupRecord(users: seq<User>, email: string, username: string, password: string,
                        role: Role, newId: string): (r: Result<seq<User>>)
    ensures r.Err? <==> Taken(users, email, username)
    ensures r.Err? ==> r.message == UserExists
    ensures r.Ok? ==> |r.value| == |users| + 1 && r.value[..|users|] == users
                      && r.value[|users|] == User(newId, email, username, role, password)
  {
    if Taken(users, email, username) then Err(UserExists)
    else Ok(users + [User(newId, email, username, role, password)])
  }

  /** After a successful signup, logging in with the new email and password succeeds. */
  lemma SignupThenLoginSucceeds(users: seq<User>, email: string, username: string, password: string,
                                role: Role, newId: string)
    requires SignupRecord(users, email, username, password, role, newId).Ok?
    ensures FindCredential(SignupRecord(users, email, username, password, role, newId).value,
                           email, password).Some?
  {
    var after := SignupRecord(users, email, username, password, role, newId).value;
    assert Accepts(after[|users|], email, password);
  }

  /** When the username is the email (as the signup page sends it), the login finds
      exactly the new user. */
  lemma SignupThenLoginFindsNewUser(users: seq<User>, email: string, password: string,
                                    role: Role, newId: string)
    requires SignupRecord(users, email, email, password, role, newId).Ok?
    ensures FindCredential(SignupRecord(users, email, email, password, role, newId).value,
                           email, password) == Some(User(newId, email, email, role, password))
  {
    var after := SignupRecord(users, email, email, password, role, newId).value;
    var r := FindCredential(after, email, password);
    var i :| 0 <= i < |after| && after[i] == r.value && Accepts(r.value, email, password)
             && forall j :: 0 <= j < i ==> !Accepts(after[j], email, password);
  }

  /** The duplicate check compares emails with emails and usernames with usernames, but
      login accepts either: a new email equal to an existing username with the same
      password signs in as the existing user. */
  lemma EmailShadowedByExistingUsername(u: User, email: string, username: string, role: Role, newId: string)
    requires u.username == email && u.email != email && u.username != username
    ensures SignupRecord([u], email, username, u.password, role, newId).Ok?
    ensures FindCredential(SignupRecord([u], email, username, u.password, role, newId).value,
                           email, u.password) == Some(u)
  {
  }

  class AuthService {
    var users: seq<User>
    var currentUser: Option<User>
    var isAuthenticated: bool

    /** A user is signed in exactly when one is recorded as current. */
    predicate Valid()
      reads this
    {
      isAuthenticated <==> currentUser.Some?
    }

    constructor ()
      ensures Valid() && users == SeedUsers && currentUser == None
    {
      users := SeedUsers;
      currentUser := None;
      isAuthenticated := false;
    }

    /** `login`: sign in as the first user accepting the credentials, or fail with
        "Invalid credentials" leaving the session as it was. */
    method Login(identifier: string, password: string) returns (r: Result<User>)
      requires Valid()
      modifies this
      ensures Valid() && users == old(users)
      ensures FindCredential(old(users), identifier, password).Some? ==>
                var u := FindCredential(old(users), identifier, password).value;
                r == Ok(u) && currentUser == Some(u) && isAuthenticated
      ensures FindCredential(old(users), identifier, password).None? ==>
                r == Err(InvalidCredentials) && currentUser == old(currentUser)
                && isAuthenticated == old(isAuthenticated)
    {
      var user := FindCredential(users, identifier, password);
      if user.Some? {
        currentUser := user;
        isAuthenticated := true;
        r := Ok(user.value);
      } else {
        r := Err(InvalidCredentials);
      }
    }

    /** `signup`: append a new user unless the email or username is taken; it does not
        sign the new user in. */
    method Signup(email: string, username: string, password: string, role: Role, newId: string)
      returns (r: Result<User>)
      requires Valid()
      modifies this
      ensures Valid() && currentUser == old(currentUser) && isAuthenticated == old(isAuthenticated)
      ensures Taken(old(users), email, username) ==> r == Err(UserExists) && users == old(users)
      ensures !Taken(old(users), email, username) ==>
                r == Ok(User(newId, email, username, role, password))
                && users == SignupRecord(old(users), email, username, password, role, newId).value
    {
      if exists i :: 0 <= i < |users| && (users[i].email == email || users[i].username == username) {
        r := Err(UserExists);
      } else {
        var newUser := User(newId, email, username, role, password);
        users := users + [newUser];
        r := Ok(newUser);
      }
    }

    /** `logout`: nobody is signed in afterwards. */
    method Logout()
      modifies this
      ensures Valid() && currentUser == None && !isAuthenticated && users == old(users)
    {
      currentUser := None;
      isAuthenticated := false;
    }
  }
}
