/** The account registry behind the sign-in screen (`components/Login.tsx`,
    `handleAuth`): registering appends a user, signing in looks one up by
    email and password. The registry is the stored list of users. */
module Accounts {
  import opened Wrappers
  import opened Types

  /** The shortest password registration accepts. */
  const MinPasswordLength: nat := 6

  /** `password.length`: JavaScript strings count UTF-16 code units, so a
      character outside the Basic Multilingual Plane counts twice. */
  function Utf16Length(s: string): (n: nat)
    ensures |s| <= n <= 2 * |s|
    ensures (forall i :: 0 <= i < |s| ==> s[i] as int < 0x1_0000) ==> n == |s|
  {
    if s == [] then 0
    else
      var rest := Utf16Length(s[1..]);
      assert forall i :: 0 < i < |s| ==> s[i] == s[1..][i - 1];
      (if s[0] as int < 0x1_0000 then 1 else 2) + rest
  }

  datatype AuthError =
    | MissingFields       // "fill in every field; the password needs at least 6 characters"
    | EmailTaken          // "this e-mail is already registered"
    | InvalidCredentials  // "wrong e-mail or password"

  /** Some user in the registry has this email. */
  predicate Registered(users: seq<User>, email: string)
  {
    exists i :: 0 <= i < |users| && users[i].email == email
  }

  /** No two users share an email. */
  predicate EmailsUnique(users: seq<User>)
  {
    forall i, j :: 0 <= i < j < |users| ==> users[i].email != users[j].email
  }

  /** The registration branch: empty name or email, or a short password, is
      refused first; then an email already in use; otherwise the new user,
      password included, is appended. */
  function Register(users: seq<User>, name: string, email: string, password: string): (r: Result<seq<User>, AuthError>)
    ensures r == Failure(MissingFields) <==> name == "" || email == "" || Utf16Length(password) < MinPasswordLength
    ensures r == Failure(EmailTaken) <==>
      name != "" && email != "" && Utf16Length(password) >= MinPasswordLength && Registered(users, email)
    ensures r.Success? <==>
      name != "" && email != "" && Utf16Length(password) >= MinPasswordLength && !Registered(users, email)
    ensures r.Success? ==> r.value == users + [User(name, email, Some(password))]
  {
    if name == "" || email == "" || Utf16Length(password) < MinPasswordLength then Failure(MissingFields)
    else if FindByEmail(users, email).Some? then Failure(EmailTaken)
    else Success(users + [User(name, email, Some(password))])
  }

  /** `storedUsers.find(u => u.email === email)`. */
  function FindByEmail(users: seq<User>, email: string): (r: Option<User>)
    ensures r.None? <==> !Registered(users, email)
    ensures r.Some? ==> r.value.email == email
  {
    if users == [] then None
    else if users[0].email == email then Some(users[0])
    else
      var r := FindByEmail(users[1..], email);
      assert forall i :: 0 < i < |users| ==> users[i] == users[1..][i - 1];
      r
  }

  /** The stored user `u` accepts these credentials. */
  predicate Matches(u: User, email: string, password: string)
  {
    u.email == email && u.password == Some(password)
  }

  /** `storedUsers.find(u => u.email === email && u.password === password)`:
      the position of the first user matching both. */
  function FirstMatch(users: seq<User>, email: string, password: string): (r: Option<nat>)
    ensures r.None? <==> forall i :: 0 <= i < |users| ==> !Matches(users[i], email, password)
    ensures r.Some? ==> r.value < |users| && Matches(users[r.value], email, password)
    ensures r.Some? ==> forall j :: 0 <= j < r.value ==> !Matches(users[j], email, password)
  {
    if users == [] then None
    else if Matches(users[0], email, password) then Some(0)
    else
      var r := FirstMatch(users[1..], email, password);
      assert forall i :: 0 < i < |users| ==> users[i] == users[1..][i - 1];
      if r.None? then None else Some(r.value + 1)
  }

  /** The sign-in branch: the first user whose email and password both match
      is signed in as `{name, email}`, without the password; otherwise one
      error, the same whether the email is unknown or the password wrong. */
  function Login(users: seq<User>, email: string, password: string): (r: Result<User, AuthError>)
    ensures r.Success? <==> exists i :: 0 <= i < |users| && Matches(users[i], email, password)
    ensures r.Failure? ==> r.error == InvalidCredentials
    ensures r.Success? ==> r.value.email == email && r.value.password == None
    ensures r.Success? ==> exists i :: (
      && 0 <= i < |users| && Matches(users[i], email, password)
      && r.value.name == users[i].name
      && forall j :: 0 <= j < i ==> !Matches(users[j], email, password))
  {
    match FirstMatch(users, email, password)
    case None => Failure(InvalidCredentials)
    case Some(i) => Success(User(users[i].name, users[i].email, None))
  }

  /** Registering keeps the emails unique. */
  lemma RegisterKeepsEmailsUnique(users: seq<User>, name: string, email: string, password: string)
    requires EmailsUnique(users)
    ensures Register(users, name, email, password).Success? ==>
      EmailsUnique(Register(users, name, email, password).value)
  {
    var r := Register(users, name, email, password);
    if r.Success? {
      var us := r.value;
      forall i, j | 0 <= i < j < |us|
        ensures us[i].email != us[j].email
      {
        if j == |users| {
          assert us[i] == users[i];
        }
      }
    }
  }

  /** A fresh registration can sign in at once with the same email and
      password, and signs in as the user just registered. */
  lemma RegisterThenLogin(users: seq<User>, name: string, email: string, password: string)
    requires Register(users, name, email, password).Success?
    ensures Login(Register(users, name, email, password).value, email, password)
      == Success(User(name, email, None))
  {
    var us := Register(users, name, email, password).value;
    assert Matches(us[|users|], email, password);
    var i := FirstMatch(us, email, password).value;
    if i < |users| {
      assert false;
    }
  }

  /** An unknown email and a wrong password for a known one are reported the
      same way. */
  lemma LoginFailuresAlike(users: seq<User>, unknown: string, known: string, password: string, wrong: string)
    requires !Registered(users, unknown)
    requires forall i :: 0 <= i < |users| && users[i].email == known ==> users[i].password != Some(wrong)
    ensures Login(users, unknown, password) == Login(users, known, wrong) == Failure(InvalidCredentials)
  {
  }
}
