/** The local account registry (contexts/AuthContext.tsx). The `users`
    storage entry becomes a sequence of records and the `user` entry the
    signed-in user; `Date.now()` and the ISO creation time are parameters. */
module Auth {
  import opened Wrappers
  import SeqUtil
  import Text

  datatype UserRecord = UserRecord(
    id: string,
    email: string,
    password: string,
    name: string,
    profilePicture: Option<string>,
    createdAt: string)

  /** A record without its password: what becomes the current user. */
  datatype User = User(
    id: string,
    email: string,
    name: string,
    profilePicture: Option<string>,
    createdAt: string)

  datatype AuthState = AuthState(users: seq<UserRecord>, current: Option<User>)

  datatype Outcome = Success | Failure(error: string)

  const UserNotFound: string := "User not found"
  const InvalidPassword: string := "Invalid password"
  const UserExists: string := "User already exists"

  /** `const { password: _, ...userWithoutPassword } = record`. */
  function WithoutPassword(r: UserRecord): (u: User)
    ensures u.id == r.id && u.email == r.email && u.name == r.name
    ensures u.profilePicture == r.profilePicture && u.createdAt == r.createdAt
  {
    User(r.id, r.email, r.name, r.profilePicture, r.createdAt)
  }

  /** `users.find(u => u.email === email)`, as an index (-1 if absent). */
  function FirstWithEmail(users: seq<UserRecord>, email: string): (i: int)
    ensures -1 <= i < |users|
    ensures i == -1 <==> forall k :: 0 <= k < |users| ==> users[k].email != email
    ensures 0 <= i ==> users[i].email == email && forall k :: 0 <= k < i ==> users[k].email != email
  {
    SeqUtil.FindIndex(users, (u: UserRecord) => u.email == email)
  }

  /** `users.findIndex(u => u.id === id)`. */
  function FirstWithId(users: seq<UserRecord>, id: string): (i: int)
    ensures -1 <= i < |users|
    ensures i == -1 <==> forall k :: 0 <= k < |users| ==> users[k].id != id
    ensures 0 <= i ==> users[i].id == id && forall k :: 0 <= k < i ==> users[k].id != id
  {
    SeqUtil.FindIndex(users, (u: UserRecord) => u.id == id)
  }

  predicate EmailsDistinct(users: seq<UserRecord>) {
    forall i, j :: 0 <= i < j < |users| ==> users[i].email != users[j].email
  }

  /** `login`: an unknown email and a wrong password for the first record
      with that email are refused and change nothing; otherwise that record,
      minus its password, becomes the current user. The registry is never
      changed. */
  function Login(st: AuthState, email: string, password: string): (r: (Outcome, AuthState))
    ensures r.1.users == st.users
    ensures FirstWithEmail(st.users, email) == -1 ==> r == (Failure(UserNotFound), st)
    ensures var i := FirstWithEmail(st.users, email);
      0 <= i && st.users[i].password != password ==> r == (Failure(InvalidPassword), st)
    ensures var i := FirstWithEmail(st.users, email);
      0 <= i && st.users[i].password == password ==>
        r.0 == Success && r.1.current == Some(WithoutPassword(st.users[i]))
    ensures r.0.Failure? ==> r.1 == st
  {
    var i := FirstWithEmail(st.users, email);
    if i == -1 then (Failure(UserNotFound), st)
    else if st.users[i].password != password then (Failure(InvalidPassword), st)
    else (Success, st.(current := Some(WithoutPassword(st.users[i]))))
  }

  /** The record `signup` creates: id `Date.now().toString()`, no picture
      (JSON drops the `undefined` field). */
  function NewRecord(now: nat, createdAt: string, email: string, password: string, name: string): (r: UserRecord)
    ensures r.id == Text.DecimalString(now) && r.email == email && r.password == password
    ensures r.name == name && r.profilePicture == None && r.createdAt == createdAt
  {
    UserRecord(Text.DecimalString(now), email, password, name, None, createdAt)
  }

  /** `signup`: a registered email is refused and nothing changes;
      otherwise exactly one record is appended at the end and becomes the
      current user without its password. */
  function Signup(st: AuthState, email: string, password: string, name: string, now: nat, createdAt: string): (r: (Outcome, AuthState))
    ensures (exists k :: 0 <= k < |st.users| && st.users[k].email == email) ==> r == (Failure(UserExists), st)
    ensures (forall k :: 0 <= k < |st.users| ==> st.users[k].email != email) ==>
      var rec := NewRecord(now, createdAt, email, password, name);
      r.0 == Success && r.1.users == st.users + [rec] && r.1.current == Some(WithoutPassword(rec))
  {
    if FirstWithEmail(st.users, email) != -1 then (Failure(UserExists), st)
    else
      var rec := NewRecord(now, createdAt, email, password, name);
      (Success, AuthState(st.users + [rec], Some(WithoutPassword(rec))))
  }

  /** Signup keeps registered emails pairwise distinct. */
  lemma SignupKeepsEmailsDistinct(st: AuthState, email: string, password: string, name: string, now: nat, createdAt: string)
    requires EmailsDistinct(st.users)
    ensures EmailsDistinct(Signup(st, email, password, name, now, createdAt).1.users)
  {
  }

  /** Right after a successful signup, logging in with the same email and
      password succeeds and yields the same current user. */
  lemma SignupThenLogin(st: AuthState, email: string, password: string, name: string, now: nat, createdAt: string)
    requires Signup(st, email, password, name, now, createdAt).0 == Success
    ensures var s1 := Signup(st, email, password, name, now, createdAt).1;
      Login(s1, email, password) == (Success, s1)
  {
    var s1 := Signup(st, email, password, name, now, createdAt).1;
    assert forall k :: 0 <= k < |st.users| ==> st.users[k].email != email;
    var rec := NewRecord(now, createdAt, email, password, name);
    assert s1.users == st.users + [rec];
    assert forall k :: 0 <= k < |st.users| ==> s1.users[k].email != email;
    assert s1.users[|st.users|].email == email;
    assert FirstWithEmail(s1.users, email) == |st.users|;
  }

  /** `logout`. */
  function Logout(st: AuthState): (r: AuthState)
    ensures r.current == None && r.users == st.users
  {
    st.(current := None)
  }

  /** `updateProfile`: nothing without a current user. Otherwise the name
      and picture are set on the current user and on the first registry
      record with the same id, if there is one; every other record is left
      as it was. */
  function UpdateProfile(st: AuthState, name: string, picture: Option<string>): (r: AuthState)
    ensures st.current.None? ==> r == st
    ensures st.current.Some? ==> r.current == Some(st.current.value.(name := name, profilePicture := picture))
    ensures |r.users| == |st.users|
    ensures st.current.Some? ==>
      var i := FirstWithId(st.users, st.current.value.id);
      (forall k :: 0 <= k < |st.users| && k != i ==> r.users[k] == st.users[k]) &&
      (0 <= i ==> r.users[i] == st.users[i].(name := name, profilePicture := picture))
  {
    match st.current
    case None => st
    case Some(u) =>
      var i := FirstWithId(st.users, u.id);
      var users := if i == -1 then st.users else st.users[i := st.users[i].(name := name, profilePicture := picture)];
      AuthState(users, Some(u.(name := name, profilePicture := picture)))
  }
}
