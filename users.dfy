/** The user table shared by both servers: the record stored per user, the
    request values the handlers receive, the error values they answer with,
    and the first-match lookups and counts that every handler is built on. */
module UserTable {

  datatype Option<+T> = None | Some(value: T)

  datatype Result<+T, +E> = Ok(value: T) | Err(error: E)

  /** A JSON value, as stored under a user's `settings`. */
  datatype Json =
    | Null
    | Bool(b: bool)
    | Num(n: real)
    | Str(s: string)
    | Arr(items: seq<Json>)
    | Obj(fields: map<string, Json>)

  /** One record of `users`. `password` holds the bcrypt digest, never the
      plain text; `updatedAt` and `settings` are absent until the update and
      settings handlers first write them. */
  datatype User = User(
    id: int,
    username: string,
    email: string,
    password: string,
    role: string,
    avatar: string,
    status: string,
    createdAt: string,
    updatedAt: Option<string>,
    settings: Option<map<string, Json>>)

  /** Each distinct error answer of the handlers (their message strings are
      localized text; one constructor per message). */
  datatype Failure =
    | MissingCredentials   // login without username or password
    | BadCredentials       // unknown username or wrong password
    | MissingFields        // register without username, email or password
    | UsernameTaken
    | EmailTaken
    | MissingNameOrEmail   // admin create without username or email
    | NoToken              // guard: no Authorization header or no second word
    | InvalidToken         // guard: the verifier rejected the token
    | UserNotFound

  /** The HTTP status each error is answered with. */
  function Status(f: Failure): int
  {
    match f
    case MissingCredentials => 400
    case BadCredentials => 401
    case MissingFields => 400
    case UsernameTaken => 400
    case EmailTaken => 400
    case MissingNameOrEmail => 400
    case NoToken => 401
    case InvalidToken => 403
    case UserNotFound => 404
  }

  /** What a state-changing handler answers, together with the table it
      leaves behind. */
  datatype Step<+T> = Step(reply: Result<T, Failure>, users: seq<User>)

  // Default values written by register and admin create.
  const AdminRole := "مدير النظام"
  const SupervisorRole := "مشرف"
  const MemberRole := "مستخدم"
  const DefaultAvatar := "👤"
  const Active := "active"
  const DefaultPassword := "123456"

  /** A request field counts as given when it is present and not the empty
      string: the handlers test fields with JavaScript truthiness. */
  predicate Given(field: Option<string>)
  {
    field.Some? && field.value != ""
  }

  /** `field || fallback` on a string field. */
  function Or(field: Option<string>, fallback: string): string
  {
    if Given(field) then field.value else fallback
  }

  /** The condition of a `find`/`findIndex`/`filter` callback. A path id that
      `parseInt` could not read (NaN) is `WithId(None)` and matches nothing. */
  datatype Selector =
    | WithId(id: Option<int>)
    | WithUsername(username: string)
    | WithEmail(email: string)
    | WithStatus(status: string)
    | WithRole(role: string)

  predicate Matches(u: User, k: Selector)
  {
    match k
    case WithId(id) => id.Some? && u.id == id.value
    case WithUsername(name) => u.username == name
    case WithEmail(email) => u.email == email
    case WithStatus(status) => u.status == status
    case WithRole(role) => u.role == role
  }

  /** `users.findIndex(...)`: the index of the first match, or -1. */
  function FindIndex(users: seq<User>, k: Selector): (r: int)
    ensures -1 <= r < |users|
    ensures r == -1 <==> forall i :: 0 <= i < |users| ==> !Matches(users[i], k)
    ensures 0 <= r ==> Matches(users[r], k)
    ensures 0 <= r ==> forall i :: 0 <= i < r ==> !Matches(users[i], k)
  {
    if users == [] then -1
    else if Matches(users[0], k) then 0
    else
      var r := FindIndex(users[1..], k);
      if r == -1 then -1 else r + 1
  }

  /** Some record matches `k`. */
  predicate Exists(users: seq<User>, k: Selector)
  {
    exists i :: 0 <= i < |users| && Matches(users[i], k)
  }

  /** A lookup on a table with one record appended finds the old first match
      if there was one, and otherwise the appended record if it matches. */
  lemma FindIndexAppend(users: seq<User>, x: User, k: Selector)
    ensures FindIndex(users + [x], k) ==
      if FindIndex(users, k) != -1 then FindIndex(users, k)
      else if Matches(x, k) then |users| else -1
  {
    var r := FindIndex(users + [x], k);
    var s := FindIndex(users, k);
    if s != -1 {
      assert forall i :: 0 <= i <= s ==> (users + [x])[i] == users[i];
    } else {
      assert forall i :: 0 <= i < |users| ==> (users + [x])[i] == users[i];
      assert (users + [x])[|users|] == x;
    }
  }

  /** `users.filter(...).length`. */
  function Count(users: seq<User>, k: Selector): (n: nat)
    ensures n <= |users|
    ensures n == 0 <==> FindIndex(users, k) == -1
  {
    if users == [] then 0
    else (if Matches(users[0], k) then 1 else 0) + Count(users[1..], k)
  }

  /** Counting distributes over concatenation. */
  lemma {:induction false} CountConcat(s: seq<User>, t: seq<User>, k: Selector)
    ensures Count(s + t, k) == Count(s, k) + Count(t, k)
  {
    if s == [] {
      assert s + t == t;
    } else {
      assert (s + t)[1..] == s[1..] + t;
      CountConcat(s[1..], t, k);
    }
  }

  /** No two records share a username, and no two share an email. */
  predicate UniqueLogins(users: seq<User>)
  {
    forall i, j :: 0 <= i < j < |users| ==>
      users[i].username != users[j].username && users[i].email != users[j].email
  }

  /** No two records share an id. */
  predicate UniqueIds(users: seq<User>)
  {
    forall i, j :: 0 <= i < j < |users| ==> users[i].id != users[j].id
  }

  /** The two records a fresh store starts with. `hash` stands for bcrypt's
      `hashSync`, `now` for the creation time. */
  function Seed(hash: string -> string, now: string): (users: seq<User>)
    ensures |users| == 2 && users[0].id == 1 && users[1].id == 2
    ensures UniqueLogins(users) && UniqueIds(users)
  {
    [ User(1, "admin", "admin@example.com", hash("admin123"), AdminRole,
           "👨‍💼", Active, now, None, None),
      User(2, "user", "user@example.com", hash("user123"), MemberRole,
           "👨‍💻", Active, now, None, None) ]
  }

  // The password-free projections the handlers answer with.

  /** The fields listed by `GET /api/users` and `GET /api/users/:id`. */
  datatype Listing = Listing(
    id: int, username: string, email: string, role: string,
    avatar: string, status: string, createdAt: string)

  /** The fields returned by login and by admin create. */
  datatype Profile = Profile(
    id: int, username: string, email: string, role: string,
    avatar: string, status: string)

  /** The fields returned by register. */
  datatype Registered = Registered(
    id: int, username: string, email: string, role: string, avatar: string)

  function ListingOf(u: User): Listing
  {
    Listing(u.id, u.username, u.email, u.role, u.avatar, u.status, u.createdAt)
  }

  function ProfileOf(u: User): Profile
  {
    Profile(u.id, u.username, u.email, u.role, u.avatar, u.status)
  }

  function RegisteredOf(u: User): Registered
  {
    Registered(u.id, u.username, u.email, u.role, u.avatar)
  }

  /** Two records that differ at most in their password digest. */
  predicate SameButPassword(u: User, v: User)
  {
    u.(password := v.password) == v
  }

  /** None of the projections carries the password: records that differ only
      in their digest project to the same values. */
  lemma ProjectionsHidePassword(u: User, v: User)
    requires SameButPassword(u, v)
    ensures ListingOf(u) == ListingOf(v)
    ensures ProfileOf(u) == ProfileOf(v)
    ensures RegisteredOf(u) == RegisteredOf(v)
  {
    assert u.id == v.id && u.username == v.username && u.email == v.email;
    assert u.role == v.role && u.avatar == v.avatar && u.status == v.status;
    assert u.createdAt == v.createdAt;
  }
}
