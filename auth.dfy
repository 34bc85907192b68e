/** Authentication: the bearer-token guard in front of every protected route,
    login, and registration. bcrypt and the JWT library are not modelled: the
    handlers receive them as functions (`hash`, `compare`, `sign`, `verify`). */
module Auth {
  import opened UserTable

  // ---------------------------------------------------------------------
  // Token extraction: `authHeader && authHeader.split(' ')[1]`

  /** `s.split(sep)` with a one-character separator: every occurrence of
      `sep` ends a piece, so n separators give n + 1 pieces. */
  function Split(s: string, sep: char): (parts: seq<string>)
    ensures |parts| >= 1
    ensures forall i :: 0 <= i < |parts| ==> sep !in parts[i]
  {
    if s == [] then [""]
    else
      var rest := Split(s[1..], sep);
      if s[0] == sep then [""] + rest
      else [[s[0]] + rest[0]] + rest[1..]
  }

  /** `parts.join(sep)`, the inverse of `Split`. */
  function Join(parts: seq<string>, sep: char): string
  {
    if parts == [] then ""
    else if |parts| == 1 then parts[0]
    else parts[0] + [sep] + Join(parts[1..], sep)
  }

  /** Joining the pieces gives back the split string. */
  lemma {:induction false} JoinSplit(s: string, sep: char)
    ensures Join(Split(s, sep), sep) == s
  {
    if s != [] {
      var rest := Split(s[1..], sep);
      JoinSplit(s[1..], sep);
      if s[0] == sep {
        assert Split(s, sep)[1..] == rest;
      } else if |rest| == 1 {
        assert [s[0]] + rest[0] == s;
      } else {
        var parts := Split(s, sep);
        assert parts[1..] == rest[1..];
        assert Join(rest, sep) == rest[0] + [sep] + Join(rest[1..], sep);
        assert s == [s[0]] + s[1..];
      }
    }
  }

  /** Splitting a string whose first piece is `w` gives `w` glued to the
      first piece of the remainder. */
  lemma {:induction false} SplitPrefix(w: string, t: string, sep: char)
    requires sep !in w
    ensures Split(w + t, sep) == [w + Split(t, sep)[0]] + Split(t, sep)[1..]
  {
    var p := Split(t, sep);
    if w == [] {
      assert w + t == t && w + p[0] == p[0];
      assert [p[0]] + p[1..] == p;
    } else {
      assert (w + t)[0] == w[0] != sep;
      assert (w + t)[1..] == w[1..] + t;
      SplitPrefix(w[1..], t, sep);
      assert [w[0]] + (w[1..] + p[0]) == w + p[0];
    }
  }

  /** Splitting joined pieces that hold no separator gives the pieces back. */
  lemma {:induction false} SplitJoin(parts: seq<string>, sep: char)
    requires |parts| >= 1
    requires forall i :: 0 <= i < |parts| ==> sep !in parts[i]
    ensures Split(Join(parts, sep), sep) == parts
  {
    if |parts| == 1 {
      SplitPrefix(parts[0], "", sep);
      assert parts[0] + "" == parts[0];
    } else {
      var tail := Join(parts[1..], sep);
      SplitJoin(parts[1..], sep);
      SplitPrefix(parts[0], [sep] + tail, sep);
      assert parts[0] + [sep] + tail == parts[0] + ([sep] + tail);
      assert ([sep] + tail)[1..] == tail;
      assert parts[0] + "" == parts[0];
    }
  }

  /** The token the guard reads from the `Authorization` header: the second
      space-separated word, whatever the first word is. `None` stands for
      JavaScript's `undefined` (no header, an empty header, or no space). */
  function TokenOf(header: Option<string>): (r: Option<string>)
    ensures !Given(header) ==> r == None
    ensures r.Some? <==> Given(header) && |Split(header.value, ' ')| >= 2
    ensures r.Some? ==> r.value == Split(header.value, ' ')[1]
    ensures r.Some? ==> ' ' !in r.value
  {
    if !Given(header) then None
    else
      var words := Split(header.value, ' ');
      if |words| < 2 then None else Some(words[1])
  }

  /** A header `<scheme> <token>` (the form of section 2.1 of RFC 6750),
      possibly followed by more space-separated words, yields `token`; the
      scheme word is never compared with `Bearer`. */
  lemma SchemeTokenHeader(scheme: string, token: string, rest: string)
    requires ' ' !in scheme && ' ' !in token
    requires rest == "" || rest[0] == ' '
    ensures TokenOf(Some(scheme + " " + token + rest)) == Some(token)
  {
    var h := scheme + " " + token + rest;
    assert h == scheme + (" " + (token + rest));
    SplitPrefix(scheme, " " + (token + rest), ' ');
    assert (" " + (token + rest))[1..] == token + rest;
    SplitPrefix(token, rest, ' ');
    if rest == "" {
      assert Split(rest, ' ')[0] == "";
    } else {
      assert rest == [rest[0]] + rest[1..];
      assert Split(rest, ' ')[0] == "";
    }
    assert token + "" == token;
  }

  /** A header with no space in it yields no token. */
  lemma OneWordHeader(h: string)
    requires ' ' !in h
    ensures TokenOf(Some(h)) == None
  {
    SplitPrefix(h, "", ' ');
    assert h + "" == h;
  }

  // ---------------------------------------------------------------------
  // The guard: `authenticateToken`

  /** The payload signed into a session token. */
  datatype Claims = Claims(id: int, username: string, role: string)

  /** The guard run before every protected route. `verify` stands for
      `jwt.verify` with the server's secret: it answers the decoded claims or
      `None` for a bad signature or an expired token. */
  function Authenticate(header: Option<string>, verify: string -> Option<Claims>): (r: Result<Claims, Failure>)
    ensures r == Err(NoToken) <==> !Given(TokenOf(header))
    ensures r == Err(InvalidToken) <==> Given(TokenOf(header)) && verify(TokenOf(header).value).None?
    ensures r.Ok? ==> Given(TokenOf(header)) && verify(TokenOf(header).value) == Some(r.value)
    ensures r.Err? ==> r.error in {NoToken, InvalidToken}
  {
    var token := TokenOf(header);
    if !Given(token) then Err(NoToken)
    else
      match verify(token.value)
      case None => Err(InvalidToken)
      case Some(claims) => Ok(claims)
  }

  /** Without a token the guard answers 401 whatever the verifier would say:
      the token is checked for presence before it is verified. */
  lemma NoTokenBeforeVerify(header: Option<string>, verify: string -> Option<Claims>, verify': string -> Option<Claims>)
    requires !Given(TokenOf(header))
    ensures Authenticate(header, verify) == Authenticate(header, verify') == Err(NoToken)
    ensures Status(Authenticate(header, verify).error) == 401
  {
  }

  /** A protected route: when the guard fails its answer is sent and the
      table stays as it was; otherwise the handler runs. */
  function Guarded<T>(header: Option<string>, verify: string -> Option<Claims>,
                      handler: Step<T>, users: seq<User>): (o: Step<T>)
    ensures Authenticate(header, verify).Err? ==>
              o == Step(Err(Authenticate(header, verify).error), users)
    ensures Authenticate(header, verify).Err? ==> Status(o.reply.error) in {401, 403}
    ensures Authenticate(header, verify).Ok? ==> o == handler
  {
    var auth := Authenticate(header, verify);
    if auth.Err? then Step(Err(auth.error), users) else handler
  }

  // ---------------------------------------------------------------------
  // Login: `POST /api/auth/login`

  /** The lifetime handed to the signer. */
  const TokenLifetime := "24h"

  datatype Session = Session(token: string, user: Profile)

  function ClaimsOf(u: User): Claims
  {
    Claims(u.id, u.username, u.role)
  }

  /** `compare` stands for bcrypt's `compareSync(plain, digest)` and `sign`
      for `jwt.sign(claims, secret, { expiresIn })`. */
  function Login(users: seq<User>, username: Option<string>, password: Option<string>,
                 compare: (string, string) -> bool, sign: (Claims, string) -> string): (r: Result<Session, Failure>)
    ensures r == Err(MissingCredentials) <==> !Given(username) || !Given(password)
    ensures Given(username) && Given(password) ==> (r.Err? <==> r == Err(BadCredentials))
    ensures Given(username) && Given(password) && !Exists(users, WithUsername(username.value)) ==>
              r == Err(BadCredentials)
    ensures r.Ok? ==>
              var i := FindIndex(users, WithUsername(username.value));
              0 <= i && compare(password.value, users[i].password) &&
              r.value == Session(sign(ClaimsOf(users[i]), TokenLifetime), ProfileOf(users[i]))
  {
    if !Given(username) || !Given(password) then Err(MissingCredentials)
    else
      var i := FindIndex(users, WithUsername(username.value));
      if i == -1 then Err(BadCredentials)
      else if !compare(password.value, users[i].password) then Err(BadCredentials)
      else Ok(Session(sign(ClaimsOf(users[i]), TokenLifetime), ProfileOf(users[i])))
  }

  /** A wrong password for an existing username is answered exactly as a
      username nobody has (here: as on an empty table), so the answer does not
      tell which of the two was wrong. */
  lemma WrongPasswordLikeUnknownUser(users: seq<User>, username: Option<string>, password: Option<string>,
                                     compare: (string, string) -> bool, sign: (Claims, string) -> string)
    requires Given(username) && Given(password)
    requires Exists(users, WithUsername(username.value))
    requires !compare(password.value, users[FindIndex(users, WithUsername(username.value))].password)
    ensures Login(users, username, password, compare, sign) == Login([], username, password, compare, sign)
    ensures Login(users, username, password, compare, sign) == Err(BadCredentials)
  {
  }

  /** Login consults only the first record with the username: when that one
      rejects the password, a later record with the same username whose
      digest would accept it is never tried. */
  lemma LoginUsesFirstMatch(users: seq<User>, j: int, username: Option<string>, password: Option<string>,
                            compare: (string, string) -> bool, sign: (Claims, string) -> string)
    requires Given(username) && Given(password)
    requires 0 <= j < |users| && users[j].username == username.value
    requires forall i :: 0 <= i < j ==> users[i].username != username.value
    ensures Login(users, username, password, compare, sign).Ok? <==> compare(password.value, users[j].password)
    ensures Login(users, username, password, compare, sign).Ok? ==>
              Login(users, username, password, compare, sign).value.user == ProfileOf(users[j])
  {
    assert Exists(users, WithUsername(username.value));
  }

  // ---------------------------------------------------------------------
  // Registration: `POST /api/auth/register`

  datatype RegisterRequest = RegisterRequest(
    username: Option<string>, email: Option<string>, password: Option<string>,
    role: Option<string>, avatar: Option<string>)

  predicate RegisterFieldsGiven(req: RegisterRequest)
  {
    Given(req.username) && Given(req.email) && Given(req.password)
  }

  /** The record register appends. `hash` stands for bcrypt's `hashSync`. */
  function NewAccount(id: int, req: RegisterRequest, hash: string -> string, now: string): (r: User)
    requires RegisterFieldsGiven(req)
    ensures r.id == id && r.username == req.username.value && r.email == req.email.value
    ensures r.password == hash(req.password.value)
    ensures r.role == (if Given(req.role) then req.role.value else MemberRole)
    ensures r.avatar == (if Given(req.avatar) then req.avatar.value else DefaultAvatar)
    ensures r.status == Active && r.createdAt == now && r.updatedAt == None && r.settings == None
  {
    User(id, req.username.value, req.email.value, hash(req.password.value),
         Or(req.role, MemberRole), Or(req.avatar, DefaultAvatar), Active, now, None, None)
  }

  /** Register: the field check, the two duplicate checks, then one record
      appended with the next id. */
  function Register(users: seq<User>, req: RegisterRequest, hash: string -> string, now: string): (o: Step<Registered>)
    ensures o.reply == Err(MissingFields) <==> !RegisterFieldsGiven(req)
    ensures o.reply == Err(UsernameTaken) <==>
              RegisterFieldsGiven(req) && Exists(users, WithUsername(req.username.value))
    ensures o.reply == Err(EmailTaken) <==>
              RegisterFieldsGiven(req) && !Exists(users, WithUsername(req.username.value)) &&
              Exists(users, WithEmail(req.email.value))
    ensures o.reply.Ok? <==>
              RegisterFieldsGiven(req) && !Exists(users, WithUsername(req.username.value)) &&
              !Exists(users, WithEmail(req.email.value))
    ensures o.reply.Err? ==> o.users == users && Status(o.reply.error) == 400
    ensures o.reply.Ok? ==>
              && |o.users| == |users| + 1
              && o.users[..|users|] == users
              && var u := o.users[|users|];
              && u.id == |users| + 1
              && u.username == req.username.value && u.email == req.email.value
              && u.password == hash(req.password.value)
              && u.role == (if Given(req.role) then req.role.value else MemberRole)
              && u.avatar == (if Given(req.avatar) then req.avatar.value else DefaultAvatar)
              && u.status == Active && u.createdAt == now
              && u.updatedAt == None && u.settings == None
              && o.reply.value == RegisteredOf(u)
  {
    if !RegisterFieldsGiven(req) then Step(Err(MissingFields), users)
    else if FindIndex(users, WithUsername(req.username.value)) != -1 then Step(Err(UsernameTaken), users)
    else if FindIndex(users, WithEmail(req.email.value)) != -1 then Step(Err(EmailTaken), users)
    else
      var u := NewAccount(|users| + 1, req, hash, now);
      assert (users + [u])[..|users|] == users;
      Step(Ok(RegisteredOf(u)), users + [u])
  }

  /** Register keeps usernames and emails unique: the duplicate checks stop
      any record that would clash. */
  lemma RegisterKeepsLoginsUnique(users: seq<User>, req: RegisterRequest, hash: string -> string, now: string)
    requires UniqueLogins(users)
    ensures UniqueLogins(Register(users, req, hash, now).users)
  {
    var o := Register(users, req, hash, now);
    if o.reply.Ok? {
      var u := o.users[|users|];
      forall i | 0 <= i < |users|
        ensures o.users[i].username != u.username && o.users[i].email != u.email
      {
        assert o.users[i] == users[i];
        assert !Matches(users[i], WithUsername(req.username.value));
        assert !Matches(users[i], WithEmail(req.email.value));
      }
    }
  }
}
