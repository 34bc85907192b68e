/** The durable server. `users` stands for the `users` array of the JSON file
    the server keeps on disk: every handler reads it when it starts and
    writes the changed table back before it answers. */
module FileServer {
  import opened UserTable
  import Auth
  import Directory
  import Settings

  class Server {
    var users: seq<User>

    /** `stored` is the table already on disk, if the file exists; otherwise
        the file is created holding the two seed accounts. */
    constructor (stored: Option<seq<User>>, hash: string -> string, now: string)
      ensures users == if stored.Some? then stored.value else Seed(hash, now)
    {
      if stored.Some? {
        users := stored.value;
      } else {
        users := Seed(hash, now);
      }
    }

    /** `POST /api/auth/register`. */
    method Register(req: Auth.RegisterRequest, hash: string -> string, now: string)
      returns (reply: Result<Registered, Failure>)
      modifies this
      ensures Step(reply, users) == Auth.Register(old(users), req, hash, now)
      ensures UniqueLogins(old(users)) ==> UniqueLogins(users)
    {
      if UniqueLogins(users) {
        Auth.RegisterKeepsLoginsUnique(users, req, hash, now);
      }
      if !Given(req.username) || !Given(req.email) || !Given(req.password) {
        return Err(MissingFields);
      }
      var db := users;
      if FindIndex(db, WithUsername(req.username.value)) != -1 {
        return Err(UsernameTaken);
      }
      if FindIndex(db, WithEmail(req.email.value)) != -1 {
        return Err(EmailTaken);
      }
      var newUser := Auth.NewAccount(|db| + 1, req, hash, now);
      db := db + [newUser];
      users := db;
      reply := Ok(RegisteredOf(newUser));
    }

    /** `POST /api/users`, behind the token guard. */
    method Create(header: Option<string>, verify: string -> Option<Auth.Claims>,
                  req: Directory.CreateRequest, hash: string -> string, now: string)
      returns (reply: Result<Profile, Failure>)
      modifies this
      ensures Step(reply, users) ==
                Auth.Guarded(header, verify, Directory.Create(old(users), req, hash, now), old(users))
    {
      var auth := Auth.Authenticate(header, verify);
      if auth.Err? {
        return Err(auth.error);
      }
      if !Given(req.username) || !Given(req.email) {
        return Err(MissingNameOrEmail);
      }
      var db := users;
      var newUser := Directory.NewMember(|db| + 1, req, hash, now);
      db := db + [newUser];
      users := db;
      reply := Ok(ProfileOf(newUser));
    }

    /** `PUT /api/users/:id`, behind the token guard. */
    method Update(header: Option<string>, verify: string -> Option<Auth.Claims>,
                  id: Option<int>, req: Directory.UpdateRequest, now: string)
      returns (reply: Result<User, Failure>)
      modifies this
      ensures Step(reply, users) ==
                Auth.Guarded(header, verify, Directory.Update(old(users), id, req, now), old(users))
    {
      var auth := Auth.Authenticate(header, verify);
      if auth.Err? {
        return Err(auth.error);
      }
      var db := users;
      var i := FindIndex(db, WithId(id));
      if i == -1 {
        return Err(UserNotFound);
      }
      db := db[i := Directory.Merged(db[i], req, now)];
      users := db;
      reply := Ok(db[i]);
    }

    /** `DELETE /api/users/:id`, behind the token guard. */
    method Delete(header: Option<string>, verify: string -> Option<Auth.Claims>, id: Option<int>)
      returns (reply: Result<(), Failure>)
      modifies this
      ensures Step(reply, users) ==
                Auth.Guarded(header, verify, Directory.Delete(old(users), id), old(users))
    {
      var auth := Auth.Authenticate(header, verify);
      if auth.Err? {
        return Err(auth.error);
      }
      var db := users;
      var i := FindIndex(db, WithId(id));
      if i == -1 {
        return Err(UserNotFound);
      }
      db := db[..i] + db[i + 1..];
      users := db;
      reply := Ok(());
    }

    /** `PUT /api/settings/:userId`, behind the token guard. */
    method UpdateSettings(header: Option<string>, verify: string -> Option<Auth.Claims>,
                          id: Option<int>, patch: Option<map<string, Json>>)
      returns (reply: Result<map<string, Json>, Failure>)
      modifies this
      ensures Step(reply, users) ==
                Auth.Guarded(header, verify, Settings.UpdateSettings(old(users), id, patch), old(users))
    {
      var auth := Auth.Authenticate(header, verify);
      if auth.Err? {
        return Err(auth.error);
      }
      var db := users;
      var i := FindIndex(db, WithId(id));
      if i == -1 {
        return Err(UserNotFound);
      }
      var merged := Settings.SettingsOf(db[i]) + Settings.PatchOf(patch);
      db := db[i := db[i].(settings := Some(merged))];
      users := db;
      reply := Ok(merged);
    }
  }
}
