/** The volatile server. Its store is a module-level cell, `database`, that
    lives as long as the process: `ReadDB` hands out the cell's table and
    `WriteDB` replaces it. This server has register, login, list, admin create,
    delete and statistics; it has no get-by-id, update or settings route. */
module MemoryServer {
  import opened UserTable
  import Auth
  import Directory

  class Server {
    var database: seq<User>

    /** The cell starts out holding the two seed accounts. */
    constructor (hash: string -> string, now: string)
      ensures ReadDB() == Seed(hash, now)
    {
      database := Seed(hash, now);
    }

    /** `readDB`. */
    function ReadDB(): (r: seq<User>)
      reads this
      ensures r == database
    {
      database
    }

    /** `writeDB`: whatever is written is what the next read returns. */
    method WriteDB(data: seq<User>)
      modifies this
      ensures ReadDB() == data
    {
      database := data;
    }

    /** `POST /api/auth/register`. */
    method Register(req: Auth.RegisterRequest, hash: string -> string, now: string)
      returns (reply: Result<Registered, Failure>)
      modifies this
      ensures Step(reply, ReadDB()) == Auth.Register(old(ReadDB()), req, hash, now)
      ensures UniqueLogins(old(ReadDB())) ==> UniqueLogins(ReadDB())
    {
      if UniqueLogins(database) {
        Auth.RegisterKeepsLoginsUnique(database, req, hash, now);
      }
      if !Given(req.username) || !Given(req.email) || !Given(req.password) {
        return Err(MissingFields);
      }
      var db := ReadDB();
      if FindIndex(db, WithUsername(req.username.value)) != -1 {
        return Err(UsernameTaken);
      }
      if FindIndex(db, WithEmail(req.email.value)) != -1 {
        return Err(EmailTaken);
      }
      var newUser := Auth.NewAccount(|db| + 1, req, hash, now);
      db := db + [newUser];
      WriteDB(db);
      reply := Ok(RegisteredOf(newUser));
    }

    /** `POST /api/users`, behind the token guard. */
    method Create(header: Option<string>, verify: string -> Option<Auth.Claims>,
                  req: Directory.CreateRequest, hash: string -> string, now: string)
      returns (reply: Result<Profile, Failure>)
      modifies this
      ensures Step(reply, ReadDB()) ==
                Auth.Guarded(header, verify, Directory.Create(old(ReadDB()), req, hash, now), old(ReadDB()))
    {
      var auth := Auth.Authenticate(header, verify);
      if auth.Err? {
        return Err(auth.error);
      }
      if !Given(req.username) || !Given(req.email) {
        return Err(MissingNameOrEmail);
      }
      var db := ReadDB();
      var newUser := Directory.NewMember(|db| + 1, req, hash, now);
      db := db + [newUser];
      WriteDB(db);
      reply := Ok(ProfileOf(newUser));
    }

    /** `DELETE /api/users/:id`, behind the token guard. */
    method Delete(header: Option<string>, verify: string -> Option<Auth.Claims>, id: Option<int>)
      returns (reply: Result<(), Failure>)
      modifies this
      ensures Step(reply, ReadDB()) ==
                Auth.Guarded(header, verify, Directory.Delete(old(ReadDB()), id), old(ReadDB()))
    {
      var auth := Auth.Authenticate(header, verify);
      if auth.Err? {
        return Err(auth.error);
      }
      var db := ReadDB();
      var i := FindIndex(db, WithId(id));
      if i == -1 {
        return Err(UserNotFound);
      }
      db := db[..i] + db[i + 1..];
      WriteDB(db);
      reply := Ok(());
    }
  }
}
