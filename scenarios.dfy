/** Properties that relate several handlers: what one request leaves behind
    for the next. */
module Scenarios {
  import opened UserTable
  import opened Auth
  import opened Directory
  import opened Settings
  import opened Reporter

  /** After a successful register the new account can log in, and exactly
      with the passwords that bcrypt accepts against the stored digest. */
  lemma RegisterThenLogin(users: seq<User>, req: RegisterRequest, hash: string -> string, now: string,
                          password: Option<string>, compare: (string, string) -> bool,
                          sign: (Claims, string) -> string)
    requires Register(users, req, hash, now).reply.Ok?
    ensures var after := Register(users, req, hash, now).users;
            var r := Login(after, req.username, password, compare, sign);
            && (r.Ok? <==> Given(password) && compare(password.value, hash(req.password.value)))
            && (r.Ok? ==> r.value.user.id == |users| + 1 && r.value.user.email == req.email.value)
  {
    var after := Register(users, req, hash, now).users;
    FindIndexAppend(users, after[|users|], WithUsername(req.username.value));
    assert after == users + [after[|users|]];
  }

  /** A registered account is counted as active and adds one to the total. */
  lemma RegisterCountsAsActive(users: seq<User>, req: RegisterRequest, hash: string -> string, now: string)
    requires Register(users, req, hash, now).reply.Ok?
    ensures var before, after := Statistics(users), Statistics(Register(users, req, hash, now).users);
            after.totalUsers == before.totalUsers + 1 && after.activeUsers == before.activeUsers + 1
  {
    var after := Register(users, req, hash, now).users;
    var u := after[|users|];
    assert after == users + [u];
    StatisticsOfAppend(users, [u]);
    assert [u][1..] == [];
  }

  /** Ids are the table length plus one, so they repeat: when the last record
      holds id n (the length), deleting any earlier record and then creating
      one gives the new record id n as well, and a lookup of id n stops at the
      older record and never reaches the new one. */
  lemma IdReuseAfterDelete(users: seq<User>, d: Option<int>, req: CreateRequest, hash: string -> string, now: string)
    requires Given(req.username) && Given(req.email)
    requires |users| >= 1 && users[|users| - 1].id == |users|
    requires Exists(users, WithId(d)) && FindIndex(users, WithId(d)) < |users| - 1
    ensures var shrunk := Delete(users, d).users;
            var grown := Create(shrunk, req, hash, now).users;
            && |grown| == |users|
            && grown[|users| - 2] == users[|users| - 1]
            && grown[|users| - 1].id == |users|
            && !UniqueIds(grown)
            && 0 <= FindIndex(grown, WithId(Some(|users|))) < |users| - 1
  {
    var n := |users|;
    var shrunk := Delete(users, d).users;
    DeleteRemovesFirstMatch(users, d);
    assert shrunk[n - 2] == users[n - 1];
    var grown := Create(shrunk, req, hash, now).users;
    assert grown[n - 2] == shrunk[n - 2];
    assert Matches(grown[n - 2], WithId(Some(n)));
  }

  /** A fresh store, as both servers seed it: creating carol gives id 3 and a
      three-entry listing; deleting id 2 then makes id 2 unknown. */
  lemma SeedCreateDeleteGet(hash: string -> string, now: string, later: string)
    ensures var seed := Seed(hash, now);
            var carol := CreateRequest(Some("carol"), Some("carol@x.com"), None, None, None, None);
            var created := Create(seed, carol, hash, later);
            var deleted := Delete(created.users, Some(2));
            && created.reply.Ok? && created.reply.value.id == 3
            && created.users[2].password == hash(DefaultPassword)
            && |List(created.users)| == 3
            && deleted.reply.Ok?
            && Get(deleted.users, Some(2)) == Err(UserNotFound)
  {
    var seed := Seed(hash, now);
    var carol := CreateRequest(Some("carol"), Some("carol@x.com"), None, None, None, None);
    var created := Create(seed, carol, hash, later);
    assert created.users[0].id == 1 && created.users[1].id == 2 && created.users[2].id == 3;
    assert Matches(created.users[1], WithId(Some(2)));
    assert UniqueIds(created.users);
    DeleteThenGetNotFound(created.users, Some(2));
  }

  /** On a fresh store, deleting id 1 and creating a user gives two records
      with id 2. */
  lemma SeedDeleteCreateRepeatsId(hash: string -> string, now: string, req: CreateRequest)
    requires Given(req.username) && Given(req.email)
    ensures var grown := Create(Delete(Seed(hash, now), Some(1)).users, req, hash, now).users;
            |grown| == 2 && grown[0].id == 2 && grown[1].id == 2 && grown[0].username == "user"
  {
    var seed := Seed(hash, now);
    assert Matches(seed[0], WithId(Some(1)));
    IdReuseAfterDelete(seed, Some(1), req, hash, now);
  }

  /** Setting `{theme: "dark"}` and then `{lang: "ar"}` on a user without
      settings leaves both keys. */
  lemma ThemeThenLanguage(users: seq<User>, id: Option<int>)
    requires Exists(users, WithId(id))
    requires users[FindIndex(users, WithId(id))].settings == None
    ensures var once := UpdateSettings(users, id, Some(map["theme" := Str("dark")])).users;
            UpdateSettings(once, id, Some(map["lang" := Str("ar")])).reply
              == Ok(map["theme" := Str("dark"), "lang" := Str("ar")])
  {
    var p1, p2 := map["theme" := Str("dark")], map["lang" := Str("ar")];
    UpdatesAccumulate(users, id, Some(p1), Some(p2));
    assert "theme" != "lang";
    var m := SettingsOf(users[FindIndex(users, WithId(id))]) + PatchOf(Some(p1)) + PatchOf(Some(p2));
    assert m.Keys == {"theme", "lang"};
    assert m == map["theme" := Str("dark"), "lang" := Str("ar")];
  }
}
