/** The per-user settings routes: `GET /api/settings/:userId` answers a
    user's profile fields with the settings object, and
    `PUT /api/settings/:userId` merges a patch into it one level deep. */
module Settings {
  import opened UserTable

  /** `user.settings || {}`: a record that never had settings reads as the
      empty object. */
  function SettingsOf(u: User): (s: map<string, Json>)
    ensures u.settings.None? ==> s == map[]
  {
    if u.settings.Some? then u.settings.value else map[]
  }

  /** Spreading a missing patch (`...undefined`) adds no key. */
  function PatchOf(patch: Option<map<string, Json>>): map<string, Json>
  {
    if patch.Some? then patch.value else map[]
  }

  datatype SettingsView = SettingsView(
    username: string, email: string, role: string, avatar: string,
    settings: map<string, Json>)

  function GetSettings(users: seq<User>, id: Option<int>): (r: Result<SettingsView, Failure>)
    ensures r.Err? <==> !Exists(users, WithId(id))
    ensures r.Err? ==> r.error == UserNotFound
    ensures r.Ok? ==>
              var u := users[FindIndex(users, WithId(id))];
              r.value == SettingsView(u.username, u.email, u.role, u.avatar, SettingsOf(u))
  {
    var i := FindIndex(users, WithId(id));
    if i == -1 then Err(UserNotFound)
    else
      var u := users[i];
      Ok(SettingsView(u.username, u.email, u.role, u.avatar, SettingsOf(u)))
  }

  /** `{ ...user.settings, ...settings }` written back into the first record
      with the id; the merged object is the answer. */
  function UpdateSettings(users: seq<User>, id: Option<int>, patch: Option<map<string, Json>>): (o: Step<map<string, Json>>)
    ensures !Exists(users, WithId(id)) ==> o == Step(Err(UserNotFound), users)
    ensures Exists(users, WithId(id)) ==>
              var i := FindIndex(users, WithId(id));
              && o.reply.Ok?
              && |o.users| == |users|
              && o.users[i] == users[i].(settings := Some(o.reply.value))
              && (forall j :: 0 <= j < |users| && j != i ==> o.users[j] == users[j])
  {
    var i := FindIndex(users, WithId(id));
    if i == -1 then Step(Err(UserNotFound), users)
    else
      var merged := SettingsOf(users[i]) + PatchOf(patch);
      Step(Ok(merged), users[i := users[i].(settings := Some(merged))])
  }

  /** The merge is shallow and the patch wins: every patch key takes the
      patch's value, every other old key keeps its old value, and no other
      key appears. */
  lemma MergeIsShallowOverride(users: seq<User>, id: Option<int>, patch: Option<map<string, Json>>)
    requires Exists(users, WithId(id))
    ensures var old_ := SettingsOf(users[FindIndex(users, WithId(id))]);
            var merged := UpdateSettings(users, id, patch).reply.value;
            && merged.Keys == old_.Keys + PatchOf(patch).Keys
            && (forall k :: k in PatchOf(patch) ==> merged[k] == PatchOf(patch)[k])
            && (forall k :: k in old_ && k !in PatchOf(patch) ==> merged[k] == old_[k])
  {
  }

  /** Reading the settings back after an update gives the merged object the
      update answered. */
  lemma UpdateThenGetSettings(users: seq<User>, id: Option<int>, patch: Option<map<string, Json>>)
    requires Exists(users, WithId(id))
    ensures var o := UpdateSettings(users, id, patch);
            GetSettings(o.users, id) == Ok(SettingsView(
              users[FindIndex(users, WithId(id))].username, users[FindIndex(users, WithId(id))].email,
              users[FindIndex(users, WithId(id))].role, users[FindIndex(users, WithId(id))].avatar,
              o.reply.value))
  {
    var o := UpdateSettings(users, id, patch);
    var i := FindIndex(users, WithId(id));
    assert forall j :: 0 <= j < |users| ==> o.users[j].id == users[j].id;
    assert Matches(o.users[i], WithId(id));
  }

  /** Two updates in a row lose no key: the result is the old settings
      overridden by the first patch and then by the second. */
  lemma UpdatesAccumulate(users: seq<User>, id: Option<int>, p1: Option<map<string, Json>>, p2: Option<map<string, Json>>)
    requires Exists(users, WithId(id))
    ensures var once := UpdateSettings(users, id, p1).users;
            var twice := UpdateSettings(once, id, p2);
            twice.reply == Ok(SettingsOf(users[FindIndex(users, WithId(id))]) + PatchOf(p1) + PatchOf(p2))
  {
    var once := UpdateSettings(users, id, p1).users;
    var i := FindIndex(users, WithId(id));
    assert forall j :: 0 <= j < |users| ==> once[j].id == users[j].id;
    assert Matches(once[i], WithId(id));
    assert FindIndex(once, WithId(id)) == i;
  }
}
