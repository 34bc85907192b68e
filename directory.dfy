/** The user directory routes: list, get by id, admin create, update and
    delete. All lookups by id take the first record whose id matches. */
module Directory {
  import opened UserTable

  // ---------------------------------------------------------------------
  // `GET /api/users` and `GET /api/users/:id`

  /** Every record, projected without its password, in table order. */
  function List(users: seq<User>): (r: seq<Listing>)
    ensures |r| == |users|
    ensures forall i :: 0 <= i < |users| ==> r[i] == ListingOf(users[i])
  {
    if users == [] then [] else [ListingOf(users[0])] + List(users[1..])
  }

  /** The listing does not depend on the stored digests. */
  lemma ListHidesPasswords(users: seq<User>, users': seq<User>)
    requires |users| == |users'|
    requires forall i :: 0 <= i < |users| ==> SameButPassword(users[i], users'[i])
    ensures List(users) == List(users')
  {
    forall i | 0 <= i < |users|
      ensures List(users)[i] == List(users')[i]
    {
      ProjectionsHidePassword(users[i], users'[i]);
    }
  }

  /** The first record with the id, projected as in the listing, or 404. */
  function Get(users: seq<User>, id: Option<int>): (r: Result<Listing, Failure>)
    ensures r.Err? <==> !Exists(users, WithId(id))
    ensures r.Err? ==> r.error == UserNotFound
    ensures r.Ok? ==> r.value == List(users)[FindIndex(users, WithId(id))]
  {
    var i := FindIndex(users, WithId(id));
    if i == -1 then Err(UserNotFound) else Ok(ListingOf(users[i]))
  }

  // ---------------------------------------------------------------------
  // `POST /api/users` (admin create)

  datatype CreateRequest = CreateRequest(
    username: Option<string>, email: Option<string>, password: Option<string>,
    role: Option<string>, avatar: Option<string>, status: Option<string>)

  /** The record admin create appends; without a password it stores the
      digest of the fixed default password. */
  function NewMember(id: int, req: CreateRequest, hash: string -> string, now: string): (r: User)
    requires Given(req.username) && Given(req.email)
    ensures r.id == id && r.username == req.username.value && r.email == req.email.value
    ensures r.password == hash(if Given(req.password) then req.password.value else DefaultPassword)
    ensures r.role == (if Given(req.role) then req.role.value else MemberRole)
    ensures r.avatar == (if Given(req.avatar) then req.avatar.value else DefaultAvatar)
    ensures r.status == (if Given(req.status) then req.status.value else Active)
    ensures r.createdAt == now && r.updatedAt == None && r.settings == None
  {
    User(id, req.username.value, req.email.value, hash(Or(req.password, DefaultPassword)),
         Or(req.role, MemberRole), Or(req.avatar, DefaultAvatar), Or(req.status, Active),
         now, None, None)
  }

  /** Admin create: only username and email are checked for presence; there
      is no duplicate check, and the id is again the table length plus one. */
  function Create(users: seq<User>, req: CreateRequest, hash: string -> string, now: string): (o: Step<Profile>)
    ensures o.reply.Err? <==> !Given(req.username) || !Given(req.email)
    ensures o.reply.Err? ==> o.reply.error == MissingNameOrEmail && o.users == users
    ensures o.reply.Ok? ==>
              && |o.users| == |users| + 1
              && o.users[..|users|] == users
              && var u := o.users[|users|];
              && u.id == |users| + 1
              && u.username == req.username.value && u.email == req.email.value
              && u.password == hash(if Given(req.password) then req.password.value else DefaultPassword)
              && u.role == (if Given(req.role) then req.role.value else MemberRole)
              && u.avatar == (if Given(req.avatar) then req.avatar.value else DefaultAvatar)
              && u.status == (if Given(req.status) then req.status.value else Active)
              && u.createdAt == now && u.updatedAt == None && u.settings == None
              && o.reply.value == ProfileOf(u)
  {
    if !Given(req.username) || !Given(req.email) then Step(Err(MissingNameOrEmail), users)
    else
      var u := NewMember(|users| + 1, req, hash, now);
      assert (users + [u])[..|users|] == users;
      Step(Ok(ProfileOf(u)), users + [u])
  }

  /** Admin create accepts a username that is already taken, so it can break
      the uniqueness that register keeps. */
  lemma CreateSkipsDuplicateCheck(users: seq<User>, req: CreateRequest, hash: string -> string, now: string)
    requires Given(req.username) && Given(req.email)
    requires Exists(users, WithUsername(req.username.value))
    ensures Create(users, req, hash, now).reply.Ok?
    ensures !UniqueLogins(Create(users, req, hash, now).users)
  {
    var o := Create(users, req, hash, now);
    var i :| 0 <= i < |users| && Matches(users[i], WithUsername(req.username.value));
    assert o.users[i] == users[i];
    assert o.users[i].username == o.users[|users|].username;
  }

  // ---------------------------------------------------------------------
  // `PUT /api/users/:id`

  datatype UpdateRequest = UpdateRequest(
    username: Option<string>, email: Option<string>, role: Option<string>,
    avatar: Option<string>, status: Option<string>)

  /** `{ ...u, username: username || u.username, ..., updatedAt: now }`. */
  function Merged(u: User, req: UpdateRequest, now: string): (r: User)
    ensures r.id == u.id && r.password == u.password
    ensures r.createdAt == u.createdAt && r.settings == u.settings && r.updatedAt == Some(now)
    ensures (!Given(req.username) && !Given(req.email) && !Given(req.role) &&
             !Given(req.avatar) && !Given(req.status)) ==> r == u.(updatedAt := Some(now))
  {
    u.(username := Or(req.username, u.username),
       email := Or(req.email, u.email),
       role := Or(req.role, u.role),
       avatar := Or(req.avatar, u.avatar),
       status := Or(req.status, u.status),
       updatedAt := Some(now))
  }

  /** Update: replaces the first record with the id by its merge with the
      request and answers the whole new record (digest included). */
  function Update(users: seq<User>, id: Option<int>, req: UpdateRequest, now: string): (o: Step<User>)
    ensures !Exists(users, WithId(id)) ==> o == Step(Err(UserNotFound), users)
    ensures Exists(users, WithId(id)) ==>
              var i := FindIndex(users, WithId(id));
              && |o.users| == |users|
              && o.users[i] == Merged(users[i], req, now)
              && (forall j :: 0 <= j < |users| && j != i ==> o.users[j] == users[j])
              && o.reply == Ok(o.users[i])
  {
    var i := FindIndex(users, WithId(id));
    if i == -1 then Step(Err(UserNotFound), users)
    else
      var u := Merged(users[i], req, now);
      Step(Ok(u), users[i := u])
  }

  /** Field by field, the updated record takes the request's value when it is
      given and keeps its own otherwise; id, digest, creation time and settings
      are carried over and only `updatedAt` is stamped. */
  lemma UpdateMergesFields(users: seq<User>, id: Option<int>, req: UpdateRequest, now: string)
    requires Exists(users, WithId(id))
    ensures var i := FindIndex(users, WithId(id));
            var old_, new_ := users[i], Update(users, id, req, now).users[i];
            && new_.id == old_.id && new_.password == old_.password
            && new_.createdAt == old_.createdAt && new_.settings == old_.settings
            && new_.updatedAt == Some(now)
            && (Given(req.username) ==> new_.username == req.username.value)
            && (!Given(req.username) ==> new_.username == old_.username)
            && (Given(req.email) ==> new_.email == req.email.value)
            && (!Given(req.email) ==> new_.email == old_.email)
            && (Given(req.role) ==> new_.role == req.role.value)
            && (!Given(req.role) ==> new_.role == old_.role)
            && (Given(req.avatar) ==> new_.avatar == req.avatar.value)
            && (!Given(req.avatar) ==> new_.avatar == old_.avatar)
            && (Given(req.status) ==> new_.status == req.status.value)
            && (!Given(req.status) ==> new_.status == old_.status)
  {
  }

  /** Update never changes an id, so every lookup by id finds the same
      position afterwards and ids stay as unique as they were. */
  lemma UpdateKeepsIds(users: seq<User>, id: Option<int>, req: UpdateRequest, now: string, k: Option<int>)
    ensures var after := Update(users, id, req, now).users;
            && |after| == |users|
            && (forall j :: 0 <= j < |users| ==> after[j].id == users[j].id)
            && FindIndex(after, WithId(k)) == FindIndex(users, WithId(k))
            && (UniqueIds(users) ==> UniqueIds(after))
  {
    var after := Update(users, id, req, now).users;
    assert forall j :: 0 <= j < |users| ==> (Matches(after[j], WithId(k)) <==> Matches(users[j], WithId(k)));
  }

  /** Repeating an update with the same request leaves the same table as
      doing it once at the later time. */
  lemma UpdateIdempotent(users: seq<User>, id: Option<int>, req: UpdateRequest, t1: string, t2: string)
    ensures Update(Update(users, id, req, t1).users, id, req, t2).users == Update(users, id, req, t2).users
  {
    var once := Update(users, id, req, t1).users;
    UpdateKeepsIds(users, id, req, t1, id);
    if Exists(users, WithId(id)) {
      var i := FindIndex(users, WithId(id));
      assert Matches(once[i], WithId(id));
      assert Merged(once[i], req, t2) == Merged(users[i], req, t2);
    }
  }

  // ---------------------------------------------------------------------
  // `DELETE /api/users/:id`

  /** Delete: `splice(i, 1)` at the first record with the id. */
  function Delete(users: seq<User>, id: Option<int>): (o: Step<()>)
    ensures !Exists(users, WithId(id)) ==> o == Step(Err(UserNotFound), users)
    ensures Exists(users, WithId(id)) ==>
              var i := FindIndex(users, WithId(id));
              o.reply.Ok? && o.users == users[..i] + users[i + 1..]
  {
    var i := FindIndex(users, WithId(id));
    if i == -1 then Step(Err(UserNotFound), users)
    else Step(Ok(()), users[..i] + users[i + 1..])
  }

  /** Removing index i keeps the records before it, moves the later ones up
      by one and takes exactly one copy of the removed record out. */
  lemma {:induction false} RemoveAt(users: seq<User>, i: int)
    requires 0 <= i < |users|
    ensures var after := users[..i] + users[i + 1..];
            && |after| == |users| - 1
            && (forall j :: 0 <= j < i ==> after[j] == users[j])
            && (forall j :: i <= j < |after| ==> after[j] == users[j + 1])
            && multiset(after) + multiset{users[i]} == multiset(users)
  {
    assert users == users[..i] + [users[i]] + users[i + 1..];
  }

  /** The listing of the shortened table is the listing with entry i removed. */
  lemma ListRemoveAt(users: seq<User>, i: int)
    requires 0 <= i < |users|
    ensures List(users[..i] + users[i + 1..]) == List(users)[..i] + List(users)[i + 1..]
  {
    var after, l := users[..i] + users[i + 1..], List(users);
    RemoveAt(users, i);
    assert |List(after)| == |l[..i] + l[i + 1..]|;
    forall j | 0 <= j < |after|
      ensures List(after)[j] == (l[..i] + l[i + 1..])[j]
    {
      if j < i {
        assert after[j] == users[j];
      } else {
        assert after[j] == users[j + 1];
      }
    }
  }

  /** Delete removes exactly one record, the first with the id: the records
      before it stay where they were, the ones after it move up by one, and
      the table and the listing lose exactly that record. */
  lemma DeleteRemovesFirstMatch(users: seq<User>, id: Option<int>)
    requires Exists(users, WithId(id))
    ensures var i, after := FindIndex(users, WithId(id)), Delete(users, id).users;
            && |after| == |users| - 1
            && (forall j :: 0 <= j < i ==> after[j] == users[j])
            && (forall j :: i <= j < |after| ==> after[j] == users[j + 1])
            && multiset(after) + multiset{users[i]} == multiset(users)
            && List(after) == List(users)[..i] + List(users)[i + 1..]
  {
    var i := FindIndex(users, WithId(id));
    RemoveAt(users, i);
    ListRemoveAt(users, i);
  }

  /** With unique ids, a deleted id is gone: getting it afterwards is 404. */
  lemma DeleteThenGetNotFound(users: seq<User>, id: Option<int>)
    requires UniqueIds(users) && Exists(users, WithId(id))
    ensures Get(Delete(users, id).users, id) == Err(UserNotFound)
  {
    var i, after := FindIndex(users, WithId(id)), Delete(users, id).users;
    forall j | 0 <= j < |after|
      ensures !Matches(after[j], WithId(id))
    {
      if j < i {
        assert after[j] == users[j];
      } else {
        assert after[j] == users[j + 1];
        assert users[i].id != users[j + 1].id;
      }
    }
  }

  /** Without unique ids a deleted id can still be found: the next record with
      the same id takes its place. */
  lemma DeleteUncoversDuplicate(users: seq<User>, id: Option<int>, j: int)
    requires Exists(users, WithId(id))
    requires FindIndex(users, WithId(id)) < j < |users| && Matches(users[j], WithId(id))
    ensures Get(Delete(users, id).users, id).Ok?
  {
    var after := Delete(users, id).users;
    assert after[j - 1] == users[j];
  }
}
