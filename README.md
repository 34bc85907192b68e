# Login backend: the user table and its handlers, in Dafny

The backend is an Express server for a single-tenant admin panel. It keeps one
ordered table of user records and offers login, registration, a user directory
(list, get by id, admin create, update, delete), per-user settings and a
statistics report. Protected routes sit behind a bearer-token guard. The
repository holds two near-identical variants:

- `server.js` keeps the table in a JSON file on disk. Every handler re-reads
  the file before it looks at the table and writes it back after every
  change.
- `server.js.js` keeps the table in a module-level variable (`database`,
  read by `readDB`, replaced by `writeDB`). It has no get-by-id, update or
  settings routes.

This project models the table as `seq<User>` and every handler over it.

- `users.dfy` (module `UserTable`): the record, the request/answer values,
  the error values with their HTTP statuses, and the seed accounts. It also
  has `FindIndex` and `Count`, the first-match lookup (`find`/`findIndex`) and
  the count (`filter(...).length`) that every handler is built on.
- `auth.dfy` (`Auth`): the token extraction of `authenticateToken` (the second
  space-separated word of the `Authorization` header), the guard itself, the
  composition `Guarded` of the guard with a route, login and register.
- `directory.dfy` (`Directory`): list, get, admin create, update, delete.
- `settings.dfy` (`Settings`): settings read and the shallow merge on update.
- `statistics.dfy` (`Reporter`): the real counts of the statistics report.
- `scenarios.dfy` (`Scenarios`): properties that relate several handlers.
- `file_server.dfy` (`FileServer.Server`): the state-changing routes of
  `server.js` as methods on a class whose `users` field stands for the stored
  table. Each method is proved equal to the handler's function above.
- `memory_server.dfy` (`MemoryServer.Server`): the memory cell of
  `server.js.js` with `ReadDB`/`WriteDB`, and its state-changing routes.

The model follows the code, not an idealised design:

- Ids are `length + 1`, so they repeat after a delete.
- Every lookup takes the first match.
- Only register checks for duplicate usernames and emails.
- A request field that is absent or the empty string counts as absent
  (JavaScript `||`).
- Registering a taken username or email answers 400, not a separate conflict
  status.
- A protected read-only route (list, get, statistics, settings read) is the
  handler's function applied to the current table, behind `Auth.Guarded`.

## Model

| member | source | states |
|---|---|---|
| `UserTable.FindIndex` | server.js:251 | `findIndex`: -1 exactly when no record matches; otherwise the index of a match with no match before it |
| `UserTable.FindIndexAppend` | server.js:139-158 | after one record is appended, a lookup finds the old first match if there was one, else the new record if it matches, else nothing |
| `UserTable.Count` | server.js:298 | `filter(...).length` is at most the table length, and is zero exactly when no record matches |
| `UserTable.CountConcat` | server.js:297-305 | counting a concatenation adds the counts of its parts |
| `UserTable.Seed` | server.js:23-56 | a fresh store holds two accounts, ids 1 and 2, with unique usernames, emails and ids |
| `UserTable.ProjectionsHidePassword` | server.js:114-124 | the login/create, register and listing projections are the same for records that differ only in the password digest |
| `Auth.Split` | server.js:71 | `split(' ')` gives at least one piece, and no piece contains the separator |
| `Auth.JoinSplit` | server.js:71 | joining the pieces of a split with the separator gives back the original string |
| `Auth.SplitPrefix` | server.js:71 | splitting `w + t`, where `w` holds no separator, glues `w` to the first piece of `t`'s split |
| `Auth.SplitJoin` | server.js:71 | splitting pieces joined by a separator they do not contain gives back the pieces |
| `Auth.TokenOf` | server.js:70-71 | no header, an empty header or a header with fewer than two space-separated words gives no token; otherwise the token is the second word of `split(' ')`, which holds no space |
| `Auth.SchemeTokenHeader` | server.js:69-71 | a header `<scheme> <token>[ ...]` yields `token` whatever the scheme word is (`Bearer` is never checked) |
| `Auth.OneWordHeader` | server.js:71-75 | a header with no space yields no token |
| `Auth.Authenticate` | server.js:69-84 | no header or no second word gives 401 (NoToken); a token the verifier rejects gives 403 (InvalidToken); otherwise the verifier's claims pass through |
| `Auth.NoTokenBeforeVerify` | server.js.js:56-62 | without a token the answer is 401 whatever the verifier would say, so the presence check comes before verification |
| `Auth.Guarded` | server.js:211 | behind the guard, a failed check answers exactly the guard's own error (401 NoToken for a missing token, 403 InvalidToken for a rejected one) and leaves the table as it was; a passed check runs the handler |
| `Auth.Login` | server.js:89-126 | a missing username or password gives 400; with both given, every failure is the one 401 BadCredentials, an unknown username is one; success signs the first record's id, username and role for "24h" and answers its password-free profile |
| `Auth.WrongPasswordLikeUnknownUser` | server.js:99-106 | a wrong password for an existing user gets exactly the answer a nonexistent username gets |
| `Auth.LoginUsesFirstMatch` | server.js:97-106 | login succeeds exactly when the first record with the username accepts the password; later records with that username are never tried |
| `Auth.NewAccount` | server.js:147-156 | the registered record: the given id, username and email, the digest of the given password, role "مستخدم" and avatar "👤" unless given, status "active", created now, no update time and no settings |
| `Auth.Register` | server.js:129-171 | success iff all three fields are given and neither the username nor the email is taken; 400 MissingFields iff a field is absent, UsernameTaken iff the username exists, EmailTaken iff only the email exists; every error leaves the table unchanged; success appends one record with id = old length + 1, the hashed password, role/avatar defaults, status "active", and keeps earlier records |
| `Auth.RegisterKeepsLoginsUnique` | server.js:139-158 | if usernames and emails were unique before register, they are unique after it |
| `Directory.List` | server.js:176-188 | one password-free listing per record, in table order |
| `Directory.ListHidesPasswords` | server.js:178-186 | the listing of two tables that differ only in digests is the same |
| `Directory.Get` | server.js:191-208 | 404 exactly when no record has the id; otherwise the listing entry of the first record with the id |
| `Directory.NewMember` | server.js:220-229 | the admin-created record: the given id, username and email, the digest of the given password or of "123456", role/avatar/status defaults unless given, created now, no update time and no settings |
| `Directory.Create` | server.js:211-245 | 400 exactly when username or email is absent, table unchanged; otherwise one record appended with id = old length + 1, the digest of the given or the default password "123456", role/avatar/status defaults; no duplicate check |
| `Directory.CreateSkipsDuplicateCheck` | server.js:214-231 | admin create accepts a username already in the table, leaving usernames no longer unique |
| `Directory.Merged` | server.js:257-265 | the merged record keeps id, digest, creation time and settings and stamps the update time; a request that gives no field changes nothing else |
| `Directory.Update` | server.js:248-273 | an unknown id gives 404 with the table unchanged; otherwise only the first record with the id is replaced, the length is kept, and the full new record (digest included) is answered |
| `Directory.UpdateMergesFields` | server.js:257-265 | each of username, email, role, avatar and status takes the request's value when given and keeps the old one otherwise; id, digest, createdAt and settings are kept; updatedAt is stamped |
| `Directory.UpdateKeepsIds` | server.js:257-265 | update changes no id: every lookup by id finds the same index and unique ids stay unique |
| `Directory.UpdateIdempotent` | server.js:257-265 | updating twice with the same request leaves the table of one update at the later time |
| `Directory.Delete` | server.js:276-288 | an unknown id gives 404 with the table unchanged; otherwise the table is the old one without the first record with the id |
| `Directory.RemoveAt` | server.js:284 | `splice(i, 1)` keeps the records before i, moves the later ones up by one and takes exactly one copy of record i out |
| `Directory.ListRemoveAt` | server.js:178-186 | listing the table after `splice(i, 1)` gives the old listing with entry i removed |
| `Directory.DeleteRemovesFirstMatch` | server.js:278-285 | the length drops by one, records before the index stay, records after it move up by one, the multiset loses exactly that record, and the listing loses exactly its entry |
| `Directory.DeleteThenGetNotFound` | server.js:284 | with unique ids, getting a deleted id answers 404 |
| `Directory.DeleteUncoversDuplicate` | server.js:193 | with a repeated id, getting a deleted id still finds the next record with it |
| `Settings.SettingsOf` | server.js:328 | a record that never had settings reads as the empty object |
| `Settings.GetSettings` | server.js:315-330 | 404 exactly when no record has the id; otherwise the first such record's username, email, role, avatar and settings |
| `Settings.UpdateSettings` | server.js:333-353 | an unknown id gives 404 with the table unchanged; otherwise only the first record with the id gets the merged settings, and no other field or record changes |
| `Settings.MergeIsShallowOverride` | server.js:342-345 | the merged keys are the old keys plus the patch keys; patch keys take the patch's values and the other keys keep their old values |
| `Settings.UpdateThenGetSettings` | server.js:342-351 | reading the settings back after an update gives the merged object the update answered |
| `Settings.UpdatesAccumulate` | server.js:342-345 | two successive updates leave the old settings overridden by the first patch and then the second |
| `Reporter.RoleBucketsBound` | server.js.js:252-256 | the three role buckets together count at most the number of users |
| `Reporter.RoleBucketsCover` | server.js:301-305 | when every role is one of the three tracked ones, the buckets add up to the number of users |
| `Reporter.Statistics` | server.js.js:244-261 | totalUsers is the table length; activeUsers is the count of "active" records (at most the total, zero exactly when none is active); admins, supervisors and members are the counts of records with role "مدير النظام", "مشرف" and "مستخدم"; the buckets sum to at most totalUsers |
| `Reporter.StatisticsBucketsCoverTotal` | server.js:296-305 | when every record holds one of the three tracked roles, the report's buckets add up to its totalUsers |
| `Reporter.StatisticsOfAppend` | server.js:296-305 | appending records adds their counts to every figure of the report |
| `Scenarios.RegisterThenLogin` | server.js:97-158 | after a successful register, login with the new username succeeds exactly for passwords bcrypt accepts against the new digest, and answers the new id |
| `Scenarios.RegisterCountsAsActive` | server.js:154 | a registered account adds one to totalUsers and one to activeUsers |
| `Scenarios.IdReuseAfterDelete` | server.js:221 | when the last record has id n = length, deleting an earlier record and then creating gives the new record id n too; a lookup of n stops at the older record |
| `Scenarios.SeedCreateDeleteGet` | server.js:211-288 | on a fresh store, creating carol answers id 3 with the default-password digest and a three-entry listing; deleting id 2 succeeds and getting id 2 then answers 404 |
| `Scenarios.SeedDeleteCreateRepeatsId` | server.js.js:199-236 | on a fresh store (ids 1, 2), deleting id 1 and then creating leaves two records with id 2 |
| `Scenarios.ThemeThenLanguage` | server.js:342-345 | setting {theme: "dark"} and then {lang: "ar"} on a user without settings answers {theme: "dark", lang: "ar"} |
| `FileServer.Server.constructor` | server.js:23-56 | an existing store is used as it is; a missing one starts with the two seed accounts |
| `FileServer.Server.Register` | server.js:129-171 | answer and new stored table are those of `Auth.Register`; unique usernames and emails stay unique |
| `FileServer.Server.Create` | server.js:211-245 | answer and new stored table are those of `Directory.Create` behind the guard |
| `FileServer.Server.Update` | server.js:248-273 | answer and new stored table are those of `Directory.Update` behind the guard |
| `FileServer.Server.Delete` | server.js:276-288 | answer and new stored table are those of `Directory.Delete` behind the guard |
| `FileServer.Server.UpdateSettings` | server.js:333-353 | answer and new stored table are those of `Settings.UpdateSettings` behind the guard |
| `MemoryServer.Server.constructor` | server.js.js:18-48 | the memory cell starts out holding the two seed accounts |
| `MemoryServer.Server.ReadDB` | server.js.js:51 | `readDB` returns the cell's current table |
| `MemoryServer.Server.WriteDB` | server.js.js:51-52 | after `WriteDB(d)`, `ReadDB()` returns `d` |
| `MemoryServer.Server.Register` | server.js.js:129-170 | answer and new cell contents are those of `Auth.Register`; unique usernames and emails stay unique |
| `MemoryServer.Server.Create` | server.js.js:190-224 | answer and new cell contents are those of `Directory.Create` behind the guard |
| `MemoryServer.Server.Delete` | server.js.js:227-239 | answer and new cell contents are those of `Directory.Delete` behind the guard |

## Left out

- Express plumbing is not modelled because it is I/O: routing, CORS, JSON body parsing, `app.listen`, console logging, the Vercel export and the static `GET /` endpoint of `server.js.js`.
- The read-only routes (login, list, get, statistics, settings read) have no class method. They are the functions `Auth.Login`, `Directory.List`, `Directory.Get`, `Reporter.Statistics` and `Settings.GetSettings` applied to the table the handler reads, behind `Auth.Guarded` where the route is protected. The same functions stand for the identical handlers of `server.js.js`.
- File persistence is I/O and is not modelled: `existsSync`, `readFileSync`, `writeFileSync` and JSON (de)serialisation of `database.json`. The stored table is the `users` field, read at entry and assigned on write. A malformed file, which makes the source throw, is not modelled.
- The `tasks` array and the `statistics` snapshot of the stored document are not modelled. No handler reads or changes them.
- bcrypt is a foreign library. `hashSync` is the parameter `hash` and `compareSync` is the parameter `compare`. Salting is not modelled: `hash` is a function.
- The JWT library is foreign. `jwt.sign` is the parameter `sign`, called with the claims and "24h". `jwt.verify` is the parameter `verify`, returning the claims or `None`. The secret key and the expiry check are not modelled beyond these parameters.
- The timestamps from `new Date().toISOString()` are the parameter `now`.
- UserTable.Seed: the seed accounts read the clock once each (server.js:34 and :44); the model takes both reads as the one `now`, so the two `createdAt` values are equal.
- `completedTasks`, `pendingTasks` and `activityData` of the statistics report are not modelled, because they are random numbers on every call.
- `parseInt` on path ids is not modelled. The id is an `Option<int>` in which `None` stands for NaN, which matches no record. `parseInt`'s acceptance of strings like "12abc" is the caller's job.
- Concurrency is not modelled: two requests can interleave their read-modify-write and lose an update. The model is sequential.
- The localized message strings are not modelled. Each distinct message is one `Failure` constructor, and `Status` gives its HTTP code.
- Success statuses are not modelled: register and admin create answer 201 and every other successful route answers 200, but an `Ok` reply carries no status code.
- Request fields whose JSON values are not strings (numbers, objects, `null`) are not modelled. A field is a string or absent.
- A settings patch that is not an object (for example a string, whose spread adds indexed keys) is not modelled. The patch is an object or absent. The key order of the merged object is not modelled, because a `map` has none.
- Aliasing in the memory server is not modelled. `readDB` hands out the live object and handlers `push`/`splice` into it before `writeDB`; the model copies the sequence and writes it back. Every check comes before the first change, so the resulting table and answer are the same.
- The claims that the guard attaches to the request are not modelled, because no handler reads them (no route checks a role).
