/** `GET /api/statistics`: the counts computed from the live table. The `tasks`
    counts and the seven activity figures are random on every call and are
    not part of this model. */
module Reporter {
  import opened UserTable

  /** `totalUsers`, `activeUsers` and the three buckets of `usersByRole`. */
  datatype Report = Report(
    totalUsers: nat, activeUsers: nat,
    admins: nat, supervisors: nat, members: nat)

  /** At most one of the three tracked roles matches any record, so the three
      buckets together count each record at most once. */
  lemma {:induction false} RoleBucketsBound(users: seq<User>)
    ensures Count(users, WithRole(AdminRole)) + Count(users, WithRole(SupervisorRole))
              + Count(users, WithRole(MemberRole)) <= |users|
  {
    if users != [] {
      RoleBucketsBound(users[1..]);
    }
  }

  /** When every role is one of the three tracked ones, the buckets add up to
      the number of users. */
  lemma {:induction false} RoleBucketsCover(users: seq<User>)
    requires forall i :: 0 <= i < |users| ==> users[i].role in {AdminRole, SupervisorRole, MemberRole}
    ensures Count(users, WithRole(AdminRole)) + Count(users, WithRole(SupervisorRole))
              + Count(users, WithRole(MemberRole)) == |users|
  {
    if users != [] {
      assert forall i :: 0 <= i < |users[1..]| ==> users[1..][i] == users[i + 1];
      RoleBucketsCover(users[1..]);
    }
  }

  function Statistics(users: seq<User>): (r: Report)
    ensures r.totalUsers == |users|
    ensures r.activeUsers <= r.totalUsers
    ensures r.activeUsers == 0 <==> forall i :: 0 <= i < |users| ==> users[i].status != Active
    ensures r.activeUsers == Count(users, WithStatus(Active))
    ensures r.admins == Count(users, WithRole(AdminRole))
    ensures r.supervisors == Count(users, WithRole(SupervisorRole))
    ensures r.members == Count(users, WithRole(MemberRole))
    ensures r.admins + r.supervisors + r.members <= r.totalUsers
  {
    RoleBucketsBound(users);
    Report(|users|, Count(users, WithStatus(Active)),
           Count(users, WithRole(AdminRole)), Count(users, WithRole(SupervisorRole)),
           Count(users, WithRole(MemberRole)))
  }

  /** When every record holds one of the three tracked roles, the buckets of
      the report add up to its total. */
  lemma StatisticsBucketsCoverTotal(users: seq<User>)
    requires forall i :: 0 <= i < |users| ==> users[i].role in {AdminRole, SupervisorRole, MemberRole}
    ensures var r := Statistics(users);
            r.admins + r.supervisors + r.members == r.totalUsers
  {
    RoleBucketsCover(users);
  }

  /** Appending records adds their counts to every figure of the report. */
  lemma StatisticsOfAppend(users: seq<User>, added: seq<User>)
    ensures var before, after, delta := Statistics(users), Statistics(users + added), Statistics(added);
            && after.totalUsers == before.totalUsers + delta.totalUsers
            && after.activeUsers == before.activeUsers + delta.activeUsers
            && after.admins == before.admins + delta.admins
            && after.supervisors == before.supervisors + delta.supervisors
            && after.members == before.members + delta.members
  {
    CountConcat(users, added, WithStatus(Active));
    CountConcat(users, added, WithRole(AdminRole));
    CountConcat(users, added, WithRole(SupervisorRole));
    CountConcat(users, added, WithRole(MemberRole));
  }
}
