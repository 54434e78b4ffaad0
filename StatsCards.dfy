/**
 * The four counters on the manage screen: all users, active users (status
 * "active" or no status at all), inactive users (status "inactive") and users
 * created within the last week. Clock and date parsing are inputs.
 */
module StatsCards {
  import opened Wrappers
  import opened Lists
  import opened Api

  /** `u.status === "active" || !u.status`: a missing or empty status counts as active. */
  predicate IsActive(u: User) {
    u.status == Some("active") || u.status == None || u.status == Some("")
  }

  predicate IsInactive(u: User) {
    u.status == Some("inactive")
  }

  /** Seven days, in milliseconds. */
  const WeekInMillis: int := 7 * 24 * 60 * 60 * 1000

  /**
   * Created at or after `weekAgo`. `parseDate` is `new Date(created_at)`; an
   * unparsable date (`None`, an invalid Date) never compares as recent.
   */
  predicate IsRecent(u: User, weekAgo: int, parseDate: string -> Option<int>) {
    var t := parseDate(u.createdAt);
    t.Some? && t.value >= weekAgo
  }

  datatype Stats = Stats(totalUsers: nat, activeUsers: nat, inactiveUsers: nat, recentEnrollments: nat)

  /**
   * The counters for `users` at time `now` (milliseconds): the total, and the
   * sizes of the active, inactive and recent filters, each of which keeps
   * exactly the users with that property. Active and inactive never add up
   * to more than the total, and add up to exactly the total when every
   * status is "active", "inactive" or missing.
   */
  function ComputeStats(users: seq<User>, now: int, parseDate: string -> Option<int>): (s: Stats)
    ensures s.totalUsers == |users|
    ensures s.activeUsers == |Filter(users, IsActive)|
    ensures s.inactiveUsers == |Filter(users, IsInactive)|
    ensures s.recentEnrollments == |Filter(users, u => IsRecent(u, now - WeekInMillis, parseDate))|
    ensures s.activeUsers + s.inactiveUsers <= s.totalUsers
    ensures s.activeUsers + s.inactiveUsers == s.totalUsers <==>
              forall i :: 0 <= i < |users| ==> IsActive(users[i]) || IsInactive(users[i])
    ensures s.recentEnrollments <= s.totalUsers
  {
    DisjointFilterCounts(users, IsActive, IsInactive);
    Stats(
      |users|,
      |Filter(users, IsActive)|,
      |Filter(users, IsInactive)|,
      |Filter(users, u => IsRecent(u, now - WeekInMillis, parseDate))|)
  }

  /** Right after a load every user carries status "active": all are counted active, none inactive. */
  lemma LoadedUsersAllActive(raw: seq<User>, now: int, parseDate: string -> Option<int>)
    ensures var users := TransformUsers(raw);
            && ComputeStats(users, now, parseDate).activeUsers == |raw|
            && ComputeStats(users, now, parseDate).inactiveUsers == 0
  {
    var users := TransformUsers(raw);
    FilterKeepsAll(users, IsActive);
    FilterKeepsNone(users, IsInactive);
  }
}
