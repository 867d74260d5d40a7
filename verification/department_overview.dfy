/**
 * The approver's department overview: per department, the head count, the
 * summed balances, the days taken by APPROVED requests, and the number of
 * requests in each status, gathered in one pass over the department's users
 * and their requests; a row is marked when the days left fall below five per
 * employee.
 */
module DepartmentOverview {
  import opened Domain
  import opened TeamBalances

  datatype DepartmentWithUsers = DepartmentWithUsers(department: Department, users: seq<UserWithRequests>)

  datatype DepartmentStats = DepartmentStats(
    totalEmployees: nat,
    totalPTODays: int,
    usedPTODays: int,
    pendingRequests: nat,
    approvedRequests: nat,
    deniedRequests: nat)

  /** Per employee, the days a department should have left before its row is marked. */
  const ReserveDaysPerEmployee: int := 5

  /** The summed balances of `users`. */
  function TotalBalance(users: seq<UserWithRequests>): int
  {
    if users == [] then 0 else TotalBalance(users[..|users| - 1]) + users[|users| - 1].user.ptoBalance
  }

  /** The summed used days of `users`, each counted as the team table counts them. */
  function UsedAcross(users: seq<UserWithRequests>): int
  {
    if users == [] then 0 else UsedAcross(users[..|users| - 1]) + CalculateUsedPTO(users[|users| - 1].ptoRequests)
  }

  /** The number of requests in `reqs` with the given status. */
  function CountStatus(reqs: seq<PTORequest>, status: RequestStatus): (n: nat)
    ensures n <= |reqs|
  {
    if reqs == [] then 0
    else CountStatus(reqs[..|reqs| - 1], status) + (if reqs[|reqs| - 1].status == status then 1 else 0)
  }

  /** The number of requests of `users` with the given status. */
  function CountAcross(users: seq<UserWithRequests>, status: RequestStatus): nat
  {
    if users == [] then 0 else CountAcross(users[..|users| - 1], status) + CountStatus(users[|users| - 1].ptoRequests, status)
  }

  /** The number of requests of `users`. */
  function RequestCount(users: seq<UserWithRequests>): nat
  {
    if users == [] then 0 else RequestCount(users[..|users| - 1]) + |users[|users| - 1].ptoRequests|
  }

  /** Taking one more request into the prefix adds that request to each count. */
  lemma RequestStep(reqs: seq<PTORequest>, j: nat)
    requires j < |reqs|
    ensures CalculateUsedPTO(reqs[..j + 1]) ==
            CalculateUsedPTO(reqs[..j]) + (if reqs[j].status == RequestStatus.APPROVED then SpanDays(reqs[j]) else 0)
    ensures forall st :: CountStatus(reqs[..j + 1], st) == CountStatus(reqs[..j], st) + (if reqs[j].status == st then 1 else 0)
  {
    assert reqs[..j + 1] == reqs[..j] + [reqs[j]];
    assert reqs[..j + 1][..j] == reqs[..j];
    UsedPTOSnoc(reqs[..j], reqs[j]);
  }

  /** Taking one more user into the prefix adds that user's totals to each sum. */
  lemma UserStep(users: seq<UserWithRequests>, i: nat)
    requires i < |users|
    ensures TotalBalance(users[..i + 1]) == TotalBalance(users[..i]) + users[i].user.ptoBalance
    ensures UsedAcross(users[..i + 1]) == UsedAcross(users[..i]) + CalculateUsedPTO(users[i].ptoRequests)
    ensures forall st :: CountAcross(users[..i + 1], st) == CountAcross(users[..i], st) + CountStatus(users[i].ptoRequests, st)
  {
    assert users[..i + 1][..i] == users[..i];
  }

  /**
   * `calculateDepartmentStats`: the counters start at zero; for every user the
   * balance is added, and for every one of its requests an APPROVED request
   * adds its calendar span to the used days and one to the approved count,
   * a PENDING or DENIED one adds one to its own count.
   */
  method CalculateDepartmentStats(dept: DepartmentWithUsers) returns (stats: DepartmentStats)
    ensures stats.totalEmployees == |dept.users|
    ensures stats.totalPTODays == TotalBalance(dept.users)
    ensures stats.usedPTODays == UsedAcross(dept.users)
    ensures stats.pendingRequests == CountAcross(dept.users, RequestStatus.PENDING)
    ensures stats.approvedRequests == CountAcross(dept.users, RequestStatus.APPROVED)
    ensures stats.deniedRequests == CountAcross(dept.users, RequestStatus.DENIED)
  {
    var users := dept.users;
    var totalPTODays, usedPTODays := 0, 0;
    var pendingRequests, approvedRequests, deniedRequests := 0, 0, 0;
    var i := 0;
    while i < |users|
      invariant 0 <= i <= |users|
      invariant totalPTODays == TotalBalance(users[..i])
      invariant usedPTODays == UsedAcross(users[..i])
      invariant pendingRequests == CountAcross(users[..i], RequestStatus.PENDING)
      invariant approvedRequests == CountAcross(users[..i], RequestStatus.APPROVED)
      invariant deniedRequests == CountAcross(users[..i], RequestStatus.DENIED)
    {
      var user := users[i];
      UserStep(users, i);
      totalPTODays := totalPTODays + user.user.ptoBalance;
      var reqs := user.ptoRequests;
      var usedBefore, pendingBefore, approvedBefore, deniedBefore := usedPTODays, pendingRequests, approvedRequests, deniedRequests;
      var j := 0;
      while j < |reqs|
        invariant 0 <= j <= |reqs|
        invariant usedPTODays == usedBefore + CalculateUsedPTO(reqs[..j])
        invariant pendingRequests == pendingBefore + CountStatus(reqs[..j], RequestStatus.PENDING)
        invariant approvedRequests == approvedBefore + CountStatus(reqs[..j], RequestStatus.APPROVED)
        invariant deniedRequests == deniedBefore + CountStatus(reqs[..j], RequestStatus.DENIED)
      {
        var request := reqs[j];
        RequestStep(reqs, j);
        if request.status == RequestStatus.APPROVED {
          var days := SpanDays(request);
          usedPTODays := usedPTODays + days;
          approvedRequests := approvedRequests + 1;
        } else if request.status == RequestStatus.PENDING {
          pendingRequests := pendingRequests + 1;
        } else if request.status == RequestStatus.DENIED {
          deniedRequests := deniedRequests + 1;
        }
        j := j + 1;
      }
      assert reqs[..j] == reqs;
      i := i + 1;
    }
    assert users[..i] == users;
    stats := DepartmentStats(|users|, totalPTODays, usedPTODays, pendingRequests, approvedRequests, deniedRequests);
  }

  /** Every request has exactly one of the three statuses. */
  lemma {:induction false} StatusesPartitionRequests(reqs: seq<PTORequest>)
    ensures CountStatus(reqs, RequestStatus.PENDING) + CountStatus(reqs, RequestStatus.APPROVED)
            + CountStatus(reqs, RequestStatus.DENIED) == |reqs|
  {
    if reqs != [] {
      StatusesPartitionRequests(reqs[..|reqs| - 1]);
    }
  }

  /** pending + approved + denied is the department's number of requests. */
  lemma {:induction false} CountsPartitionRequests(users: seq<UserWithRequests>)
    ensures CountAcross(users, RequestStatus.PENDING) + CountAcross(users, RequestStatus.APPROVED)
            + CountAcross(users, RequestStatus.DENIED) == RequestCount(users)
  {
    if users != [] {
      CountsPartitionRequests(users[..|users| - 1]);
      StatusesPartitionRequests(users[|users| - 1].ptoRequests);
    }
  }

  /** With well-formed spans, every approved request accounts for at least one used day. */
  lemma {:induction false} UsedAtLeastApprovedCount(reqs: seq<PTORequest>)
    requires WellFormedSpans(reqs)
    ensures CalculateUsedPTO(reqs) >= CountStatus(reqs, RequestStatus.APPROVED)
  {
    if reqs != [] {
      var init := reqs[..|reqs| - 1];
      assert reqs == init + [reqs[|reqs| - 1]];
      UsedAtLeastApprovedCount(init);
      UsedPTOSnoc(init, reqs[|reqs| - 1]);
    }
  }

  predicate AllSpansWellFormed(users: seq<UserWithRequests>)
  {
    forall i :: 0 <= i < |users| ==> WellFormedSpans(users[i].ptoRequests)
  }

  /** The department's used days are at least its number of approved requests. */
  lemma {:induction false} UsedDaysAtLeastApproved(users: seq<UserWithRequests>)
    requires AllSpansWellFormed(users)
    ensures UsedAcross(users) >= CountAcross(users, RequestStatus.APPROVED)
  {
    if users != [] {
      UsedDaysAtLeastApproved(users[..|users| - 1]);
      UsedAtLeastApprovedCount(users[|users| - 1].ptoRequests);
    }
  }

  /**
   * The counters never decrease as users are added: a prefix of the users
   * gives counters no larger than the whole list (balances non-negative,
   * spans well-formed).
   */
  lemma {:induction false} CountersGrowWithUsers(users: seq<UserWithRequests>, i: nat)
    requires i <= |users|
    requires forall k :: 0 <= k < |users| ==> users[k].user.ptoBalance >= 0
    requires AllSpansWellFormed(users)
    ensures TotalBalance(users[..i]) <= TotalBalance(users)
    ensures UsedAcross(users[..i]) <= UsedAcross(users)
    ensures forall st :: CountAcross(users[..i], st) <= CountAcross(users, st)
    decreases |users|
  {
    if i < |users| {
      var init := users[..|users| - 1];
      assert users[..i] == init[..i];
      CountersGrowWithUsers(init, i);
      UsedAtLeastApprovedCount(users[|users| - 1].ptoRequests);
    } else {
      assert users[..i] == users;
    }
  }

  /** `remainingDays < stats.totalEmployees * 5`: the row's amber marking. */
  predicate Marked(stats: DepartmentStats)
  {
    stats.totalPTODays - stats.usedPTODays < stats.totalEmployees * ReserveDaysPerEmployee
  }

  /** The days left across a department are the users' remaining days summed. */
  lemma {:induction false} DepartmentRemainingIsSum(users: seq<UserWithRequests>)
    ensures TotalBalance(users) - UsedAcross(users) ==
            (if users == [] then 0
             else (TotalBalance(users[..|users| - 1]) - UsedAcross(users[..|users| - 1])) + RemainingDays(users[|users| - 1]))
  {
  }

  /**
   * The department marking is an average: when no member is marked low in
   * the team table (five days or more left each), the department row is not
   * marked either.
   */
  lemma {:induction false} NoLowMemberNoMark(users: seq<UserWithRequests>)
    requires forall k :: 0 <= k < |users| ==> !LowBalance(users[k])
    ensures TotalBalance(users) - UsedAcross(users) >= |users| * ReserveDaysPerEmployee
  {
    if users != [] {
      var init := users[..|users| - 1];
      NoLowMemberNoMark(init);
      DepartmentRemainingIsSum(users);
      assert !LowBalance(users[|users| - 1]);
    }
  }

  /** The row of a computed overview is unmarked when no member is low. */
  lemma OverviewUnmarkedWithoutLowMembers(dept: DepartmentWithUsers, stats: DepartmentStats)
    requires stats.totalEmployees == |dept.users|
    requires stats.totalPTODays == TotalBalance(dept.users)
    requires stats.usedPTODays == UsedAcross(dept.users)
    requires forall k :: 0 <= k < |dept.users| ==> !LowBalance(dept.users[k])
    ensures !Marked(stats)
  {
    NoLowMemberNoMark(dept.users);
  }
}
