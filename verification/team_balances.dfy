/**
 * The manager's team balance table: the days a user has used (the inclusive
 * calendar span of each APPROVED request, weekends included), the days that
 * remain, and, for an administrator, the users grouped by department name.
 */
module TeamBalances {
  import opened Common
  import opened Domain
  import opened PropertyOrder

  /** The group label of a user without a (named) department. */
  const NoDepartment: string := "No Department"
  /** The single group label of the non-administrator view. */
  const TeamLabel: string := "Team"
  /** Remaining balances below this many days are shown in red. */
  const LowBalanceDays: int := 5

  /**
   * `Math.ceil((end - start) / msPerDay) + 1` on day numbers: the request's
   * calendar days, both ends included.
   */
  function SpanDays(r: PTORequest): (days: int)
    ensures r.startDate <= r.endDate ==> days >= 1
    ensures days - 1 == r.endDate - r.startDate
  {
    r.endDate - r.startDate + 1
  }

  /** `.filter((request) => request.status === "APPROVED")`. */
  function Approved(reqs: seq<PTORequest>): (r: seq<PTORequest>)
    ensures |r| <= |reqs|
    ensures forall x :: x in r <==> x in reqs && x.status == RequestStatus.APPROVED
  {
    if reqs == [] then []
    else
      var last := reqs[|reqs| - 1];
      Approved(reqs[..|reqs| - 1]) + (if last.status == RequestStatus.APPROVED then [last] else [])
  }

  /** The filter keeps every APPROVED request as often as it occurs, and nothing else. */
  lemma {:induction false} ApprovedCounts(reqs: seq<PTORequest>)
    ensures forall x :: multiset(Approved(reqs))[x] == if x.status == RequestStatus.APPROVED then multiset(reqs)[x] else 0
  {
    if reqs != [] {
      var init, last := reqs[..|reqs| - 1], reqs[|reqs| - 1];
      ApprovedCounts(init);
      assert reqs == init + [last];
      assert multiset(reqs) == multiset(init) + multiset{last};
    }
  }

  /** `.reduce((total, request) => total + days, 0)`, folding from the left. */
  function SumSpans(reqs: seq<PTORequest>): int
  {
    if reqs == [] then 0 else SumSpans(reqs[..|reqs| - 1]) + SpanDays(reqs[|reqs| - 1])
  }

  predicate WellFormedSpans(reqs: seq<PTORequest>)
  {
    forall i :: 0 <= i < |reqs| ==> reqs[i].startDate <= reqs[i].endDate
  }

  /** `calculateUsedPTO`: the summed spans of the APPROVED requests. */
  function CalculateUsedPTO(reqs: seq<PTORequest>): (used: int)
    ensures (forall i :: 0 <= i < |reqs| ==> reqs[i].status != RequestStatus.APPROVED) ==> used == 0
    ensures WellFormedSpans(reqs) ==> used >= |Approved(reqs)|
  {
    NoneApprovedSumsToZero(reqs);
    SpansAtLeastCount(reqs);
    SumSpans(Approved(reqs))
  }

  lemma {:induction false} NoneApprovedSumsToZero(reqs: seq<PTORequest>)
    ensures (forall i :: 0 <= i < |reqs| ==> reqs[i].status != RequestStatus.APPROVED) ==> Approved(reqs) == []
  {
    if reqs != [] {
      NoneApprovedSumsToZero(reqs[..|reqs| - 1]);
    }
  }

  lemma {:induction false} SpansAtLeastCount(reqs: seq<PTORequest>)
    ensures WellFormedSpans(reqs) ==> SumSpans(Approved(reqs)) >= |Approved(reqs)|
  {
    if WellFormedSpans(reqs) {
      var a := Approved(reqs);
      forall i | 0 <= i < |a|
        ensures a[i].startDate <= a[i].endDate
      {
        assert a[i] in reqs;
      }
      SumOfPositiveSpans(a);
    }
  }

  lemma {:induction false} SumOfPositiveSpans(reqs: seq<PTORequest>)
    requires WellFormedSpans(reqs)
    ensures SumSpans(reqs) >= |reqs|
  {
    if reqs != [] {
      SumOfPositiveSpans(reqs[..|reqs| - 1]);
    }
  }

  /** Appending one request adds its span exactly when it is APPROVED. */
  lemma UsedPTOSnoc(reqs: seq<PTORequest>, x: PTORequest)
    ensures CalculateUsedPTO(reqs + [x]) ==
            CalculateUsedPTO(reqs) + (if x.status == RequestStatus.APPROVED then SpanDays(x) else 0)
  {
    assert (reqs + [x])[..|reqs|] == reqs;
    var a := Approved(reqs);
    if x.status == RequestStatus.APPROVED {
      assert Approved(reqs + [x]) == a + [x];
      assert (a + [x])[..|a|] == a;
    } else {
      assert Approved(reqs + [x]) == a;
    }
  }

  lemma {:induction false} ApprovedAppend(a: seq<PTORequest>, b: seq<PTORequest>)
    ensures Approved(a + b) == Approved(a) + Approved(b)
  {
    if b == [] {
      assert a + b == a;
    } else {
      var init, last := b[..|b| - 1], b[|b| - 1];
      var tail := if last.status == RequestStatus.APPROVED then [last] else [];
      assert (a + b)[..|a + b| - 1] == a + init;
      assert Approved(a + b) == Approved(a + init) + tail;
      assert Approved(b) == Approved(init) + tail;
      ApprovedAppend(a, init);
    }
  }

  lemma {:induction false} SumSpansAppend(a: seq<PTORequest>, b: seq<PTORequest>)
    ensures SumSpans(a + b) == SumSpans(a) + SumSpans(b)
  {
    if b == [] {
      assert a + b == a;
    } else {
      assert (a + b)[..|a + b| - 1] == a + b[..|b| - 1];
      SumSpansAppend(a, b[..|b| - 1]);
    }
  }

  /** Used days add up over a concatenation of request lists. */
  lemma UsedPTOAppend(a: seq<PTORequest>, b: seq<PTORequest>)
    ensures CalculateUsedPTO(a + b) == CalculateUsedPTO(a) + CalculateUsedPTO(b)
  {
    ApprovedAppend(a, b);
    SumSpansAppend(Approved(a), Approved(b));
  }

  /**
   * Deciding one request: approving a PENDING request adds exactly its span
   * to the used days; denying it leaves them as they were.
   */
  lemma DecisionChangesUsedBySpan(reqs: seq<PTORequest>, i: nat, status: RequestStatus)
    requires i < |reqs| && reqs[i].status == RequestStatus.PENDING
    ensures CalculateUsedPTO(reqs[i := reqs[i].(status := status)]) ==
            CalculateUsedPTO(reqs) + (if status == RequestStatus.APPROVED then SpanDays(reqs[i]) else 0)
  {
    var x := reqs[i];
    var y := x.(status := status);
    assert reqs == reqs[..i] + [x] + reqs[i + 1..];
    assert reqs[i := y] == reqs[..i] + [y] + reqs[i + 1..];
    UsedPTOAppend(reqs[..i] + [x], reqs[i + 1..]);
    UsedPTOAppend(reqs[..i] + [y], reqs[i + 1..]);
    UsedPTOSnoc(reqs[..i], x);
    UsedPTOSnoc(reqs[..i], y);
  }

  /** `user.ptoBalance - usedDays`: what is left of the balance. */
  function RemainingDays(u: UserWithRequests): (remaining: int)
    ensures remaining + CalculateUsedPTO(u.ptoRequests) == u.user.ptoBalance
    ensures WellFormedSpans(u.ptoRequests) ==> remaining <= u.user.ptoBalance - |Approved(u.ptoRequests)|
  {
    u.user.ptoBalance - CalculateUsedPTO(u.ptoRequests)
  }

  /** The red marking of the remaining column. */
  predicate LowBalance(u: UserWithRequests)
  {
    RemainingDays(u) < LowBalanceDays
  }

  /** Approving a well-formed PENDING request never clears the red marking. */
  lemma ApprovalKeepsLowBalance(u: UserWithRequests, i: nat)
    requires i < |u.ptoRequests| && u.ptoRequests[i].status == RequestStatus.PENDING
    requires u.ptoRequests[i].startDate <= u.ptoRequests[i].endDate
    requires LowBalance(u)
    ensures var reqs := u.ptoRequests;
            LowBalance(u.(ptoRequests := reqs[i := reqs[i].(status := RequestStatus.APPROVED)]))
  {
    DecisionChangesUsedBySpan(u.ptoRequests, i, RequestStatus.APPROVED);
  }

  /** `user.department?.name || "No Department"`. */
  function GroupKey(u: UserWithRequests): (key: string)
    ensures key != ""
    ensures Truthy(u.departmentName) ==> key == u.departmentName.value
    ensures !Truthy(u.departmentName) ==> key == NoDepartment
  {
    OrElse(u.departmentName, NoDepartment)
  }

  /** The users of `users` whose group key is `key`, in input order. */
  function Members(users: seq<UserWithRequests>, key: string): (r: seq<UserWithRequests>)
    ensures |r| <= |users|
    ensures forall u :: u in r <==> u in users && GroupKey(u) == key
  {
    if users == [] then []
    else
      var last := users[|users| - 1];
      Members(users[..|users| - 1], key) + (if GroupKey(last) == key then [last] else [])
  }

  /** A group holds every user with its key as often as it occurs, and nobody else. */
  lemma {:induction false} MembersCounts(users: seq<UserWithRequests>, key: string)
    ensures forall u :: multiset(Members(users, key))[u] == if GroupKey(u) == key then multiset(users)[u] else 0
  {
    if users != [] {
      var init, last := users[..|users| - 1], users[|users| - 1];
      MembersCounts(init, key);
      assert users == init + [last];
      assert multiset(users) == multiset(init) + multiset{last};
    }
  }

  /** The distinct group keys of `users`, in order of first appearance. */
  function Keys(users: seq<UserWithRequests>): seq<string>
  {
    if users == [] then []
    else
      var prefix := Keys(users[..|users| - 1]);
      var key := GroupKey(users[|users| - 1]);
      if key in prefix then prefix else prefix + [key]
  }

  /** Every user's group key is listed. */
  lemma {:induction false} KeysCover(users: seq<UserWithRequests>)
    ensures forall u :: u in users ==> GroupKey(u) in Keys(users)
  {
    if users != [] {
      var init := users[..|users| - 1];
      KeysCover(init);
      assert users == init + [users[|users| - 1]];
    }
  }

  /** Every listed key is some user's group key. */
  lemma {:induction false} KeysSound(users: seq<UserWithRequests>)
    ensures forall k :: k in Keys(users) ==> exists u :: u in users && GroupKey(u) == k
  {
    if users != [] {
      var init := users[..|users| - 1];
      var last := users[|users| - 1];
      KeysSound(init);
      forall k | k in Keys(users)
        ensures exists u :: u in users && GroupKey(u) == k
      {
        if k in Keys(init) {
          var w :| w in init && GroupKey(w) == k;
          assert w in users;
        } else {
          assert GroupKey(last) == k;
        }
      }
    }
  }

  /** No key is listed twice. */
  lemma {:induction false} KeysDistinct(users: seq<UserWithRequests>)
    ensures Distinct(Keys(users))
  {
    if users != [] {
      KeysDistinct(users[..|users| - 1]);
    }
  }

  predicate Distinct(keys: seq<string>)
  {
    forall i, j :: 0 <= i < j < |keys| ==> keys[i] != keys[j]
  }

  /** The groups laid end to end in key order, as the table renders them. */
  function Flatten(keys: seq<string>, groups: map<string, seq<UserWithRequests>>): seq<UserWithRequests>
    requires forall k :: k in keys ==> k in groups
  {
    if keys == [] then [] else Flatten(keys[..|keys| - 1], groups) + groups[keys[|keys| - 1]]
  }

  lemma {:induction false} FlattenIgnoresOtherKeys(keys: seq<string>, groups: map<string, seq<UserWithRequests>>,
                                                   key: string, g: seq<UserWithRequests>)
    requires forall k :: k in keys ==> k in groups
    requires key !in keys
    ensures Flatten(keys, groups[key := g]) == Flatten(keys, groups)
  {
    if keys != [] {
      FlattenIgnoresOtherKeys(keys[..|keys| - 1], groups, key, g);
    }
  }

  lemma {:induction false} FlattenGrowsGroup(keys: seq<string>, groups: map<string, seq<UserWithRequests>>,
                                             key: string, u: UserWithRequests)
    requires forall k :: k in keys ==> k in groups
    requires Distinct(keys) && key in keys
    ensures multiset(Flatten(keys, groups[key := groups[key] + [u]])) == multiset(Flatten(keys, groups)) + multiset{u}
  {
    var init := keys[..|keys| - 1];
    var last := keys[|keys| - 1];
    var grown := groups[key := groups[key] + [u]];
    if last == key {
      assert key !in init;
      FlattenIgnoresOtherKeys(init, groups, key, groups[key] + [u]);
    } else {
      assert key in init;
      FlattenGrowsGroup(init, groups, key, u);
    }
  }

  lemma {:induction false} FlattenAppend(a: seq<string>, b: seq<string>, groups: map<string, seq<UserWithRequests>>)
    requires forall k :: k in a ==> k in groups
    requires forall k :: k in b ==> k in groups
    ensures forall k :: k in a + b ==> k in groups
    ensures Flatten(a + b, groups) == Flatten(a, groups) + Flatten(b, groups)
  {
    if b == [] {
      assert a + b == a;
    } else {
      var init, last := b[..|b| - 1], b[|b| - 1];
      FlattenAppend(a, init, groups);
      assert (a + b)[..|a + b| - 1] == a + init;
      assert (a + b)[|a + b| - 1] == last;
      assert Flatten(a + b, groups) == Flatten(a + init, groups) + groups[last];
      assert Flatten(b, groups) == Flatten(init, groups) + groups[last];
    }
  }

  lemma CancelKey(m: multiset<string>, m': multiset<string>, x: string)
    requires m + multiset{x} == m' + multiset{x}
    ensures m == m'
  {
    assert forall y :: m[y] == (m + multiset{x})[y] - (if y == x then 1 else 0);
    assert forall y :: m'[y] == (m' + multiset{x})[y] - (if y == x then 1 else 0);
  }

  /** Moving one group to the end keeps the users shown. */
  lemma MoveGroupLast(before: seq<string>, x: string, after: seq<string>, groups: map<string, seq<UserWithRequests>>)
    requires forall k :: k in before ==> k in groups
    requires forall k :: k in after ==> k in groups
    requires x in groups
    ensures forall k :: k in before + [x] + after ==> k in groups
    ensures forall k :: k in before + after ==> k in groups
    ensures multiset(Flatten(before + [x] + after, groups)) == multiset(Flatten(before + after, groups) + groups[x])
  {
    FlattenAppend(before, [x], groups);
    FlattenAppend(before + [x], after, groups);
    FlattenAppend(before, after, groups);
    assert [x][..0] == [];
    assert Flatten([x], groups) == groups[x];
  }

  /** Laying the groups out in another order of the same keys shows the same users. */
  lemma {:induction false} FlattenPermutation(ks: seq<string>, ks': seq<string>, groups: map<string, seq<UserWithRequests>>)
    requires forall k :: k in ks ==> k in groups
    requires forall k :: k in ks' ==> k in groups
    requires multiset(ks) == multiset(ks')
    ensures multiset(Flatten(ks, groups)) == multiset(Flatten(ks', groups))
    decreases |ks'|
  {
    if ks' == [] {
      assert |ks| == |multiset(ks)| == 0;
    } else {
      var x, init' := ks'[|ks'| - 1], ks'[..|ks'| - 1];
      assert ks' == init' + [x];
      assert x in multiset(ks);
      var i :| 0 <= i < |ks| && ks[i] == x;
      var before, after := ks[..i], ks[i + 1..];
      assert ks == before + [x] + after;
      assert multiset(ks) == multiset(before + after) + multiset{x};
      CancelKey(multiset(before + after), multiset(init'), x);
      MoveGroupLast(before, x, after, groups);
      FlattenPermutation(before + after, init', groups);
    }
  }

  /**
   * The table rows in the order the page renders them: the groups in the
   * order `Object.entries` lists the object's keys, each group's users in
   * their order. They are the same users as in creation order, and, when no
   * group name is an array index, in the same order.
   */
  function RenderedRows(keys: seq<string>, groups: map<string, seq<UserWithRequests>>): (rows: seq<UserWithRequests>)
    requires forall k :: k in keys ==> k in groups
    ensures multiset(rows) == multiset(Flatten(keys, groups))
    ensures (forall i :: 0 <= i < |keys| ==> !IsArrayIndex(keys[i])) ==> rows == Flatten(keys, groups)
  {
    var order := EntriesOrder(keys);
    assert forall k :: k in order ==> k in multiset(keys);
    FlattenPermutation(keys, order, groups);
    assert (forall i :: 0 <= i < |keys| ==> !IsArrayIndex(keys[i])) ==> order == keys by {
      if forall i :: 0 <= i < |keys| ==> !IsArrayIndex(keys[i]) {
        NoIndicesKeepCreationOrder(keys);
      }
    }
    Flatten(order, groups)
  }

  /** What the grouping loop has built after reading a prefix of the users. */
  ghost predicate GroupsOf(users: seq<UserWithRequests>, keys: seq<string>, groups: map<string, seq<UserWithRequests>>)
  {
    && keys == Keys(users)
    && (forall k :: k in groups <==> k in keys)
    && (forall k :: k in groups ==> groups[k] == Members(users, k))
  }

  lemma GroupsOfEmpty()
    ensures GroupsOf([], [], map[])
  {
  }

  lemma {:induction false} MembersOfAbsentKey(users: seq<UserWithRequests>, key: string)
    requires forall u :: u in users ==> GroupKey(u) != key
    ensures Members(users, key) == []
  {
    if users != [] {
      var init := users[..|users| - 1];
      assert forall u :: u in init ==> u in users;
      MembersOfAbsentKey(init, key);
    }
  }

  lemma KeysSnoc(users: seq<UserWithRequests>, u: UserWithRequests)
    ensures Keys(users + [u]) ==
            if GroupKey(u) in Keys(users) then Keys(users) else Keys(users) + [GroupKey(u)]
  {
    assert (users + [u])[..|users|] == users;
  }

  lemma MembersSnoc(users: seq<UserWithRequests>, u: UserWithRequests, k: string)
    ensures Members(users + [u], k) == Members(users, k) + (if GroupKey(u) == k then [u] else [])
  {
    assert (users + [u])[..|users|] == users;
  }

  /** Opening a group for a key not yet listed adds exactly that user to the laid-out groups. */
  lemma FlattenOpensGroup(keys: seq<string>, groups: map<string, seq<UserWithRequests>>,
                          key: string, u: UserWithRequests)
    requires forall k :: k in keys ==> k in groups
    requires key !in keys
    ensures multiset(Flatten(keys + [key], groups[key := [u]])) == multiset(Flatten(keys, groups)) + multiset{u}
  {
    var keys', groups' := keys + [key], groups[key := [u]];
    FlattenIgnoresOtherKeys(keys, groups, key, [u]);
    assert keys'[..|keys'| - 1] == keys;
    assert Flatten(keys', groups') == Flatten(keys, groups') + [u];
  }

  /** The members of a key no earlier user has are the new user alone, or nobody. */
  lemma MembersAfterNewKey(users: seq<UserWithRequests>, u: UserWithRequests, k: string)
    requires GroupKey(u) !in Keys(users)
    ensures Members(users + [u], k) == if k == GroupKey(u) then [u] else Members(users, k)
  {
    MembersSnoc(users, u, k);
    if k == GroupKey(u) {
      KeysCover(users);
      MembersOfAbsentKey(users, k);
    }
  }

  /** The loop step that opens a new group keeps `GroupsOf` and the multiset of the laid-out groups. */
  lemma GroupStepNew(users: seq<UserWithRequests>, keys: seq<string>, groups: map<string, seq<UserWithRequests>>,
                     u: UserWithRequests)
    requires GroupsOf(users, keys, groups) && GroupKey(u) !in groups
    requires multiset(Flatten(keys, groups)) == multiset(users)
    ensures GroupsOf(users + [u], keys + [GroupKey(u)], groups[GroupKey(u) := [u]])
    ensures multiset(Flatten(keys + [GroupKey(u)], groups[GroupKey(u) := [u]])) == multiset(users + [u])
  {
    GroupsOfNew(users, keys, groups, u);
    FlattenOpensGroup(keys, groups, GroupKey(u), u);
  }

  lemma GroupsOfNew(users: seq<UserWithRequests>, keys: seq<string>, groups: map<string, seq<UserWithRequests>>,
                    u: UserWithRequests)
    requires GroupsOf(users, keys, groups) && GroupKey(u) !in groups
    ensures GroupsOf(users + [u], keys + [GroupKey(u)], groups[GroupKey(u) := [u]])
  {
    var key := GroupKey(u);
    var groups' := groups[key := [u]];
    KeysSnoc(users, u);
    forall k | k in groups'
      ensures groups'[k] == Members(users + [u], k)
    {
      MembersAfterNewKey(users, u, k);
    }
  }

  /** The loop step that grows an existing group keeps `GroupsOf` and the multiset of the laid-out groups. */
  lemma GroupStepOld(users: seq<UserWithRequests>, keys: seq<string>, groups: map<string, seq<UserWithRequests>>,
                     u: UserWithRequests)
    requires GroupsOf(users, keys, groups) && GroupKey(u) in groups
    requires multiset(Flatten(keys, groups)) == multiset(users)
    ensures GroupsOf(users + [u], keys, groups[GroupKey(u) := groups[GroupKey(u)] + [u]])
    ensures multiset(Flatten(keys, groups[GroupKey(u) := groups[GroupKey(u)] + [u]])) == multiset(users + [u])
  {
    GroupsOfOld(users, keys, groups, u);
    KeysDistinct(users);
    FlattenGrowsGroup(keys, groups, GroupKey(u), u);
  }

  lemma GroupsOfOld(users: seq<UserWithRequests>, keys: seq<string>, groups: map<string, seq<UserWithRequests>>,
                    u: UserWithRequests)
    requires GroupsOf(users, keys, groups) && GroupKey(u) in groups
    ensures GroupsOf(users + [u], keys, groups[GroupKey(u) := groups[GroupKey(u)] + [u]])
  {
    var key := GroupKey(u);
    var groups' := groups[key := groups[key] + [u]];
    KeysSnoc(users, u);
    forall k | k in groups'
      ensures groups'[k] == Members(users + [u], k)
    {
      MembersSnoc(users, u, k);
    }
  }

  lemma PrefixSnoc(users: seq<UserWithRequests>, i: nat)
    requires i < |users|
    ensures users[..i + 1] == users[..i] + [users[i]]
  {
  }

  /** The loop step at index `i`, in terms of the prefixes the loop invariant names. */
  lemma GroupStepAt(users: seq<UserWithRequests>, i: nat, keys: seq<string>, groups: map<string, seq<UserWithRequests>>)
    requires i < |users|
    requires GroupsOf(users[..i], keys, groups)
    requires multiset(Flatten(keys, groups)) == multiset(users[..i])
    ensures GroupKey(users[i]) !in groups ==>
              var keys', groups' := keys + [GroupKey(users[i])], groups[GroupKey(users[i]) := [users[i]]];
              GroupsOf(users[..i + 1], keys', groups') && multiset(Flatten(keys', groups')) == multiset(users[..i + 1])
    ensures GroupKey(users[i]) in groups ==>
              var groups' := groups[GroupKey(users[i]) := groups[GroupKey(users[i])] + [users[i]]];
              GroupsOf(users[..i + 1], keys, groups') && multiset(Flatten(keys, groups')) == multiset(users[..i + 1])
  {
    PrefixSnoc(users, i);
    if GroupKey(users[i]) in groups {
      GroupStepOld(users[..i], keys, groups, users[i]);
    } else {
      GroupStepNew(users[..i], keys, groups, users[i]);
    }
  }

  /**
   * `groupedUsers` for an administrator: one pass over the users, appending
   * each to the group of its department name and opening a group at the
   * first user of a new name. `keys` is the order in which the object's
   * properties were created; the page lists them through `Object.entries`,
   * which moves names that are array indices to the front (`RenderedRows`).
   */
  method GroupByDepartment(users: seq<UserWithRequests>)
    returns (keys: seq<string>, groups: map<string, seq<UserWithRequests>>)
    ensures keys == Keys(users) && Distinct(keys)
    ensures forall k :: k in groups <==> k in keys
    ensures forall k :: k in groups ==> groups[k] == Members(users, k)
    ensures forall i :: 0 <= i < |users| ==> GroupKey(users[i]) in groups && users[i] in groups[GroupKey(users[i])]
    ensures multiset(Flatten(keys, groups)) == multiset(users)
  {
    keys := [];
    groups := map[];
    GroupsOfEmpty();
    var i := 0;
    while i < |users|
      invariant 0 <= i <= |users|
      invariant GroupsOf(users[..i], keys, groups)
      invariant multiset(Flatten(keys, groups)) == multiset(users[..i])
    {
      var u := users[i];
      var key := GroupKey(u);
      GroupStepAt(users, i, keys, groups);
      if key !in groups {
        keys := keys + [key];
        groups := groups[key := [u]];
      } else {
        groups := groups[key := groups[key] + [u]];
      }
      i := i + 1;
    }
    assert users[..i] == users;
    KeysDistinct(users);
    KeysCover(users);
    forall j | 0 <= j < |users|
      ensures GroupKey(users[j]) in groups && users[j] in groups[GroupKey(users[j])]
    {
      assert users[j] in users;
    }
  }

  /** `groupedUsers`: grouped by department for an administrator, one "Team" group otherwise. */
  method GroupedUsers(users: seq<UserWithRequests>, isAdmin: bool)
    returns (keys: seq<string>, groups: map<string, seq<UserWithRequests>>)
    ensures !isAdmin ==> keys == [TeamLabel] && groups == map[TeamLabel := users]
    ensures isAdmin ==> keys == Keys(users) && forall k :: k in groups ==> groups[k] == Members(users, k)
    ensures Distinct(keys) && forall k :: k in groups <==> k in keys
    ensures multiset(Flatten(keys, groups)) == multiset(users)
    ensures multiset(RenderedRows(keys, groups)) == multiset(users)
  {
    if isAdmin {
      keys, groups := GroupByDepartment(users);
    } else {
      keys, groups := [TeamLabel], map[TeamLabel := users];
      assert Flatten(keys, groups) == Flatten([], groups) + users;
    }
  }
}
