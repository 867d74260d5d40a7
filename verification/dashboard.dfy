/**
 * The request lifecycle actions of the employee dashboard: creating a
 * request (validation chain, then insert as PENDING), cancelling one's own
 * pending request, and the administrator's unconditional status update.
 *
 * None of these actions touches a balance, and neither decide path looks
 * at the request's current status: the model keeps both as the code has them.
 */
module Dashboard {
  import opened Common
  import opened Domain

  const HoursPerDay: int := 8

  // ----- business days -----

  /** The weekday of a day number, 0 for Sunday through 6 for Saturday (`Date.getDay`). */
  function Weekday(d: int): (w: int)
    ensures 0 <= w < 7
  {
    (d + 4) % 7
  }

  predicate IsBusinessDay(d: int)
  {
    Weekday(d) != 0 && Weekday(d) != 6
  }

  /** The number of days d with start <= d <= end that fall on Monday to Friday. */
  function BusinessDays(start: int, end: int): (n: nat)
    ensures n <= if start <= end then end - start + 1 else 0
    decreases end - start
  {
    if start > end then 0
    else (if IsBusinessDay(start) then 1 else 0) + BusinessDays(start + 1, end)
  }

  /** `getBusinessDays`: walks the days from start to end and counts the weekdays. */
  method GetBusinessDays(start: int, end: int) returns (count: nat)
    ensures count == BusinessDays(start, end)
  {
    count := 0;
    var current := start;
    while current <= end
      invariant count + BusinessDays(current, end) == BusinessDays(start, end)
      decreases end - current
    {
      var dayOfWeek := Weekday(current);
      if dayOfWeek != 0 && dayOfWeek != 6 {
        count := count + 1;
      }
      current := current + 1;
    }
  }

  /** The hours a request over [start, end] costs: eight per business day. */
  function RequiredHours(start: int, end: int): int
  {
    BusinessDays(start, end) * HoursPerDay
  }

  /** Splitting a range at any day adds up. */
  lemma {:induction false} BusinessDaysSplit(a: int, b: int, c: int)
    requires a <= b + 1 && b <= c
    ensures BusinessDays(a, c) == BusinessDays(a, b) + BusinessDays(b + 1, c)
    decreases b - a
  {
    if a <= b {
      BusinessDaysSplit(a + 1, b, c);
    }
  }

  /** The count depends only on the weekdays: shifting a range by a week keeps it. */
  lemma {:induction false} BusinessDaysShiftWeek(a: int, b: int)
    ensures BusinessDays(a + 7, b + 7) == BusinessDays(a, b)
    decreases b - a
  {
    if a <= b {
      assert Weekday(a + 7) == Weekday(a);
      BusinessDaysShiftWeek(a + 1, b);
    }
  }

  /** The day after a Saturday is a Sunday; otherwise the weekday advances by one. */
  lemma WeekdayStep(d: int)
    ensures Weekday(d + 1) == if Weekday(d) == 6 then 0 else Weekday(d) + 1
  {
    var q := (d + 4) / 7;
    assert d + 4 == 7 * q + Weekday(d);
    if Weekday(d) == 6 {
      assert d + 5 == 7 * (q + 1) + 0;
    } else {
      assert d + 5 == 7 * q + (Weekday(d) + 1);
    }
  }

  /** Any seven consecutive days hold exactly five business days. */
  lemma BusinessDaysInAWeek(d: int)
    ensures BusinessDays(d, d + 6) == 5
  {
    WeekdayStep(d); WeekdayStep(d + 1); WeekdayStep(d + 2);
    WeekdayStep(d + 3); WeekdayStep(d + 4); WeekdayStep(d + 5);
    assert BusinessDays(d + 6, d + 6) == (if IsBusinessDay(d + 6) then 1 else 0);
    assert BusinessDays(d + 5, d + 6) == (if IsBusinessDay(d + 5) then 1 else 0) + BusinessDays(d + 6, d + 6);
    assert BusinessDays(d + 4, d + 6) == (if IsBusinessDay(d + 4) then 1 else 0) + BusinessDays(d + 5, d + 6);
    assert BusinessDays(d + 3, d + 6) == (if IsBusinessDay(d + 3) then 1 else 0) + BusinessDays(d + 4, d + 6);
    assert BusinessDays(d + 2, d + 6) == (if IsBusinessDay(d + 2) then 1 else 0) + BusinessDays(d + 3, d + 6);
    assert BusinessDays(d + 1, d + 6) == (if IsBusinessDay(d + 1) then 1 else 0) + BusinessDays(d + 2, d + 6);
    assert BusinessDays(d, d + 6) == (if IsBusinessDay(d) then 1 else 0) + BusinessDays(d + 1, d + 6);
  }

  /** k whole weeks hold 5k business days. */
  lemma {:induction false} BusinessDaysInWeeks(d: int, k: nat)
    ensures BusinessDays(d, d + 7 * k - 1) == 5 * k
    decreases k
  {
    if k > 0 {
      BusinessDaysInWeeks(d, k - 1);
      BusinessDaysInAWeek(d + 7 * (k - 1));
      if k > 1 {
        BusinessDaysSplit(d, d + 7 * (k - 1) - 1, d + 7 * k - 1);
      }
    }
  }

  /** Monday to Friday of one week costs five days; the weekend alone costs none;
      Friday to the following Monday costs two. */
  lemma BusinessDaysExamples(d: int)
    ensures Weekday(d) == 1 ==> BusinessDays(d, d + 4) == 5
    ensures Weekday(d) == 6 ==> BusinessDays(d, d + 1) == 0
    ensures Weekday(d) == 5 ==> BusinessDays(d, d + 3) == 2
  {
    WeekdayStep(d); WeekdayStep(d + 1); WeekdayStep(d + 2); WeekdayStep(d + 3);
    assert BusinessDays(d + 4, d + 4) == (if IsBusinessDay(d + 4) then 1 else 0);
    assert BusinessDays(d + 3, d + 4) == (if IsBusinessDay(d + 3) then 1 else 0) + BusinessDays(d + 4, d + 4);
    assert BusinessDays(d + 2, d + 4) == (if IsBusinessDay(d + 2) then 1 else 0) + BusinessDays(d + 3, d + 4);
    assert BusinessDays(d + 1, d + 4) == (if IsBusinessDay(d + 1) then 1 else 0) + BusinessDays(d + 2, d + 4);
    assert BusinessDays(d + 3, d + 3) == (if IsBusinessDay(d + 3) then 1 else 0);
    assert BusinessDays(d + 2, d + 3) == (if IsBusinessDay(d + 2) then 1 else 0) + BusinessDays(d + 3, d + 3);
    assert BusinessDays(d + 1, d + 3) == (if IsBusinessDay(d + 1) then 1 else 0) + BusinessDays(d + 2, d + 3);
    assert BusinessDays(d + 1, d + 1) == (if IsBusinessDay(d + 1) then 1 else 0);
  }

  // ----- createPTORequest -----

  datatype CreateError =
    | InvalidRange
    | PastDate
    | UserNotFound
    | InsufficientBalance(hours: int, available: int)

  function CreateErrorMessage(e: CreateError): string
  {
    match e
    case InvalidRange => "Start date must be before end date"
    case PastDate => "Cannot create PTO request for past dates"
    case UserNotFound => "User not found"
    case InsufficientBalance(hours, available) =>
      "Not enough PTO balance. Request needs " + IntToString(hours) + " hours, but only "
      + IntToString(available) + " hours available."
  }

  /**
   * The validation chain of `createPTORequest`, in the order the code runs it:
   * range, past start, user lookup, balance. The start date is midnight UTC
   * of its day and is compared with the current instant `now`.
   */
  function CreateCheck(users: map<UserId, User>, userId: UserId, start: int, end: int, now: int)
    : (r: Outcome<CreateError>)
    ensures start > end ==> r == Fail(InvalidRange)
    ensures start <= end && start * MsPerDay < now ==> r == Fail(PastDate)
    ensures start <= end && now <= start * MsPerDay && userId !in users ==> r == Fail(UserNotFound)
    ensures start <= end && now <= start * MsPerDay && userId in users && users[userId].ptoBalance < RequiredHours(start, end)
            ==> r == Fail(InsufficientBalance(RequiredHours(start, end), users[userId].ptoBalance))
    ensures r.Fail? && r.error.InsufficientBalance? ==>
              userId in users && r.error.available == users[userId].ptoBalance
              && r.error.hours == RequiredHours(start, end) && r.error.available < r.error.hours
    ensures r.Pass? <==>
              start <= end && now <= start * MsPerDay && userId in users
              && RequiredHours(start, end) <= users[userId].ptoBalance
  {
    if start > end then Fail(InvalidRange)
    else if start * MsPerDay < now then Fail(PastDate)
    else if userId !in users then Fail(UserNotFound)
    else if users[userId].ptoBalance < RequiredHours(start, end) then
      Fail(InsufficientBalance(RequiredHours(start, end), users[userId].ptoBalance))
    else Pass
  }

  /** A cost equal to the balance is accepted: the check is `balance < hours`, not `<=`. */
  lemma ExactBalanceAccepted(users: map<UserId, User>, userId: UserId, start: int, end: int, now: int)
    requires start <= end && now <= start * MsPerDay
    requires userId in users && users[userId].ptoBalance == RequiredHours(start, end)
    ensures CreateCheck(users, userId, start, end, now) == Pass
  {
  }

  /** A request starting on the current day is refused once that day's midnight has passed. */
  lemma SameDayRequestRefused(users: map<UserId, User>, userId: UserId, today: int, end: int, now: int)
    requires today <= end
    requires today * MsPerDay < now < (today + 1) * MsPerDay
    ensures CreateCheck(users, userId, today, end, now) == Fail(PastDate)
  {
  }

  /** A week from Monday to Friday against a balance of 40 hours is accepted. */
  lemma FullWeekAgainstFortyHours(users: map<UserId, User>, userId: UserId, monday: int, now: int)
    requires Weekday(monday) == 1 && now <= monday * MsPerDay
    requires userId in users && users[userId].ptoBalance == 40
    ensures CreateCheck(users, userId, monday, monday + 4, now) == Pass
  {
    BusinessDaysExamples(monday);
  }

  /** `createPTORequest`: run the validation chain, then insert one PENDING request. */
  method CreatePTORequest(db: Store, userId: UserId, start: int, end: int, notes: Option<string>,
                          now: int, newId: RequestId)
    returns (r: Outcome<CreateError>)
    requires db.Valid() && newId !in db.requests
    modifies db
    ensures db.Valid()
    ensures r == CreateCheck(old(db.users), userId, start, end, now)
    ensures db.users == old(db.users) && db.departments == old(db.departments)
    ensures r.Pass? ==>
              db.requests == old(db.requests)[newId := PTORequest(newId, userId, start, end, RequestStatus.PENDING, notes)]
    ensures r.Fail? ==> db.requests == old(db.requests)
  {
    if start > end {
      return Fail(InvalidRange);
    }
    if start * MsPerDay < now {
      return Fail(PastDate);
    }
    var days := GetBusinessDays(start, end);
    var hours := days * HoursPerDay;
    if userId !in db.users {
      return Fail(UserNotFound);
    }
    var user := db.users[userId];
    if user.ptoBalance < hours {
      return Fail(InsufficientBalance(hours, user.ptoBalance));
    }
    db.requests := db.requests[newId := PTORequest(newId, userId, start, end, RequestStatus.PENDING, notes)];
    r := Pass;
  }

  // ----- cancelPTORequest -----

  datatype CancelError = RequestNotFound | NotOwner | NotPending

  function CancelErrorMessage(e: CancelError): string
  {
    match e
    case RequestNotFound => "Request not found"
    case NotOwner => "Not authorized to cancel this request"
    case NotPending => "Can only cancel pending requests"
  }

  /** The checks of `cancelPTORequest`, in order: existence, ownership, PENDING. */
  function CancelCheck(requests: map<RequestId, PTORequest>, requestId: RequestId, userId: UserId)
    : (r: Outcome<CancelError>)
    ensures requestId !in requests ==> r == Fail(RequestNotFound)
    ensures requestId in requests && requests[requestId].userId != userId ==> r == Fail(NotOwner)
    ensures (requestId in requests && requests[requestId].userId == userId &&
             requests[requestId].status != RequestStatus.PENDING) ==> r == Fail(NotPending)
    ensures r.Pass? <==>
              requestId in requests && requests[requestId].userId == userId
              && requests[requestId].status == RequestStatus.PENDING
  {
    if requestId !in requests then Fail(RequestNotFound)
    else if requests[requestId].userId != userId then Fail(NotOwner)
    else if requests[requestId].status != RequestStatus.PENDING then Fail(NotPending)
    else Pass
  }

  /** `cancelPTORequest`: an owner's PENDING request becomes DENIED; nothing else changes. */
  method CancelPTORequest(db: Store, requestId: RequestId, userId: UserId) returns (r: Outcome<CancelError>)
    requires db.Valid()
    modifies db
    ensures db.Valid()
    ensures r == CancelCheck(old(db.requests), requestId, userId)
    ensures db.users == old(db.users) && db.departments == old(db.departments)
    ensures r.Pass? ==> db.requests == SetRequestStatus(old(db.requests), requestId, RequestStatus.DENIED)
    ensures r.Fail? ==> db.requests == old(db.requests)
  {
    if requestId !in db.requests {
      return Fail(RequestNotFound);
    }
    var request := db.requests[requestId];
    if request.userId != userId {
      return Fail(NotOwner);
    }
    if request.status != RequestStatus.PENDING {
      return Fail(NotPending);
    }
    SetStatusKeepsInvariants(db.users, db.requests, requestId, RequestStatus.DENIED);
    db.requests := SetRequestStatus(db.requests, requestId, RequestStatus.DENIED);
    r := Pass;
  }

  // ----- updatePTORequestStatus (the administrator's decide path) -----

  datatype UpdateError = UpdateRequestNotFound

  /**
   * `updatePTORequestStatus`: any existing request takes the given status,
   * whatever its current one; no balance is debited or credited.
   */
  method UpdatePTORequestStatus(db: Store, requestId: RequestId, status: RequestStatus)
    returns (r: Outcome<UpdateError>)
    requires db.Valid()
    requires status == RequestStatus.APPROVED || status == RequestStatus.DENIED
    modifies db
    ensures db.Valid()
    ensures r.Fail? <==> requestId !in old(db.requests)
    ensures db.users == old(db.users) && db.departments == old(db.departments)
    ensures r.Pass? ==> db.requests == SetRequestStatus(old(db.requests), requestId, status)
    ensures r.Fail? ==> db.requests == old(db.requests)
  {
    if requestId !in db.requests {
      return Fail(UpdateRequestNotFound);
    }
    SetStatusKeepsInvariants(db.users, db.requests, requestId, status);
    db.requests := SetRequestStatus(db.requests, requestId, status);
    r := Pass;
  }

  /** Deciding twice with the same status is the same as deciding once: no second effect exists to guard. */
  lemma DecideTwiceSameAsOnce(requests: map<RequestId, PTORequest>, id: RequestId, status: RequestStatus)
    requires id in requests
    ensures SetRequestStatus(SetRequestStatus(requests, id, status), id, status)
         == SetRequestStatus(requests, id, status)
  {
  }
}
