/**
 * The department approver's decide action: a session email, an actor whose
 * role is exactly APPROVER, an existing request, and an owner whose
 * department is one the actor approves for; then one in-place status write.
 * The code throws on each failed check; the model returns the error.
 */
module Approver {
  import opened Common
  import opened Domain

  datatype ApproverError = Unauthorized | ApproverAccessRequired | RequestNotFound | NotApproverForDepartment

  function ApproverErrorMessage(e: ApproverError): string
  {
    match e
    case Unauthorized => "Unauthorized"
    case ApproverAccessRequired => "Unauthorized - Approver access required"
    case RequestNotFound => "Request not found"
    case NotApproverForDepartment => "Unauthorized - Not approver for this department"
  }

  /** The ids of `approver.approvedDepartments`: every department whose approver is `approverId`. */
  function ApprovedDepartments(departments: map<DeptId, Department>, approverId: UserId): set<DeptId>
  {
    set d | d in departments && departments[d].approverId == Some(approverId)
  }

  /** `approvedDepartments.some(dept => dept.id === request.user.department?.id)`. */
  predicate CanApprove(users: map<UserId, User>, departments: map<DeptId, Department>,
                       approverId: UserId, ownerId: UserId)
  {
    ownerId in users && users[ownerId].departmentId.Some? &&
    users[ownerId].departmentId.value in ApprovedDepartments(departments, approverId)
  }

  /** The checks of the approver's `updateRequestStatus`, in the order the code runs them. */
  function ApproverCheck(users: map<UserId, User>, departments: map<DeptId, Department>,
                         requests: map<RequestId, PTORequest>, sessionEmail: Option<string>, requestId: RequestId)
    : (r: Outcome<ApproverError>)
    requires UsersValid(users)
    ensures !Truthy(sessionEmail) ==> r == Fail(Unauthorized)
    ensures Truthy(sessionEmail) &&
            (!EmailTaken(users, sessionEmail.value) || UserByEmail(users, sessionEmail.value).value.role != Role.APPROVER)
            ==> r == Fail(ApproverAccessRequired)
    ensures Truthy(sessionEmail) && EmailTaken(users, sessionEmail.value) ==>
              var actor := UserByEmail(users, sessionEmail.value).value;
              actor.role == Role.APPROVER ==>
                (requestId !in requests ==> r == Fail(RequestNotFound))
                && (requestId in requests &&
                    !(exists d :: d in departments && departments[d].approverId == Some(actor.id) &&
                                  requests[requestId].userId in users &&
                                  users[requests[requestId].userId].departmentId == Some(d))
                    ==> r == Fail(NotApproverForDepartment))
    ensures r.Fail? && r.error == RequestNotFound ==> requestId !in requests
    ensures (requestId in requests && requests[requestId].userId in users &&
             users[requests[requestId].userId].departmentId.None?) ==> r.Fail?
    ensures r.Pass? <==>
              Truthy(sessionEmail) && requestId in requests &&
              exists a :: a in users && users[a].email == sessionEmail.value && users[a].role == Role.APPROVER &&
                          exists d :: d in departments && departments[d].approverId == Some(a) &&
                                      requests[requestId].userId in users &&
                                      users[requests[requestId].userId].departmentId == Some(d)
  {
    if !Truthy(sessionEmail) then Fail(Unauthorized)
    else
      var approver := UserByEmail(users, sessionEmail.value);
      if approver.None? || approver.value.role != Role.APPROVER then Fail(ApproverAccessRequired)
      else if requestId !in requests then Fail(RequestNotFound)
      else if !CanApprove(users, departments, approver.value.id, requests[requestId].userId) then
        Fail(NotApproverForDepartment)
      else Pass
  }

  /** The text the notification carries: the lower-cased status and the approver's wording. */
  function ApproverNotice(status: RequestStatus): (s: string)
    ensures StartsWith(s, "Your PTO request has been ")
    ensures EndsWith(s, " by the department approver.")
  {
    "Your PTO request has been " + ToLower(StatusName(status)) + " by the department approver."
  }

  lemma ApproverNoticeTexts()
    ensures ApproverNotice(RequestStatus.APPROVED) == "Your PTO request has been " + "approved" + " by the department approver."
    ensures ApproverNotice(RequestStatus.DENIED) == "Your PTO request has been " + "denied" + " by the department approver."
  {
    LowerStatusNames();
  }

  /**
   * The approver's `updateRequestStatus`: after the checks pass, only the
   * status of that request changes, whatever it was before.
   */
  method UpdateRequestStatus(db: Store, sessionEmail: Option<string>, requestId: RequestId, status: RequestStatus)
    returns (r: Result<PTORequest, ApproverError>)
    requires db.Valid()
    modifies db
    ensures db.Valid()
    ensures r.Ok? <==> ApproverCheck(old(db.users), old(db.departments), old(db.requests), sessionEmail, requestId).Pass?
    ensures r.Err? ==>
              Fail(r.error) == ApproverCheck(old(db.users), old(db.departments), old(db.requests), sessionEmail, requestId)
    ensures db.users == old(db.users) && db.departments == old(db.departments)
    ensures r.Ok? ==> db.requests == SetRequestStatus(old(db.requests), requestId, status)
                      && r.value == db.requests[requestId]
    ensures r.Err? ==> db.requests == old(db.requests)
  {
    if !Truthy(sessionEmail) {
      return Err(Unauthorized);
    }
    var approver := UserByEmail(db.users, sessionEmail.value);
    if approver.None? || approver.value.role != Role.APPROVER {
      return Err(ApproverAccessRequired);
    }
    if requestId !in db.requests {
      return Err(RequestNotFound);
    }
    var request := db.requests[requestId];
    var canApprove := CanApprove(db.users, db.departments, approver.value.id, request.userId);
    if !canApprove {
      return Err(NotApproverForDepartment);
    }
    SetStatusKeepsInvariants(db.users, db.requests, requestId, status);
    db.requests := SetRequestStatus(db.requests, requestId, status);
    r := Ok(db.requests[requestId]);
  }
}
