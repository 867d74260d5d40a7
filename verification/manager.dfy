/**
 * The manager's decide action: a chain of authorization checks (a session
 * email, an actor whose role is exactly MANAGER, an existing request, an
 * owner among the actor's managed users), then one in-place status write.
 * The code throws on each failed check; the model returns the error.
 */
module Manager {
  import opened Common
  import opened Domain

  datatype ManagerError = Unauthorized | ManagerAccessRequired | RequestNotFound | NotManagerOfUser

  function ManagerErrorMessage(e: ManagerError): string
  {
    match e
    case Unauthorized => "Unauthorized"
    case ManagerAccessRequired => "Unauthorized - Manager access required"
    case RequestNotFound => "Request not found"
    case NotManagerOfUser => "Unauthorized - Not manager of this user"
  }

  /** The ids of `manager.managedUsers`: every user whose manager is `managerId`. */
  function ManagedUsers(users: map<UserId, User>, managerId: UserId): set<UserId>
  {
    set id | id in users && users[id].managerId == Some(managerId)
  }

  /** The checks of the manager's `updateRequestStatus`, in the order the code runs them. */
  function ManagerCheck(users: map<UserId, User>, requests: map<RequestId, PTORequest>,
                        sessionEmail: Option<string>, requestId: RequestId)
    : (r: Outcome<ManagerError>)
    requires UsersValid(users)
    ensures !Truthy(sessionEmail) ==> r == Fail(Unauthorized)
    ensures Truthy(sessionEmail) &&
            (!EmailTaken(users, sessionEmail.value) || UserByEmail(users, sessionEmail.value).value.role != Role.MANAGER)
            ==> r == Fail(ManagerAccessRequired)
    ensures Truthy(sessionEmail) && EmailTaken(users, sessionEmail.value) ==>
              var actor := UserByEmail(users, sessionEmail.value).value;
              actor.role == Role.MANAGER ==>
                (requestId !in requests ==> r == Fail(RequestNotFound))
                && (requestId in requests &&
                    !(requests[requestId].userId in users && users[requests[requestId].userId].managerId == Some(actor.id))
                    ==> r == Fail(NotManagerOfUser))
    ensures r.Fail? && r.error == RequestNotFound ==> requestId !in requests
    ensures r.Pass? <==>
              Truthy(sessionEmail) && requestId in requests &&
              exists m :: m in users && users[m].email == sessionEmail.value && users[m].role == Role.MANAGER &&
                          requests[requestId].userId in ManagedUsers(users, m)
  {
    if !Truthy(sessionEmail) then Fail(Unauthorized)
    else
      var manager := UserByEmail(users, sessionEmail.value);
      if manager.None? || manager.value.role != Role.MANAGER then Fail(ManagerAccessRequired)
      else if requestId !in requests then Fail(RequestNotFound)
      else if requests[requestId].userId !in ManagedUsers(users, manager.value.id) then Fail(NotManagerOfUser)
      else Pass
  }

  /** The text the notification carries: the lower-cased status and the manager's wording. */
  function ManagerNotice(status: RequestStatus): (s: string)
    ensures StartsWith(s, "Your PTO request has been ")
    ensures EndsWith(s, " by your manager.")
  {
    "Your PTO request has been " + ToLower(StatusName(status)) + " by your manager."
  }

  lemma ManagerNoticeTexts()
    ensures ManagerNotice(RequestStatus.APPROVED) == "Your PTO request has been " + "approved" + " by your manager."
    ensures ManagerNotice(RequestStatus.DENIED) == "Your PTO request has been " + "denied" + " by your manager."
  {
    LowerStatusNames();
  }

  /**
   * The manager's `updateRequestStatus`: after the checks pass, the request
   * takes the given status whatever its current one, and is returned.
   */
  method UpdateRequestStatus(db: Store, sessionEmail: Option<string>, requestId: RequestId, status: RequestStatus)
    returns (r: Result<PTORequest, ManagerError>)
    requires db.Valid()
    modifies db
    ensures db.Valid()
    ensures r.Ok? <==> ManagerCheck(old(db.users), old(db.requests), sessionEmail, requestId).Pass?
    ensures r.Err? ==> Fail(r.error) == ManagerCheck(old(db.users), old(db.requests), sessionEmail, requestId)
    ensures db.users == old(db.users) && db.departments == old(db.departments)
    ensures r.Ok? ==> db.requests == SetRequestStatus(old(db.requests), requestId, status)
                      && r.value == db.requests[requestId]
    ensures r.Err? ==> db.requests == old(db.requests)
  {
    if !Truthy(sessionEmail) {
      return Err(Unauthorized);
    }
    var manager := UserByEmail(db.users, sessionEmail.value);
    if manager.None? || manager.value.role != Role.MANAGER {
      return Err(ManagerAccessRequired);
    }
    if requestId !in db.requests {
      return Err(RequestNotFound);
    }
    var request := db.requests[requestId];
    var isManager := request.userId in ManagedUsers(db.users, manager.value.id);
    if !isManager {
      return Err(NotManagerOfUser);
    }
    SetStatusKeepsInvariants(db.users, db.requests, requestId, status);
    db.requests := SetRequestStatus(db.requests, requestId, status);
    r := Ok(db.requests[requestId]);
  }
}
