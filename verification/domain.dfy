/**
 * The entities of the PTO application and the in-memory store that stands
 * for its relational database: a table of users, one of departments and one
 * of PTO requests, each keyed by the record's id.
 *
 * Dates are whole UTC days counted from 1 January 1970 (day 0, a Thursday);
 * instants ("now") are milliseconds since the same origin.
 */
module Domain {
  import opened Common

  type UserId = string
  type DeptId = string
  type RequestId = string

  datatype Role = USER | MANAGER | APPROVER | ADMIN

  datatype UserStatus = PENDING | ACTIVE

  datatype RequestStatus = PENDING | APPROVED | DENIED

  const MsPerDay: int := 86_400_000

  datatype User = User(
    id: UserId,
    email: string,
    name: string,
    password: Option<string>,   // the stored password hash; users synced from the identity provider have none
    role: Role,
    status: UserStatus,
    ptoBalance: int,
    departmentId: Option<DeptId>,
    managerId: Option<UserId>)

  datatype Department = Department(
    id: DeptId,
    name: string,
    managerId: Option<UserId>,
    approverId: Option<UserId>)

  datatype PTORequest = PTORequest(
    id: RequestId,
    userId: UserId,
    startDate: int,
    endDate: int,
    status: RequestStatus,
    notes: Option<string>)

  /** A user together with the requests and department name a page loads with it. */
  datatype UserWithRequests = UserWithRequests(
    user: User,
    ptoRequests: seq<PTORequest>,
    departmentName: Option<string>)

  /**
   * What the required relation from a request to its user does when that
   * user is deleted: refuse the delete while the user has requests, or
   * delete the requests with the user.
   */
  datatype OnUserDelete = Restrict | Cascade

  /**
   * The parts of the database schema the actions depend on: the column
   * defaults used where an insert omits a column, the referential action
   * of the relation from `PTORequest` to `User`, and whether `Department.name`
   * carries a unique constraint.
   */
  datatype Schema = Schema(status: UserStatus, ptoBalance: int, onUserDelete: OnUserDelete,
                           uniqueDepartmentNames: bool)

  /** The upper-case name of a request status, as the enum's string value. */
  function StatusName(s: RequestStatus): string
  {
    match s
    case PENDING => "PENDING"
    case APPROVED => "APPROVED"
    case DENIED => "DENIED"
  }

  lemma LowerLetters()
    ensures LowerChar('A') == 'a' && LowerChar('P') == 'p' && LowerChar('R') == 'r' && LowerChar('O') == 'o'
    ensures LowerChar('V') == 'v' && LowerChar('E') == 'e' && LowerChar('D') == 'd'
    ensures LowerChar('N') == 'n' && LowerChar('I') == 'i'
  {
  }

  /** `status.toLowerCase()` for the two decisions. */
  lemma LowerStatusNames()
    ensures ToLower(StatusName(RequestStatus.APPROVED)) == "approved"
    ensures ToLower(StatusName(RequestStatus.DENIED)) == "denied"
  {
    LowerLetters();
    var a := ToLower("APPROVED");
    assert a[0] == 'a' && a[1] == 'p' && a[2] == 'p' && a[3] == 'r';
    assert a[4] == 'o' && a[5] == 'v' && a[6] == 'e' && a[7] == 'd';
    assert a == "approved";
    var d := ToLower("DENIED");
    assert d[0] == 'd' && d[1] == 'e' && d[2] == 'n' && d[3] == 'i' && d[4] == 'e' && d[5] == 'd';
    assert d == "denied";
  }

  /**
   * `prisma.pTORequest.update({ where: { id }, data: { status } })`: the one
   * in-place write every decide path ends with.
   */
  function SetRequestStatus(requests: map<RequestId, PTORequest>, id: RequestId, status: RequestStatus)
    : (r: map<RequestId, PTORequest>)
    requires id in requests
    ensures r.Keys == requests.Keys
    ensures r[id].status == status
    ensures r[id] == requests[id].(status := status)
    ensures forall other :: other in requests && other != id ==> r[other] == requests[other]
  {
    requests[id := requests[id].(status := status)]
  }

  // ----- table invariants (what the schema's keys and constraints guarantee) -----

  predicate UsersKeyed(users: map<UserId, User>)
  {
    forall id :: id in users ==> users[id].id == id
  }

  /** The unique constraint on `User.email`. */
  predicate EmailsUnique(users: map<UserId, User>)
  {
    forall a, b :: a in users && b in users && users[a].email == users[b].email ==> a == b
  }

  predicate DepartmentsKeyed(departments: map<DeptId, Department>)
  {
    forall id :: id in departments ==> departments[id].id == id
  }

  /** What a unique constraint on `Department.name` would guarantee. */
  predicate NamesUnique(departments: map<DeptId, Department>)
  {
    forall a, b :: a in departments && b in departments && departments[a].name == departments[b].name ==> a == b
  }

  /** The foreign key from `User.departmentId` to the department table. */
  predicate DepartmentRefsValid(users: map<UserId, User>, departments: map<DeptId, Department>)
  {
    forall id :: id in users && users[id].departmentId.Some? ==> users[id].departmentId.value in departments
  }

  predicate RequestsKeyed(requests: map<RequestId, PTORequest>)
  {
    forall id :: id in requests ==> requests[id].id == id
  }

  /** The required foreign key from `PTORequest.userId` to the user table. */
  predicate RequestOwnersValid(users: map<UserId, User>, requests: map<RequestId, PTORequest>)
  {
    forall id :: id in requests ==> requests[id].userId in users
  }

  /** Changing a request's status keeps its key and its owner. */
  lemma SetStatusKeepsInvariants(users: map<UserId, User>, requests: map<RequestId, PTORequest>,
                                 id: RequestId, status: RequestStatus)
    requires id in requests && RequestsKeyed(requests) && RequestOwnersValid(users, requests)
    ensures RequestsKeyed(SetRequestStatus(requests, id, status))
    ensures RequestOwnersValid(users, SetRequestStatus(requests, id, status))
  {
  }

  predicate UsersValid(users: map<UserId, User>)
  {
    UsersKeyed(users) && EmailsUnique(users)
  }

  /** Some stored user has this email. */
  predicate EmailTaken(users: map<UserId, User>, email: string)
  {
    exists id :: id in users && users[id].email == email
  }

  /** `prisma.user.findUnique({ where: { email } })`. */
  function UserByEmail(users: map<UserId, User>, email: string): (r: Option<User>)
    requires UsersValid(users)
    ensures r.None? <==> !EmailTaken(users, email)
    ensures r.Some? ==> r.value.id in users && users[r.value.id] == r.value && r.value.email == email
  {
    if EmailTaken(users, email) then
      var id :| id in users && users[id].email == email;
      Some(users[id])
    else
      None
  }

  /** Rewriting a user row with an email no other user holds keeps the user-table invariants. */
  lemma {:induction false} ReplaceWithFreeEmail(users: map<UserId, User>, departments: map<DeptId, Department>,
                                                id: UserId, u: User)
    requires UsersValid(users) && DepartmentRefsValid(users, departments)
    requires id in users && u.id == id && u.departmentId == users[id].departmentId
    requires forall other :: other in users && other != id ==> users[other].email != u.email
    ensures UsersValid(users[id := u]) && DepartmentRefsValid(users[id := u], departments)
  {
  }

  /** Inserting a row with a fresh id, an unused email and no department keeps the user-table invariants. */
  lemma {:induction false} InsertKeepsInvariants(users: map<UserId, User>, departments: map<DeptId, Department>, u: User)
    requires UsersValid(users) && DepartmentRefsValid(users, departments)
    requires u.id !in users && !EmailTaken(users, u.email) && u.departmentId.None?
    ensures UsersValid(users[u.id := u]) && DepartmentRefsValid(users[u.id := u], departments)
  {
  }

  // ----- `prisma.user.delete` and its referential actions -----

  /** Some request still belongs to the user. */
  predicate HasRequests(requests: map<RequestId, PTORequest>, userId: UserId)
  {
    exists id :: id in requests && requests[id].userId == userId
  }

  /** The delete is refused: the relation restricts it and the user still has requests. */
  predicate DeleteRestricted(schema: Schema, requests: map<RequestId, PTORequest>, userId: UserId)
  {
    schema.onUserDelete == Restrict && HasRequests(requests, userId)
  }

  /** `SetNull` on an optional reference to the deleted user. */
  function Unlink(ref: Option<UserId>, userId: UserId): Option<UserId>
  {
    if ref == Some(userId) then None else ref
  }

  /** The user table after the delete: the row is gone and no remaining user is managed by it. */
  function UsersAfterDelete(users: map<UserId, User>, userId: UserId): (r: map<UserId, User>)
    ensures r.Keys == users.Keys - {userId}
    ensures forall u :: u in r ==> r[u].managerId != Some(userId)
    ensures forall u :: u in r && users[u].managerId != Some(userId) ==> r[u] == users[u]
    ensures forall u :: u in r && users[u].managerId == Some(userId) ==> r[u] == users[u].(managerId := None)
  {
    map u | u in users && u != userId :: users[u].(managerId := Unlink(users[u].managerId, userId))
  }

  /** The department table after the delete: no department keeps the user as manager or approver. */
  function DepartmentsAfterDelete(departments: map<DeptId, Department>, userId: UserId): (r: map<DeptId, Department>)
    ensures r.Keys == departments.Keys
    ensures forall d :: d in r ==> r[d].managerId != Some(userId) && r[d].approverId != Some(userId)
    ensures forall d :: d in r ==> r[d].id == departments[d].id && r[d].name == departments[d].name
    ensures forall d :: d in r && departments[d].managerId != Some(userId) && departments[d].approverId != Some(userId)
                        ==> r[d] == departments[d]
  {
    map d | d in departments ::
      departments[d].(managerId := Unlink(departments[d].managerId, userId),
                      approverId := Unlink(departments[d].approverId, userId))
  }

  /**
   * The request table after the delete: unchanged under Restrict; under
   * Cascade exactly the user's requests are gone. Either way, once the delete
   * is allowed, no request of the user remains.
   */
  function RequestsAfterDelete(schema: Schema, requests: map<RequestId, PTORequest>, userId: UserId)
    : (r: map<RequestId, PTORequest>)
    ensures schema.onUserDelete == Restrict ==> r == requests
    ensures schema.onUserDelete == Cascade ==>
              (forall id :: id in r <==> id in requests && requests[id].userId != userId)
              && (forall id :: id in r ==> r[id] == requests[id])
    ensures !DeleteRestricted(schema, requests, userId) ==> !HasRequests(r, userId)
  {
    if schema.onUserDelete == Restrict then requests
    else map id | id in requests && requests[id].userId != userId :: requests[id]
  }

  /** For a user without requests, the two referential actions agree: nothing is removed. */
  lemma {:induction false} ActionsAgreeWithoutRequests(requests: map<RequestId, PTORequest>, userId: UserId)
    requires !HasRequests(requests, userId)
    ensures forall schema: Schema :: RequestsAfterDelete(schema, requests, userId) == requests
  {
    forall schema: Schema
      ensures RequestsAfterDelete(schema, requests, userId) == requests
    {
      if schema.onUserDelete == Cascade {
        var r := RequestsAfterDelete(schema, requests, userId);
        forall id | id in requests
          ensures id in r
        {
          assert requests[id].userId != userId;
        }
      }
    }
  }

  /** A delete that is not restricted leaves every table invariant intact. */
  lemma {:induction false} DeleteKeepsInvariants(users: map<UserId, User>, departments: map<DeptId, Department>,
                                                 requests: map<RequestId, PTORequest>, schema: Schema, userId: UserId)
    requires UsersValid(users) && DepartmentsKeyed(departments)
    requires DepartmentRefsValid(users, departments) && RequestsKeyed(requests) && RequestOwnersValid(users, requests)
    requires !DeleteRestricted(schema, requests, userId)
    ensures var requests' := RequestsAfterDelete(schema, requests, userId);
            var users', departments' := UsersAfterDelete(users, userId), DepartmentsAfterDelete(departments, userId);
            UsersValid(users') && DepartmentsKeyed(departments')
            && DepartmentRefsValid(users', departments') && RequestsKeyed(requests') && RequestOwnersValid(users', requests')
            && (NamesUnique(departments) ==> NamesUnique(departments'))
  {
    var users', departments' := UsersAfterDelete(users, userId), DepartmentsAfterDelete(departments, userId);
    forall a, b | a in users' && b in users' && users'[a].email == users'[b].email
      ensures a == b
    {
      assert users'[a].email == users[a].email && users'[b].email == users[b].email;
    }
    if NamesUnique(departments) {
      forall a, b | a in departments' && b in departments' && departments'[a].name == departments'[b].name
        ensures a == b
      {
        assert departments'[a].name == departments[a].name && departments'[b].name == departments[b].name;
      }
    }
    if schema.onUserDelete == Restrict {
      forall id | id in requests
        ensures requests[id].userId in users'
      {
        assert requests[id].userId != userId;
      }
    }
  }

  /** The database: three tables updated in place by the server actions. */
  class Store {
    var users: map<UserId, User>
    var departments: map<DeptId, Department>
    var requests: map<RequestId, PTORequest>

    ghost predicate Valid()
      reads this
    {
      && UsersValid(users)
      && DepartmentsKeyed(departments)
      && DepartmentRefsValid(users, departments)
      && RequestsKeyed(requests) && RequestOwnersValid(users, requests)
    }

    constructor ()
      ensures Valid()
      ensures users == map[] && departments == map[] && requests == map[]
    {
      users, departments, requests := map[], map[], map[];
    }
  }
}
