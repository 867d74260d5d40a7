/**
 * The administrator's table operations. Each one writes the user or the
 * department table in place and reports `{ success: false, error }` where
 * the database would refuse the write (a missing row, a broken foreign key,
 * a duplicate unique name) instead of throwing.
 */
module Admin {
  import opened Common
  import opened Domain

  datatype AdminError =
    | FailedUpdateRole
    | FailedDeleteUser
    | FailedAssignDepartment
    | FailedUpdateBalance
    | FailedCreateDepartment
    | FailedDeleteDepartment

  function AdminErrorMessage(e: AdminError): string
  {
    match e
    case FailedUpdateRole => "Failed to update user role"
    case FailedDeleteUser => "Failed to delete user"
    case FailedAssignDepartment => "Failed to assign department"
    case FailedUpdateBalance => "Failed to update PTO balance"
    case FailedCreateDepartment => "Failed to create department"
    case FailedDeleteDepartment => "Failed to delete department"
  }

  /** `makeUserAdmin`: the user's role becomes ADMIN; nothing else changes. */
  method MakeUserAdmin(db: Store, userId: UserId) returns (r: Outcome<AdminError>)
    requires db.Valid()
    modifies db
    ensures db.Valid()
    ensures r.Pass? <==> userId in old(db.users)
    ensures r.Fail? ==> r.error == FailedUpdateRole && db.users == old(db.users)
    ensures r.Pass? ==> db.users == old(db.users)[userId := old(db.users)[userId].(role := Role.ADMIN)]
    ensures db.departments == old(db.departments) && db.requests == old(db.requests)
  {
    if userId !in db.users {
      return Fail(FailedUpdateRole);
    }
    db.users := db.users[userId := db.users[userId].(role := Role.ADMIN)];
    r := Pass;
  }

  /**
   * `deleteUser`: the row leaves the user table, the optional references to
   * it become null, and its requests follow the schema's referential action.
   * The delete fails for an unknown id, and under Restrict while the user
   * still has requests.
   */
  method DeleteUser(db: Store, userId: UserId, schema: Schema) returns (r: Outcome<AdminError>)
    requires db.Valid()
    modifies db
    ensures db.Valid()
    ensures r.Pass? <==> userId in old(db.users) && !DeleteRestricted(schema, old(db.requests), userId)
    ensures r.Fail? ==> r.error == FailedDeleteUser
                        && db.users == old(db.users) && db.departments == old(db.departments)
                        && db.requests == old(db.requests)
    ensures r.Pass? ==> db.users == UsersAfterDelete(old(db.users), userId)
                        && db.departments == DepartmentsAfterDelete(old(db.departments), userId)
                        && db.requests == RequestsAfterDelete(schema, old(db.requests), userId)
  {
    if userId !in db.users || DeleteRestricted(schema, db.requests, userId) {
      return Fail(FailedDeleteUser);
    }
    DeleteKeepsInvariants(db.users, db.departments, db.requests, schema, userId);
    db.users := UsersAfterDelete(db.users, userId);
    db.departments := DepartmentsAfterDelete(db.departments, userId);
    db.requests := RequestsAfterDelete(schema, db.requests, userId);
    r := Pass;
  }

  /** `departmentId || null`: the empty string clears the department. */
  function DepartmentField(departmentId: string): Option<DeptId>
  {
    if departmentId == "" then None else Some(departmentId)
  }

  /**
   * `assignDepartment`: stores the given department, or none for "". The
   * foreign key refuses an id that names no department.
   */
  method AssignDepartment(db: Store, userId: UserId, departmentId: string) returns (r: Outcome<AdminError>)
    requires db.Valid()
    modifies db
    ensures db.Valid()
    ensures r.Pass? <==>
              userId in old(db.users) &&
              (departmentId == "" || departmentId in old(db.departments))
    ensures r.Fail? ==> r.error == FailedAssignDepartment && db.users == old(db.users)
    ensures r.Pass? ==>
              db.users == old(db.users)[userId := old(db.users)[userId].(departmentId := DepartmentField(departmentId))]
    ensures db.departments == old(db.departments) && db.requests == old(db.requests)
  {
    var target := DepartmentField(departmentId);
    if userId !in db.users || (target.Some? && target.value !in db.departments) {
      return Fail(FailedAssignDepartment);
    }
    db.users := db.users[userId := db.users[userId].(departmentId := target)];
    r := Pass;
  }

  /** `updatePTOBalance`: the user's balance becomes exactly the given value. */
  method UpdatePTOBalance(db: Store, userId: UserId, ptoBalance: int) returns (r: Outcome<AdminError>)
    requires db.Valid()
    modifies db
    ensures db.Valid()
    ensures r.Pass? <==> userId in old(db.users)
    ensures r.Fail? ==> r.error == FailedUpdateBalance && db.users == old(db.users)
    ensures r.Pass? ==> db.users == old(db.users)[userId := old(db.users)[userId].(ptoBalance := ptoBalance)]
    ensures db.departments == old(db.departments) && db.requests == old(db.requests)
  {
    if userId !in db.users {
      return Fail(FailedUpdateBalance);
    }
    db.users := db.users[userId := db.users[userId].(ptoBalance := ptoBalance)];
    r := Pass;
  }

  /** Some department already has this name. */
  predicate NameTaken(departments: map<DeptId, Department>, name: string)
  {
    exists d :: d in departments && departments[d].name == name
  }

  /**
   * `createDepartment`: one new department with the given name and no manager
   * or approver. Whether a second department may take a used name is up to the
   * schema's constraint on `Department.name`.
   */
  method CreateDepartment(db: Store, name: string, newId: DeptId, schema: Schema) returns (r: Outcome<AdminError>)
    requires db.Valid() && newId !in db.departments
    modifies db
    ensures db.Valid()
    ensures r.Pass? <==> !(schema.uniqueDepartmentNames && NameTaken(old(db.departments), name))
    ensures schema.uniqueDepartmentNames && NamesUnique(old(db.departments)) ==> NamesUnique(db.departments)
    ensures r.Fail? ==> r.error == FailedCreateDepartment && db.departments == old(db.departments)
    ensures r.Pass? ==> db.departments == old(db.departments)[newId := Department(newId, name, None, None)]
    ensures db.users == old(db.users) && db.requests == old(db.requests)
  {
    if schema.uniqueDepartmentNames && NameTaken(db.departments, name) {
      return Fail(FailedCreateDepartment);
    }
    db.departments := db.departments[newId := Department(newId, name, None, None)];
    r := Pass;
  }

  /**
   * `prisma.user.updateMany({ where: { departmentId: id }, data: { departmentId: null } })`:
   * every user of the department loses it; every other user is untouched.
   */
  function ClearDepartment(users: map<UserId, User>, id: DeptId): (r: map<UserId, User>)
    ensures r.Keys == users.Keys
    ensures forall u :: u in r ==> r[u].departmentId != Some(id)
    ensures forall u :: u in users && users[u].departmentId != Some(id) ==> r[u] == users[u]
    ensures forall u :: u in users && users[u].departmentId == Some(id) ==> r[u] == users[u].(departmentId := None)
  {
    map u | u in users :: if users[u].departmentId == Some(id) then users[u].(departmentId := None) else users[u]
  }

  /** With the foreign key intact, clearing a department nobody references changes nothing. */
  lemma ClearUnknownDepartment(users: map<UserId, User>, departments: map<DeptId, Department>, id: DeptId)
    requires DepartmentRefsValid(users, departments) && id !in departments
    ensures ClearDepartment(users, id) == users
  {
    var c := ClearDepartment(users, id);
    forall u | u in users
      ensures c[u] == users[u]
    {
    }
  }

  /**
   * `deleteDepartment`: first clears the department from every user, then
   * deletes it. The two writes are separate: the clearing happens even when
   * the delete then fails.
   */
  method DeleteDepartment(db: Store, id: DeptId) returns (r: Outcome<AdminError>)
    requires db.Valid()
    modifies db
    ensures db.Valid()
    ensures r.Pass? <==> id in old(db.departments)
    ensures r.Fail? ==> r.error == FailedDeleteDepartment && db.users == old(db.users)
    ensures db.users == ClearDepartment(old(db.users), id)
    ensures db.departments == old(db.departments) - {id}
    ensures db.requests == old(db.requests)
  {
    db.users := ClearDepartment(db.users, id);
    if id !in db.departments {
      ClearUnknownDepartment(old(db.users), db.departments, id);
      return Fail(FailedDeleteDepartment);
    }
    db.departments := db.departments - {id};
    r := Pass;
  }
}
