/**
 * The identity provider's webhook handler: each event kind creates, updates,
 * re-roles or deletes a row of the user table. The transport (signature
 * verification) is not part of this model; the handler starts from an
 * already decoded event.
 */
module Webhook {
  import opened Common
  import opened Domain

  /** The user object of `user.created` and `user.updated`. */
  datatype ClerkUser = ClerkUser(id: UserId, emailAddresses: seq<string>, firstName: Option<string>, lastName: Option<string>)

  /** The membership object of `organizationMembership.*`. */
  datatype Membership = Membership(role: string, userId: UserId, firstName: Option<string>, lastName: Option<string>)

  /** A decoded event; `None` stands for an event without `data`. */
  datatype WebhookEvent =
    | UserCreated(user: Option<ClerkUser>)
    | UserUpdated(user: Option<ClerkUser>)
    | MembershipCreated(membership: Option<Membership>)
    | MembershipUpdated(membership: Option<Membership>)
    | UserDeleted(deletedId: Option<UserId>)
    | Unhandled(eventType: string, hasData: bool)

  predicate HasData(evt: WebhookEvent)
  {
    match evt
    case UserCreated(u) => u.Some?
    case UserUpdated(u) => u.Some?
    case MembershipCreated(m) => m.Some?
    case MembershipUpdated(m) => m.Some?
    case UserDeleted(id) => id.Some?
    case Unhandled(_, hasData) => hasData
  }

  /** Why a handled event failed: the handler's own check, or a write the database refuses. */
  datatype WebhookFailure = NoEmailAddress | DuplicateId | EmailInUse | UnknownUser | UserHasRequests

  datatype WebhookResult = Processed | NoData | Failed(failure: WebhookFailure)

  /** The HTTP status the handler answers with. */
  function ResponseStatus(r: WebhookResult): int
  {
    match r
    case Processed => 200
    case NoData => 400
    case Failed(_) => 500
  }

  /** `` `${first || ""} ${last || ""}`.trim() ``. */
  function BuildName(first: Option<string>, last: Option<string>): (name: string)
    ensures name == [] || Trimmed(name)
  {
    Trim(OrElse(first, "") + " " + OrElse(last, ""))
  }

  /** With both parts present and already trimmed, the name is "first last". */
  lemma BuildNameOfTwoParts(first: string, last: string)
    requires Trimmed(first) && Trimmed(last)
    ensures BuildName(Some(first), Some(last)) == first + " " + last
  {
    TrimIsIdentityOnTrimmed(first + " " + last);
  }

  /** A missing (or empty) last name leaves just the first name. */
  lemma BuildNameOfFirstOnly(first: string, last: Option<string>)
    requires Trimmed(first) && !Truthy(last)
    ensures BuildName(Some(first), last) == first
  {
    assert OrElse(Some(first), "") + " " + OrElse(last, "") == first + " ";
    TrimDropsTrailingSpace(first, " ");
    TrimIsIdentityOnTrimmed(first);
  }

  /** A missing (or empty) first name leaves just the last name, without a leading space. */
  lemma BuildNameOfLastOnly(first: Option<string>, last: string)
    requires !Truthy(first) && Trimmed(last)
    ensures BuildName(first, Some(last)) == last
  {
    var joined := " " + last;
    assert OrElse(first, "") + " " + OrElse(Some(last), "") == joined;
    assert joined[1..] == last;
    assert TrimStart(joined) == TrimStart(last) == last;
    TrimIsIdentityOnTrimmed(last);
  }

  /**
   * The name is the joined parts with the white space at both ends cut off,
   * and nothing cut from inside.
   */
  lemma BuildNameSlice(first: Option<string>, last: Option<string>) returns (i: nat, j: nat)
    ensures var joined := OrElse(first, "") + " " + OrElse(last, "");
            i <= j <= |joined| && BuildName(first, last) == joined[i..j]
            && (forall k :: 0 <= k < i ==> IsSpace(joined[k]))
            && (forall k :: j <= k < |joined| ==> IsSpace(joined[k]))
  {
    i, j := TrimSlice(OrElse(first, "") + " " + OrElse(last, ""));
  }

  /** With no name parts at all the name is empty. */
  lemma BuildNameOfNothing(first: Option<string>, last: Option<string>)
    requires !Truthy(first) && !Truthy(last)
    ensures BuildName(first, last) == ""
  {
    TrimOfAllSpace(" ");
  }

  /** `trim` drops a trailing vertical tab, not only ASCII blanks. */
  lemma BuildNameDropsVerticalTab()
    ensures BuildName(Some("Ann\U{000B}"), None) == "Ann"
  {
    var s := "Ann\U{000B} ";
    assert OrElse(Some("Ann\U{000B}"), "") + " " + OrElse(None, "") == s;
    assert !IsSpace(s[0]) && TrimStart(s) == s;
    assert IsSpace(s[4]) && s[..4] == "Ann\U{000B}";
    assert IsSpace(s[3]) && s[..4][..3] == "Ann";
    assert !IsSpace('n') && TrimEnd("Ann") == "Ann";
  }

  /**
   * A name made of a no-break space trims to the empty name, so a membership
   * event carrying it keeps the stored name.
   */
  lemma NoBreakSpaceNameKeepsStoredName(u: User, m: Membership)
    requires m.firstName == Some("\U{00A0}") && m.lastName.None?
    ensures BuildName(m.firstName, m.lastName) == ""
    ensures ApplyMembership(u, m).name == u.name
  {
    var s := "\U{00A0} ";
    assert IsSpace(s[0]) && IsSpace(s[1]);
    assert OrElse(m.firstName, "") + " " + OrElse(m.lastName, "") == s;
    TrimOfAllSpace(s);
  }

  /** `role.toLowerCase() === "admin" ? "ADMIN" : "USER"`. */
  function MembershipRole(role: string): Role
  {
    if ToLower(role) == "admin" then Role.ADMIN else Role.USER
  }

  /**
   * The comparison ignores case but nothing else: every spelling of "admin"
   * maps to ADMIN, while a prefixed or padded role string maps to USER.
   */
  lemma MembershipRoleExamples()
    ensures MembershipRole("admin") == Role.ADMIN
    ensures MembershipRole("Admin") == Role.ADMIN && MembershipRole("ADMIN") == Role.ADMIN
    ensures MembershipRole("org:admin") == Role.USER
    ensures MembershipRole(" admin") == Role.USER
    ensures MembershipRole("member") == Role.USER
  {
    assert LowerChar('A') == 'a' && LowerChar('D') == 'd' && LowerChar('M') == 'm';
    assert LowerChar('I') == 'i' && LowerChar('N') == 'n';
    assert ToLower("Admin") == "admin" by {
      var t := ToLower("Admin");
      assert t[0] == 'a' && t[1] == 'd' && t[2] == 'm' && t[3] == 'i' && t[4] == 'n';
    }
    assert ToLower("ADMIN") == "admin" by {
      var t := ToLower("ADMIN");
      assert t[0] == 'a' && t[1] == 'd' && t[2] == 'm' && t[3] == 'i' && t[4] == 'n';
    }
    assert ToLower("admin") == "admin" by {
      var t := ToLower("admin");
      assert t[0] == 'a' && t[1] == 'd' && t[2] == 'm' && t[3] == 'i' && t[4] == 'n';
    }
    assert |ToLower("org:admin")| != |"admin"|;
    assert ToLower(" admin")[0] != "admin"[0];
    assert ToLower("member")[0] != "admin"[0];
  }

  /** `email_addresses?.[0]?.email_address`, falsy when absent or empty. */
  function FirstEmail(emailAddresses: seq<string>): Option<string>
  {
    if |emailAddresses| > 0 && emailAddresses[0] != "" then Some(emailAddresses[0]) else None
  }

  /** The row `user.created` inserts: role USER, balance 0, the schema's default status. */
  function NewClerkUser(data: ClerkUser, email: string, schema: Schema): User
  {
    User(data.id, email, BuildName(data.firstName, data.lastName), None, Role.USER, schema.status, 0, None, None)
  }

  /** The database refuses an insert whose id or email is already stored. */
  function InsertCheck(users: map<UserId, User>, id: UserId, email: string): (r: Outcome<WebhookFailure>)
    ensures r.Pass? <==> id !in users && !EmailTaken(users, email)
  {
    if id in users then Fail(DuplicateId)
    else if EmailTaken(users, email) then Fail(EmailInUse)
    else Pass
  }

  /** Another user than `id` already holds `email`. */
  predicate EmailHeldByOther(users: map<UserId, User>, id: UserId, email: string)
  {
    exists other :: other in users && other != id && users[other].email == email
  }

  /** The change `organizationMembership.*` makes to an existing user. */
  function ApplyMembership(u: User, m: Membership): (r: User)
    ensures r.role == MembershipRole(m.role)
    ensures BuildName(m.firstName, m.lastName) != "" ==> r.name == BuildName(m.firstName, m.lastName)
    ensures BuildName(m.firstName, m.lastName) == "" ==> r.name == u.name
    ensures r == u.(role := r.role, name := r.name)
  {
    var name := BuildName(m.firstName, m.lastName);
    u.(role := MembershipRole(m.role), name := if name != "" then name else u.name)
  }

  /** `handleWebhook`: one event, dispatched on its kind, against the user table. */
  method HandleWebhook(db: Store, evt: WebhookEvent, schema: Schema) returns (res: WebhookResult)
    requires db.Valid()
    modifies db
    ensures db.Valid()
    ensures !evt.UserDeleted? || res != Processed ==> db.departments == old(db.departments) && db.requests == old(db.requests)
    ensures !HasData(evt) <==> res == NoData
    ensures res != Processed ==> db.users == old(db.users)
    ensures evt.UserCreated? && HasData(evt) ==> CreatedOutcome(old(db.users), db.users, evt.user.value, schema, res)
    ensures evt.UserUpdated? && HasData(evt) ==> UpdatedOutcome(old(db.users), db.users, evt.user.value, schema, res)
    ensures (evt.MembershipCreated? || evt.MembershipUpdated?) && HasData(evt) ==>
              res == Processed && db.users == MembershipApplied(old(db.users), evt.membership.value)
    ensures evt.UserDeleted? && HasData(evt) ==>
              (res == Processed <==>
                 evt.deletedId.value in old(db.users) && !DeleteRestricted(schema, old(db.requests), evt.deletedId.value))
              && (res == Processed ==> DeletedOutcome(old(db.users), old(db.departments), old(db.requests),
                                                      db.users, db.departments, db.requests, schema, evt.deletedId.value))
    ensures evt.Unhandled? && HasData(evt) ==> res == Processed && db.users == old(db.users)
  {
    if !HasData(evt) {
      return NoData;
    }
    match evt {
      case UserCreated(u) =>
        res := HandleUserCreated(db, u.value, schema);
      case UserUpdated(u) =>
        res := HandleUserUpdated(db, u.value, schema);
      case MembershipCreated(m) =>
        ApplyMembershipEvent(db, m.value);
        res := Processed;
      case MembershipUpdated(m) =>
        ApplyMembershipEvent(db, m.value);
        res := Processed;
      case UserDeleted(id) =>
        res := HandleUserDeleted(db, id.value, schema);
      case Unhandled(_, _) =>
        res := Processed;
    }
  }

  /** What `user.created` may leave behind: a refusal with no write, or exactly one inserted row. */
  ghost predicate CreatedOutcome(before: map<UserId, User>, after: map<UserId, User>, data: ClerkUser,
                                 schema: Schema, res: WebhookResult)
  {
    var email := FirstEmail(data.emailAddresses);
    && (email.None? ==> res == Failed(NoEmailAddress))
    && (email.Some? ==> (res == Processed <==> InsertCheck(before, data.id, email.value).Pass?))
    && (res == Processed ==> email.Some? && after == before[data.id := NewClerkUser(data, email.value, schema)])
    && (res != Processed ==> after == before)
  }

  /** What `user.updated` may leave behind: the row's email and name rewritten, or a new row. */
  ghost predicate UpdatedOutcome(before: map<UserId, User>, after: map<UserId, User>, data: ClerkUser,
                                 schema: Schema, res: WebhookResult)
  {
    var email := FirstEmail(data.emailAddresses);
    && (email.None? ==> res == Failed(NoEmailAddress))
    && (email.Some? && data.id in before ==>
          (res == Processed <==> !EmailHeldByOther(before, data.id, email.value))
          && (res == Processed ==>
                after == before[data.id := before[data.id].(email := email.value,
                                                              name := BuildName(data.firstName, data.lastName))]))
    && (email.Some? && data.id !in before ==>
          (res == Processed <==> InsertCheck(before, data.id, email.value).Pass?)
          && (res == Processed ==> after == before[data.id := NewClerkUser(data, email.value, schema)]))
    && (res != Processed ==> after == before)
  }

  /** The user table after a membership event: a known user re-roled and renamed, an unknown one ignored. */
  function MembershipApplied(users: map<UserId, User>, m: Membership): (r: map<UserId, User>)
    ensures r.Keys == users.Keys
    ensures m.userId in users ==> r[m.userId] == ApplyMembership(users[m.userId], m)
    ensures forall id :: id in users && id != m.userId ==> r[id] == users[id]
  {
    map id | id in users :: if id == m.userId then ApplyMembership(users[id], m) else users[id]
  }

  /** `case "user.created"`: insert the user with role USER and balance 0. */
  method HandleUserCreated(db: Store, data: ClerkUser, schema: Schema) returns (res: WebhookResult)
    requires db.Valid()
    modifies db
    ensures db.Valid()
    ensures db.departments == old(db.departments) && db.requests == old(db.requests)
    ensures res != NoData
    ensures CreatedOutcome(old(db.users), db.users, data, schema, res)
  {
    var email := FirstEmail(data.emailAddresses);
    if email.None? {
      return Failed(NoEmailAddress);
    }
    var check := InsertCheck(db.users, data.id, email.value);
    if check.Fail? {
      return Failed(check.error);
    }
    var user := NewClerkUser(data, email.value, schema);
    InsertKeepsInvariants(db.users, db.departments, user);
    db.users := db.users[data.id := user];
    res := Processed;
  }

  /** `case "user.updated"`: rewrite email and name of a known user, insert an unknown one. */
  method HandleUserUpdated(db: Store, data: ClerkUser, schema: Schema) returns (res: WebhookResult)
    requires db.Valid()
    modifies db
    ensures db.Valid()
    ensures db.departments == old(db.departments) && db.requests == old(db.requests)
    ensures res != NoData
    ensures UpdatedOutcome(old(db.users), db.users, data, schema, res)
  {
    var email := FirstEmail(data.emailAddresses);
    if email.None? {
      return Failed(NoEmailAddress);
    }
    if data.id in db.users {
      if EmailHeldByOther(db.users, data.id, email.value) {
        return Failed(EmailInUse);
      }
      var existing := db.users[data.id];
      var user := existing.(email := email.value, name := BuildName(data.firstName, data.lastName));
      ReplaceWithFreeEmail(db.users, db.departments, data.id, user);
      db.users := db.users[data.id := user];
    } else {
      var check := InsertCheck(db.users, data.id, email.value);
      if check.Fail? {
        return Failed(check.error);
      }
      var user := NewClerkUser(data, email.value, schema);
      InsertKeepsInvariants(db.users, db.departments, user);
      db.users := db.users[data.id := user];
    }
    res := Processed;
  }

  /** The three tables after `prisma.user.delete` of `id` went through. */
  ghost predicate DeletedOutcome(users: map<UserId, User>, departments: map<DeptId, Department>,
                                 requests: map<RequestId, PTORequest>,
                                 users': map<UserId, User>, departments': map<DeptId, Department>,
                                 requests': map<RequestId, PTORequest>, schema: Schema, id: UserId)
  {
    && users' == UsersAfterDelete(users, id)
    && departments' == DepartmentsAfterDelete(departments, id)
    && requests' == RequestsAfterDelete(schema, requests, id)
  }

  /**
   * `case "user.deleted"`: delete the row; the database refuses an unknown
   * id, and under Restrict a user who still has requests.
   */
  method HandleUserDeleted(db: Store, id: UserId, schema: Schema) returns (res: WebhookResult)
    requires db.Valid()
    modifies db
    ensures db.Valid()
    ensures res == Processed <==> id in old(db.users) && !DeleteRestricted(schema, old(db.requests), id)
    ensures res != Processed ==>
              res == Failed(if id in old(db.users) then UserHasRequests else UnknownUser)
              && db.users == old(db.users) && db.departments == old(db.departments) && db.requests == old(db.requests)
    ensures res == Processed ==>
              DeletedOutcome(old(db.users), old(db.departments), old(db.requests), db.users, db.departments, db.requests, schema, id)
  {
    if id !in db.users {
      return Failed(UnknownUser);
    }
    if DeleteRestricted(schema, db.requests, id) {
      return Failed(UserHasRequests);
    }
    DeleteKeepsInvariants(db.users, db.departments, db.requests, schema, id);
    db.users := UsersAfterDelete(db.users, id);
    db.departments := DepartmentsAfterDelete(db.departments, id);
    db.requests := RequestsAfterDelete(schema, db.requests, id);
    res := Processed;
  }

  /** The shared branch of `organizationMembership.created` and `.updated`. */
  method ApplyMembershipEvent(db: Store, m: Membership)
    requires db.Valid()
    modifies db
    ensures db.Valid()
    ensures db.departments == old(db.departments) && db.requests == old(db.requests)
    ensures db.users == MembershipApplied(old(db.users), m)
  {
    MembershipKeepsInvariants(db.users, db.departments, m);
    db.users := MembershipApplied(db.users, m);
  }

  lemma MembershipKeepsInvariants(users: map<UserId, User>, departments: map<DeptId, Department>, m: Membership)
    requires UsersValid(users) && DepartmentRefsValid(users, departments)
    ensures UsersValid(MembershipApplied(users, m)) && DepartmentRefsValid(MembershipApplied(users, m), departments)
  {
    var r := MembershipApplied(users, m);
    forall id | id in r
      ensures r[id].id == users[id].id && r[id].email == users[id].email && r[id].departmentId == users[id].departmentId
    {
    }
  }
}
