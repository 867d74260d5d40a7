# PTO request workflow — a Dafny model

This project models the server side of a paid-time-off (PTO) application.

- Employees file PTO requests over a date range. Each request is checked against the employee's hour balance (eight hours per business day) and stored as PENDING.
- An employee can cancel their own pending request.
- Managers decide the requests of the users they manage. Department approvers decide the requests of users in the departments they approve for.
- A third decide action, `updatePTORequestStatus` in the dashboard actions, checks no session and no role: whoever can call it decides any request.
- Administrators maintain users and departments.
- An identity-provider webhook keeps the user table in sync.
- A credentials provider signs users up and in. Its token callback signs a user out once their stored role or status changes.
- A route guard keeps PENDING accounts on the account-pending page and non-administrators out of the administration pages.
- Two read-only views aggregate the data:
  - the department overview: head count, balances, used days and request counts per department;
  - the team balance table: used and remaining days per user, grouped by department for an administrator.

## Model structure

The database is the class `Domain.Store`. Its three map fields `users`, `departments` and `requests` are updated in place by the actions.

`Store.Valid()` states what the database is taken to guarantee:
- rows are keyed by their id;
- `User.email` is unique (the webhook and sign-up code rely on it);
- `User.departmentId` is a foreign key into the department table;
- `PTORequest.userId` is a required foreign key into the user table.

Whether `Department.name` is unique is not known: the schema is not part of this model, and the seed script looks departments up by name with `findFirst`, which suggests it is not. It is therefore a flag of the schema parameter, `Schema.uniqueDepartmentNames`, and `Admin.CreateDepartment` refuses a used name only when the flag is set.

The manager, approver and employee actions (`createPTORequest`, `cancelPTORequest`, the manager's and the approver's `updateRequestStatus`) and sign-up have two parts:
- A pure *check* function gives the action's ordered chain of refusals.
- A method with `modifies db` runs that chain and performs the write. Its postcondition ties the result to the check function and states the complete new state of all three tables.

The administrator actions and the dashboard's `updatePTORequestStatus` have no check function. Their one refusal is a missing row (or, for a new department under a unique-name schema, a used name), stated directly in the method's postcondition.

A thrown error, or a `{ success: false }` result, becomes an `Err`/`Fail` value. The route guard, the token and session callbacks, and the aggregations are pure functions. The exceptions are the aggregation loops, which the source writes as loops (`calculateDepartmentStats`, the `groupedUsers` accumulator). Those are methods with loop invariants, proved against recursive specification functions.

Dates are whole day numbers counted from 1970-01-01, which was a Thursday, so day `d` falls on weekday `(d + 4) % 7`. The current time `now` is an instant in milliseconds. A start date becomes the instant `start * 86400000`.

Two behaviours of the code a reader may not expect:
- **Past-date check.** `createPTORequest` compares the start date's midnight with the current *instant*, not with today's date. A request that starts today is therefore refused once midnight has passed (`Dashboard.SameDayRequestRefused`).
- **Balance.** No path debits or reserves the balance: not creation, not any decide path. No decide path checks that the request is still PENDING.

The stored `ptoBalance` is read in two units. `createPTORequest` compares it with hours (eight per business day), while the team table and the department overview subtract used *days* from it and print it as days. The model keeps both readings as written (`Dashboard.CreateCheck`, `TeamBalances.RemainingDays`).

## Model

| member | source | states |
|---|---|---|
| Dashboard.BusinessDays | src/app/dashboard/actions.ts:94-107 | the weekday count of a range is at most its length, and 0 when the start lies after the end |
| Dashboard.Weekday | src/app/dashboard/actions.ts:99 | `getDay` of a day number is a weekday from 0 (Sunday) to 6 (Saturday) |
| Dashboard.GetBusinessDays | src/app/dashboard/actions.ts:94-107 | the day-by-day loop returns the number of Monday–Friday days in [start, end] |
| Dashboard.BusinessDaysSplit | src/app/dashboard/actions.ts:94-107 | splitting a range at any day splits the business-day count into two summands |
| Dashboard.BusinessDaysShiftWeek | src/app/dashboard/actions.ts:94-107 | shifting a range by seven days keeps its business-day count |
| Dashboard.WeekdayStep | src/app/dashboard/actions.ts:99 | the day after a Saturday is a Sunday, and otherwise the weekday advances by one |
| Dashboard.BusinessDaysInAWeek | src/app/dashboard/actions.ts:94-107 | any seven consecutive days hold exactly five business days |
| Dashboard.BusinessDaysInWeeks | src/app/dashboard/actions.ts:94-107 | k whole weeks hold exactly 5k business days |
| Dashboard.BusinessDaysExamples | src/app/dashboard/actions.ts:94-107 | Monday to Friday counts 5, a weekend 0, Friday to Monday 2 |
| Dashboard.CreateCheck | src/app/dashboard/actions.ts:22-58 | the refusals in order, each stated as the outcome once the earlier ones pass: start after end, then start instant before now, then unknown user, then a balance below RequiredHours (8 hours per business day), reporting the hours needed and the balance; the request passes exactly when none applies |
| Dashboard.ExactBalanceAccepted | src/app/dashboard/actions.ts:53-58 | a balance exactly equal to the hours needed is accepted |
| Dashboard.SameDayRequestRefused | src/app/dashboard/actions.ts:29-34 | a request starting today is refused as a past date once midnight has passed |
| Dashboard.FullWeekAgainstFortyHours | src/app/dashboard/actions.ts:37-58 | Monday to Friday against a 40-hour balance is accepted |
| Dashboard.CreatePTORequest | src/app/dashboard/actions.ts:9-91 | the result is the check chain's verdict; on success exactly one PENDING request with the given dates and notes is added; users and departments never change (no debit) |
| Dashboard.CancelCheck | src/app/dashboard/actions.ts:116-135 | the refusals in order: unknown request, then not the owner, then not PENDING; passes exactly for the owner's PENDING request |
| Dashboard.CancelPTORequest | src/app/dashboard/actions.ts:109-162 | the result is the cancel check's verdict; on success only that request's status changes, to DENIED |
| Dashboard.UpdatePTORequestStatus | src/app/dashboard/actions.ts:164-207 | with no session or role check, fails exactly for an unknown request; otherwise that request takes the new status whatever its old one, and users and departments are untouched |
| Dashboard.DecideTwiceSameAsOnce | src/app/dashboard/actions.ts:182-185 | applying the same decision twice leaves the table as applying it once |
| Domain.SetRequestStatus | src/app/dashboard/actions.ts:182-185 | the status write keeps every key, changes only the status of that request, and leaves every other request as it was |
| Domain.LowerStatusNames | src/app/manager/actions.ts:67 | the lower-cased status names are "approved" and "denied" |
| Domain.UserByEmail | src/app/manager/actions.ts:21-26 | the lookup by the unique email finds the stored user with that email, or nothing exactly when no user has it |
| Domain.ReplaceWithFreeEmail | src/app/api/webhooks/clerk/route.ts:117-125 | rewriting a user row with an email no other user holds keeps the user-table invariants |
| Domain.InsertKeepsInvariants | src/app/api/webhooks/clerk/route.ts:88-98 | inserting a row with a fresh id, an unused email and no department keeps the user-table invariants |
| Domain.SetStatusKeepsInvariants | src/app/dashboard/actions.ts:182-185 | a status write keeps every request keyed by its id and owned by a stored user |
| Domain.UsersAfterDelete | src/app/admin/actions.ts:24-26 | the user table after a delete: that id is gone, every user it managed has no manager, every other row is unchanged |
| Domain.DepartmentsAfterDelete | src/app/admin/actions.ts:24-26 | every department keeps its id and name, and loses the deleted user as manager or approver |
| Domain.RequestsAfterDelete | src/app/admin/actions.ts:24-26 | Restrict keeps the requests; Cascade removes exactly the deleted user's requests; an allowed delete leaves no request of that user |
| Domain.ActionsAgreeWithoutRequests | src/app/admin/actions.ts:24-26 | for a user with no requests, Restrict and Cascade leave the same request table |
| Domain.DeleteKeepsInvariants | src/app/admin/actions.ts:24-26 | an allowed delete keeps every table invariant, including that each request has a stored owner, and keeps unique department names unique |
| Manager.ManagerCheck | src/app/manager/actions.ts:17-49 | no session email gives "Unauthorized"; an unknown actor or one whose role is not MANAGER gives the manager-access error; for a MANAGER, an unknown request gives "Request not found" and a request whose owner is not among the users the actor manages (ManagedUsers: those whose managerId is the actor) gives the not-your-user error; the check passes exactly when none of these applies |
| Manager.ManagerNotice | src/app/manager/actions.ts:67 | the notice starts "Your PTO request has been " and ends " by your manager." |
| Manager.ManagerNoticeTexts | src/app/manager/actions.ts:67 | the notices for the two decisions, word for word |
| Manager.UpdateRequestStatus | src/app/manager/actions.ts:11-72 | succeeds exactly when the manager check passes; then only that request's status changes and the updated request is returned; on failure nothing changes |
| Approver.ApproverCheck | src/app/approver/actions.ts:17-58 | like the manager chain with role APPROVER: for an APPROVER, an unknown request gives "Request not found" and an owner outside every department the actor approves for (CanApprove over ApprovedDepartments, the departments whose approverId is the actor) gives the not-approver error; passes exactly otherwise; an owner without a department is always refused |
| Approver.ApproverNotice | src/app/approver/actions.ts:76 | the notice starts "Your PTO request has been " and ends " by the department approver." |
| Approver.ApproverNoticeTexts | src/app/approver/actions.ts:76 | the notices for the two decisions, word for word |
| Approver.UpdateRequestStatus | src/app/approver/actions.ts:11-81 | succeeds exactly when the approver check passes; then only that request's status changes; on failure nothing changes |
| Admin.MakeUserAdmin | src/app/admin/actions.ts:8-20 | succeeds exactly for a stored user, whose role becomes ADMIN with every other field and table unchanged |
| Admin.DeleteUser | src/app/admin/actions.ts:22-33 | succeeds exactly for a stored user that the referential action does not stop (Restrict with requests on file fails); afterwards the user row is gone, no user or department refers to it any more, and under Cascade exactly that user's requests are gone; on failure nothing changes |
| Admin.AssignDepartment | src/app/admin/actions.ts:35-47 | succeeds exactly for a stored user and an empty or existing department id; only that user's department changes, to none for the empty string and to the given id otherwise (DepartmentField) |
| Admin.UpdatePTOBalance | src/app/admin/actions.ts:49-61 | succeeds exactly for a stored user, whose balance becomes the given value |
| Admin.CreateDepartment | src/app/admin/actions.ts:63-74 | adds one department with no manager and no approver; fails, changing nothing, exactly when the schema makes names unique and a stored department already has the name (NameTaken); under that schema, unique names stay unique |
| Admin.ClearDepartment | src/app/admin/actions.ts:78-82 | afterwards no user references the department; the users that did lose it, and every other user is unchanged |
| Admin.ClearUnknownDepartment | src/app/admin/actions.ts:78-82 | with the foreign key intact, clearing an unknown department changes no user |
| Admin.DeleteDepartment | src/app/admin/actions.ts:76-95 | the users are always cleared of the department first; the delete succeeds exactly when it exists, and on failure the user table is unchanged |
| Auth.SignUpCheck | src/lib/auth.ts:56-68 | a missing name is refused first, then an email already registered; passes exactly otherwise |
| Auth.SignIn | src/lib/auth.ts:92-117 | an unknown email is "Invalid email or password"; success exactly when a user with that email has a stored hash the password matches, returning that user's id, email, name, role and status |
| Auth.WrongPasswordLooksLikeUnknownEmail | src/lib/auth.ts:97-108 | a wrong password and an unknown email produce the same result |
| Auth.Authorize | src/lib/auth.ts:49-122 | missing credentials are refused with no write; sign-up succeeds exactly when its check passes and inserts one row (SignUpUser: role USER, status PENDING, the hashed password, the schema's default balance); sign-in changes nothing |
| Auth.JwtCallback | src/lib/auth.ts:134-158 | at sign-in the token takes the user's id, role and status; later a token whose user is gone is refused with "User not found", one whose stored user's role or status differs from the token's with "User role or status has changed", and an accepted token is returned unchanged |
| Auth.RoleChangeForcesSignOut | src/lib/auth.ts:146-155 | changing a signed-in user's stored role makes the next token check fail with "User role or status has changed" |
| Auth.SessionCallback | src/lib/auth.ts:159-170 | the session's user carries the token's id, role and status and keeps its email, name and expiry |
| Auth.SessionMirrorsSignedInUser | src/lib/auth.ts:134-170 | after a successful sign-in the session reports the stored user's id, role and status |
| Middleware.MiddlewareDecision | src/middleware.ts:6-39 | the rules in order: the account-pending page (no token to sign-in, non-pending to the dashboard, pending stays); a pending token anywhere else but sign-in goes to account-pending; non-admins leave /admin for the dashboard; non-active tokens leave /dashboard for account-pending; the request proceeds exactly when no rule fires |
| Middleware.PendingUserKeptOnAccountPending | src/middleware.ts:21-38 | a pending token is sent to the account-pending page from every admin and dashboard path |
| Middleware.DashboardDecidedByStatus | src/middleware.ts:21-38 | on a dashboard path an ACTIVE token proceeds and every other token is sent to account-pending |
| Middleware.Route | src/middleware.ts:5-49 | paths outside the matcher (Matched: /dashboard, /admin and their sub-paths, /account-pending) are not guarded; a guarded path without a token (the `authorized` callback) goes to sign-in; otherwise the inner rules decide |
| Middleware.InnerNoTokenBranchUnreachable | src/middleware.ts:11-14 | behind the token requirement the inner function never sends a request to sign-in |
| Webhook.BuildName | src/app/api/webhooks/clerk/route.ts:92-94 | the built name is empty or carries no leading or trailing white space |
| Common.Trim | src/app/api/webhooks/clerk/route.ts:92-94 | `String.prototype.trim`: the result is empty or neither starts nor ends with a white-space or line-terminator character |
| Common.TrimSlice | src/app/api/webhooks/clerk/route.ts:92-94 | the trimmed string is a contiguous slice of the input, and everything before and after that slice is white space |
| Webhook.BuildNameOfTwoParts | src/app/api/webhooks/clerk/route.ts:92-94 | with trimmed first and last names the name is "first last" |
| Webhook.BuildNameOfFirstOnly | src/app/api/webhooks/clerk/route.ts:92-94 | with no last name the name is the first name, without a trailing space |
| Webhook.BuildNameOfLastOnly | src/app/api/webhooks/clerk/route.ts:148-150 | with no first name the name is the last name, without a leading space |
| Webhook.BuildNameSlice | src/app/api/webhooks/clerk/route.ts:148-150 | the name is the slice of "first last" left after cutting the white space at both ends, with nothing cut from inside |
| Webhook.BuildNameOfNothing | src/app/api/webhooks/clerk/route.ts:92-94 | with neither name the name is empty |
| Webhook.BuildNameDropsVerticalTab | src/app/api/webhooks/clerk/route.ts:92-94 | `trim` removes every JavaScript white-space character: a first name "Ann" followed by a vertical tab builds "Ann" |
| Webhook.NoBreakSpaceNameKeepsStoredName | src/app/api/webhooks/clerk/route.ts:148-169 | a membership whose first name is a lone no-break space builds an empty name, so the stored name is kept |
| Webhook.MembershipRoleExamples | src/app/api/webhooks/clerk/route.ts:146-168 | the role test `role.toLowerCase() === "admin"` (MembershipRole) ignores case and nothing else: "admin", "Admin" and "ADMIN" give ADMIN, while "org:admin", " admin" and "member" give USER |
| Common.NoCapitalsLeft | src/app/api/webhooks/clerk/route.ts:146 | no capital letter is left in a lower-cased string (ToLower) |
| Common.LowerTwice | src/app/api/webhooks/clerk/route.ts:146 | lower-casing an already lower-cased string changes nothing |
| Webhook.InsertCheck | src/app/api/webhooks/clerk/route.ts:88-98 | an insert passes exactly when both the id and the email are unused |
| Webhook.ApplyMembership | src/app/api/webhooks/clerk/route.ts:163-171 | the role becomes the mapped role; the name is replaced only by a non-empty built name; id, email, department, status and balance are kept |
| Webhook.HandleWebhook | src/app/api/webhooks/clerk/route.ts:71-201 | no payload answers 400 (ResponseStatus) with no write; user.created inserts a USER with balance 0 exactly when the first email is present (FirstEmail) and the id and email are free; user.updated updates email and name, or inserts when the id is new; membership events re-role a known user and ignore an unknown one; user.deleted succeeds exactly for a stored id the referential action does not stop, with the outcome of Admin.DeleteUser (DeletedOutcome); every event other than a successful delete leaves departments and requests unchanged |
| Webhook.MembershipApplied | src/app/api/webhooks/clerk/route.ts:159-178 | a membership event keeps the set of user ids, rewrites a known user's role and name as the membership says, and leaves every other row (and an unknown id) untouched |
| Webhook.MembershipKeepsInvariants | src/app/api/webhooks/clerk/route.ts:163-171 | re-roling and renaming a user keeps the user ids, the unique emails and the department references valid |
| Webhook.HandleUserCreated | src/app/api/webhooks/clerk/route.ts:79-100 | without a non-empty first email (FirstEmail) the event fails with no write; otherwise exactly one row (NewClerkUser: role USER, balance 0, the schema's default status) is inserted exactly when neither the id nor the email is taken, and the table is unchanged on failure |
| Webhook.HandleUserUpdated | src/app/api/webhooks/clerk/route.ts:102-141 | a known user gets the new email and built name unless another user holds that email; an unknown id is inserted as on user.created; on failure nothing changes |
| Webhook.HandleUserDeleted | src/app/api/webhooks/clerk/route.ts:182-187 | succeeds exactly when the id is stored and the referential action allows the delete; then the tables are those of Admin.DeleteUser; an unknown id and a restricted delete fail with different errors and change nothing |
| Webhook.ApplyMembershipEvent | src/app/api/webhooks/clerk/route.ts:143-180 | a known user gets the membership's role and name, an unknown user id leaves the table unchanged |
| TeamBalances.SpanDays | src/app/manager/components/TeamPTOBalances.tsx:32-36 | a request's days are end − start + 1, at least 1 for a well-formed range |
| TeamBalances.Approved | src/app/manager/components/TeamPTOBalances.tsx:29-30 | the filter keeps exactly the APPROVED requests, in order (ApprovedAppend) |
| TeamBalances.ApprovedCounts | src/app/manager/components/TeamPTOBalances.tsx:29-30 | each APPROVED request appears in the filtered list as often as in the input, and no other request appears |
| TeamBalances.CalculateUsedPTO | src/app/manager/components/TeamPTOBalances.tsx:28-39 | with no APPROVED request the used days are 0; with well-formed ranges they are at least the number of approved requests |
| TeamBalances.UsedPTOSnoc | src/app/manager/components/TeamPTOBalances.tsx:28-39 | one more request adds its span exactly when it is APPROVED |
| TeamBalances.UsedPTOAppend | src/app/manager/components/TeamPTOBalances.tsx:28-39 | the used days of two concatenated request lists add up |
| TeamBalances.DecisionChangesUsedBySpan | src/app/manager/components/TeamPTOBalances.tsx:28-39 | approving a PENDING request raises the used days by exactly its span; denying it leaves them unchanged |
| TeamBalances.RemainingDays | src/app/manager/components/TeamPTOBalances.tsx:75 | remaining plus used is the balance, and remaining is at most the balance minus one day per approved request |
| TeamBalances.ApprovalKeepsLowBalance | src/app/manager/components/TeamPTOBalances.tsx:75-84 | approving a well-formed PENDING request never clears the red marking (LowBalance: fewer than 5 days remaining) |
| TeamBalances.GroupKey | src/app/manager/components/TeamPTOBalances.tsx:44 | the group is the department's name when it is non-empty, "No Department" otherwise |
| TeamBalances.Members | src/app/manager/components/TeamPTOBalances.tsx:42-50 | a group holds exactly the users with that key |
| TeamBalances.MembersCounts | src/app/manager/components/TeamPTOBalances.tsx:44-48 | each user with the key appears in its group as often as in the input, and no other user appears |
| TeamBalances.KeysCover | src/app/manager/components/TeamPTOBalances.tsx:42-50 | every user's key has a group |
| TeamBalances.KeysSound | src/app/manager/components/TeamPTOBalances.tsx:42-50 | every group's key belongs to some user |
| TeamBalances.KeysDistinct | src/app/manager/components/TeamPTOBalances.tsx:42-50 | no group is opened twice |
| TeamBalances.GroupByDepartment | src/app/manager/components/TeamPTOBalances.tsx:42-50 | the groups are created in order of first appearance; each holds its users in input order; every user lands in its key's group; all groups together, in creation order, are a permutation of the input |
| TeamBalances.GroupedUsers | src/app/manager/components/TeamPTOBalances.tsx:42-51 | an administrator gets the department grouping; anyone else gets the single group "Team" holding the input list; either way the rendered rows (RenderedRows) are a permutation of the input |
| TeamBalances.RenderedRows | src/app/manager/components/TeamPTOBalances.tsx:72-73 | the rows as `Object.entries` lists the groups are the users of all groups, and when no group name is an array index they are in creation order |
| TeamBalances.FlattenPermutation | src/app/manager/components/TeamPTOBalances.tsx:72-73 | listing the same group names in any other order shows the same users |
| PropertyOrder.EntriesOrder | src/app/manager/components/TeamPTOBalances.tsx:72 | `Object.entries` order: a permutation of the creation order with the array-index names first, in ascending numeric order, and every other name in creation order |
| PropertyOrder.SortIndices | src/app/manager/components/TeamPTOBalances.tsx:72 | the array-index names sorted ascending by value, a permutation of the input |
| PropertyOrder.NoIndicesKeepCreationOrder | src/app/manager/components/TeamPTOBalances.tsx:72 | without an array-index name, `Object.entries` keeps creation order |
| PropertyOrder.IndexKeysListedFirst | src/app/manager/components/TeamPTOBalances.tsx:72 | departments created as "Sales", "2024", "7" are listed as "7", "2024", "Sales" |
| DepartmentOverview.CountStatus | src/app/approver/components/DepartmentOverview.tsx:43-57 | a status count never exceeds the number of requests |
| DepartmentOverview.CalculateDepartmentStats | src/app/approver/components/DepartmentOverview.tsx:30-62 | the nested loops yield the head count, the summed balances, the summed used days of each user as the team table counts them, and the number of requests in each status |
| DepartmentOverview.StatusesPartitionRequests | src/app/approver/components/DepartmentOverview.tsx:43-57 | for one user, pending + approved + denied is the number of requests |
| DepartmentOverview.CountsPartitionRequests | src/app/approver/components/DepartmentOverview.tsx:40-58 | across the department, pending + approved + denied is the number of requests |
| DepartmentOverview.UsedAtLeastApprovedCount | src/app/approver/components/DepartmentOverview.tsx:44-52 | with well-formed ranges a user's used days are at least the user's approved count |
| DepartmentOverview.UsedDaysAtLeastApproved | src/app/approver/components/DepartmentOverview.tsx:44-52 | with well-formed ranges the department's used days are at least its approved count |
| DepartmentOverview.CountersGrowWithUsers | src/app/approver/components/DepartmentOverview.tsx:31-58 | with non-negative balances and well-formed ranges, no counter is larger for a prefix of the users than for all of them |
| DepartmentOverview.NoLowMemberNoMark | src/app/approver/components/DepartmentOverview.tsx:85-97 | when no member is low (at least five days left each), the days left are at least five per employee |
| DepartmentOverview.OverviewUnmarkedWithoutLowMembers | src/app/approver/components/DepartmentOverview.tsx:85-97 | a department none of whose members is low is not marked amber (Marked: days left below five per employee) |

## Left out

- Persistence: the database driver, `revalidatePath` and concurrency are left out. The store is three in-memory maps and each action runs atomically, so two decides racing on one request are not modelled.
- Email: the notification mail is left out (`sendPTOEmail`, the mail route and the mail template). Only the notice texts are modelled. No action depends on whether the mail was sent.
- The webhook's signature verification and its development-mode bypass are left out. They are a foreign library and environment reads. `HandleWebhook` starts from a decoded event.
- Password hashing and comparison: bcrypt's `hash` and `compare` are function parameters. Session issuance, cookies and the session lifetime belong to the authentication library and are left out.
- The database schema is not part of this model. What it would fix is the parameter `Schema`: the status of a webhook-created user, the balance of a signed-up user, the referential action of `PTORequest.userId` on a user's deletion (`Restrict` or `Cascade`), and whether `Department.name` is unique.
- Admin.DeleteUser: the referential action is a parameter, not a fact. The optional references to the deleted user (a user's manager, a department's manager or approver) are assumed to be set to none, which is what Prisma does for an optional relation by default.
- Webhook.HandleUserDeleted: the same two assumptions as Admin.DeleteUser. A restricted delete is reported as its own failure, `UserHasRequests`; the code answers 500 for it like for any other database error.
- Common.ToLower: only the ASCII letters are lower-cased. `toLowerCase` maps every Unicode letter, so the two differ on non-ASCII input. In particular U+212A KELVIN SIGN lower-cases to the ASCII "k", and U+0130 to "i" followed by a combining dot; other non-ASCII letters lower-case to non-ASCII ones. The comparisons it feeds still have the same outcome: the membership role is compared with "admin", which has no "k" and no combining dot, and the status names are ASCII.
- Dates: calendar dates are whole day numbers. Time zones, local versus UTC `getDay`, and timestamps that are not at midnight are left out, so `Math.ceil` on a fractional day difference does not arise.
- Balances are integers, as the balance form parses them. The fractional balances the seed script can produce are left out.
- The seed script and all pages, layouts, forms, modals and tables are left out. The pending-only list filters are one-line filters inside rendering code.
- Dashboard.CreatePTORequest: the generic catch ("Failed to create PTO request") is not modelled. With a fresh request id the modelled insert cannot fail.
- Webhook.HandleWebhook: only these database refusals are modelled: a duplicate id, a duplicate email, a delete of an unknown id, and a delete the referential action restricts. A `user.deleted` event whose payload lacks an id is treated as an event without data.
- Auth.Authorize: the library's own handling of a thrown error (the catch-all rethrow) is left out. A user without a stored password hash makes `compare` throw. That is modelled as the error `NoStoredPassword`, whose message is the library's, not the application's.
- TeamBalances.GroupByDepartment: the groups are a map, so a department named like an inherited JavaScript object property (`constructor`, `toString`) is treated as a fresh key. In the code, such a name would reach `push` on a non-array.
- Not modelled, because the code does not do them: debiting the balance on approval, reserving it for pending requests, and enforcing that a department's manager or approver holds the matching role.
