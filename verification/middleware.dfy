/**
 * The route guard. `MiddlewareDecision` is the inner function: an ordered
 * chain of rules over the token and the path, the first matching rule
 * deciding. `Route` wraps it the way the `withAuth` helper does: only the
 * matcher's paths are guarded, and the `authorized` callback sends a
 * request without a token to sign-in before the inner function runs.
 */
module Middleware {
  import opened Common
  import opened Domain
  import opened Auth

  const AccountPendingPath: string := "/account-pending"
  const SignInPath: string := "/auth/signin"
  const DashboardPath: string := "/dashboard"

  /** `NextResponse.redirect`, `NextResponse.next()`, or no response (the request proceeds). */
  datatype Decision = Redirect(target: string) | Next | Proceed

  predicate IsPending(token: Option<Jwt>)
  {
    token.Some? && token.value.status == Some(UserStatus.PENDING)
  }

  /** The inner `middleware` function: four rules, checked in order. */
  function MiddlewareDecision(token: Option<Jwt>, path: string): (d: Decision)
    ensures path == AccountPendingPath && token.None? ==> d == Redirect(SignInPath)
    ensures path == AccountPendingPath && token.Some? && !IsPending(token) ==> d == Redirect(DashboardPath)
    ensures path == AccountPendingPath && IsPending(token) ==> d == Next
    ensures path != AccountPendingPath && IsPending(token) && path != SignInPath ==> d == Redirect(AccountPendingPath)
    ensures (path != AccountPendingPath && !(IsPending(token) && path != SignInPath) &&
             StartsWith(path, "/admin") && (token.None? || token.value.role != Some(Role.ADMIN)))
            ==> d == Redirect(DashboardPath)
    ensures d == Next ==> path == AccountPendingPath
    ensures d == Proceed <==>
              path != AccountPendingPath && !(IsPending(token) && path != SignInPath) &&
              (StartsWith(path, "/admin") ==> token.Some? && token.value.role == Some(Role.ADMIN)) &&
              (StartsWith(path, "/dashboard") ==> token.Some? && token.value.status == Some(UserStatus.ACTIVE))
  {
    if path == AccountPendingPath then
      if token.None? then Redirect(SignInPath)
      else if token.value.status != Some(UserStatus.PENDING) then Redirect(DashboardPath)
      else Next
    else if IsPending(token) && path != SignInPath then Redirect(AccountPendingPath)
    else if StartsWith(path, "/admin") && (token.None? || token.value.role != Some(Role.ADMIN)) then
      Redirect(DashboardPath)
    else if StartsWith(path, "/dashboard") && (token.None? || token.value.status != Some(UserStatus.ACTIVE)) then
      Redirect(AccountPendingPath)
    else Proceed
  }

  /** A PENDING user never reaches an administrator or dashboard page: the pending rule fires first. */
  lemma PendingUserKeptOnAccountPending(token: Option<Jwt>, path: string)
    requires IsPending(token)
    requires StartsWith(path, "/admin") || StartsWith(path, "/dashboard")
    ensures MiddlewareDecision(token, path) == Redirect(AccountPendingPath)
  {
    assert path[1] == 'a' || path[1] == 'd';
    assert path != SignInPath && path != AccountPendingPath by {
      assert SignInPath[1] == 'a' && SignInPath[2] == 'u';
      assert AccountPendingPath[2] == 'c';
      if StartsWith(path, "/admin") {
        assert path[2] == 'd';
      } else {
        assert path[2] == 'a';
      }
    }
  }

  /**
   * On a dashboard page the outcome is decided by the status alone: an
   * ACTIVE token proceeds, anything else is sent to the account-pending page
   * (by the pending rule for a PENDING token, by the dashboard rule otherwise).
   */
  lemma DashboardDecidedByStatus(token: Option<Jwt>, path: string)
    requires StartsWith(path, "/dashboard")
    ensures token.Some? && token.value.status == Some(UserStatus.ACTIVE) ==> MiddlewareDecision(token, path) == Proceed
    ensures !(token.Some? && token.value.status == Some(UserStatus.ACTIVE)) ==>
              MiddlewareDecision(token, path) == Redirect(AccountPendingPath)
  {
    assert path[1] == 'd' && path[2] == 'a';
    assert path != SignInPath && path != AccountPendingPath && !StartsWith(path, "/admin") by {
      assert SignInPath[1] == 'a' && AccountPendingPath[1] == 'a';
    }
  }

  /** The `authorized` callback: a request is authorized exactly when it carries a token. */
  predicate Authorized(token: Option<Jwt>)
  {
    token.Some?
  }

  /** The matcher: "/dashboard/:path*", "/admin/:path*" and "/account-pending". */
  predicate Matched(path: string)
  {
    path == "/dashboard" || StartsWith(path, "/dashboard/") ||
    path == "/admin" || StartsWith(path, "/admin/") ||
    path == AccountPendingPath
  }

  datatype RouteOutcome = NotGuarded | SignInRequired | Decided(decision: Decision)

  /** The guard as a request meets it: matcher, then `authorized`, then the inner function. */
  function Route(token: Option<Jwt>, path: string): (r: RouteOutcome)
    ensures !Matched(path) ==> r == NotGuarded
    ensures Matched(path) && !Authorized(token) ==> r == SignInRequired
    ensures r.Decided? ==> token.Some? && r.decision == MiddlewareDecision(token, path)
  {
    if !Matched(path) then NotGuarded
    else if !Authorized(token) then SignInRequired
    else Decided(MiddlewareDecision(token, path))
  }

  /**
   * Behind `withAuth`, the inner function only ever sees a token, so its own
   * "no token" branches never decide a guarded request.
   */
  lemma InnerNoTokenBranchUnreachable(token: Option<Jwt>, path: string)
    requires Route(token, path).Decided?
    ensures Route(token, path).decision != Redirect(SignInPath)
  {
  }
}
