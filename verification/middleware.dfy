/** The routing decision of middleware.ts: a function of whether there is a
    session and of the request path. */
module Middleware {
  import opened Text

  datatype Decision = Next | Redirect(target: string)

  const LoginPath := "/login"
  const OnboardingPath := "/onboarding"
  const HomePath := "/"

  predicate IsApi(path: string) {
    StartsWith(path, "/api")
  }

  predicate IsStatic(path: string) {
    || StartsWith(path, "/_next")
    || StartsWith(path, "/favicon.ico")
    || StartsWith(path, "/public")
    || StartsWith(path, "/images")
  }

  /** Exact matches only: "/login/" is not an auth route. */
  predicate IsAuthRoute(path: string) {
    path == LoginPath || path == OnboardingPath
  }

  /** Pages a visitor without a session is sent away from. */
  predicate Protected(path: string) {
    !IsApi(path) && !IsStatic(path) && !IsAuthRoute(path)
  }

  function Decide(hasSession: bool, path: string): (d: Decision)
    ensures !hasSession ==> (d == Redirect(LoginPath) <==> Protected(path))
    ensures hasSession ==> (d == Redirect(HomePath) <==> path == LoginPath)
    ensures d == Next || d == Redirect(LoginPath) || d == Redirect(HomePath)
    // nothing else is redirected
    ensures d.Redirect? <==> (!hasSession && Protected(path)) || (hasSession && path == LoginPath)
  {
    if !hasSession && Protected(path) then Redirect(LoginPath)
    else if hasSession && path == LoginPath then Redirect(HomePath)
    else Next
  }

  /** No redirect loops: following a redirect with the same session state
      reaches a page that passes through. */
  lemma NoRedirectLoop(hasSession: bool, path: string)
    requires Decide(hasSession, path).Redirect?
    ensures Decide(hasSession, Decide(hasSession, path).target) == Next
  {
  }

  /** API paths are never redirected, with or without a session. */
  lemma ApiPassesThrough(hasSession: bool, path: string)
    requires IsApi(path)
    ensures Decide(hasSession, path) == Next
  {
    assert !IsApi(LoginPath) by {
      assert LoginPath[..4][1] != "/api"[1];
    }
  }

  /** A visitor without a session reaches the auth pages and static assets. */
  lemma VisitorPassesThrough(path: string)
    requires IsAuthRoute(path) || IsStatic(path)
    ensures Decide(false, path) == Next
  {
  }

  /** A signed-in user reaches onboarding and every page but the login
      page. */
  lemma SessionPassesThrough(path: string)
    requires path != LoginPath
    ensures Decide(true, path) == Next
  {
  }
}
