/**
 * The request gate that runs before every page and API route: sign-in
 * pages, the auth API and the landing page are open, everything else
 * needs a session.
 */
module Middleware {

  datatype Decision = Next | Redirect(location: string)

  const LoginPath := "/login"

  /** The paths the matcher leaves out, after the leading `/`: build assets, icons, the worker, the manifest. */
  function ExcludedPrefixes(): seq<string> {
    ["_next/static", "_next/image", "favicon.ico", "icon", "apple-icon", "sw.js", "manifest.webmanifest"]
  }

  /** The matcher `/((?!_next/static|...).*)`: a path from the root not beginning with an excluded prefix. */
  predicate Matched(path: string) {
    && |path| >= 1 && path[0] == '/'
    && forall i :: 0 <= i < |ExcludedPrefixes()| ==> !(ExcludedPrefixes()[i] <= path[1..])
  }

  predicate IsOpenPath(path: string) {
    "/api/auth" <= path || "/login" <= path || path == "/"
  }

  /** The middleware body as written: open paths pass, otherwise a request without a session goes to the login page. */
  function Gate(path: string, loggedIn: bool): Decision {
    if IsOpenPath(path) then Next
    else if !loggedIn then Redirect(LoginPath)
    else Next
  }

  /** What the application does with a request: the gate runs only on matched paths. */
  function Route(path: string, loggedIn: bool): Decision {
    if Matched(path) then Gate(path, loggedIn) else Next
  }

  /** A signed-in user is never redirected. */
  lemma SignedInPasses(path: string)
    ensures Route(path, true) == Next
  {
  }

  /** The landing page, the sign-in pages and the auth API are open to everyone. */
  lemma OpenPathsPass(path: string, loggedIn: bool)
    requires path == "/" || "/login" <= path || "/api/auth" <= path
    ensures Route(path, loggedIn) == Next
  {
  }

  /** A request is sent to the login page exactly when it is signed out and aims at a gated path. */
  lemma RedirectExactly(path: string, loggedIn: bool)
    ensures Route(path, loggedIn) != Next <==> !loggedIn && Matched(path) && !IsOpenPath(path)
    ensures Route(path, loggedIn) != Next ==> Route(path, loggedIn) == Redirect(LoginPath)
  {
  }

  /** The redirect target is itself open, so a signed-out user is redirected at most once. */
  lemma NoRedirectLoop(path: string, loggedIn: bool)
    ensures Route(path, loggedIn).Redirect? ==> Route(Route(path, loggedIn).location, loggedIn) == Next
  {
    assert "/login" <= LoginPath;
  }

  /** The service worker and the manifest are served without a session. */
  lemma WorkerAndManifestBypass(loggedIn: bool)
    ensures Route("/sw.js", loggedIn) == Next
    ensures Route("/manifest.webmanifest", loggedIn) == Next
  {
    assert ExcludedPrefixes()[5] <= "/sw.js"[1..];
    assert ExcludedPrefixes()[6] <= "/manifest.webmanifest"[1..];
  }

  /**
   * The daily job is started by a scheduler that sends the bearer secret
   * but no session, and the gate sends it to the login page before the
   * route's own check runs.
   */
  lemma SchedulerIsRedirected()
    ensures Route("/api/cron/daily", false) == Redirect(LoginPath)
  {
    var p := "/api/cron/daily";
    assert p[1..] == "api/cron/daily";
    forall i | 0 <= i < |ExcludedPrefixes()|
      ensures !(ExcludedPrefixes()[i] <= p[1..])
    {
      assert ExcludedPrefixes()[i][0] != 'a' || ExcludedPrefixes()[i][2] != 'i';
    }
    assert !("/api/auth" <= p) by { assert p[5] != "/api/auth"[5]; }
    assert !("/login" <= p) by { assert p[1] != 'l'; }
  }

  /** The gate with the scheduled-job routes left open; they authenticate with their own secret. */
  function GateWithCron(path: string, loggedIn: bool): Decision {
    if "/api/cron" <= path then Next else Gate(path, loggedIn)
  }

  function RouteWithCron(path: string, loggedIn: bool): Decision {
    if Matched(path) then GateWithCron(path, loggedIn) else Next
  }

  /** With the corrected gate the scheduler reaches the route, and every other request is treated as before. */
  lemma CronReachesRoute(path: string, loggedIn: bool)
    ensures "/api/cron" <= path ==> RouteWithCron(path, loggedIn) == Next
    ensures !("/api/cron" <= path) ==> RouteWithCron(path, loggedIn) == Route(path, loggedIn)
    ensures RouteWithCron("/api/cron/daily", false) == Next
  {
    assert "/api/cron" <= "/api/cron/daily";
  }
}
