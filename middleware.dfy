/**
 * The route guard that runs before the matched pages: a decision over the
 * request path and the value of the "token" cookie.
 */
module Middleware {
  import opened Wrappers
  import opened JsString

  /** `PROTECTED_PATHS` */
  const ProtectedPaths: seq<string> := ["/dashboard"]

  /** `config.matcher`: the only paths the guard is invoked for. */
  const Matcher: seq<string> := ["/dashboard", "/login", "/signup"]

  datatype Decision =
    | RedirectToLogin(from: string)   // to "/login?from=<path>"
    | RedirectToDashboard             // to "/dashboard"
    | Next                            // `NextResponse.next()`

  /** `token` is truthy: present and not the empty string. */
  predicate HasToken(token: Option<string>)
    ensures HasToken(token) <==> token.Some? && |token.value| > 0
  {
    token.Some? && token.value != []
  }

  /** `paths.some((path) => pathname.startsWith(path))` */
  function AnyPrefix(pathname: string, paths: seq<string>): (r: bool)
    ensures r <==> exists k :: 0 <= k < |paths| && StartsWith(pathname, paths[k])
  {
    if paths == [] then false
    else StartsWith(pathname, paths[0]) || AnyPrefix(pathname, paths[1..])
  }

  predicate IsProtected(pathname: string) {
    AnyPrefix(pathname, ProtectedPaths)
  }

  predicate IsAuthPage(pathname: string) {
    pathname == "/login" || pathname == "/signup"
  }

  /** `middleware(request)` */
  function Guard(pathname: string, token: Option<string>): (d: Decision)
    ensures d.RedirectToLogin? <==> IsProtected(pathname) && !HasToken(token)
    ensures d.RedirectToLogin? ==> d.from == pathname
    ensures d == RedirectToDashboard ==> IsAuthPage(pathname) && HasToken(token)
  {
    if IsProtected(pathname) && !HasToken(token) then RedirectToLogin(pathname)
    else if IsAuthPage(pathname) && HasToken(token) then RedirectToDashboard
    else Next
  }

  /** What a request to `pathname` meets: the guard for a matched path, nothing otherwise. */
  function Route(pathname: string, token: Option<string>): (d: Decision)
    ensures pathname !in Matcher ==> d == Next
    ensures pathname in Matcher ==> d == Guard(pathname, token)
  {
    if pathname in Matcher then Guard(pathname, token) else Next
  }

  /** The protected test is a prefix match against "/dashboard". */
  lemma ProtectedIsDashboardPrefix(pathname: string)
    ensures IsProtected(pathname) <==> StartsWith(pathname, "/dashboard")
  {
  }

  /** "/dashboard/x" and "/dashboardx" both count as protected; "/login" and "/signup" do not. */
  lemma ProtectedExamples()
    ensures IsProtected("/dashboard") && IsProtected("/dashboard/x") && IsProtected("/dashboardx")
    ensures !IsProtected("/login") && !IsProtected("/signup") && !IsProtected("/")
  {
    assert "/dashboard/x"[..10] == "/dashboard";
    assert "/dashboardx"[..10] == "/dashboard";
    assert "/login"[..6] == "/login";
  }

  /** The two redirect conditions never hold together, so checking the protected one first loses nothing. */
  lemma RedirectConditionsExclusive(pathname: string)
    ensures !(IsProtected(pathname) && IsAuthPage(pathname))
  {
    if IsAuthPage(pathname) {
      ProtectedExamples();
    }
  }

  /**
   * The three outcomes, each with exactly the condition that produces it:
   * a protected path without a token goes to the login page with `from` set
   * to the path; "/login" or "/signup" with a token goes to the dashboard;
   * everything else passes through.
   */
  lemma GuardOutcomes(pathname: string, token: Option<string>)
    ensures Guard(pathname, token).RedirectToLogin? <==> IsProtected(pathname) && !HasToken(token)
    ensures Guard(pathname, token).RedirectToLogin? ==> Guard(pathname, token).from == pathname
    ensures Guard(pathname, token) == RedirectToDashboard <==> IsAuthPage(pathname) && HasToken(token)
    ensures Guard(pathname, token) == Next <==>
      (IsProtected(pathname) && HasToken(token)) || (IsAuthPage(pathname) && !HasToken(token))
      || (!IsProtected(pathname) && !IsAuthPage(pathname))
  {
    RedirectConditionsExclusive(pathname);
  }

  /** An absent cookie and an empty cookie are treated alike. */
  lemma EmptyTokenIsNoToken(pathname: string)
    ensures Guard(pathname, Some("")) == Guard(pathname, None)
  {
  }

  /** For the three matched paths the outcome is fixed by whether a token is present. */
  lemma RouteOnMatchedPaths(token: Option<string>)
    ensures Route("/dashboard", token) == if HasToken(token) then Next else RedirectToLogin("/dashboard")
    ensures Route("/login", token) == if HasToken(token) then RedirectToDashboard else Next
    ensures Route("/signup", token) == if HasToken(token) then RedirectToDashboard else Next
  {
    ProtectedExamples();
  }

  /**
   * The guard runs only for the matched paths, so a path below the dashboard
   * passes through even without a token, although the guard's own prefix
   * test would have sent it to the login page.
   */
  lemma UnmatchedPathsPassThrough(pathname: string, token: Option<string>)
    ensures pathname !in Matcher ==> Route(pathname, token) == Next
    ensures Route("/dashboard/x", None) == Next && Guard("/dashboard/x", None) == RedirectToLogin("/dashboard/x")
  {
    ProtectedExamples();
    assert "/dashboard/x" !in Matcher by {
      assert |"/dashboard/x"| != |"/dashboard"|;
    }
  }
}
