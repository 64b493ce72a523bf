/** urlpatterns: the five named routes in order, then the catch-all, resolved
    by first match. Paths are written without their leading '/'. */
module Urls {
  import opened Wrappers

  /** The views the patterns lead to; CatchAll is the lambda answering 404. */
  datatype View = HealthzView | PingView | UserInfoView | CreateUserView | VerifyUserView | CatchAll

  /** `path(route, view)` matches the route exactly; `re_path(r'^.*$', view)`
      matches what the regular expression matches. */
  datatype Pattern = Route(route: string, view: View) | AnyLine(view: View)

  const URL_PATTERNS: seq<Pattern> := [
    Route("healthz", HealthzView),
    Route("ping", PingView),
    Route("v1/user/self", UserInfoView),
    Route("v1/user", CreateUserView),
    Route("v1/verify", VerifyUserView),
    AnyLine(CatchAll)
  ]

  /** `^.*$` under Python's re.search, as Django's RegexPattern applied it:
      '.' matches anything but a newline and '$' matches at the end or just
      before a final newline. (Newer Django releases full-match an endpoint
      pattern ending in '$', which refuses that final newline too.) */
  predicate MatchesAnyLine(path: string)
  {
    '\n' !in path || (path[|path| - 1] == '\n' && '\n' !in path[..|path| - 1])
  }

  predicate Matches(p: Pattern, path: string)
  {
    match p
    case Route(route, _) => path == route
    case AnyLine(_) => MatchesAnyLine(path)
  }

  /** The view of the first pattern that matches, None when none does (Django
      then answers with its own 404 page). */
  function FirstMatch(patterns: seq<Pattern>, path: string): (r: Option<View>)
    ensures r.Some? <==> exists i :: 0 <= i < |patterns| && Matches(patterns[i], path)
    ensures r.Some? ==> exists i :: 0 <= i < |patterns| && Matches(patterns[i], path) && patterns[i].view == r.value
                                    && forall j :: 0 <= j < i ==> !Matches(patterns[j], path)
  {
    if patterns == [] then None
    else if Matches(patterns[0], path) then Some(patterns[0].view)
    else
      var rest := patterns[1..];
      var r := FirstMatch(rest, path);
      if r.Some? then
        var i :| 0 <= i < |rest| && Matches(rest[i], path) && rest[i].view == r.value
                 && forall j :: 0 <= j < i ==> !Matches(rest[j], path);
        assert patterns[i + 1] == rest[i];
        assert forall j :: 1 <= j < i + 1 ==> patterns[j] == rest[j - 1];
        r
      else
        assert forall i :: 1 <= i < |patterns| ==> patterns[i] == rest[i - 1];
        r
  }

  /** The view a path is routed to. */
  function Resolve(path: string): Option<View>
  {
    FirstMatch(URL_PATTERNS, path)
  }

  /** The one path of a named view. */
  function PathOf(v: View): string
    requires v != CatchAll
  {
    match v
    case HealthzView => "healthz"
    case PingView => "ping"
    case UserInfoView => "v1/user/self"
    case CreateUserView => "v1/user"
    case VerifyUserView => "v1/verify"
  }

  /** Each named route leads to its own view: the catch-all, being last,
      shadows none of them. */
  lemma ResolveNamedRoutes()
    ensures Resolve("healthz") == Some(HealthzView)
    ensures Resolve("ping") == Some(PingView)
    ensures Resolve("v1/user/self") == Some(UserInfoView)
    ensures Resolve("v1/user") == Some(CreateUserView)
    ensures Resolve("v1/verify") == Some(VerifyUserView)
  {
  }

  /** A named view is reached from its own path and from no other, so
      v1/user and v1/user/self never collide. */
  lemma ResolveInjective(path: string, v: View)
    requires v != CatchAll
    ensures Resolve(path) == Some(v) <==> path == PathOf(v)
  {
    ResolveNamedRoutes();
    if path !in {"healthz", "ping", "v1/user/self", "v1/user", "v1/verify"} {
      ResolveOtherPaths(path);
    }
  }

  /** Any other path goes to the catch-all, or to no pattern at all when it
      holds a newline before its end; no named view runs. */
  lemma ResolveOtherPaths(path: string)
    requires path !in {"healthz", "ping", "v1/user/self", "v1/user", "v1/verify"}
    ensures Resolve(path) == (if MatchesAnyLine(path) then Some(CatchAll) else None)
  {
    assert forall i :: 0 <= i < 5 ==> !Matches(URL_PATTERNS[i], path);
    if MatchesAnyLine(path) {
      assert Matches(URL_PATTERNS[5], path);
    }
  }
}
