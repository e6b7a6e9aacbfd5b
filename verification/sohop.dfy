/** The top level of sohop.go: choosing the one configured authorizer, the
    session cookie's name and lifetime, and the gateway's router.

    `log.Fatal` ends the process; here it is an error result carrying the
    fatal message. The random draw of `rand.Int` is an input. The router is
    gorilla/mux: routes are tried in registration order and the first one
    whose host and request matchers all accept serves the request. */
module Sohop {
  import opened Wrappers
  import opened Strings
  import opened Durations
  import opened Config
  import Auth
  import Proxy

  // ---------------------------------------------------------------------------
  // The authorizer

  /** `auth.Authorizer`: the one identity provider in use. */
  datatype Authorizer = Github(github: GithubAuth) | Google(google: Auth.GoogleAuth)

  const BothAuthorizers: string :=
    "can only use one authorizer; please configure either Google or Github authorization"
  const NoAuthorizer: string :=
    "must define an authorizer; please configure either Google or Github authorization"

  /** `Config.authorizer`: exactly one of GitHub and Google must be
      configured; any other configuration is fatal. */
  function SelectAuthorizer(c: Config): (r: Result<Authorizer, string>)
    ensures r.Ok? <==> c.github.Some? != c.google.Some?
    ensures c.github.Some? && c.google.Some? ==> r == Err(BothAuthorizers)
    ensures c.github.None? && c.google.None? ==> r == Err(NoAuthorizer)
    ensures r.Ok? && r.value.Github? ==> c.github == Some(r.value.github)
    ensures r.Ok? && r.value.Google? ==> c.google == Some(r.value.google)
  {
    if c.github.Some? && c.google.Some? then Err(BothAuthorizers)
    else if c.github.None? && c.google.None? then Err(NoAuthorizer)
    else if c.github.Some? then Ok(Github(c.github.value))
    else Ok(Google(c.google.value))
  }

  // ---------------------------------------------------------------------------
  // The session cookie

  /** `math.MaxInt64`, the exclusive bound of the random draw. */
  const MaxInt64: nat := 9_223_372_036_854_775_807

  /** `sessionID`: "_s" and the decimal digits of a number drawn from
      [0, MaxInt64); `draw` is what `rand.Int` returned, and a failed draw
      is fatal. */
  function SessionID(draw: Result<nat, string>): (r: Result<string, string>)
    requires draw.Ok? ==> draw.value < MaxInt64
    ensures r.Err? <==> draw.Err?
    ensures r.Err? ==> r.error == draw.error
    ensures r.Ok? ==> |r.value| >= 3 && r.value[..2] == "_s"
    ensures r.Ok? ==> forall i :: 2 <= i < |r.value| ==> IsDigit(r.value[i])
    ensures r.Ok? && |r.value| > 3 ==> r.value[2] != '0'
  {
    match draw
    case Err(e) => Err(e)
    case Ok(n) => Ok("_s" + Decimal(n))
  }

  /** The digits of the session name give the draw back, so different draws
      name different cookies, and the name is at most 21 characters long. */
  lemma SessionIDReadsBack(n: nat)
    requires n < MaxInt64
    ensures var id := SessionID(Ok(n)).value;
      |id| <= 21 && ParseDecimal(id[2..]) == n
  {
    var id := SessionID(Ok(n)).value;
    assert id[2..] == Decimal(n);
    ParseDecimalInverse(n);
    assert Pow10(5) == 100_000;
    assert Pow10(10) == 10_000_000_000;
    assert Pow10(15) == 1_000_000_000_000_000;
    assert n < Pow10(19);
    DecimalLength(n, 19, Pow10(19));
  }

  /** `sessionAge`: a session lasts one day. */
  const SessionAge: int := 24 * Hour

  /** `store.Options`: the attributes of the session cookie. */
  class CookieOptions {
    var httpOnly: bool
    var secure: bool
    var domain: string
    var maxAge: int
  }

  // ---------------------------------------------------------------------------
  // The router

  /** The host a route accepts: one exact name, or `{subdomain:[a-z]+}.domain`. */
  datatype HostPattern = HostExact(host: string) | LowerSubdomainOf(domain: string)

  /** A route's request matcher: an exact path, a path prefix, or the
      `requiresAuth` matcher over the configured upstreams. */
  datatype Matcher =
    | Path(path: string)
    | PathPrefix(prefix: string)
    | NeedsAuth(specs: map<string, UpstreamSpec>)

  /** What serves a request. */
  datatype Target =
    | AuthCallback(authorizer: Authorizer)        // `auth.Handler` at /authorized
    | SessionDump                                  // the /session page
    | HealthCheck                                  // `health(conf)` at /check
    | Authenticated(authorizer: Authorizer, upstreams: map<string, Proxy.Upstream>)  // `authentication(proxy)`
    | Forward(upstreams: map<string, Proxy.Upstream>)                              // `proxy`
    | NotFound                                     // the router's `notFound` handler

  datatype Route = Route(host: HostPattern, matcher: Matcher, target: Target)

  /** A non-empty run of lower-case ASCII letters, the `[a-z]+` of the host pattern. */
  predicate LowerLabel(s: string)
  {
    |s| > 0 && forall i :: 0 <= i < |s| ==> 'a' <= s[i] <= 'z'
  }

  predicate HostMatches(p: HostPattern, host: string)
  {
    match p
    case HostExact(h) => host == h
    case LowerSubdomainOf(d) =>
      |host| > |d| && host[|host| - |d|..] == d && host[|host| - |d| - 1] == '.' &&
      LowerLabel(host[..|host| - |d| - 1])
  }

  predicate RequestMatches(m: Matcher, host: string, path: string)
  {
    match m
    case Path(p) => path == p
    case PathPrefix(p) => |p| <= |path| && path[..|p|] == p
    case NeedsAuth(specs) => Proxy.RequiresAuth(specs, host)
  }

  predicate Matches(route: Route, host: string, path: string)
  {
    HostMatches(route.host, host) && RequestMatches(route.matcher, host, path)
  }

  /** The index of the first route that accepts the request, or the number
      of routes when none does. */
  function FirstMatch(routes: seq<Route>, host: string, path: string): (i: nat)
    ensures i <= |routes|
    ensures forall j :: 0 <= j < i ==> !Matches(routes[j], host, path)
    ensures i < |routes| ==> Matches(routes[i], host, path)
  {
    if routes == [] then 0
    else if Matches(routes[0], host, path) then 0
    else 1 + FirstMatch(routes[1..], host, path)
  }

  /** What the router does with a request: the first matching route's
      target, and the not-found handler when no route matches. */
  function Dispatch(routes: seq<Route>, host: string, path: string): (t: Target)
    ensures (forall i :: 0 <= i < |routes| ==> !Matches(routes[i], host, path)) ==> t == NotFound
    ensures (exists i :: 0 <= i < |routes| && Matches(routes[i], host, path)) ==>
      exists i :: 0 <= i < |routes| && Matches(routes[i], host, path) && t == routes[i].target &&
        forall j :: 0 <= j < i ==> !Matches(routes[j], host, path)
  {
    var i := FirstMatch(routes, host, path);
    if i < |routes| then routes[i].target else NotFound
  }

  /** `mux.Router`: its routes, in registration order. Sub-routers fall
      through to the next route when none of their own routes match, so the
      routes of a sub-router stand here in its place in the order. */
  class Router {
    var routes: seq<Route>

    constructor ()
      ensures routes == []
    {
      routes := [];
    }

    /** Registers a route after all the existing ones. */
    method Handle(host: HostPattern, matcher: Matcher, target: Target)
      modifies this
      ensures routes == old(routes) + [Route(host, matcher, target)]
    {
      routes := routes + [Route(host, matcher, target)];
    }
  }

  /** The routes `Handler` registers, in order. */
  function Routes(domain: string, a: Authorizer, specs: map<string, UpstreamSpec>,
                  upstreams: map<string, Proxy.Upstream>): seq<Route>
  {
    [ Route(HostExact("oauth." + domain), Path("/authorized"), AuthCallback(a)),
      Route(HostExact("oauth." + domain), Path("/session"), SessionDump),
      Route(HostExact("health." + domain), Path("/check"), HealthCheck),
      Route(LowerSubdomainOf(domain), NeedsAuth(specs), Authenticated(a, upstreams)),
      Route(LowerSubdomainOf(domain), PathPrefix("/"), Forward(upstreams)) ]
  }

  /** Why `Handler` gives no router. */
  datatype HandlerError =
    | Fatal(message: string)              // `log.Fatal` in `authorizer`
    | BadUpstream(error: Proxy.ConfigError) // the error of `ProxyHandler`

  /** `Handler`: set the cookie options, then build the router. */
  method Handler(conf: Config, store: CookieOptions,
                 validURL: string -> bool, parsesTemplate: string -> bool)
    returns (r: Result<Router, HandlerError>)
    modifies store
    ensures store.httpOnly && store.secure && store.domain == conf.domain
    ensures store.maxAge == 86400
    ensures SelectAuthorizer(conf).Err? ==> r == Err(Fatal(SelectAuthorizer(conf).error))
    ensures r.Err? ==> (r.error.Fatal? <==> SelectAuthorizer(conf).Err?)
    ensures SelectAuthorizer(conf).Ok? ==>
      (r.Ok? <==> forall k :: k in conf.upstreams ==> Proxy.SpecValid(conf.upstreams[k], validURL, parsesTemplate))
    ensures r.Err? && r.error.BadUpstream? ==>
      exists k :: k in conf.upstreams && Proxy.IsFaultOf(conf.upstreams[k], r.error.error, validURL, parsesTemplate)
    ensures r.Ok? ==> fresh(r.value)
    ensures r.Ok? ==> (r.value.routes ==
      Routes(conf.domain, SelectAuthorizer(conf).value, conf.upstreams, Proxy.Upstreams(conf.upstreams)))
  {
    store.httpOnly := true;
    store.secure := true;
    store.domain := conf.domain;
    store.maxAge := SessionAge / Second;

    var router := new Router();
    var authorizer := SelectAuthorizer(conf);
    if authorizer.Err? {
      return Err(Fatal(authorizer.error));
    }
    router.Handle(HostExact("oauth." + conf.domain), Path("/authorized"), AuthCallback(authorizer.value));
    router.Handle(HostExact("oauth." + conf.domain), Path("/session"), SessionDump);
    router.Handle(HostExact("health." + conf.domain), Path("/check"), HealthCheck);

    var upstreams := Proxy.CreateUpstreams(conf.upstreams, validURL, parsesTemplate);
    if upstreams.Err? {
      return Err(BadUpstream(upstreams.error));
    }
    router.Handle(LowerSubdomainOf(conf.domain), NeedsAuth(conf.upstreams),
                  Authenticated(authorizer.value, upstreams.value));
    router.Handle(LowerSubdomainOf(conf.domain), PathPrefix("/"), Forward(upstreams.value));
    return Ok(router);
  }

  // ---------------------------------------------------------------------------
  // Properties of the routing

  /** The OAuth callback and the session page are served on `oauth.<domain>`,
      ahead of the proxy pattern that "oauth" also matches. */
  lemma OAuthRoutesFirst(domain: string, a: Authorizer, specs: map<string, UpstreamSpec>,
                         upstreams: map<string, Proxy.Upstream>)
    ensures Dispatch(Routes(domain, a, specs, upstreams), "oauth." + domain, "/authorized") == AuthCallback(a)
    ensures Dispatch(Routes(domain, a, specs, upstreams), "oauth." + domain, "/session") == SessionDump
  {
    var routes := Routes(domain, a, specs, upstreams);
    assert Matches(routes[0], "oauth." + domain, "/authorized");
    assert !Matches(routes[0], "oauth." + domain, "/session");
    assert Matches(routes[1], "oauth." + domain, "/session");
  }

  /** The health check is served on `health.<domain>`, ahead of the proxy. */
  lemma HealthRouteFirst(domain: string, a: Authorizer, specs: map<string, UpstreamSpec>,
                         upstreams: map<string, Proxy.Upstream>)
    ensures Dispatch(Routes(domain, a, specs, upstreams), "health." + domain, "/check") == HealthCheck
  {
    var routes := Routes(domain, a, specs, upstreams);
    var host := "health." + domain;
    assert host[..6] == "health" && ("oauth." + domain)[..6] == "oauth.";
    assert !Matches(routes[0], host, "/check") && !Matches(routes[1], host, "/check");
    assert Matches(routes[2], host, "/check");
  }

  /** A request for `name.<domain>` that the oauth and health routes do not
      take goes through authentication exactly when `requiresAuth` says so
      for `name`, and straight to the proxy otherwise. */
  lemma ProxyRoutes(domain: string, a: Authorizer, specs: map<string, UpstreamSpec>,
                    upstreams: map<string, Proxy.Upstream>, name: string, path: string)
    requires LowerLabel(name)
    requires |path| > 0 && path[0] == '/'
    requires name == "oauth" ==> path != "/authorized" && path != "/session"
    requires name == "health" ==> path != "/check"
    ensures Dispatch(Routes(domain, a, specs, upstreams), name + "." + domain, path) ==
      if name !in specs || specs[name].auth then Authenticated(a, upstreams) else Forward(upstreams)
  {
    var routes := Routes(domain, a, specs, upstreams);
    var host := name + "." + domain;
    FixedRoutesMiss(domain, a, specs, upstreams, name, path);
    LabelHost(domain, name);
    Proxy.RequiresAuthByLabel(specs, name, domain);
    if Proxy.RequiresAuth(specs, host) {
      DispatchAt(routes, host, path, 3);
    } else {
      DispatchAt(routes, host, path, 4);
    }
  }

  /** The oauth and health routes do not take such a request. */
  lemma FixedRoutesMiss(domain: string, a: Authorizer, specs: map<string, UpstreamSpec>,
                        upstreams: map<string, Proxy.Upstream>, name: string, path: string)
    requires LowerLabel(name)
    requires name == "oauth" ==> path != "/authorized" && path != "/session"
    requires name == "health" ==> path != "/check"
    ensures forall j :: 0 <= j < 3 ==> !Matches(Routes(domain, a, specs, upstreams)[j], name + "." + domain, path)
  {
    LabelHost(domain, name);
  }

  /** `name.<domain>` matches the proxy host pattern, and is the oauth or the
      health host only for those two names. */
  lemma LabelHost(domain: string, name: string)
    requires LowerLabel(name)
    ensures HostMatches(LowerSubdomainOf(domain), name + "." + domain)
    ensures name + "." + domain == "oauth." + domain ==> name == "oauth"
    ensures name + "." + domain == "health." + domain ==> name == "health"
  {
    var host := name + "." + domain;
    assert host[|host| - |domain|..] == domain && host[..|host| - |domain| - 1] == name;
    if host == "oauth." + domain {
      assert host[..|host| - |domain| - 1] == "oauth";
    }
    if host == "health." + domain {
      assert host[..|host| - |domain| - 1] == "health";
    }
  }

  /** The route at `i` serves the request when it matches and none before it does. */
  lemma DispatchAt(routes: seq<Route>, host: string, path: string, i: nat)
    requires i < |routes| && Matches(routes[i], host, path)
    requires forall j :: 0 <= j < i ==> !Matches(routes[j], host, path)
    ensures Dispatch(routes, host, path) == routes[i].target
  {
    var f := FirstMatch(routes, host, path);
    assert !(f < i) && !(i < f);
  }

  /** The name "oauth" is a proxy name too: any other path on its host
      reaches the proxy routes, where an unconfigured name requires
      authentication. */
  lemma OAuthHostOtherPath(domain: string, a: Authorizer, specs: map<string, UpstreamSpec>,
                           upstreams: map<string, Proxy.Upstream>, path: string)
    requires "oauth" !in specs
    requires |path| > 0 && path[0] == '/' && path != "/authorized" && path != "/session"
    ensures Dispatch(Routes(domain, a, specs, upstreams), "oauth." + domain, path) == Authenticated(a, upstreams)
  {
    var name := "oauth";
    assert LowerLabel(name) by {
      forall i | 0 <= i < |name| ensures 'a' <= name[i] <= 'z' { }
    }
    ProxyRoutes(domain, a, specs, upstreams, name, path);
    assert name + "." + domain == "oauth." + domain;
  }

  /** A host that is not a lower-case label under the domain reaches no
      route: the not-found handler serves it. */
  lemma ForeignHostNotFound(domain: string, a: Authorizer, specs: map<string, UpstreamSpec>,
                            upstreams: map<string, Proxy.Upstream>, host: string, path: string)
    requires !HostMatches(LowerSubdomainOf(domain), host)
    ensures Dispatch(Routes(domain, a, specs, upstreams), host, path) == NotFound
  {
    var routes := Routes(domain, a, specs, upstreams);
    forall name | name == "oauth" || name == "health"
      ensures host != name + "." + domain
    {
      var h := name + "." + domain;
      assert h[|h| - |domain|..] == domain && h[..|h| - |domain| - 1] == name;
      assert HostMatches(LowerSubdomainOf(domain), h);
    }
    assert forall j :: 0 <= j < |routes| ==> !Matches(routes[j], host, path);
  }
}
