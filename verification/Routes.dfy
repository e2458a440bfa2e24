/** Backends, routes and requests (internal/router/router.go), and the tests a request puts to a route. */
module Routes {

  class Backend {
    const address: string
    const weight: int
    var healthy: bool

    constructor (address: string, weight: int, healthy: bool)
      ensures this.address == address && this.weight == weight && this.healthy == healthy
    {
      this.address, this.weight, this.healthy := address, weight, healthy;
    }
  }

  datatype MatchRule = MatchRule(
    pathPrefix: string, pathExact: string, pathRegex: string,
    methods: seq<string>, headers: map<string, string>)

  /** A route's own retry settings; they take the place of the proxy's when `maxRetries` is positive. */
  datatype RouteRetry = RouteRetry(maxRetries: int, retryableStatus: seq<int>)

  class Route {
    const id: string
    const rule: MatchRule
    const retry: RouteRetry
    var backends: seq<Backend>

    constructor (id: string, rule: MatchRule, retry: RouteRetry, backends: seq<Backend>)
      ensures this.id == id && this.rule == rule && this.retry == retry && this.backends == backends
    {
      this.id, this.rule, this.retry, this.backends := id, rule, retry, backends;
    }
  }

  /** A missing header reads as "", as http.Header.Get does. */
  datatype Request = Request(verb: string, path: string, headers: map<string, string>) {
    function Header(name: string): string {
      if name in headers then headers[name] else ""
    }
  }

  /** What a compiled regular expression says of a path; an invalid expression matches nothing. */
  type RegexOracle = (string, string) -> bool

  predicate MatchRulePath(req: Request, rule: MatchRule, regex: RegexOracle) {
    if rule.pathExact != "" then req.path == rule.pathExact
    else if rule.pathPrefix != "" then rule.pathPrefix <= req.path
    else if rule.pathRegex != "" then regex(rule.pathRegex, req.path)
    else false
  }

  predicate MatchMethod(req: Request, methods: seq<string>) {
    methods == [] || req.verb in methods
  }

  predicate MatchHeaders(req: Request, headers: map<string, string>) {
    forall name | name in headers :: req.Header(name) == headers[name]
  }

  /** The three tests together, as a scan over all routes would put them. */
  predicate Passes(req: Request, route: Route, regex: RegexOracle) {
    && MatchRulePath(req, route.rule, regex)
    && MatchMethod(req, route.rule.methods)
    && MatchHeaders(req, route.rule.headers)
  }

  /** What a route asks of a request: the path is its exact pattern, or else begins with its prefix, or else is accepted
      by its regular expression; the method is listed, unless none is; each header listed has that value, a missing
      one "". */
  ghost predicate Meets(req: Request, route: Route, regex: RegexOracle) {
    var rule, path := route.rule, req.path;
    && (rule.pathExact != "" ==> path == rule.pathExact)
    && (rule.pathExact == "" && rule.pathPrefix != "" ==>
          |rule.pathPrefix| <= |path| && forall i | 0 <= i < |rule.pathPrefix| :: path[i] == rule.pathPrefix[i])
    && (rule.pathExact == "" && rule.pathPrefix == "" ==> rule.pathRegex != "" && regex(rule.pathRegex, path))
    && (|rule.methods| > 0 ==> exists i | 0 <= i < |rule.methods| :: rule.methods[i] == req.verb)
    && (forall name | name in rule.headers ::
          if name in req.headers then req.headers[name] == rule.headers[name] else rule.headers[name] == "")
  }

  /** The router's tests let through exactly what the route asks for. */
  lemma PassesIff(req: Request, route: Route, regex: RegexOracle)
    ensures Passes(req, route, regex) <==> Meets(req, route, regex)
  {
    var path, prefix := req.path, route.rule.pathPrefix;
    assert prefix <= path <==> |prefix| <= |path| && forall i | 0 <= i < |prefix| :: path[i] == prefix[i];
  }
}
