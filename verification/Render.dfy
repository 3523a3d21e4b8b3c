/** The compiler from routes and rules to an ordered Caddy route list, and an interpreter for that list. */
module Render {
  import opened Wrappers
  import opened Patterns
  import opened Model
  import opened Sorting

  // ---------------------------------------------------------------- the target language

  // One matcher: all of its present fields must hold.
  datatype Matcher = Matcher(
    host: string,
    notInRanges: Option<seq<string>>,
    inRanges: Option<seq<string>>,
    path: Option<string>,
    pathRegexp: Option<string>,
    header: Option<(string, string)>,
    query: Option<(string, string)>)

  datatype Handler =
    | StaticResponse(code: nat) | Abort
    | ForwardAuth(uri: string)
    | RequestBody(maxSize: nat) | Encode | SetHeaders
    | ReverseProxy(dial: string, mtls: bool)

  // A route without matchers applies to every request; several matchers are alternatives.
  datatype CaddyRoute = CaddyRoute(matchers: seq<Matcher>, handle: seq<Handler>, terminal: bool)

  // ---------------------------------------------------------------- its meaning

  predicate InRanges(w: World, ranges: seq<string>, ip: string) { exists c | c in ranges :: (w.inRange)(c, ip) }

  predicate HeaderFinds(w: World, name: string, pattern: string, req: Request) {
    name in req.headers && exists v | v in req.headers[name] :: Search(w.engine, pattern, v)
  }

  predicate Satisfies(w: World, m: Matcher, req: Request) {
    && (w.matchesHost)(m.host, req.host)
    && (m.notInRanges.Some? ==> !InRanges(w, m.notInRanges.value, req.ip))
    && (m.inRanges.Some? ==> InRanges(w, m.inRanges.value, req.ip))
    && (m.path.Some? ==> GlobMatch(w.globEngine, Lower(m.path.value), Lower(req.path)))
    && (m.pathRegexp.Some? ==> Search(w.engine, m.pathRegexp.value, req.path))
    && (m.header.Some? ==> HeaderFinds(w, m.header.value.0, m.header.value.1, req))
    && (m.query.Some? ==> m.query.value.0 in req.query && m.query.value.1 in req.query[m.query.value.0])
  }

  predicate Matches(w: World, c: CaddyRoute, req: Request) {
    c.matchers == [] || exists m | m in c.matchers :: Satisfies(w, m, req)
  }

  const VERIFY_PATH := "/verify/"

  // The agent answers by the rule its path names; an unknown path is refused.
  predicate AgentAccepts(w: World, agent: map<string, VerifyRule>, uri: string, req: Request) {
    && VERIFY_PATH <= uri
    && uri[|VERIFY_PATH|..] in agent
    && var v := agent[uri[|VERIFY_PATH|..]]; NeedsVerify(v.kind) && (w.upholds)(ClaimAt(v), req)
  }

  const DEFAULT_WINDOW_S := 300

  // How the agent reads a rule it was sent; a window that makes no sense becomes the default.
  function ClaimAt(v: VerifyRule): Claim
    requires NeedsVerify(v.kind)
  {
    match v.kind
    case ServiceSecret => SignedWith(v.id, v.header, v.secret, if v.ttl <= 0 then DEFAULT_WINDOW_S else v.ttl, v.replay)
    case JWTBearer => HasToken(v.issuer, v.audience, v.jwksURL, v.skew)
    case RateLimit => SlowerThan(v.id, v.requests, v.window, v.rateKey)
    case GeoBlock => ComesFrom(v.geoMode, v.geoCountries)
  }

  // A limit or compression set earlier in the chain is about what is proxied later; the lower limit holds.
  function Limited(out: Option<Response>, n: nat): Option<Response> {
    match out
    case Some(Proxied(dial, mtls, limit, compressed)) =>
      Some(Proxied(dial, mtls, if limit.Some? && limit.value < n then limit else Some(n), compressed))
    case _ => out
  }

  function Compressed(out: Option<Response>): Option<Response> {
    match out
    case Some(Proxied(dial, mtls, limit, _)) => Some(Proxied(dial, mtls, limit, true))
    case _ => out
  }

  // The handler chain: the first handler that answers ends it.
  function Handle(w: World, agent: map<string, VerifyRule>, hs: seq<Handler>, req: Request): Option<Response> {
    if hs == [] then None
    else match hs[0] {
      case StaticResponse(code) => Some(Status(code))
      case Abort => Some(Dropped)
      case ReverseProxy(dial, mtls) => Some(Proxied(dial, mtls, None, false))
      case RequestBody(n) => Limited(Handle(w, agent, hs[1..], req), n)
      case Encode => Compressed(Handle(w, agent, hs[1..], req))
      case ForwardAuth(uri) =>
        if AgentAccepts(w, agent, uri, req) then Handle(w, agent, hs[1..], req)
        else Some(Refused(if VERIFY_PATH <= uri then uri[|VERIFY_PATH|..] else uri))
      case _ => Handle(w, agent, hs[1..], req)
    }
  }

  // First match, stopping at an answer or at a terminal route.
  function Run(w: World, agent: map<string, VerifyRule>, cs: seq<CaddyRoute>, req: Request): Response {
    if cs == [] then Empty
    else if !Matches(w, cs[0], req) then Run(w, agent, cs[1..], req)
    else
      var out := Handle(w, agent, cs[0].handle, req);
      if out.Some? then out.value
      else if cs[0].terminal then Empty
      else Run(w, agent, cs[1..], req)
  }

  // ---------------------------------------------------------------- the compiler, as functions

  // A list entry as a block of addresses; blank entries vanish.
  function NormalizeEntry(w: World, e: string): Option<string> {
    var t := Trim(e);
    if t == "" then None
    else if '/' in t || !(w.isIP)(t) then Some(t)
    else Some(t + (if (w.isIPv4)(t) then "/32" else "/128"))
  }

  function NormalizeRanges(w: World, list: seq<string>): seq<string> {
    if list == [] then [] else NormalizeRanges(w, list[..|list| - 1]) + Opt(NormalizeEntry(w, list[|list| - 1]))
  }

  const NoVerify: VerifyRule :=
    VerifyRule("", OtherType(""), "", 0, false, "", "", "", "", 0, 0, 0, "", "", [])

  // The fields of a rule that travel to the agent.
  function VerifyRuleOf(rule: Rule): VerifyRule {
    var v := NoVerify.(id := rule.id, kind := rule.kind);
    match rule.kind
    case ServiceSecret =>
      v.(header := rule.spec.header, ttl := rule.spec.ttl, replay := rule.spec.replay, secret := rule.secret)
    case JWTBearer =>
      v.(issuer := rule.spec.issuer, audience := rule.spec.audience, jwksURL := rule.spec.jwksURL,
          skew := rule.spec.skew)
    case RateLimit => v.(requests := rule.spec.requests, window := rule.spec.window, rateKey := rule.spec.rateKey)
    case GeoBlock => v.(geoMode := rule.spec.geoMode, geoCountries := rule.spec.geoCountries)
    case _ => v
  }

  function HostMatcher(host: string): Matcher { Matcher(host, None, None, None, None, None, None) }

  function BlockHandler(mode: string): Handler {
    if mode == "403" then StaticResponse(403) else if mode == "404" then StaticResponse(404) else Abort
  }

  function FilterMatcher(domain: string, f: Filter): Option<Matcher> {
    var m := HostMatcher(domain);
    if f.field == "path" then
      Some(if f.op.Regex? then m.(pathRegexp := Some(f.value)) else m.(path := Some(PathPattern(f.op, f.value))))
    else if f.field == "user_agent" then Some(m.(header := Some(("User-Agent", HeaderPattern(f.op, f.value)))))
    else if f.field == "referer" then Some(m.(header := Some(("Referer", HeaderPattern(f.op, f.value)))))
    else if f.field == "header" then Some(m.(header := Some((f.name, HeaderPattern(f.op, f.value)))))
    else if f.field == "query" then Some(m.(query := Some((f.name, f.value))))
    else None
  }

  function Opt<T>(o: Option<T>): seq<T> { match o case Some(x) => [x] case None => [] }

  function FilterMatchers(domain: string, fs: seq<Filter>): seq<Matcher> {
    if fs == [] then [] else FilterMatchers(domain, fs[..|fs| - 1]) + Opt(FilterMatcher(domain, fs[|fs| - 1]))
  }

  function RuleDenyRoute(w: World, r: Route, rule: Rule): Option<CaddyRoute> {
    var h := [BlockHandler(r.blockMode)];
    match rule.kind
    case IPWhitelist =>
      if rule.spec.ips == [] then None
      else Some(CaddyRoute([HostMatcher(r.domain).(notInRanges := Some(NormalizeRanges(w, rule.spec.ips)))], h, true))
    case IPBlacklist =>
      if rule.spec.ips == [] then None
      else Some(CaddyRoute([HostMatcher(r.domain).(inRanges := Some(NormalizeRanges(w, rule.spec.ips)))], h, true))
    case RequestFilter =>
      if rule.spec.filters == [] then None
      else Some(CaddyRoute(FilterMatchers(r.domain, rule.spec.filters), h, true))
    case _ => None
  }

  function DenyRoute(w: World, r: Route): Option<CaddyRoute> {
    if r.whitelist == [] then None
    else Some(CaddyRoute([HostMatcher(r.domain).(notInRanges := Some(NormalizeRanges(w, r.whitelist)))],
                         [BlockHandler(r.blockMode)], true))
  }

  function Auths(applied: seq<Rule>): seq<Handler> {
    if applied == [] then []
    else
      var rule := applied[|applied| - 1];
      Auths(applied[..|applied| - 1]) + (if NeedsVerify(rule.kind) then [ForwardAuth(VERIFY_PATH + rule.id)] else [])
  }

  function ProxyTail(w: World, r: Route): seq<Handler> {
    var limit := (w.bodyLimit)(r.bodyMax);
    (if limit.Some? && limit.value > 0 then [RequestBody(limit.value)] else [])
    + (if r.compress then [Encode] else []) + [ReverseProxy(r.upstream, r.mtls)]
  }

  function ProxyRoute(w: World, r: Route, applied: seq<Rule>): CaddyRoute {
    CaddyRoute([HostMatcher(r.domain)], Auths(applied) + ProxyTail(w, r), true)
  }

  function Repeat(rule: Rule, n: nat): seq<Rule> { seq(n, _ => rule) }

  // The rules bound to a domain, in rule order; a domain listed twice binds twice.
  function Applied(rules: seq<Rule>, domain: string): seq<Rule> {
    if rules == [] then []
    else Applied(rules[..|rules| - 1], domain) +
         (var rule := rules[|rules| - 1];
          if rule.enabled then Repeat(rule, multiset(rule.applyTo)[domain]) else [])
  }

  function RuleDenies(w: World, r: Route, applied: seq<Rule>): seq<CaddyRoute> {
    if applied == [] then []
    else RuleDenies(w, r, applied[..|applied| - 1]) + Opt(RuleDenyRoute(w, r, applied[|applied| - 1]))
  }

  function RouteBlock(w: World, r: Route, applied: seq<Rule>): seq<CaddyRoute> {
    RuleDenies(w, r, applied) + Opt(DenyRoute(w, r)) + [ProxyRoute(w, r, applied)]
  }

  function Blocks(w: World, routes: seq<Route>, rules: seq<Rule>): seq<CaddyRoute> {
    if routes == [] then []
    else Blocks(w, routes[..|routes| - 1], rules) +
         RouteBlock(w, routes[|routes| - 1], Applied(rules, routes[|routes| - 1].domain))
  }

  const Fallback := CaddyRoute([], [Abort], true)

  // The route list for routes and rules that are already sorted.
  function RouteList(w: World, routes: seq<Route>, rules: seq<Rule>): seq<CaddyRoute> {
    Blocks(w, routes, rules) + [Fallback]
  }

  function VerifyList(rules: seq<Rule>): seq<VerifyRule> {
    if rules == [] then []
    else VerifyList(rules[..|rules| - 1]) +
         (var rule := rules[|rules| - 1];
          if Effective(rule) && NeedsVerify(rule.kind) then [VerifyRuleOf(rule)] else [])
  }

  // The agent keys the rules it receives by id.
  function AgentRules(list: seq<VerifyRule>): map<string, VerifyRule> {
    if list == [] then map[] else AgentRules(list[..|list| - 1])[list[|list| - 1].id := list[|list| - 1]]
  }

  function Domain(r: Route): string { r.domain }

  function RuleId(r: Rule): string { r.id }

  // ---------------------------------------------------------------- the compiler, as the source runs it

  function At(m: map<string, seq<Rule>>, d: string): seq<Rule> { if d in m then m[d] else [] }

  lemma RepeatOnce(start: seq<Rule>, rule: Rule, n: nat)
    ensures start + Repeat(rule, n) + [rule] == start + Repeat(rule, n + 1)
  {
  }

  lemma BindStep(start: seq<Rule>, sofar: seq<Rule>, rule: Rule, k: nat, e: string)
    requires k < |rule.applyTo| && sofar == start + Repeat(rule, multiset(rule.applyTo[..k])[e])
    ensures (if e == rule.applyTo[k] then sofar + [rule] else sofar) ==
            start + Repeat(rule, multiset(rule.applyTo[..k + 1])[e])
  {
    assert rule.applyTo[..k + 1] == rule.applyTo[..k] + [rule.applyTo[k]];
    RepeatOnce(start, rule, multiset(rule.applyTo[..k])[e]);
  }

  // Append a rule under each of its domains.
  method Bind(before: map<string, seq<Rule>>, rule: Rule) returns (out: map<string, seq<Rule>>)
    ensures forall d :: At(out, d) == At(before, d) + Repeat(rule, multiset(rule.applyTo)[d])
  {
    out := before;
    for k := 0 to |rule.applyTo|
      invariant forall d :: At(out, d) == At(before, d) + Repeat(rule, multiset(rule.applyTo[..k])[d])
    {
      var d := rule.applyTo[k];
      ghost var prev := out;
      out := out[d := At(out, d) + [rule]];
      forall e ensures At(out, e) == At(before, e) + Repeat(rule, multiset(rule.applyTo[..k + 1])[e]) {
        assert At(prev, e) == At(before, e) + Repeat(rule, multiset(rule.applyTo[..k])[e]);
        BindStep(At(before, e), At(prev, e), rule, k, e);
      }
    }
    assert rule.applyTo[..|rule.applyTo|] == rule.applyTo;
  }

  lemma AppliedStep(rules: seq<Rule>, i: nat, d: string)
    requires i < |rules|
    ensures Applied(rules[..i + 1], d) ==
            Applied(rules[..i], d) + (if rules[i].enabled then Repeat(rules[i], multiset(rules[i].applyTo)[d]) else [])
  {
    assert rules[..i + 1][..i] == rules[..i];
  }

  method RulesByDomain(rules: seq<Rule>) returns (sorted: seq<Rule>, out: map<string, seq<Rule>>)
    ensures Sorted(RuleId, sorted) && multiset(sorted) == multiset(rules)
    ensures forall d :: At(out, d) == Applied(sorted, d)
  {
    sorted := Sort(RuleId, rules);
    out := map[];
    for i := 0 to |sorted|
      invariant forall d :: At(out, d) == Applied(sorted[..i], d)
    {
      forall d ensures Applied(sorted[..i + 1], d) == Applied(sorted[..i], d) +
        (if sorted[i].enabled then Repeat(sorted[i], multiset(sorted[i].applyTo)[d]) else [])
      {
        AppliedStep(sorted, i, d);
      }
      if sorted[i].enabled {
        out := Bind(out, sorted[i]);
      }
    }
    assert sorted[..|sorted|] == sorted;
  }

  method CollectRanges(w: World, list: seq<string>) returns (out: seq<string>)
    ensures out == NormalizeRanges(w, list)
  {
    out := [];
    for i := 0 to |list|
      invariant out == NormalizeRanges(w, list[..i])
    {
      assert list[..i + 1][..i] == list[..i];
      var t := Trim(list[i]);
      if t == "" {
        continue;
      }
      if '/' in t {
        out := out + [t];
        continue;
      }
      if (w.isIP)(t) {
        out := out + [t + (if (w.isIPv4)(t) then "/32" else "/128")];
        continue;
      }
      out := out + [t];
    }
    assert list[..|list|] == list;
  }

  method CollectFilterMatchers(domain: string, filters: seq<Filter>) returns (out: seq<Matcher>)
    ensures out == FilterMatchers(domain, filters)
  {
    out := [];
    for i := 0 to |filters|
      invariant out == FilterMatchers(domain, filters[..i])
    {
      assert filters[..i + 1][..i] == filters[..i];
      var m := FilterMatcher(domain, filters[i]);
      if m.Some? { out := out + [m.value]; }
    }
    assert filters[..|filters|] == filters;
  }

  method BuildProxyRoute(w: World, r: Route, applied: seq<Rule>) returns (out: CaddyRoute)
    ensures out == ProxyRoute(w, r, applied)
  {
    var handlers := [];
    for i := 0 to |applied|
      invariant handlers == Auths(applied[..i])
    {
      assert applied[..i + 1][..i] == applied[..i];
      if NeedsVerify(applied[i].kind) { handlers := handlers + [ForwardAuth(VERIFY_PATH + applied[i].id)]; }
    }
    assert applied[..|applied|] == applied;
    var limit := (w.bodyLimit)(r.bodyMax);
    if limit.Some? && limit.value > 0 { handlers := handlers + [RequestBody(limit.value)]; }
    if r.compress { handlers := handlers + [Encode]; }
    handlers := handlers + [ReverseProxy(r.upstream, r.mtls)];
    assert handlers == Auths(applied) + ProxyTail(w, r);
    out := CaddyRoute([HostMatcher(r.domain)], handlers, true);
  }

  method BuildRouteBlock(w: World, r: Route, applied: seq<Rule>) returns (out: seq<CaddyRoute>)
    ensures out == RouteBlock(w, r, applied)
  {
    out := [];
    for k := 0 to |applied|
      invariant out == RuleDenies(w, r, applied[..k])
    {
      assert applied[..k + 1][..k] == applied[..k];
      var deny := RuleDenyRoute(w, r, applied[k]);
      if deny.Some? { out := out + [deny.value]; }
    }
    assert applied[..|applied|] == applied;
    var deny := DenyRoute(w, r);
    if deny.Some? { out := out + [deny.value]; }
    var proxy := BuildProxyRoute(w, r, applied);
    out := out + [proxy];
  }

  // The rendered list, and the orders it was rendered in.
  method BuildRoutes(w: World, routes: seq<Route>, rules: seq<Rule>)
    returns (out: seq<CaddyRoute>, sortedRoutes: seq<Route>, sortedRules: seq<Rule>)
    ensures Sorted(Domain, sortedRoutes) && multiset(sortedRoutes) == multiset(routes)
    ensures Sorted(RuleId, sortedRules) && multiset(sortedRules) == multiset(rules)
    ensures out == RouteList(w, sortedRoutes, sortedRules)
  {
    sortedRoutes := Sort(Domain, routes);
    var byDomain;
    sortedRules, byDomain := RulesByDomain(rules);
    out := [];
    for i := 0 to |sortedRoutes|
      invariant out == Blocks(w, sortedRoutes[..i], sortedRules)
    {
      assert sortedRoutes[..i + 1][..i] == sortedRoutes[..i];
      var block := BuildRouteBlock(w, sortedRoutes[i], At(byDomain, sortedRoutes[i].domain));
      out := out + block;
    }
    assert sortedRoutes[..|sortedRoutes|] == sortedRoutes;
    out := out + [Fallback];
  }

  method CollectVerifyRules(rules: seq<Rule>) returns (out: seq<VerifyRule>, sorted: seq<Rule>)
    ensures Sorted(RuleId, sorted) && multiset(sorted) == multiset(rules)
    ensures out == VerifyList(sorted)
  {
    sorted := Sort(RuleId, rules);
    out := [];
    for i := 0 to |sorted|
      invariant out == VerifyList(sorted[..i])
    {
      assert sorted[..i + 1][..i] == sorted[..i];
      if Effective(sorted[i]) && NeedsVerify(sorted[i].kind) { out := out + [VerifyRuleOf(sorted[i])]; }
    }
    assert sorted[..|sorted|] == sorted;
  }
}
