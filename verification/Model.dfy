/** The configuration resources a deploy renders. */
module Model {
  import opened Wrappers
  import opened Patterns
  import Sorting

  datatype Route = Route(
    domain: string, upstream: string, blockMode: string, mtls: bool, compress: bool,
    bodyMax: string, whitelist: seq<string>)

  datatype RuleType =
    | IPWhitelist | IPBlacklist | RequestFilter
    | ServiceSecret | JWTBearer | RateLimit | GeoBlock
    | OtherType(name: string)

  datatype Filter = Filter(field: string, name: string, op: Op, value: string)

  datatype RuleSpec = RuleSpec(
    ips: seq<string>, filters: seq<Filter>,
    header: string, algo: string, ttl: int, replay: bool,
    issuer: string, audience: string, jwksURL: string, skew: int,
    requests: int, window: int, rateKey: string,
    geoMode: string, geoCountries: seq<string>)

  datatype Rule = Rule(
    id: string, kind: RuleType, enabled: bool, applyTo: seq<string>, spec: RuleSpec, secret: string)

  // The part of a rule that travels to the agent's verify endpoint.
  datatype VerifyRule = VerifyRule(
    id: string, kind: RuleType, header: string, ttl: int, replay: bool, secret: string,
    issuer: string, audience: string, jwksURL: string, skew: int,
    requests: int, window: int, rateKey: string, geoMode: string, geoCountries: seq<string>)

  datatype Request = Request(
    host: string, ip: string, path: string,
    headers: map<string, seq<string>>, query: map<string, seq<string>>)

  /** What lies outside this repository: host and address matching, the regular expression and
      path engines, the judgement of single claims, and syntax checks on single values. */
  datatype World = World(
    matchesHost: (string, string) -> bool,
    inRange: (string, string) -> bool,
    sameAddress: (string, string) -> bool,
    isIPv4: string -> bool,
    isIP: string -> bool,
    isCIDR: string -> bool,
    engine: (string, string) -> bool,
    globEngine: (string, string) -> bool,
    upholds: (Claim, Request) -> bool,
    isDomain: string -> bool,
    isUpstream: string -> bool,
    compiles: string -> bool,
    bodyLimit: string -> Option<nat>)

  predicate Effective(rule: Rule) { rule.enabled && rule.applyTo != [] }

  predicate Bound(rule: Rule, domain: string) { rule.enabled && domain in rule.applyTo }

  predicate NeedsVerify(kind: RuleType) {
    kind.ServiceSecret? || kind.JWTBearer? || kind.RateLimit? || kind.GeoBlock?
  }

  // ---------------------------------------------------------------- address lists

  // Unicode white space.
  predicate Blank(c: char) {
    || c == ' ' || '\t' <= c <= '\r' || c == '\U{0085}' || c == '\U{00A0}' || c == '\U{1680}' ||
        '\U{2000}' <= c <= '\U{200A}'
    || c == '\U{2028}' || c == '\U{2029}' || c == '\U{202F}' || c == '\U{205F}' || c == '\U{3000}'
  }

  function TrimLeft(s: string): string { if s != "" && Blank(s[0]) then TrimLeft(s[1..]) else s }

  function TrimRight(s: string): string {
    if s != "" && Blank(s[|s| - 1]) then TrimRight(s[..|s| - 1]) else s
  }

  function Trim(s: string): string { TrimRight(TrimLeft(s)) }

  predicate ValidEntry(w: World, e: string) {
    var t := Trim(e);
    t != "" && (if '/' in t then (w.isCIDR)(t) else (w.isIP)(t))
  }

  predicate AllBlank(s: string) { forall c | c in s :: Blank(c) }

  // The text of an entry, without the blanks around it.
  ghost predicate Core(e: string, t: string) {
    (t == "" || (!Blank(t[0]) && !Blank(t[|t| - 1]))) && exists a, b :: e == a + t + b && AllBlank(a) && AllBlank(b)
  }

  // What an entry stands for, as a person wrote it: a block of addresses, or one address.
  ghost predicate Stands(w: World, e: string, ip: string) {
    exists t :: Core(e, t) && t != "" && if '/' in t then (w.inRange)(t, ip) else (w.sameAddress)(t, ip)
  }

  // The address is covered by some entry of the list.
  ghost predicate Listed(w: World, list: seq<string>, ip: string) { exists e | e in list :: Stands(w, e, ip) }

  // An IPv4 address written as an IPv6 one, such as ::ffff:192.0.2.1.
  predicate Mapped(w: World, t: string) { (w.isIP)(t) && (w.isIPv4)(t) && ':' in t }

  predicate MappedEntry(w: World, e: string) { Mapped(w, Trim(e)) }

  // Addresses and blocks, as the web server reads them: a block as wide as the notation is long
  // holds exactly its address. In IPv6 notation 32 bits are not the whole address.
  ghost predicate AddressLaws(w: World) {
    && (forall t | (w.isIP)(t) :: '/' !in t)
    && (forall t, ip | (w.isIP)(t) && (w.isIPv4)(t) && ':' !in t :: (w.inRange)(t + "/32", ip) <==>
       (w.sameAddress)(t, ip))
    && (forall t, ip | (w.isIP)(t) && !(w.isIPv4)(t) :: (w.inRange)(t + "/128", ip) <==> (w.sameAddress)(t, ip))
    && (forall t | Mapped(w, t) :: exists ip :: (w.inRange)(t + "/32", ip) != (w.sameAddress)(t, ip))
  }

  // ---------------------------------------------------------------- what rules mean

  predicate AnyValueHas(w: World, f: Filter, values: map<string, seq<string>>, name: string) {
    name in values && exists v | v in values[name] ::
      if f.op.Regex? then Search(w.engine, f.value, v) else Holds(f.op, f.value, v)
  }

  // A request filter hits when the named part of the request compares as the rule says.
  predicate Hits(w: World, f: Filter, req: Request) {
    if f.field == "path" then
      if f.op.Regex? then Search(w.engine, f.value, req.path)
      else Holds(f.op, Lower(f.value), Lower(req.path))
    else if f.field == "user_agent" then AnyValueHas(w, f, req.headers, "User-Agent")
    else if f.field == "referer" then AnyValueHas(w, f, req.headers, "Referer")
    else if f.field == "header" then AnyValueHas(w, f, req.headers, f.name)
    else f.field == "query" && f.name in req.query && f.value in req.query[f.name]
  }

  // The rules that are decided at the edge itself.
  ghost predicate Rejects(w: World, rule: Rule, req: Request) {
    match rule.kind
    case IPWhitelist => !Listed(w, rule.spec.ips, req.ip)
    case IPBlacklist => Listed(w, rule.spec.ips, req.ip)
    case RequestFilter => exists f | f in rule.spec.filters :: Hits(w, f, req)
    case _ => false
  }

  ghost predicate WhitelistRejects(w: World, r: Route, req: Request) {
    r.whitelist != [] && !Listed(w, r.whitelist, req.ip)
  }

  // What a rule that is verified asks of a request, in the rule's own terms.
  datatype Claim =
    | SignedWith(rule: string, header: string, secret: string, withinS: int, onceOnly: bool)
    | HasToken(issuer: string, audience: string, keysURL: string, skewS: int)
    | SlowerThan(rule: string, requests: int, perS: int, countedBy: string)
    | ComesFrom(mode: string, countries: seq<string>)

  function ClaimOf(rule: Rule): Claim
    requires NeedsVerify(rule.kind)
  {
    var sp := rule.spec;
    match rule.kind
    case ServiceSecret => SignedWith(rule.id, sp.header, rule.secret, sp.ttl, sp.replay)
    case JWTBearer => HasToken(sp.issuer, sp.audience, sp.jwksURL, sp.skew)
    case RateLimit => SlowerThan(rule.id, sp.requests, sp.window, sp.rateKey)
    case GeoBlock => ComesFrom(sp.geoMode, sp.geoCountries)
  }

  // What an ideal verify endpoint, knowing every rule, says.
  predicate Accepts(w: World, rule: Rule, req: Request) { NeedsVerify(rule.kind) ==> (w.upholds)(ClaimOf(rule), req) }

  // ---------------------------------------------------------------- the intended decision

  datatype Response =
    | Status(code: nat) | Dropped
    | Refused(rule: string)
    | Proxied(upstream: string, mtls: bool, maxBody: Option<nat>, compressed: bool)
    | Empty

  function BlockResponse(mode: string): Response {
    if mode == "403" then Status(403) else if mode == "404" then Status(404) else Dropped
  }

  ghost predicate Blocked(w: World, r: Route, rules: seq<Rule>, req: Request) {
    WhitelistRejects(w, r, req) || exists rule | rule in rules :: Bound(rule, r.domain) && Rejects(w, rule, req)
  }

  ghost predicate RefusedBy(w: World, r: Route, rule: Rule, req: Request) {
    Bound(rule, r.domain) && NeedsVerify(rule.kind) && !Accepts(w, rule, req)
  }

  // Of the rules that refuse, the one with the least id.
  ghost predicate FirstToRefuse(w: World, r: Route, rules: seq<Rule>, rule: Rule, req: Request) {
    RefusedBy(w, r, rule, req) && forall o | o in rules && RefusedBy(w, r, o, req) :: !Sorting.Less(o.id, rule.id)
  }

  // What should happen to a request for route r: block, then verify, then proxy, with bodies limited
  // exactly if the route has a limit, and to that size.
  ghost predicate Meets(w: World, r: Route, rules: seq<Rule>, req: Request, out: Response) {
    if Blocked(w, r, rules, req) then out == BlockResponse(r.blockMode)
    else if exists rule | rule in rules :: RefusedBy(w, r, rule, req) then
      out.Refused? && exists rule | rule in rules :: rule.id == out.rule && FirstToRefuse(w, r, rules, rule, req)
    else
      var limit := (w.bodyLimit)(r.bodyMax);
      out == Proxied(r.upstream, r.mtls, if limit.Some? && limit.value > 0 then limit else None, r.compress)
  }
}
