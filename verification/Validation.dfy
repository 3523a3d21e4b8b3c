/** The checks made before anything is rendered. Every problem is reported, not only the first. */
module Validation {
  import opened Wrappers
  import opened Patterns
  import opened Model

  datatype Issue = Issue(resKey: string, field: string)

  // ---------------------------------------------------------------- what a valid input is

  ghost predicate RouteOk(w: World, r: Route) {
    && r.domain != "" && (w.isDomain)(r.domain)
    && (w.isUpstream)(r.upstream)
    && r.blockMode in ["abort", "403", "404", ""]
    && (r.bodyMax != "" ==> (w.bodyLimit)(r.bodyMax).Some?)
    && forall e | e in r.whitelist :: ValidEntry(w, e)
  }

  predicate KnownField(field: string) { field in ["path", "user_agent", "referer", "header", "query"] }

  predicate OpAllowed(field: string, op: Op) {
    KnownField(field) && if field == "query" then op == Equals else !op.OtherOp?
  }

  predicate FilterOk(w: World, f: Filter) {
    && KnownField(f.field)
    && (f.field in ["header", "query"] ==> f.name != "")
    && OpAllowed(f.field, f.op)
    && (f.op.Regex? ==> (w.compiles)(f.value))
    && f.value != ""
  }

  predicate CountryCode(c: string) { |c| == 2 && 'A' <= c[0] <= 'Z' && 'A' <= c[1] <= 'Z' }

  ghost predicate SpecOk(w: World, rule: Rule) {
    var sp := rule.spec;
    match rule.kind
    case IPWhitelist => sp.ips != [] && forall e | e in sp.ips :: ValidEntry(w, e)
    case IPBlacklist => sp.ips != [] && forall e | e in sp.ips :: ValidEntry(w, e)
    case RequestFilter => sp.filters != [] && forall f | f in sp.filters :: FilterOk(w, f)
    case ServiceSecret => sp.header != "" && sp.algo in ["", "hmac-sha256"] && sp.ttl > 0 && rule.secret != ""
    case RateLimit => sp.requests > 0 && sp.window > 0 && sp.rateKey in ["", "ip", "ip_path"]
    case GeoBlock =>
      sp.geoMode in ["block", "allow"] && sp.geoCountries != [] && forall c | c in sp.geoCountries :: CountryCode(c)
    case JWTBearer => sp.jwksURL != "" && sp.skew >= 0
    case OtherType(_) => false
  }

  ghost predicate RuleOk(w: World, rule: Rule, domains: set<string>) {
    rule.id != "" && (forall d | d in rule.applyTo :: d in domains) && SpecOk(w, rule)
  }

  function Domains(routes: seq<Route>): set<string> { set r | r in routes :: r.domain }

  ghost predicate DistinctDomains(routes: seq<Route>) {
    forall i, j | 0 <= i < j < |routes| :: routes[i].domain != routes[j].domain
  }

  // Rules that are switched off or bound to nothing may share an id with anything.
  ghost predicate DistinctIds(rules: seq<Rule>) {
    forall i, j | 0 <= i < j < |rules| && Effective(rules[i]) && Effective(rules[j]) :: rules[i].id != rules[j].id
  }

  ghost predicate RulesValid(w: World, rules: seq<Rule>, domains: set<string>) {
    (forall rule | rule in rules && Effective(rule) :: RuleOk(w, rule, domains)) && DistinctIds(rules)
  }

  ghost predicate Valid(w: World, routes: seq<Route>, rules: seq<Rule>) {
    (forall r | r in routes :: RouteOk(w, r)) && DistinctDomains(routes) && RulesValid(w, rules, Domains(routes))
  }

  // ---------------------------------------------------------------- the checks

  method Check(issues: seq<Issue>, ok: bool, key: string, field: string) returns (out: seq<Issue>)
    ensures out == [] <==> issues == [] && ok
  {
    out := if ok then issues else issues + [Issue(key, field)];
  }

  method EntryIssues(w: World, list: seq<string>, key: string, field: string) returns (out: seq<Issue>)
    ensures out == [] <==> forall e | e in list :: ValidEntry(w, e)
  {
    out := [];
    for i := 0 to |list|
      invariant out == [] <==> forall e | e in list[..i] :: ValidEntry(w, e)
    {
      assert list[..i + 1] == list[..i] + [list[i]];
      out := Check(out, ValidEntry(w, list[i]), key, field);
    }
    assert list[..|list|] == list;
  }

  method FilterIssues(w: World, f: Filter, key: string) returns (out: seq<Issue>)
    ensures out == [] <==> FilterOk(w, f)
  {
    out := [];
    if !KnownField(f.field) {
      out := [Issue(key, "field")];
    } else {
      out := Check(out, !(f.field in ["header", "query"] && f.name == ""), key, "name");
      out := Check(out, OpAllowed(f.field, f.op), key, "op");
    }
    if f.op.Regex? {
      out := Check(out, (w.compiles)(f.value), key, "value");
    }
    out := Check(out, f.value != "", key, "value");
  }

  method RuleSpecIssues(w: World, rule: Rule, key: string) returns (out: seq<Issue>)
    ensures out == [] <==> SpecOk(w, rule)
  {
    out := [];
    var sp := rule.spec;
    match rule.kind {
      case IPWhitelist =>
        out := EntryIssues(w, sp.ips, key, "spec.ips");
        out := Check(out, sp.ips != [], key, "spec.ips");
      case IPBlacklist =>
        out := EntryIssues(w, sp.ips, key, "spec.ips");
        out := Check(out, sp.ips != [], key, "spec.ips");
      case RequestFilter =>
        for i := 0 to |sp.filters|
          invariant out == [] <==> forall f | f in sp.filters[..i] :: FilterOk(w, f)
        {
          assert sp.filters[..i + 1] == sp.filters[..i] + [sp.filters[i]];
          var more := FilterIssues(w, sp.filters[i], key);
          out := out + more;
        }
        assert sp.filters[..|sp.filters|] == sp.filters;
        out := Check(out, sp.filters != [], key, "spec.filters");
      case ServiceSecret =>
        out := Check(out, sp.header != "", key, "spec.header");
        out := Check(out, sp.algo in ["", "hmac-sha256"], key, "spec.algo");
        out := Check(out, sp.ttl > 0, key, "spec.ttl_s");
        out := Check(out, rule.secret != "", key, "secret");
      case RateLimit =>
        out := Check(out, sp.requests > 0, key, "spec.requests");
        out := Check(out, sp.window > 0, key, "spec.window_s");
        out := Check(out, sp.rateKey in ["", "ip", "ip_path"], key, "spec.rate_key");
      case GeoBlock =>
        for i := 0 to |sp.geoCountries|
          invariant out == [] <==> forall c | c in sp.geoCountries[..i] :: CountryCode(c)
        {
          assert sp.geoCountries[..i + 1] == sp.geoCountries[..i] + [sp.geoCountries[i]];
          out := Check(out, CountryCode(sp.geoCountries[i]), key, "spec.geo_countries");
        }
        assert sp.geoCountries[..|sp.geoCountries|] == sp.geoCountries;
        out := Check(out, sp.geoMode in ["block", "allow"], key, "spec.geo_mode");
        out := Check(out, sp.geoCountries != [], key, "spec.geo_countries");
      case JWTBearer =>
        out := Check(out, sp.jwksURL != "", key, "spec.jwks_url");
        out := Check(out, sp.skew >= 0, key, "spec.skew_s");
      case OtherType(_) =>
        out := [Issue(key, "type")];
    }
  }

  method RuleIssues(w: World, rule: Rule, domains: set<string>) returns (out: seq<Issue>)
    ensures out == [] <==> RuleOk(w, rule, domains)
  {
    var key := "rule:" + rule.id;
    out := RuleSpecIssues(w, rule, key);
    out := Check(out, rule.id != "", key, "id");
    for k := 0 to |rule.applyTo|
      invariant out == [] <==> SpecOk(w, rule) && rule.id != "" && forall d | d in rule.applyTo[..k] :: d in domains
    {
      assert rule.applyTo[..k + 1] == rule.applyTo[..k] + [rule.applyTo[k]];
      out := Check(out, rule.applyTo[k] in domains, key, "apply_to");
    }
    assert rule.applyTo[..|rule.applyTo|] == rule.applyTo;
  }

  method ValidateRules(w: World, rules: seq<Rule>, domains: set<string>) returns (out: seq<Issue>)
    ensures out == [] <==> RulesValid(w, rules, domains)
  {
    out := [];
    var seen: set<string> := {};
    for i := 0 to |rules|
      invariant seen == set k | 0 <= k < i && Effective(rules[k]) :: rules[k].id
      invariant out == [] <==>
        (forall k | 0 <= k < i && Effective(rules[k]) :: RuleOk(w, rules[k], domains))
        && (forall a, b | 0 <= a < b < i && Effective(rules[a]) && Effective(rules[b]) :: rules[a].id != rules[b].id)
    {
      var rule := rules[i];
      if Effective(rule) {
        var more := RuleIssues(w, rule, domains);
        out := Check(out, rule.id !in seen, "rule:" + rule.id, "id");
        out := out + more;
        seen := seen + {rule.id};
      }
    }
  }

  method RouteIssues(w: World, r: Route) returns (out: seq<Issue>)
    ensures out == [] <==> RouteOk(w, r)
  {
    var key := "route:" + r.domain;
    out := EntryIssues(w, r.whitelist, key, "whitelist");
    out := Check(out, r.domain != "" && (w.isDomain)(r.domain), key, "domain");
    out := Check(out, (w.isUpstream)(r.upstream), key, "upstream");
    out := Check(out, r.blockMode in ["abort", "403", "404", ""], key, "block_mode");
    if r.bodyMax != "" {
      out := Check(out, (w.bodyLimit)(r.bodyMax).Some?, key, "body_max");
    }
  }

  // No issue is reported exactly when the input is valid as a whole.
  method Validate(w: World, routes: seq<Route>, rules: seq<Rule>) returns (out: seq<Issue>)
    ensures out == [] <==> Valid(w, routes, rules)
    // So what passes has hosts and origins, each host once, and rules in effect bound to its own hosts.
    ensures out == [] ==> forall r | r in routes ::
              && r.domain != "" && (w.isDomain)(r.domain) && (w.isUpstream)(r.upstream)
              && (r.bodyMax == "" || (w.bodyLimit)(r.bodyMax).Some?)
    ensures out == [] ==> forall i, j | 0 <= i < j < |routes| :: routes[i].domain != routes[j].domain
    ensures out == [] ==> forall rule, d | rule in rules && Effective(rule) && d in rule.applyTo ::
              exists r | r in routes :: r.domain == d
  {
    out := [];
    var seen: set<string> := {};
    for i := 0 to |routes|
      invariant seen == set k | 0 <= k < i :: routes[k].domain
      invariant out == [] <==>
        (forall k | 0 <= k < i :: RouteOk(w, routes[k]))
        && (forall a, b | 0 <= a < b < i :: routes[a].domain != routes[b].domain)
    {
      var more := RouteIssues(w, routes[i]);
      out := Check(out, routes[i].domain !in seen, "route:" + routes[i].domain, "domain");
      out := out + more;
      seen := seen + {routes[i].domain};
    }
    var more := ValidateRules(w, rules, Domains(routes));
    out := out + more;
  }
}
