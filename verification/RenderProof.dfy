/** The rendered route list decides every request as the routes and rules intend. */
module RenderProof {
  import opened Wrappers
  import opened Patterns
  import opened Model
  import opened Sorting
  import opened Render
  import opened Validation
  import opened Addresses

  // ---------------------------------------------------------------- single routes

  lemma HeaderMatcherMeansFilter(w: World, f: Filter, name: string, req: Request)
    requires !f.op.OtherOp?
    ensures HeaderFinds(w, name, HeaderPattern(f.op, f.value), req) <==> AnyValueHas(w, f, req.headers, name)
  {
    if !f.op.Regex? {
      forall v ensures Search(w.engine, HeaderPattern(f.op, f.value), v) <==> Holds(f.op, f.value, v) {
        HeaderPatternMeansOp(w.engine, f.op, f.value, v);
      }
    }
  }

  // A filter that compares no path with a wildcard in it.
  predicate PlainFilter(f: Filter) { f.field == "path" && !f.op.Regex? ==> Plain(f.value) }

  lemma FilterMatcherMeansFilter(w: World, domain: string, f: Filter, req: Request)
    requires FilterOk(w, f) && PlainFilter(f)
    ensures FilterMatcher(domain, f).Some?
    ensures Satisfies(w, FilterMatcher(domain, f).value, req) <==> (w.matchesHost)(domain, req.host) && Hits(w, f, req)
  {
    if f.field == "path" {
      LowerKeepsPathPattern(f.op, f.value);
      if !f.op.Regex? {
        LowerKeepsPlain(f.value);
        PathPatternMeansOp(w.globEngine, f.op, Lower(f.value), Lower(req.path));
      }
    } else if f.field == "user_agent" {
      HeaderMatcherMeansFilter(w, f, "User-Agent", req);
    } else if f.field == "referer" {
      HeaderMatcherMeansFilter(w, f, "Referer", req);
    } else if f.field == "header" {
      HeaderMatcherMeansFilter(w, f, f.name, req);
    }
  }

  // A valid filter whose matcher also catches a path the filter does not hit.
  lemma AWildcardCatchesMore(w: World, domain: string, req: Request)
    requires (w.matchesHost)(domain, req.host) && Lower(req.path) == "/ab"
    ensures var f := Filter("path", "", Equals, "/a*");
            && FilterOk(w, f) && FilterMatcher(domain, f).Some? && !Hits(w, f, req)
            && Satisfies(w, FilterMatcher(domain, f).value, req)
  {
    AWildcardIsNotEscaped(w.globEngine);
    LowerOfThree("/a*");
  }

  lemma LowerOfThree(v: string)
    requires v == "/a*"
    ensures Lower(v) == v
  {
    LowerAt(v, 0);
    LowerAt(v, 1);
    LowerAt(v, 2);
  }

  lemma {:induction false} FilterMatchersAreAlternatives(w: World, domain: string, fs: seq<Filter>, req: Request)
    requires forall f | f in fs :: FilterOk(w, f) && PlainFilter(f)
    ensures |FilterMatchers(domain, fs)| == |fs|
    ensures (exists m | m in FilterMatchers(domain, fs) :: Satisfies(w, m, req)) <==>
            (w.matchesHost)(domain, req.host) && exists f | f in fs :: Hits(w, f, req)
  {
    if fs != [] {
      var init, f := fs[..|fs| - 1], fs[|fs| - 1];
      assert fs == init + [f];
      FilterMatchersAreAlternatives(w, domain, init, req);
      FilterMatcherMeansFilter(w, domain, f, req);
      var m := FilterMatcher(domain, f).value;
      assert FilterMatchers(domain, fs) == FilterMatchers(domain, init) + [m];
      if m' :| m' in FilterMatchers(domain, init) && Satisfies(w, m', req) {
        assert m' in FilterMatchers(domain, fs);
      }
      if Satisfies(w, m, req) {
        assert m in FilterMatchers(domain, fs);
      }
    }
  }

  // A route that answers with the block response exactly for the requests of its domain that `rejects`.
  ghost predicate BlocksWhen(w: World, c: CaddyRoute, r: Route, req: Request, rejects: bool) {
    && c.handle == [BlockHandler(r.blockMode)]
    && (Matches(w, c, req) <==> (w.matchesHost)(r.domain, req.host) && rejects)
  }

  // A valid rule whose addresses, if it compares any, are in plain notation, and whose paths are plain.
  ghost predicate RuleFit(w: World, rule: Rule) {
    && SpecOk(w, rule)
    && (rule.kind.IPWhitelist? || rule.kind.IPBlacklist? ==> Plainly(w, rule.spec.ips))
    && (rule.kind.RequestFilter? ==> forall f | f in rule.spec.filters :: PlainFilter(f))
  }

  ghost predicate RulesFit(w: World, rules: seq<Rule>) {
    forall rule | rule in rules && Effective(rule) :: RuleFit(w, rule)
  }

  ghost predicate RoutesFit(w: World, routes: seq<Route>) { forall r | r in routes :: Plainly(w, r.whitelist) }

  lemma RuleDenyRouteMeansRule(w: World, r: Route, rule: Rule, req: Request)
    requires AddressLaws(w) && RuleFit(w, rule)
    ensures RuleDenyRoute(w, r, rule).None? ==> !Rejects(w, rule, req)
    ensures RuleDenyRoute(w, r, rule).Some? ==>
              BlocksWhen(w, RuleDenyRoute(w, r, rule).value, r, req, Rejects(w, rule, req))
  {
    if rule.kind.IPWhitelist? || rule.kind.IPBlacklist? {
      NormalizingKeepsMembership(w, rule.spec.ips, req.ip);
    }
    var d := RuleDenyRoute(w, r, rule);
    if d.Some? {
      var c := d.value;
      if rule.kind.RequestFilter? {
        FilterMatchersAreAlternatives(w, r.domain, rule.spec.filters, req);
        assert c.matchers != [];
      } else {
        assert Matches(w, c, req) <==> Satisfies(w, c.matchers[0], req);
      }
    }
  }

  lemma DenyRouteMeansWhitelist(w: World, r: Route, req: Request)
    requires AddressLaws(w) && Plainly(w, r.whitelist)
    ensures DenyRoute(w, r).None? ==> !WhitelistRejects(w, r, req)
    ensures DenyRoute(w, r).Some? ==> BlocksWhen(w, DenyRoute(w, r).value, r, req, WhitelistRejects(w, r, req))
  {
    NormalizingKeepsMembership(w, r.whitelist, req.ip);
    var d := DenyRoute(w, r);
    if d.Some? {
      assert Matches(w, d.value, req) <==> Satisfies(w, d.value.matchers[0], req);
    }
  }

  // ---------------------------------------------------------------- the deny routes of one domain

  lemma {:induction false} RunPastBlocks(w: World, agent: map<string, VerifyRule>, cs: seq<CaddyRoute>,
                                         rest: seq<CaddyRoute>,
                                         mode: string, req: Request)
    requires forall c | c in cs :: c.handle == [BlockHandler(mode)]
    ensures Run(w, agent, cs + rest, req) ==
            if exists c | c in cs :: Matches(w, c, req) then BlockResponse(mode) else Run(w, agent, rest, req)
  {
    if cs == [] {
      assert cs + rest == rest;
    } else {
      assert (cs + rest)[1..] == cs[1..] + rest;
      assert cs == [cs[0]] + cs[1..];
      RunPastBlocks(w, agent, cs[1..], rest, mode, req);
    }
  }

  lemma {:induction false} RuleDeniesMember(w: World, r: Route, applied: seq<Rule>, c: CaddyRoute)
    ensures c in RuleDenies(w, r, applied) <==> exists rule | rule in applied :: RuleDenyRoute(w, r, rule) == Some(c)
  {
    if applied != [] {
      var init, last := applied[..|applied| - 1], applied[|applied| - 1];
      assert applied == init + [last];
      RuleDeniesMember(w, r, init, c);
    }
  }

  lemma {:induction false} AppliedMember(rules: seq<Rule>, d: string, rule: Rule)
    ensures rule in Applied(rules, d) <==> rule in rules && Bound(rule, d)
  {
    if rules != [] {
      var init, last := rules[..|rules| - 1], rules[|rules| - 1];
      assert rules == init + [last];
      AppliedMember(init, d, rule);
      assert d in last.applyTo <==> multiset(last.applyTo)[d] > 0;
    }
  }

  function Denies(w: World, r: Route, applied: seq<Rule>): seq<CaddyRoute> {
    RuleDenies(w, r, applied) + Opt(DenyRoute(w, r))
  }

  lemma DeniesMeanBlocked(w: World, r: Route, rules: seq<Rule>, req: Request)
    requires AddressLaws(w) && RulesFit(w, rules) && Plainly(w, r.whitelist)
    requires (w.matchesHost)(r.domain, req.host)
    ensures (exists c | c in Denies(w, r, Applied(rules, r.domain)) :: Matches(w, c, req)) <==>
            Blocked(w, r, rules, req)
  {
    var applied := Applied(rules, r.domain);
    DenyRouteMeansWhitelist(w, r, req);
    if c :| c in RuleDenies(w, r, applied) && Matches(w, c, req) {
      RuleDeniesMember(w, r, applied, c);
      var rule :| rule in applied && RuleDenyRoute(w, r, rule) == Some(c);
      AppliedMember(rules, r.domain, rule);
      RuleDenyRouteMeansRule(w, r, rule, req);
    }
    if rule :| rule in rules && Bound(rule, r.domain) && Rejects(w, rule, req) {
      AppliedMember(rules, r.domain, rule);
      RuleDenyRouteMeansRule(w, r, rule, req);
      var c := RuleDenyRoute(w, r, rule).value;
      RuleDeniesMember(w, r, applied, c);
      assert c in Denies(w, r, applied) && Matches(w, c, req);
    }
    if WhitelistRejects(w, r, req) {
      assert DenyRoute(w, r).value in Denies(w, r, applied);
    }
  }

  lemma OtherHostsPass(w: World, r: Route, rules: seq<Rule>, req: Request, c: CaddyRoute)
    requires AddressLaws(w) && RulesFit(w, rules) && Plainly(w, r.whitelist)
    requires !(w.matchesHost)(r.domain, req.host)
    requires c in Denies(w, r, Applied(rules, r.domain))
    ensures !Matches(w, c, req)
  {
    var applied := Applied(rules, r.domain);
    DenyRouteMeansWhitelist(w, r, req);
    if c in RuleDenies(w, r, applied) {
      RuleDeniesMember(w, r, applied, c);
      var rule :| rule in applied && RuleDenyRoute(w, r, rule) == Some(c);
      AppliedMember(rules, r.domain, rule);
      RuleDenyRouteMeansRule(w, r, rule, req);
    }
  }

  // ---------------------------------------------------------------- the verify chain

  ghost predicate AgentRefuses(w: World, agent: map<string, VerifyRule>, rule: Rule, req: Request) {
    NeedsVerify(rule.kind) && !AgentAccepts(w, agent, VERIFY_PATH + rule.id, req)
  }

  // The id of the first rule, in order, that the agent refuses by.
  ghost function FirstRefused(w: World, agent: map<string, VerifyRule>, applied: seq<Rule>,
                              req: Request): Option<string> {
    if applied == [] then None else
    var before, last := FirstRefused(w, agent, applied[..|applied| - 1], req), applied[|applied| - 1];
    if before.Some? then before else if AgentRefuses(w, agent, last, req) then Some(last.id) else None
  }

  lemma {:induction false} AuthsRunInTurn(w: World, agent: map<string, VerifyRule>, applied: seq<Rule>,
                                          tail: seq<Handler>, req: Request)
    ensures Handle(w, agent, Auths(applied) + tail, req) ==
            match FirstRefused(w, agent, applied, req) {
              case Some(id) => Some(Refused(id))
              case None => Handle(w, agent, tail, req)
            }
  {
    if applied == [] {
      assert Auths(applied) + tail == tail;
    } else {
      var init, last := applied[..|applied| - 1], applied[|applied| - 1];
      var mine := if NeedsVerify(last.kind) then [ForwardAuth(VERIFY_PATH + last.id)] else [];
      assert Auths(applied) + tail == Auths(init) + (mine + tail);
      AuthsRunInTurn(w, agent, init, mine + tail, req);
      if NeedsVerify(last.kind) {
        assert (mine + tail)[1..] == tail;
        assert (VERIFY_PATH + last.id)[|VERIFY_PATH|..] == last.id;
        assert (mine + tail)[0] == ForwardAuth(VERIFY_PATH + last.id);
      } else {
        assert mine + tail == tail;
      }
    }
  }

  // What a request that passes every check comes to.
  function Forwarded(w: World, r: Route): Response {
    var limit := (w.bodyLimit)(r.bodyMax);
    Proxied(r.upstream, r.mtls, if limit.Some? && limit.value > 0 then limit else None, r.compress)
  }

  lemma TailProxies(w: World, agent: map<string, VerifyRule>, r: Route, req: Request)
    ensures Handle(w, agent, ProxyTail(w, r), req) == Some(Forwarded(w, r))
  {
    var hs := ProxyTail(w, r);
    var proxy := [ReverseProxy(r.upstream, r.mtls)];
    var encoded := (if r.compress then [Encode] else []) + proxy;
    assert Handle(w, agent, proxy, req) == Some(Proxied(r.upstream, r.mtls, None, false));
    assert Handle(w, agent, encoded, req) == Some(Proxied(r.upstream, r.mtls, None, r.compress)) by {
      if r.compress { assert encoded[1..] == proxy; } else { assert encoded == proxy; }
    }
    var limit := (w.bodyLimit)(r.bodyMax);
    if limit.Some? && limit.value > 0 {
      assert hs[1..] == encoded;
    } else {
      assert hs == encoded;
    }
  }

  // The agent that received VerifyList knows every verified rule under the path the route uses.
  lemma {:induction false} AgentKnows(rules: seq<Rule>, rule: Rule)
    requires DistinctIds(rules) && rule in rules && Effective(rule) && NeedsVerify(rule.kind)
    ensures var agent := AgentRules(VerifyList(rules)); rule.id in agent && agent[rule.id] == VerifyRuleOf(rule)
  {
    var init, last := rules[..|rules| - 1], rules[|rules| - 1];
    assert rules == init + [last];
    VerifyListStep(rules);
    if rule != last {
      assert rule in init;
      AgentKnows(init, rule);
      var i :| 0 <= i < |init| && init[i] == rule;
      assert rules[i] == rule;
    } else if !(Effective(last) && NeedsVerify(last.kind)) {
      assert false;
    }
  }

  lemma VerifyListStep(rules: seq<Rule>)
    requires rules != []
    ensures var init, last := rules[..|rules| - 1], rules[|rules| - 1];
            AgentRules(VerifyList(rules)) ==
            if Effective(last) && NeedsVerify(last.kind)
            then AgentRules(VerifyList(init))[last.id := VerifyRuleOf(last)]
            else AgentRules(VerifyList(init))
  {
    var init, last := rules[..|rules| - 1], rules[|rules| - 1];
    if Effective(last) && NeedsVerify(last.kind) {
      AgentRulesSnoc(VerifyList(init), VerifyRuleOf(last));
    } else {
      assert VerifyList(rules) == VerifyList(init);
    }
  }

  lemma AgentRulesSnoc(list: seq<VerifyRule>, v: VerifyRule)
    ensures AgentRules(list + [v]) == AgentRules(list)[v.id := v]
  {
    assert (list + [v])[..|list|] == list;
  }

  // The agent holds a rule under an id exactly when an effective rule with that id is verified.
  lemma AgentHoldsExactly(rules: seq<Rule>, id: string)
    requires DistinctIds(rules)
    ensures id in AgentRules(VerifyList(rules)) <==>
            exists rule | rule in rules :: Effective(rule) && NeedsVerify(rule.kind) && rule.id == id
  {
    forall rule | rule in rules && Effective(rule) && NeedsVerify(rule.kind) && rule.id == id
      ensures id in AgentRules(VerifyList(rules))
    {
      AgentKnows(rules, rule);
    }
    if id in AgentRules(VerifyList(rules)) {
      AgentHoldsNothingElse(rules, id);
    }
  }

  lemma {:induction false} AgentHoldsNothingElse(rules: seq<Rule>, id: string)
    requires id in AgentRules(VerifyList(rules))
    ensures exists rule | rule in rules :: Effective(rule) && NeedsVerify(rule.kind) && rule.id == id
  {
    if rules != [] {
      var init, last := rules[..|rules| - 1], rules[|rules| - 1];
      assert rules == init + [last];
      VerifyListStep(rules);
      if id in AgentRules(VerifyList(init)) {
        AgentHoldsNothingElse(init, id);
        var rule :| rule in init && Effective(rule) && NeedsVerify(rule.kind) && rule.id == id;
        assert rule in rules;
      } else {
        assert last in rules;
      }
    }
  }

  // What is sent of a valid rule lets the agent ask exactly what the rule asks.
  lemma VerifyRuleCarriesTheClaim(w: World, rule: Rule)
    requires SpecOk(w, rule) && NeedsVerify(rule.kind)
    ensures VerifyRuleOf(rule).kind == rule.kind && ClaimAt(VerifyRuleOf(rule)) == ClaimOf(rule)
  {
  }

  // A rule the agent can go by: a limit that limits, a signature with a secret and a window, a token with
  // keys, a list of countries.
  ghost predicate Complete(v: VerifyRule) {
    match v.kind
    case RateLimit => v.requests > 0 && v.window > 0 && v.rateKey in ["", "ip", "ip_path"]
    case ServiceSecret => v.header != "" && v.secret != "" && v.ttl > 0
    case JWTBearer => v.jwksURL != "" && v.skew >= 0
    case GeoBlock =>
      v.geoMode in ["block", "allow"] && v.geoCountries != [] && forall c | c in v.geoCountries :: |c| == 2
    case _ => false
  }

  lemma ValidRuleIsSentComplete(w: World, rule: Rule)
    requires SpecOk(w, rule) && NeedsVerify(rule.kind)
    ensures Complete(VerifyRuleOf(rule))
  {
  }

  // The agent of a valid configuration is sent no rule set up halfway, such as a limit it would let
  // everything through by.
  lemma AgentGetsCompleteRules(w: World, routes: seq<Route>, rules: seq<Rule>, id: string)
    requires Valid(w, routes, rules) && id in AgentRules(VerifyList(rules))
    ensures id != "" && Complete(AgentRules(VerifyList(rules))[id])
  {
    AgentHoldsNothingElse(rules, id);
    var rule :| rule in rules && Effective(rule) && NeedsVerify(rule.kind) && rule.id == id;
    AgentKnows(rules, rule);
    assert RuleOk(w, rule, Domains(routes));
    ValidRuleIsSentComplete(w, rule);
  }

  lemma AgentAgrees(w: World, rules: seq<Rule>, rule: Rule, req: Request)
    requires DistinctIds(rules) && rule in rules && Effective(rule) && NeedsVerify(rule.kind) && SpecOk(w, rule)
    ensures AgentAccepts(w, AgentRules(VerifyList(rules)), VERIFY_PATH + rule.id, req) <==> Accepts(w, rule, req)
  {
    AgentKnows(rules, rule);
    VerifyRuleCarriesTheClaim(w, rule);
    assert (VERIFY_PATH + rule.id)[|VERIFY_PATH|..] == rule.id;
  }

  // ---------------------------------------------------------------- who refuses first

  // The id of the first rule, in order, whose verification fails.
  function FirstRefusal(w: World, applied: seq<Rule>, req: Request): Option<string> {
    if applied == [] then None else
    var before, last := FirstRefusal(w, applied[..|applied| - 1], req), applied[|applied| - 1];
    if before.Some? then before else if !Accepts(w, last, req) then Some(last.id) else None
  }

  lemma {:induction false} SameRefusals(w: World, agent: map<string, VerifyRule>, applied: seq<Rule>, req: Request)
    requires forall rule | rule in applied :: AgentRefuses(w, agent, rule, req) <==> !Accepts(w, rule, req)
    ensures FirstRefused(w, agent, applied, req) == FirstRefusal(w, applied, req)
  {
    if applied != [] {
      assert applied[|applied| - 1] in applied;
      assert forall rule | rule in applied[..|applied| - 1] :: rule in applied;
      SameRefusals(w, agent, applied[..|applied| - 1], req);
    }
  }

  lemma {:induction false} FirstRefusalAt(w: World, applied: seq<Rule>, req: Request) returns (k: nat)
    ensures match FirstRefusal(w, applied, req) {
              case Some(id) => k < |applied| && applied[k].id == id && !Accepts(w, applied[k], req)
                  && forall j | 0 <= j < k :: Accepts(w, applied[j], req)
              case None => forall rule | rule in applied :: Accepts(w, rule, req)
            }
  {
    k := 0;
    if applied != [] {
      var n := |applied| - 1;
      k := FirstRefusalAt(w, applied[..n], req);
      if FirstRefusal(w, applied[..n], req).None? {
        assert forall j | 0 <= j < n :: applied[j] in applied[..n];
        k := n;
      }
    }
  }

  lemma {:induction false} AppliedIsSorted(rules: seq<Rule>, d: string)
    requires Sorted(RuleId, rules)
    ensures Sorted(RuleId, Applied(rules, d))
  {
    if rules != [] {
      var init, last := rules[..|rules| - 1], rules[|rules| - 1];
      AppliedIsSorted(init, d);
      var before := Applied(init, d);
      forall i | 0 <= i < |before| ensures !Less(last.id, before[i].id) {
        assert before[i] in before;
        AppliedMember(init, d, before[i]);
        var p :| 0 <= p < |init| && init[p] == before[i];
        assert !Less(RuleId(rules[|rules| - 1]), RuleId(rules[p]));
      }
      LessIsTotal(last.id, last.id);
    }
  }

  // Among sorted rules the first refusal is by the refusing rule with the least id.
  lemma FirstRefusalIsIntended(w: World, r: Route, rules: seq<Rule>, req: Request)
    requires Sorted(RuleId, rules)
    ensures match FirstRefusal(w, Applied(rules, r.domain), req) {
              case Some(id) => exists rule | rule in rules :: rule.id == id && FirstToRefuse(w, r, rules, rule, req)
              case None => !exists rule | rule in rules :: RefusedBy(w, r, rule, req)
            }
  {
    var applied := Applied(rules, r.domain);
    var k := FirstRefusalAt(w, applied, req);
    forall o | o in rules && RefusedBy(w, r, o, req) ensures o in applied {
      AppliedMember(rules, r.domain, o);
    }
    if FirstRefusal(w, applied, req).Some? {
      var rule := applied[k];
      AppliedMember(rules, r.domain, rule);
      AppliedIsSorted(rules, r.domain);
      forall o | o in rules && RefusedBy(w, r, o, req) ensures !Less(o.id, rule.id) {
        var j :| 0 <= j < |applied| && applied[j] == o;
        LessIsTotal(rule.id, rule.id);
        if j > k { assert !Less(RuleId(applied[j]), RuleId(applied[k])); }
      }
    }
  }

  // ---------------------------------------------------------------- one domain, then all of them

  // The proxy route answers every request: by the first verification that fails, or by proxying.
  lemma ProxyRouteDecides(w: World, r: Route, rules: seq<Rule>, req: Request)
    requires DistinctIds(rules) && forall rule | rule in rules && Effective(rule) :: SpecOk(w, rule)
    ensures Handle(w, AgentRules(VerifyList(rules)), ProxyRoute(w, r, Applied(rules, r.domain)).handle, req) ==
            Some(match FirstRefusal(w, Applied(rules, r.domain), req) {
              case Some(id) => Refused(id)
              case None => Forwarded(w, r)
            })
  {
    var agent := AgentRules(VerifyList(rules));
    var applied := Applied(rules, r.domain);
    AuthsRunInTurn(w, agent, applied, ProxyTail(w, r), req);
    TailProxies(w, agent, r, req);
    forall rule | rule in applied ensures AgentRefuses(w, agent, rule, req) <==> !Accepts(w, rule, req) {
      AppliedMember(rules, r.domain, rule);
      if NeedsVerify(rule.kind) {
        AgentAgrees(w, rules, rule, req);
      }
    }
    SameRefusals(w, agent, applied, req);
  }

  lemma RunOneDomain(w: World, r: Route, rules: seq<Rule>, rest: seq<CaddyRoute>, req: Request)
    requires AddressLaws(w) && RulesFit(w, rules) && Plainly(w, r.whitelist)
    requires DistinctIds(rules) && Sorted(RuleId, rules)
    ensures var agent := AgentRules(VerifyList(rules));
            var out := Run(w, agent, RouteBlock(w, r, Applied(rules, r.domain)) + rest, req);
            if (w.matchesHost)(r.domain, req.host) then Meets(w, r, rules, req, out)
            else out == Run(w, agent, rest, req)
  {
    var agent := AgentRules(VerifyList(rules));
    var applied := Applied(rules, r.domain);
    forall c | c in Denies(w, r, applied) ensures c.handle == [BlockHandler(r.blockMode)] {
      DeniesOnlyBlock(w, r, applied, c);
    }
    var proxy := ProxyRoute(w, r, applied);
    assert RouteBlock(w, r, applied) + rest == Denies(w, r, applied) + ([proxy] + rest);
    RunPastBlocks(w, agent, Denies(w, r, applied), [proxy] + rest, r.blockMode, req);
    assert ([proxy] + rest)[1..] == rest;
    assert Matches(w, proxy, req) <==> Satisfies(w, proxy.matchers[0], req);
    if (w.matchesHost)(r.domain, req.host) {
      DeniesMeanBlocked(w, r, rules, req);
      ProxyRouteDecides(w, r, rules, req);
      FirstRefusalIsIntended(w, r, rules, req);
    } else {
      forall c | c in Denies(w, r, applied) ensures !Matches(w, c, req) {
        OtherHostsPass(w, r, rules, req, c);
      }
    }
  }

  // The first route, in list order, whose domain the request names.
  ghost predicate FirstHost(w: World, routes: seq<Route>, k: nat, req: Request) {
    && k < |routes| && (w.matchesHost)(routes[k].domain, req.host)
    && forall i | 0 <= i < k :: !(w.matchesHost)(routes[i].domain, req.host)
  }

  lemma BlocksStep(w: World, routes: seq<Route>, rules: seq<Rule>, rest: seq<CaddyRoute>)
    requires routes != []
    ensures var init, last := routes[..|routes| - 1], routes[|routes| - 1];
            Blocks(w, routes, rules) + rest ==
            Blocks(w, init, rules) + (RouteBlock(w, last, Applied(rules, last.domain)) + rest)
  {
    var init, last := routes[..|routes| - 1], routes[|routes| - 1];
    Associate(Blocks(w, init, rules), RouteBlock(w, last, Applied(rules, last.domain)), rest);
  }

  lemma Associate<T>(a: seq<T>, b: seq<T>, c: seq<T>)
    ensures a + b + c == a + (b + c)
  {
  }

  lemma {:induction false} RunPastDomains(w: World, routes: seq<Route>, rules: seq<Rule>, rest: seq<CaddyRoute>,
                                          req: Request)
    requires AddressLaws(w) && RulesFit(w, rules) && RoutesFit(w, routes)
    requires DistinctIds(rules) && Sorted(RuleId, rules)
    requires forall r | r in routes :: !(w.matchesHost)(r.domain, req.host)
    ensures var agent := AgentRules(VerifyList(rules));
            Run(w, agent, Blocks(w, routes, rules) + rest, req) == Run(w, agent, rest, req)
  {
    if routes == [] {
      assert Blocks(w, routes, rules) + rest == rest;
    } else {
      var init, last := routes[..|routes| - 1], routes[|routes| - 1];
      BlocksStep(w, routes, rules, rest);
      RunPastDomains(w, init, rules, RouteBlock(w, last, Applied(rules, last.domain)) + rest, req);
      RunOneDomain(w, last, rules, rest, req);
    }
  }

  // The blocks of all domains, around the block of one.
  lemma {:induction false} BlocksSplit(w: World, routes: seq<Route>, k: nat, rules: seq<Rule>)
    returns (after: seq<CaddyRoute>)
    requires k < |routes|
    ensures Blocks(w, routes, rules) ==
            Blocks(w, routes[..k], rules) + (RouteBlock(w, routes[k], Applied(rules, routes[k].domain)) + after)
  {
    var n := |routes| - 1;
    var mine := RouteBlock(w, routes[n], Applied(rules, routes[n].domain));
    if k == n {
      after := [];
      assert mine + [] == mine;
    } else {
      var before := BlocksSplit(w, routes[..n], k, rules);
      assert routes[..n][..k] == routes[..k] && routes[..n][k] == routes[k];
      var own := RouteBlock(w, routes[k], Applied(rules, routes[k].domain));
      after := before + mine;
      Associate(Blocks(w, routes[..k], rules), own + before, mine);
      Associate(own, before, mine);
    }
  }

  lemma RunToDomain(w: World, routes: seq<Route>, k: nat, rules: seq<Rule>, rest: seq<CaddyRoute>, req: Request)
    requires AddressLaws(w) && RulesFit(w, rules) && RoutesFit(w, routes)
    requires DistinctIds(rules) && Sorted(RuleId, rules)
    requires FirstHost(w, routes, k, req)
    ensures Meets(w, routes[k], rules, req, Run(w, AgentRules(VerifyList(rules)), Blocks(w, routes, rules) + rest, req))
  {
    var after := BlocksSplit(w, routes, k, rules);
    var own := RouteBlock(w, routes[k], Applied(rules, routes[k].domain));
    Associate(Blocks(w, routes[..k], rules), own + after, rest);
    Associate(own, after, rest);
    RunPastDomains(w, routes[..k], rules, own + (after + rest), req);
    RunOneDomain(w, routes[k], rules, after + rest, req);
  }

  // The route responsible for a request: the first, in domain order, whose domain it names.
  ghost predicate Responsible(w: World, routes: seq<Route>, r: Route, req: Request) {
    && r in routes && (w.matchesHost)(r.domain, req.host)
    && forall o | o in routes && (w.matchesHost)(o.domain, req.host) :: !Less(o.domain, r.domain)
  }

  ghost predicate Intended(w: World, routes: seq<Route>, rules: seq<Rule>, req: Request, out: Response) {
    && (forall r | Responsible(w, routes, r, req) :: Meets(w, r, rules, req, out))
    && ((forall r | r in routes :: !(w.matchesHost)(r.domain, req.host)) ==> out == Dropped)
  }

  lemma MeetsIgnoresRuleOrder(w: World, r: Route, a: seq<Rule>, b: seq<Rule>, req: Request, out: Response)
    requires multiset(a) == multiset(b) && Meets(w, r, a, req, out)
    ensures Meets(w, r, b, req, out)
  {
    forall x ensures x in a <==> x in b {
      assert x in multiset(a) <==> x in multiset(b);
    }
  }

  lemma {:induction false} DistinctIdsIgnoresOrder(a: seq<Rule>, b: seq<Rule>)
    requires multiset(a) == multiset(b) && DistinctIds(a)
    ensures DistinctIds(b)
  {
    forall i, j | 0 <= i < j < |b| && Effective(b[i]) && Effective(b[j]) ensures b[i].id != b[j].id {
      if b[i].id == b[j].id {
        assert b[i] in multiset(a) && b[j] in multiset(a);
        var p :| 0 <= p < |a| && a[p] == b[i];
        var q :| 0 <= q < |a| && a[q] == b[j];
        assert p == q && b[i] == b[j];
        TwicePresent(b, i, j);
        OncePresent(a, p);
      }
    }
  }

  lemma ResponsibleIsFirst(w: World, routes: seq<Route>, sorted: seq<Route>, r: Route, req: Request) returns (k: nat)
    requires Sorted(Domain, sorted) && multiset(sorted) == multiset(routes) && DistinctDomains(routes)
    requires Responsible(w, routes, r, req)
    ensures FirstHost(w, sorted, k, req) && sorted[k] == r
  {
    assert r in multiset(sorted);
    k :| 0 <= k < |sorted| && sorted[k] == r;
    forall i | 0 <= i < k ensures !(w.matchesHost)(sorted[i].domain, req.host) {
      if (w.matchesHost)(sorted[i].domain, req.host) {
        assert sorted[i] in multiset(routes);
        LessIsTotal(sorted[i].domain, r.domain);
        assert !Less(Domain(sorted[k]), Domain(sorted[i]));
        assert sorted[i].domain == r.domain;
        SameDomainSameRoute(routes, sorted[i], r);
        TwicePresent(sorted, i, k);
        var p :| 0 <= p < |routes| && routes[p] == r;
        OncePresent(routes, p);
      }
    }
  }

  lemma SameDomainSameRoute(routes: seq<Route>, a: Route, b: Route)
    requires DistinctDomains(routes) && a in routes && b in routes && a.domain == b.domain
    ensures a == b
  {
  }

  predicate PlainRule(w: World, rule: Rule) {
    && (rule.kind.IPWhitelist? || rule.kind.IPBlacklist? ==> forall e | e in rule.spec.ips :: !MappedEntry(w, e))
    && (rule.kind.RequestFilter? ==> forall f | f in rule.spec.filters :: PlainFilter(f))
  }

  // No list that is compared holds an IPv4 address in IPv6 notation, and no path that is compared,
  // other than by a regular expression, a wildcard.
  ghost predicate InPlainNotation(w: World, routes: seq<Route>, rules: seq<Rule>) {
    && (forall r, e | r in routes && e in r.whitelist :: !MappedEntry(w, e))
    && (forall rule | rule in rules && Effective(rule) :: PlainRule(w, rule))
  }

  lemma ValidAndPlainIsFit(w: World, routes: seq<Route>, rules: seq<Rule>, sortedRoutes: seq<Route>,
                           sortedRules: seq<Rule>)
    requires Valid(w, routes, rules) && InPlainNotation(w, routes, rules)
    requires multiset(sortedRoutes) == multiset(routes) && multiset(sortedRules) == multiset(rules)
    ensures RoutesFit(w, sortedRoutes) && RulesFit(w, sortedRules)
  {
    forall r | r in sortedRoutes ensures Plainly(w, r.whitelist) {
      assert r in multiset(routes);
      assert r in routes && RouteOk(w, r);
    }
    forall rule | rule in sortedRules && Effective(rule) ensures RuleFit(w, rule) {
      assert rule in multiset(rules);
    }
  }

  // The main result. For every valid configuration and every request, running the rendered
  // list against an agent that holds the rules of the same deploy gives the intended decision.
  lemma RenderedListDecides(w: World, routes: seq<Route>, rules: seq<Rule>,
                            sortedRoutes: seq<Route>, sortedRules: seq<Rule>, req: Request)
    requires Valid(w, routes, rules) && AddressLaws(w) && InPlainNotation(w, routes, rules)
    requires Sorted(Domain, sortedRoutes) && multiset(sortedRoutes) == multiset(routes)
    requires Sorted(RuleId, sortedRules) && multiset(sortedRules) == multiset(rules)
    ensures Intended(w, routes, rules, req,
              Run(w, AgentRules(VerifyList(sortedRules)), RouteList(w, sortedRoutes, sortedRules), req))
  {
    ValidAndPlainIsFit(w, routes, rules, sortedRoutes, sortedRules);
    DistinctIdsIgnoresOrder(rules, sortedRules);
    var out := Run(w, AgentRules(VerifyList(sortedRules)), RouteList(w, sortedRoutes, sortedRules), req);
    forall r | Responsible(w, routes, r, req) ensures Meets(w, r, rules, req, out) {
      var k := ResponsibleIsFirst(w, routes, sortedRoutes, r, req);
      RunToDomain(w, sortedRoutes, k, sortedRules, [Fallback], req);
      MeetsIgnoresRuleOrder(w, r, sortedRules, rules, req, out);
    }
    if forall r | r in routes :: !(w.matchesHost)(r.domain, req.host) {
      forall r | r in sortedRoutes ensures !(w.matchesHost)(r.domain, req.host) {
        assert r in multiset(routes);
      }
      RunPastDomains(w, sortedRoutes, sortedRules, [Fallback], req);
      assert Matches(w, Fallback, req);
      assert Handle(w, AgentRules(VerifyList(sortedRules)), Fallback.handle, req) == Some(Dropped);
    }
  }

  // What a rule has against a request, in the rule's own words.
  ghost predicate Against(w: World, rule: Rule, req: Request) {
    var sp := rule.spec;
    match rule.kind
    case IPWhitelist => !Listed(w, sp.ips, req.ip)
    case IPBlacklist => Listed(w, sp.ips, req.ip)
    case RequestFilter => exists f | f in sp.filters :: Hits(w, f, req)
    case ServiceSecret => !(w.upholds)(SignedWith(rule.id, sp.header, rule.secret, sp.ttl, sp.replay), req)
    case JWTBearer => !(w.upholds)(HasToken(sp.issuer, sp.audience, sp.jwksURL, sp.skew), req)
    case RateLimit => !(w.upholds)(SlowerThan(rule.id, sp.requests, sp.window, sp.rateKey), req)
    case GeoBlock => !(w.upholds)(ComesFrom(sp.geoMode, sp.geoCountries), req)
    case OtherType(_) => false
  }

  lemma AgainstMeansStopped(w: World, rule: Rule, req: Request)
    ensures Against(w, rule, req) <==> Rejects(w, rule, req) || (NeedsVerify(rule.kind) && !Accepts(w, rule, req))
  {
  }

  lemma MeetsByRules(w: World, r: Route, rules: seq<Rule>, req: Request, out: Response)
    requires Meets(w, r, rules, req, out)
    ensures out.Proxied? <==>
              && (r.whitelist == [] || Listed(w, r.whitelist, req.ip))
              && forall rule | rule in rules && rule.enabled && r.domain in rule.applyTo :: !Against(w, rule, req)
  {
    forall rule | rule in rules
      ensures Against(w, rule, req) <==> Rejects(w, rule, req) || (NeedsVerify(rule.kind) && !Accepts(w, rule, req))
    {
      AgainstMeansStopped(w, rule, req);
    }
    if rule :| rule in rules && rule.enabled && r.domain in rule.applyTo && Against(w, rule, req) {
      assert Bound(rule, r.domain);
      assert Rejects(w, rule, req) || RefusedBy(w, r, rule, req);
    }
  }

  // So no rule can be bypassed, and nothing else stops a request: it reaches the origin of the route
  // responsible for it exactly if its address is on the route's whitelist, if there is one, and no
  // enabled rule bound to the route's domain has anything against it.
  lemma ReachesTheOriginExactlyWhenAllowed(w: World, routes: seq<Route>, rules: seq<Rule>,
                                           sortedRoutes: seq<Route>, sortedRules: seq<Rule>, r: Route, req: Request)
    requires Valid(w, routes, rules) && AddressLaws(w) && InPlainNotation(w, routes, rules)
    requires Sorted(Domain, sortedRoutes) && multiset(sortedRoutes) == multiset(routes)
    requires Sorted(RuleId, sortedRules) && multiset(sortedRules) == multiset(rules)
    requires Responsible(w, routes, r, req)
    ensures Run(w, AgentRules(VerifyList(sortedRules)), RouteList(w, sortedRoutes, sortedRules), req).Proxied? <==>
              && (r.whitelist == [] || Listed(w, r.whitelist, req.ip))
              && forall rule | rule in rules && rule.enabled && r.domain in rule.applyTo :: !Against(w, rule, req)
  {
    RenderedListDecides(w, routes, rules, sortedRoutes, sortedRules, req);
    MeetsByRules(w, r, rules, req,
        Run(w, AgentRules(VerifyList(sortedRules)), RouteList(w, sortedRoutes, sortedRules), req));
  }

  // The intended decision exists and is unique.
  lemma {:induction false} SomeRouteIsResponsible(w: World, routes: seq<Route>, req: Request) returns (r: Route)
    requires exists o | o in routes :: (w.matchesHost)(o.domain, req.host)
    ensures Responsible(w, routes, r, req)
  {
    var init, last := routes[..|routes| - 1], routes[|routes| - 1];
    assert routes == init + [last];
    if exists o | o in init :: (w.matchesHost)(o.domain, req.host) {
      r := SomeRouteIsResponsible(w, init, req);
      if (w.matchesHost)(last.domain, req.host) && Less(last.domain, r.domain) {
        forall o | o in routes && (w.matchesHost)(o.domain, req.host) ensures !Less(o.domain, last.domain) {
          LessIsTotal(last.domain, last.domain);
          if Less(o.domain, last.domain) { LessIsTransitive(o.domain, last.domain, r.domain); }
        }
        r := last;
      }
    } else {
      r := last;
      LessIsTotal(r.domain, r.domain);
    }
  }

  lemma IntendedIsDecisive(w: World, routes: seq<Route>, rules: seq<Rule>, req: Request, a: Response, b: Response)
    requires Intended(w, routes, rules, req, a) && Intended(w, routes, rules, req, b)
    ensures a == b
  {
    if exists o | o in routes :: (w.matchesHost)(o.domain, req.host) {
      var r := SomeRouteIsResponsible(w, routes, req);
      assert Meets(w, r, rules, req, a) && Meets(w, r, rules, req, b);
      if a.Refused? && b.Refused? {
        LessIsTotal(a.rule, b.rule);
      }
    }
  }

  // ---------------------------------------------------------------- the input order does not matter

  function EffectiveRules(rules: seq<Rule>): seq<Rule> {
    if rules == [] then []
    else EffectiveRules(rules[..|rules| - 1]) + (if Effective(rules[|rules| - 1]) then [rules[|rules| - 1]] else [])
  }

  lemma {:induction false} EffectiveRulesKeepWhatCounts(rules: seq<Rule>, d: string)
    ensures Applied(EffectiveRules(rules), d) == Applied(rules, d)
    ensures VerifyList(EffectiveRules(rules)) == VerifyList(rules)
  {
    if rules != [] {
      var init, last := rules[..|rules| - 1], rules[|rules| - 1];
      EffectiveRulesKeepWhatCounts(init, d);
      var e := EffectiveRules(rules);
      if Effective(last) {
        assert e[..|e| - 1] == EffectiveRules(init) && e[|e| - 1] == last;
      } else {
        assert e == EffectiveRules(init);
        assert !last.enabled || multiset(last.applyTo)[d] == 0;
        assert Applied(rules, d) == Applied(init, d) + (if last.enabled then Repeat(last, 0) else []);
      }
    }
  }

  // Filtering keeps the order.
  lemma {:induction false} EffectiveRulesAreSorted(rules: seq<Rule>)
    requires Sorted(RuleId, rules)
    ensures Sorted(RuleId, EffectiveRules(rules))
    ensures forall x | x in EffectiveRules(rules) :: x in rules
  {
    if rules != [] {
      var init, last := rules[..|rules| - 1], rules[|rules| - 1];
      assert rules == init + [last];
      EffectiveRulesAreSorted(init);
      var e := EffectiveRules(init);
      forall i | 0 <= i < |e| ensures e[i] in init {
        assert e[i] in e;
      }
    }
  }

  // Filtering counts each effective rule as often as before.
  lemma {:induction false} EffectiveRulesCount(rules: seq<Rule>, x: Rule)
    ensures multiset(EffectiveRules(rules))[x] == if Effective(x) then multiset(rules)[x] else 0
  {
    if rules != [] {
      assert rules == rules[..|rules| - 1] + [rules[|rules| - 1]];
      EffectiveRulesCount(rules[..|rules| - 1], x);
    }
  }

  lemma {:induction false} EffectiveIdsDiffer(rules: seq<Rule>)
    requires DistinctIds(rules)
    ensures DistinctKeys(RuleId, EffectiveRules(rules))
    ensures forall x | x in EffectiveRules(rules) :: x in rules && Effective(x)
  {
    if rules != [] {
      var init, last := rules[..|rules| - 1], rules[|rules| - 1];
      assert rules == init + [last];
      EffectiveIdsDiffer(init);
      var e := EffectiveRules(init);
      forall i | 0 <= i < |e| ensures e[i] in init && Effective(e[i]) {
        assert e[i] in e;
      }
      if Effective(last) {
        forall i | 0 <= i < |e| ensures e[i].id != last.id {
          var p :| 0 <= p < |init| && init[p] == e[i];
          assert rules[p] == e[i];
        }
      }
    }
  }

  lemma {:induction false} BlocksDependOnApplied(w: World, routes: seq<Route>, a: seq<Rule>, b: seq<Rule>)
    requires EffectiveRules(a) == EffectiveRules(b)
    ensures Blocks(w, routes, a) == Blocks(w, routes, b)
  {
    if routes != [] {
      BlocksDependOnApplied(w, routes[..|routes| - 1], a, b);
      EffectiveRulesKeepWhatCounts(a, routes[|routes| - 1].domain);
      EffectiveRulesKeepWhatCounts(b, routes[|routes| - 1].domain);
    }
  }

  // Two renderings of the same resources, however the inputs were ordered and however the
  // sort placed rules that share an id, are identical.
  lemma RenderIgnoresInputOrder(w: World, routes: seq<Route>, rules: seq<Rule>,
                                routesA: seq<Route>, rulesA: seq<Rule>, routesB: seq<Route>, rulesB: seq<Rule>)
    requires Valid(w, routes, rules)
    requires Sorted(Domain, routesA) && multiset(routesA) == multiset(routes)
    requires Sorted(Domain, routesB) && multiset(routesB) == multiset(routes)
    requires Sorted(RuleId, rulesA) && multiset(rulesA) == multiset(rules)
    requires Sorted(RuleId, rulesB) && multiset(rulesB) == multiset(rules)
    ensures RouteList(w, routesA, rulesA) == RouteList(w, routesB, rulesB)
    ensures VerifyList(rulesA) == VerifyList(rulesB)
  {
    SortedRoutesAgree(routes, routesA, routesB);
    var a, b := EffectiveRules(rulesA), EffectiveRules(rulesB);
    forall x ensures multiset(a)[x] == multiset(b)[x] {
      EffectiveRulesCount(rulesA, x);
      EffectiveRulesCount(rulesB, x);
    }
    assert multiset(a) == multiset(b);
    EffectiveRulesAreSorted(rulesA);
    EffectiveRulesAreSorted(rulesB);
    DistinctIdsIgnoresOrder(rules, rulesA);
    EffectiveIdsDiffer(rulesA);
    SortedIsUnique(RuleId, a, b);
    BlocksDependOnApplied(w, routesA, rulesA, rulesB);
    EffectiveRulesKeepWhatCounts(rulesA, "");
    EffectiveRulesKeepWhatCounts(rulesB, "");
  }

  lemma SortedRoutesAgree(routes: seq<Route>, a: seq<Route>, b: seq<Route>)
    requires DistinctDomains(routes)
    requires Sorted(Domain, a) && multiset(a) == multiset(routes)
    requires Sorted(Domain, b) && multiset(b) == multiset(routes)
    ensures a == b
  {
    forall i, j | 0 <= i < j < |a| ensures Domain(a[i]) != Domain(a[j]) {
      if a[i].domain == a[j].domain {
        assert a[i] in multiset(routes) && a[j] in multiset(routes);
        SameDomainSameRoute(routes, a[i], a[j]);
        TwicePresent(a, i, j);
        var p :| 0 <= p < |routes| && routes[p] == a[i];
        OncePresent(routes, p);
      }
    }
    SortedIsUnique(Domain, a, b);
  }

  // ---------------------------------------------------------------- config and agent stay in step

  // Every verify path in the rendered config has its rule at the agent, and every rule sent to
  // the agent is asked for by some route.
  lemma VerifyPathsAndRulesAgree(w: World, routes: seq<Route>, rules: seq<Rule>, rule: Rule)
    requires RulesValid(w, rules, Domains(routes))
    requires rule in rules && Effective(rule) && NeedsVerify(rule.kind)
    ensures rule.id in AgentRules(VerifyList(rules))
    ensures exists r | r in routes ::
              ForwardAuth(VERIFY_PATH + rule.id) in ProxyRoute(w, r, Applied(rules, r.domain)).handle
              && ProxyRoute(w, r, Applied(rules, r.domain)) in RouteList(w, routes, rules)
  {
    AgentKnows(rules, rule);
    assert rule.applyTo[0] in Domains(routes);
    var r :| r in routes && r.domain == rule.applyTo[0];
    AppliedMember(rules, r.domain, rule);
    AuthsMember(Applied(rules, r.domain), ForwardAuth(VERIFY_PATH + rule.id));
    BlocksMember(w, routes, rules, r);
  }

  lemma {:induction false} AuthsMember(applied: seq<Rule>, h: Handler)
    ensures h in Auths(applied) <==> exists rule | rule in applied ::
            NeedsVerify(rule.kind) && h == ForwardAuth(VERIFY_PATH + rule.id)
  {
    if applied != [] {
      assert applied == applied[..|applied| - 1] + [applied[|applied| - 1]];
      AuthsMember(applied[..|applied| - 1], h);
    }
  }

  lemma {:induction false} BlocksMember(w: World, routes: seq<Route>, rules: seq<Rule>, r: Route)
    requires r in routes
    ensures ProxyRoute(w, r, Applied(rules, r.domain)) in Blocks(w, routes, rules)
  {
    var init, last := routes[..|routes| - 1], routes[|routes| - 1];
    assert routes == init + [last];
    if r != last {
      BlocksMember(w, init, rules, r);
    } else {
      assert ProxyRoute(w, r, Applied(rules, r.domain)) in RouteBlock(w, r, Applied(rules, r.domain));
    }
  }

  // Every verify path anywhere in the rendered list has its rule at the agent.
  lemma ConfiguredPathHasRule(w: World, routes: seq<Route>, rules: seq<Rule>, c: CaddyRoute, uri: string)
    requires DistinctIds(rules) && c in RouteList(w, routes, rules) && ForwardAuth(uri) in c.handle
    ensures VERIFY_PATH <= uri && uri[|VERIFY_PATH|..] in AgentRules(VerifyList(rules))
  {
    var r := OnlyProxyRoutesAsk(w, routes, rules, c, uri);
    var applied := Applied(rules, r.domain);
    AuthsMember(applied, ForwardAuth(uri));
    var rule :| rule in applied && NeedsVerify(rule.kind) && uri == VERIFY_PATH + rule.id;
    AppliedMember(rules, r.domain, rule);
    AgentKnows(rules, rule);
    assert uri[|VERIFY_PATH|..] == rule.id;
  }

  lemma OnlyProxyRoutesAsk(w: World, routes: seq<Route>, rules: seq<Rule>, c: CaddyRoute, uri: string)
    returns (r: Route)
    requires c in RouteList(w, routes, rules) && ForwardAuth(uri) in c.handle
    ensures r in routes && c == ProxyRoute(w, r, Applied(rules, r.domain))
  {
    assert c != Fallback by { assert Fallback.handle == [Abort]; }
    assert c in Blocks(w, routes, rules);
    r := SomeBlockHas(w, routes, rules, c);
    var applied := Applied(rules, r.domain);
    if c in Denies(w, r, applied) {
      DeniesOnlyBlock(w, r, applied, c);
    }
  }

  lemma DeniesOnlyBlock(w: World, r: Route, applied: seq<Rule>, c: CaddyRoute)
    requires c in Denies(w, r, applied)
    ensures c.handle == [BlockHandler(r.blockMode)]
  {
    if c in RuleDenies(w, r, applied) {
      RuleDeniesMember(w, r, applied, c);
    }
  }

  lemma {:induction false} SomeBlockHas(w: World, routes: seq<Route>, rules: seq<Rule>, c: CaddyRoute)
    returns (r: Route)
    requires c in Blocks(w, routes, rules)
    ensures r in routes && c in RouteBlock(w, r, Applied(rules, r.domain))
  {
    var init, last := routes[..|routes| - 1], routes[|routes| - 1];
    if c in Blocks(w, init, rules) {
      r := SomeBlockHas(w, init, rules, c);
    } else {
      r := last;
    }
  }

  // ---------------------------------------------------------------- the whole pipeline

  const HeaderRoute := CaddyRoute([], [SetHeaders], false)

  function WithHeaders(cs: seq<CaddyRoute>, headers: bool): seq<CaddyRoute> {
    if headers then [HeaderRoute] + cs else cs
  }

  // The response header route never decides anything.
  lemma HeadersDecideNothing(w: World, agent: map<string, VerifyRule>, cs: seq<CaddyRoute>, headers: bool, req: Request)
    ensures Run(w, agent, WithHeaders(cs, headers), req) == Run(w, agent, cs, req)
  {
    if headers {
      assert WithHeaders(cs, headers)[1..] == cs;
      assert Handle(w, agent, [SetHeaders], req) == None;
    }
  }

  // What one deploy pushes to a node: the routes of the plain and the TLS server, and the agent's rules.
  datatype Config = Config(plain: seq<CaddyRoute>, tls: seq<CaddyRoute>, verify: seq<VerifyRule>)

  // Input with any problem renders nothing, and so do global policies with any problem; valid
  // input renders servers that both decide every request as intended.
  method Compile(w: World, routes: seq<Route>, rules: seq<Rule>, policyIssues: seq<Issue>, plainHeaders: bool,
                 tlsHeaders: bool)
    returns (res: Result<Config, seq<Issue>>)
    ensures res.Ok? <==> Valid(w, routes, rules) && policyIssues == []
    ensures res.Err? ==> res.error != []
    ensures res.Ok? && AddressLaws(w) && InPlainNotation(w, routes, rules) ==> forall req ::
              && Intended(w, routes, rules, req, Run(w, AgentRules(res.value.verify), res.value.plain, req))
              && Run(w, AgentRules(res.value.verify), res.value.tls, req) ==
                 Run(w, AgentRules(res.value.verify), res.value.plain, req)
  {
    var issues := Validate(w, routes, rules);
    issues := issues + policyIssues;
    if issues != [] {
      return Err(issues);
    }
    var list, sortedRoutes, sortedRules := BuildRoutes(w, routes, rules);
    var verify, sortedAgain := CollectVerifyRules(rules);
    var c := Config(WithHeaders(list, plainHeaders), WithHeaders(list, tlsHeaders), verify);
    RenderIgnoresInputOrder(w, routes, rules, sortedRoutes, sortedRules, sortedRoutes, sortedAgain);
    forall req | AddressLaws(w) && InPlainNotation(w, routes, rules)
      ensures Intended(w, routes, rules, req, Run(w, AgentRules(verify), c.plain, req))
      && Run(w, AgentRules(verify), c.tls, req) == Run(w, AgentRules(verify), c.plain, req)
    {
      RenderedListDecides(w, routes, rules, sortedRoutes, sortedRules, req);
      HeadersDecideNothing(w, AgentRules(verify), list, plainHeaders, req);
      HeadersDecideNothing(w, AgentRules(verify), list, tlsHeaders, req);
    }
    res := Ok(c);
  }
}
