/**
 The node's own rate limiter: token buckets keyed by `<rule id>|<client>`, filled back by time and
 swept once full.

 The sweeps must be invisible: a bucket goes only when it cannot be told from an absent one.
 */
module RateLimit {
  import opened Wrappers

  // Tokens are counted as reals; instants and delays are in seconds.
  datatype Bucket = Bucket(tokens: real, last: real)

  type Buckets = map<string, Bucket>

  datatype Rule = Rule(limits: bool, requests: int, windowSec: int)

  type Rules = map<string, Rule>

  // The rate a rule refills at: zero when its window makes no sense.
  function Rate(r: Rule): real {
    if r.windowSec > 0 then r.requests as real / r.windowSec as real else 0.0
  }

  // The rules a bucket can be kept for.
  predicate Limiting(r: Rule) { r.limits && r.requests > 0 && r.windowSec > 0 }

  lemma LimitingHasRate(r: Rule)
    requires Limiting(r)
    ensures Rate(r) > 0.0
  {
  }

  function Prefix(id: string): string { id + "|" }

  function KeyOf(id: string, client: string): string { Prefix(id) + client }

  datatype Answer = Answer(ok: bool, wait: int)

  // What a bucket holds at an instant; an absent bucket holds its whole burst.
  function Level(b: Option<Bucket>, burst: int, rate: real, now: real): real {
    match b
    case None => burst as real
    case Some(b) =>
      if Filled(b, rate, now) > burst as real then burst as real else Filled(b, rate, now)
  }

  // What a bucket holds when nothing spills over.
  function Filled(b: Bucket, rate: real, now: real): real { b.tokens + Accrued(rate, b.last, now) }

  function Accrued(rate: real, start: real, end: real): real { (end - start) * rate }

  function At(bs: Buckets, key: string): Option<Bucket> { if key in bs then Some(bs[key]) else None }

  predicate Full(b: Bucket, burst: int, rate: real, now: real) { Filled(b, rate, now) >= burst as real }

  // Truncated to nanoseconds, plus a second, truncated to seconds.
  function RetryAfter(tokens: real, rate: real): int
    requires rate > 0.0
  {
    (((1.0 - tokens) / rate * 1000000000.0).Floor + 1000000000) / 1000000000
  }

  // A rule set up only halfway lets everything pass.
  predicate Passes(bs: Buckets, key: string, burst: int, rate: real, now: real) {
    burst <= 0 || rate <= 0.0 || Level(At(bs, key), burst, rate, now) >= 1.0
  }

  function Charged(bs: Buckets, key: string, burst: int, rate: real, now: real): Buckets {
    if burst <= 0 || rate <= 0.0 then bs else
    var level := Level(At(bs, key), burst, rate, now);
    bs[key := Bucket(if level >= 1.0 then level - 1.0 else level, now)]
  }

  function Answered(bs: Buckets, key: string, burst: int, rate: real, now: real): Answer {
    if Passes(bs, key, burst, rate, now) then Answer(true, 0)
    else Answer(false, RetryAfter(Level(At(bs, key), burst, rate, now), rate))
  }

  // The answers of the verification endpoint that concern limiting.
  datatype Verdict = Forbidden | NotLimited | Admitted | TooMany(retryAfter: int)

  function Served(bs: Buckets, rules: Rules, id: string, client: string, now: real): Verdict {
    if id !in rules then Forbidden
    else if !rules[id].limits then NotLimited
    else
      var answer := Answered(bs, KeyOf(id, client), rules[id].requests, Rate(rules[id]), now);
      if answer.ok then Admitted else TooMany(answer.wait)
  }

  function AfterServing(bs: Buckets, rules: Rules, id: string, client: string, now: real): Buckets {
    if id !in rules || !rules[id].limits then bs
    else Charged(bs, KeyOf(id, client), rules[id].requests, Rate(rules[id]), now)
  }

  function Swept(bs: Buckets, prefix: string, burst: int, rate: real, now: real): Buckets {
    map k | k in bs && !(prefix <= k && Full(bs[k], burst, rate, now)) :: bs[k]
  }

  ghost predicate Owned(k: string, rules: Rules) { exists id | id in rules :: rules[id].limits && Prefix(id) <= k }

  ghost function WithoutOrphans(bs: Buckets, rules: Rules): Buckets {
    map k | k in bs && Owned(k, rules) :: bs[k]
  }

  // Swept by one of the rules, at its own parameters.
  ghost predicate Doomed(k: string, b: Bucket, ids: set<string>, rules: Rules, now: real)
    requires ids <= rules.Keys
  {
    exists id | id in ids :: Limiting(rules[id]) && Prefix(id) <= k && Full(b, rules[id].requests, Rate(rules[id]), now)
  }

  class Limiter {
    var buckets: Buckets

    constructor ()
      ensures buckets == map[]
    {
      buckets := map[];
    }

    method Allow(key: string, burst: int, rate: real, now: real) returns (ok: bool, wait: int)
      modifies this
      ensures buckets == Charged(old(buckets), key, burst, rate, now)
      ensures Answer(ok, wait) == Answered(old(buckets), key, burst, rate, now)
    {
      if burst <= 0 || rate <= 0.0 {
        return true, 0;
      }
      var b;
      if key !in buckets {
        b := Bucket(burst as real, now);
      } else {
        b := buckets[key];
        b := b.(tokens := Filled(b, rate, now));
        if b.tokens > burst as real {
          b := b.(tokens := burst as real);
        }
        b := b.(last := now);
      }
      if b.tokens >= 1.0 {
        buckets := buckets[key := b.(tokens := b.tokens - 1.0)];
        return true, 0;
      }
      buckets := buckets[key := b];
      return false, RetryAfter(b.tokens, rate);
    }

    // The endpoint's limiting branch: an unknown rule is refused, never let through.
    method Serve(rules: Rules, id: string, client: string, now: real) returns (v: Verdict)
      modifies this
      ensures buckets == AfterServing(old(buckets), rules, id, client, now)
      ensures v == Served(old(buckets), rules, id, client, now)
    {
      if id !in rules {
        return Forbidden;
      }
      var rule := rules[id];
      if !rule.limits {
        return NotLimited;
      }
      var rate := 0.0;
      if rule.windowSec > 0 {
        rate := rule.requests as real / rule.windowSec as real;
      }
      var ok, wait := Allow(KeyOf(id, client), rule.requests, rate, now);
      v := if ok then Admitted else TooMany(wait);
    }

    method SweepPrefix(prefix: string, burst: int, rate: real, now: real) returns (n: int)
      modifies this
      ensures buckets == Swept(old(buckets), prefix, burst, rate, now)
      ensures n == |old(buckets)| - |buckets|
    {
      n := 0;
      ghost var was := buckets;
      var todo := buckets.Keys;
      while todo != {}
        invariant todo <= buckets.Keys <= was.Keys && n == |was| - |buckets|
        invariant forall k | k in was && k !in todo :: k in buckets <==>
                  !(prefix <= k && Full(was[k], burst, rate, now))
        invariant forall k | k in buckets :: buckets[k] == was[k]
        decreases |todo|
      {
        var k :| k in todo;
        todo := todo - {k};
        if prefix <= k && Filled(buckets[k], rate, now) >= burst as real {
          RemovalShrinks(buckets, k);
          buckets := buckets - {k};
          n := n + 1;
        }
      }
    }

    method DropOrphans(rules: Rules) returns (n: int)
      modifies this
      ensures buckets == WithoutOrphans(old(buckets), rules)
      ensures n == |old(buckets)| - |buckets|
    {
      var prefixes: set<string> := {};
      var ids := rules.Keys;
      while ids != {}
        invariant ids <= rules.Keys
        invariant forall id | id in rules && id !in ids :: rules[id].limits ==> Prefix(id) in prefixes
        invariant forall p | p in prefixes :: exists id | id in rules :: rules[id].limits && Prefix(id) == p
        decreases |ids|
      {
        var id :| id in ids;
        ids := ids - {id};
        if rules[id].limits {
          prefixes := prefixes + {Prefix(id)};
        }
      }
      n := 0;
      ghost var was := buckets;
      var todo := buckets.Keys;
      while todo != {}
        invariant todo <= buckets.Keys <= was.Keys && n == |was| - |buckets|
        invariant forall k | k in was && k !in todo :: k in buckets <==> Owned(k, rules)
        invariant forall k | k in buckets :: buckets[k] == was[k]
        decreases |todo|
      {
        var k :| k in todo;
        todo := todo - {k};
        if !exists p | p in prefixes :: p <= k {
          RemovalShrinks(buckets, k);
          buckets := buckets - {k};
          n := n + 1;
        }
      }
    }

    // One sweep: each limiting rule with its own parameters, then the orphans. The rules come in
    // any order, and the outcome does not depend on it.
    method SweepAll(rules: Rules, now: real) returns (n: int)
      modifies this
      ensures n == |old(buckets)| - |buckets|
      ensures forall k :: k in buckets <==>
              k in old(buckets) && Owned(k, rules) && !Doomed(k, old(buckets)[k], rules.Keys, rules, now)
      ensures forall k | k in buckets :: buckets[k] == old(buckets)[k]
    {
      n := 0;
      ghost var was := buckets;
      var ids := rules.Keys;
      while ids != {}
        invariant ids <= rules.Keys && n == |was| - |buckets| && buckets.Keys <= was.Keys
        invariant forall k | k in was :: k in buckets <==> !Doomed(k, was[k], rules.Keys - ids, rules, now)
        invariant forall k | k in buckets :: buckets[k] == was[k]
        decreases |ids|
      {
        var id :| id in ids;
        DoomedGrows(was, rules.Keys - ids, id, rules, now);
        assert rules.Keys - ids + {id} == rules.Keys - (ids - {id});
        ids := ids - {id};
        if Limiting(rules[id]) {
          var rate := rules[id].requests as real / rules[id].windowSec as real;
          var m := SweepPrefix(Prefix(id), rules[id].requests, rate, now);
          n := n + m;
        }
      }
      assert rules.Keys - ids == rules.Keys;
      var m := DropOrphans(rules);
      n := n + m;
    }
  }

  lemma DoomedGrows(bs: Buckets, ids: set<string>, id: string, rules: Rules, now: real)
    requires ids <= rules.Keys && id in rules
    ensures forall k | k in bs :: Doomed(k, bs[k], ids + {id}, rules, now) <==>
                                  (Doomed(k, bs[k], ids, rules, now) ||
                                   (Limiting(rules[id]) && Prefix(id) <= k
                                   && Full(bs[k], rules[id].requests, Rate(rules[id]), now)))
  {
  }
}
