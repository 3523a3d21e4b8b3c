/**
 What the limiter promises over whole runs of requests and sweeps.
 */
module LimitProof {
  import opened Wrappers
  import opened RateLimit

  // SweepAll is a run of these: one sweep per limiting rule, each under its own lock, then the
  // orphans. Requests may come between any two of them.
  datatype Op = Ask(id: string, client: string) | SweepOne(id: string) | Orphans

  datatype Event = Event(op: Op, at: real)

  ghost function Next(bs: Buckets, rules: Rules, e: Event): Buckets {
    match e.op
    case Ask(id, client) => AfterServing(bs, rules, id, client, e.at)
    case SweepOne(id) =>
      if id in rules && Limiting(rules[id]) then Swept(bs, Prefix(id), rules[id].requests, Rate(rules[id]), e.at)
      else bs
    case Orphans => WithoutOrphans(bs, rules)
  }

  ghost function Final(bs: Buckets, rules: Rules, events: seq<Event>): Buckets
    decreases |events|
  {
    if events == [] then bs else Final(Next(bs, rules, events[0]), rules, events[1..])
  }

  // The answers given to the requests of a run, in order.
  ghost function Verdicts(bs: Buckets, rules: Rules, events: seq<Event>): seq<Verdict>
    decreases |events|
  {
    if events == [] then [] else
    (if events[0].op.Ask? then [Served(bs, rules, events[0].op.id, events[0].op.client, events[0].at)] else [])
    + Verdicts(Next(bs, rules, events[0]), rules, events[1..])
  }

  function OnlyAsks(events: seq<Event>): seq<Event> {
    if events == [] then []
    else (if events[0].op.Ask? then [events[0]] else []) + OnlyAsks(events[1..])
  }

  // The clock does not run backwards.
  predicate Ordered(events: seq<Event>, start: real) {
    events == [] || (start <= events[0].at && Ordered(events[1..], events[0].at))
  }

  // No rule's bucket prefix runs on into another's.
  ghost predicate PrefixFree(rules: Rules) {
    forall i, j | i in rules && j in rules && i != j && rules[i].limits && rules[j].limits :: !(Prefix(i) <= Prefix(j))
  }

  // Ids without the separator never run into each other.
  lemma PlainIdsArePrefixFree(rules: Rules)
    requires forall id | id in rules :: '|' !in id
    ensures PrefixFree(rules)
  {
    forall i, j | i in rules && j in rules && i != j
      ensures !(Prefix(i) <= Prefix(j))
    {
      if |i| < |j| {
        assert Prefix(j)[|i|] == j[|i|] && Prefix(i)[|i|] == '|';
      } else {
        assert i == Prefix(i)[..|i|] && j == Prefix(j)[..|j|];
      }
    }
  }

  lemma OneOwner(rules: Rules, i: string, j: string, key: string)
    requires PrefixFree(rules) && i in rules && j in rules && rules[i].limits && rules[j].limits
    requires Prefix(i) <= key && Prefix(j) <= key
    ensures i == j
  {
    assert Prefix(i) <= Prefix(j) || Prefix(j) <= Prefix(i);
  }

  // ---------------------------------------------------------------- sweeps are invisible

  // A swept limiter against one that never sweeps: equal buckets, and each bucket only the
  // second still keeps is full, by the parameters of whichever rule could ask for it.
  ghost predicate Same(a: Buckets, b: Buckets, rules: Rules, now: real) {
    && (forall k | k in a :: k in b && a[k] == b[k])
    && (forall k, id | k in b && k !in a && id in rules && Limiting(rules[id]) && Prefix(id) <= k ::
          Full(b[k], rules[id].requests, Rate(rules[id]), now))
  }

  lemma AccruedGrows(rate: real, start: real, end: real)
    requires rate > 0.0 && start <= end
    ensures Accrued(rate, start, end) >= 0.0
  {
    var span := end - start;
    assert span * rate >= 0.0;
  }

  lemma AccruedAdds(rate: real, a: real, b: real, c: real)
    ensures Accrued(rate, a, c) == Accrued(rate, a, b) + Accrued(rate, b, c)
  {
  }

  lemma FullStaysFull(b: Bucket, r: Rule, before: real, now: real)
    requires Limiting(r) && before <= now && Full(b, r.requests, Rate(r), before)
    ensures Full(b, r.requests, Rate(r), now)
  {
    LimitingHasRate(r);
    AccruedGrows(Rate(r), before, now);
    AccruedAdds(Rate(r), b.last, before, now);
  }

  lemma SameLater(a: Buckets, b: Buckets, rules: Rules, before: real, now: real)
    requires Same(a, b, rules, before) && before <= now
    ensures Same(a, b, rules, now)
  {
    forall k, id | k in b && k !in a && id in rules && Limiting(rules[id]) && Prefix(id) <= k
      ensures Full(b[k], rules[id].requests, Rate(rules[id]), now)
    {
      FullStaysFull(b[k], rules[id], before, now);
    }
  }

  lemma AskSame(a: Buckets, b: Buckets, rules: Rules, id: string, client: string, now: real)
    requires Same(a, b, rules, now)
    ensures Served(a, rules, id, client, now) == Served(b, rules, id, client, now)
    ensures Same(AfterServing(a, rules, id, client, now), AfterServing(b, rules, id, client, now), rules, now)
  {
    if id in rules && Limiting(rules[id]) {
      var key := KeyOf(id, client);
      assert Prefix(id) <= key;
      assert Level(At(a, key), rules[id].requests, Rate(rules[id]), now) ==
          Level(At(b, key), rules[id].requests, Rate(rules[id]), now);
    }
  }

  lemma SweepSame(a: Buckets, b: Buckets, rules: Rules, id: string, now: real)
    requires Same(a, b, rules, now) && PrefixFree(rules) && id in rules && Limiting(rules[id])
    ensures Same(Swept(a, Prefix(id), rules[id].requests, Rate(rules[id]), now), b, rules, now)
  {
    var swept := Swept(a, Prefix(id), rules[id].requests, Rate(rules[id]), now);
    forall k, j | k in b && k !in swept && j in rules && Limiting(rules[j]) && Prefix(j) <= k
      ensures Full(b[k], rules[j].requests, Rate(rules[j]), now)
    {
      if k in a {
        OneOwner(rules, id, j, k);
      }
    }
  }

  lemma {:induction false} RunSame(a: Buckets, b: Buckets, rules: Rules, events: seq<Event>, start: real)
    requires PrefixFree(rules) && Ordered(events, start) && Same(a, b, rules, start)
    ensures Verdicts(a, rules, events) == Verdicts(b, rules, OnlyAsks(events))
    decreases |events|
  {
    if events != [] {
      var e := events[0];
      SameLater(a, b, rules, start, e.at);
      var next := Next(a, rules, e);
      match e.op {
        case Ask(id, client) =>
          AskSame(a, b, rules, id, client, e.at);
          RunSame(next, Next(b, rules, e), rules, events[1..], e.at);
          assert OnlyAsks(events) == [e] + OnlyAsks(events[1..]);
        case SweepOne(id) =>
          if id in rules && Limiting(rules[id]) { SweepSame(a, b, rules, id, e.at); }
          assert OnlyAsks(events) == OnlyAsks(events[1..]);
          RunSame(next, b, rules, events[1..], e.at);
        case Orphans =>
          assert OnlyAsks(events) == OnlyAsks(events[1..]);
          RunSame(next, b, rules, events[1..], e.at);
      }
    }
  }

  // In any run from an empty limiter, sweeps anywhere in between change no answer.
  lemma SweepsAreInvisible(rules: Rules, events: seq<Event>, start: real)
    requires PrefixFree(rules) && Ordered(events, start)
    ensures Verdicts(map[], rules, events) == Verdicts(map[], rules, OnlyAsks(events))
  {
    RunSame(map[], map[], rules, events, start);
  }

  // A rule whose id runs on from another's loses its count to the other's sweep.
  lemma SweepCrossesABar()
    ensures exists rules: Rules, events: seq<Event> ::
              Ordered(events, 0.0) && Verdicts(map[], rules, events) != Verdicts(map[], rules, OnlyAsks(events))
  {
    var rules: Rules := map["a" := Rule(true, 1, 60), "a|b" := Rule(true, 2, 60)];
    var ask, sweep := Event(Ask("a|b", "c"), 0.0), Event(SweepOne("a"), 0.0);
    var events := [ask, sweep, ask, ask];
    var key := KeyOf("a|b", "c");
    assert Prefix("a") <= key;
    var s1 := Next(map[], rules, ask);
    assert s1 == map[key := Bucket(1.0, 0.0)];
    var s2 := Next(s1, rules, sweep);
    assert s2 == map[];
    assert Next(s2, rules, ask) == s1;
    assert events[1..] == [sweep, ask, ask] && [sweep, ask, ask][1..] == [ask, ask] && [ask, ask][1..] == [ask]
        && [ask][1..] == [];
    assert Verdicts(s1, rules, [ask]) == [Admitted] + Verdicts(Next(s1, rules, ask), rules, []);
    assert Verdicts(s2, rules, [ask, ask]) == [Admitted] + Verdicts(s1, rules, [ask]);
    assert Verdicts(s1, rules, [sweep, ask, ask]) == Verdicts(s2, rules, [ask, ask]);
    assert Verdicts(map[], rules, events) == [Admitted, Admitted, Admitted];
    assert OnlyAsks(events) == [ask, ask, ask] by {
      assert OnlyAsks([ask]) == [ask];
      assert OnlyAsks([ask, ask]) == [ask, ask];
      assert OnlyAsks([sweep, ask, ask]) == [ask, ask];
    }
    var u2 := Next(s1, rules, ask);
    assert u2 == map[key := Bucket(0.0, 0.0)];
    assert [ask, ask, ask][1..] == [ask, ask];
    assert Verdicts(u2, rules, [ask])[0].TooMany?;
    assert Verdicts(s1, rules, [ask, ask])[1] == Verdicts(u2, rules, [ask])[0];
    assert Verdicts(map[], rules, [ask, ask, ask])[2] == Verdicts(s1, rules, [ask, ask])[1];
    assert Ordered(events, 0.0) by {
      assert Ordered([ask], 0.0);
      assert Ordered([ask, ask], 0.0);
      assert Ordered([sweep, ask, ask], 0.0);
    }
  }

  // ---------------------------------------------------------------- the rate bound

  predicate Admits(bs: Buckets, rules: Rules, id: string, client: string, now: real) {
    id in rules && rules[id].limits && Passes(bs, KeyOf(id, client), rules[id].requests, Rate(rules[id]), now)
  }

  lemma AdmitsMeansAdmitted(bs: Buckets, rules: Rules, id: string, client: string, now: real)
    ensures Admits(bs, rules, id, client, now) <==> Served(bs, rules, id, client, now) == Admitted
  {
  }

  // The requests for one client of one rule that a run admits.
  ghost function Admissions(bs: Buckets, rules: Rules, events: seq<Event>, id: string, client: string): nat
    decreases |events|
  {
    if events == [] then 0 else
    (if events[0].op == Ask(id, client) && Admits(bs, rules, id, client, events[0].at) then 1 else 0)
    + Admissions(Next(bs, rules, events[0]), rules, events[1..], id, client)
  }

  function End(events: seq<Event>, start: real): real { if events == [] then start else events[|events| - 1].at }

  ghost predicate NoDebt(bs: Buckets) { forall k | k in bs :: bs[k].tokens >= 0.0 }

  // What the client could still spend at an instant.
  function Credit(bs: Buckets, rules: Rules, id: string, client: string, now: real): real
    requires id in rules
  {
    Level(At(bs, KeyOf(id, client)), rules[id].requests, Rate(rules[id]), now)
  }

  // No bucket was touched after the present.
  ghost predicate Past(bs: Buckets, now: real) { forall k | k in bs :: bs[k].last <= now }

  lemma LevelGrows(b: Option<Bucket>, burst: int, rate: real, before: real, now: real)
    requires rate > 0.0 && before <= now
    ensures Level(b, burst, rate, now) <= Level(b, burst, rate, before) + Accrued(rate, before, now)
    ensures Level(b, burst, rate, before) <= Level(b, burst, rate, now) <= burst as real
  {
    AccruedGrows(rate, before, now);
    if b.Some? {
      AccruedAdds(rate, b.value.last, before, now);
    }
  }

  lemma SameKey(rules: Rules, i: string, c: string, id: string, client: string)
    requires PrefixFree(rules) && id in rules && i in rules && rules[id].limits && rules[i].limits
    ensures KeyOf(i, c) == KeyOf(id, client) <==> i == id && c == client
  {
    if KeyOf(i, c) == KeyOf(id, client) {
      assert Prefix(i) <= KeyOf(i, c) && Prefix(id) <= KeyOf(i, c);
      OneOwner(rules, i, id, KeyOf(i, c));
      assert c == KeyOf(i, c)[|Prefix(i)|..] && client == KeyOf(id, client)[|Prefix(id)|..];
    }
  }

  // A request spends one token when it is admitted and none otherwise, of its own bucket only.
  lemma ChargeSpends(bs: Buckets, key: string, burst: int, rate: real, now: real)
    requires burst > 0 && rate > 0.0
    ensures var after := Charged(bs, key, burst, rate, now);
            && Level(At(after, key), burst, rate, now) ==
               Level(At(bs, key), burst, rate, now) - (if Passes(bs, key, burst, rate, now) then 1.0 else 0.0)
            && forall k | k != key :: At(after, k) == At(bs, k)
  {
    var level := Level(At(bs, key), burst, rate, now);
    assert level <= burst as real;
    if key in Charged(bs, key, burst, rate, now) {
      NothingFillsAtOnce(Charged(bs, key, burst, rate, now)[key], rate, now);
    }
  }

  lemma NothingFillsAtOnce(b: Bucket, rate: real, now: real)
    requires b.last == now
    ensures Filled(b, rate, now) == b.tokens
  {
    AccruedAdds(rate, now, now, now);
  }

  lemma LevelIsNoDebt(b: Option<Bucket>, burst: int, rate: real, now: real)
    requires burst > 0 && rate > 0.0 && (b.Some? ==> b.value.tokens >= 0.0 && b.value.last <= now)
    ensures Level(b, burst, rate, now) >= 0.0
  {
    if b.Some? {
      FilledIsNoDebt(b.value, rate, now);
    }
  }

  lemma FilledIsNoDebt(b: Bucket, rate: real, now: real)
    requires rate > 0.0 && b.tokens >= 0.0 && b.last <= now
    ensures Filled(b, rate, now) >= 0.0
  {
    AccruedGrows(rate, b.last, now);
  }

  // A request leaves no debt and stamps its bucket with the present.
  lemma ChargeKeepsOrder(bs: Buckets, key: string, burst: int, rate: real, before: real, now: real)
    requires NoDebt(bs) && Past(bs, before) && before <= now
    ensures NoDebt(Charged(bs, key, burst, rate, now)) && Past(Charged(bs, key, burst, rate, now), now)
  {
    if burst > 0 && rate > 0.0 {
      LevelIsNoDebt(At(bs, key), burst, rate, now);
    }
  }

  // One event: the client's credit falls by one exactly when one of its requests is admitted,
  // and nothing else, sweeps included, touches it.
  lemma CreditStep(bs: Buckets, rules: Rules, e: Event, id: string, client: string)
    requires PrefixFree(rules) && id in rules && Limiting(rules[id])
    ensures Credit(Next(bs, rules, e), rules, id, client, e.at) ==
            Credit(bs, rules, id, client, e.at)
            - (if e.op == Ask(id, client) && Admits(bs, rules, id, client, e.at) then 1.0 else 0.0)
  {
    var key := KeyOf(id, client);
    assert Prefix(id) <= key;
    match e.op {
      case Ask(i, c) =>
        if i in rules && Limiting(rules[i]) {
          ChargeSpends(bs, KeyOf(i, c), rules[i].requests, Rate(rules[i]), e.at);
          SameKey(rules, i, c, id, client);
        }
      case SweepOne(i) =>
        if i in rules && Limiting(rules[i]) && Prefix(i) <= key {
          OneOwner(rules, i, id, key);
        }
      case Orphans =>
        assert Owned(key, rules);
    }
  }

  lemma StepKeepsOrder(bs: Buckets, rules: Rules, e: Event, start: real)
    requires NoDebt(bs) && Past(bs, start) && start <= e.at
    ensures NoDebt(Next(bs, rules, e)) && Past(Next(bs, rules, e), e.at)
  {
    match e.op {
      case Ask(id, client) =>
        if id in rules && rules[id].limits {
          ChargeKeepsOrder(bs, KeyOf(id, client), rules[id].requests, Rate(rules[id]), start, e.at);
        }
      case SweepOne(_) =>
      case Orphans =>
    }
  }

  // What a rule refills between two instants.
  function Gain(r: Rule, start: real, end: real): real { Accrued(Rate(r), start, end) }

  lemma LevelGains(b: Option<Bucket>, r: Rule, start: real, now: real)
    requires Limiting(r) && start <= now
    ensures Level(b, r.requests, Rate(r), now) <= Level(b, r.requests, Rate(r), start) + Gain(r, start, now)
  {
    LimitingHasRate(r);
    LevelGrows(b, r.requests, Rate(r), start, now);
  }

  // One event, seen from an earlier instant; `gain` is what the rule refills in between.
  lemma EventIsPaid(bs: Buckets, rules: Rules, e: Event, id: string, client: string, start: real, spent: real,
                    left: real, gain: real)
    requires PrefixFree(rules) && id in rules && Limiting(rules[id]) && start <= e.at
    requires gain == Gain(rules[id], start, e.at)
    requires spent == if e.op == Ask(id, client) && Admits(bs, rules, id, client, e.at) then 1.0 else 0.0
    requires left == Credit(Next(bs, rules, e), rules, id, client, e.at)
    ensures spent + left <= Credit(bs, rules, id, client, start) + gain
  {
    LevelGains(At(bs, KeyOf(id, client)), rules[id], start, e.at);
    CreditStep(bs, rules, e, id, client);
  }

  // `credit` is what the client could spend at the start, `gain` what the rule refills by the end.
  lemma {:induction false} AdmissionsAreBounded(bs: Buckets, rules: Rules, events: seq<Event>, id: string,
                                                client: string,
                                                start: real, credit: real, gain: real)
    requires PrefixFree(rules) && id in rules && Limiting(rules[id]) && Ordered(events, start)
    requires NoDebt(bs) && Past(bs, start)
    requires credit == Credit(bs, rules, id, client, start) && gain == Gain(rules[id], start, End(events, start))
    ensures Admissions(bs, rules, events, id, client) as real <= credit + gain
    decreases |events|
  {
    if events == [] {
      LimitingHasRate(rules[id]);
      LevelIsNoDebt(At(bs, KeyOf(id, client)), rules[id].requests, Rate(rules[id]), start);
    } else {
      var e := events[0];
      var next := Next(bs, rules, e);
      var left := Credit(next, rules, id, client, e.at);
      var spent := if e.op == Ask(id, client) && Admits(bs, rules, id, client, e.at) then 1 else 0;
      assert End(events[1..], e.at) == End(events, start);
      var first, rest := SplitGain(rules[id], start, e.at, End(events, start));
      EventIsPaid(bs, rules, e, id, client, start, spent as real, left, first);
      StepKeepsOrder(bs, rules, e, start);
      AdmissionsAreBounded(next, rules, events[1..], id, client, e.at, left, rest);
    }
  }

  lemma SplitGain(r: Rule, start: real, mid: real, end: real) returns (first: real, rest: real)
    ensures first == Gain(r, start, mid) && rest == Gain(r, mid, end) && first + rest == Gain(r, start, end)
  {
    first, rest := Gain(r, start, mid), Gain(r, mid, end);
    AccruedAdds(Rate(r), start, mid, end);
  }

  lemma {:induction false} RunKeepsOrder(bs: Buckets, rules: Rules, before: seq<Event>, after: seq<Event>, start: real)
    requires NoDebt(bs) && Past(bs, start) && Ordered(before + after, start)
    ensures NoDebt(Final(bs, rules, before)) && Past(Final(bs, rules, before), End(before, start))
    ensures Ordered(after, End(before, start))
    decreases |before|
  {
    if before == [] {
      assert before + after == after;
    } else {
      var e := before[0];
      assert (before + after)[1..] == before[1..] + after;
      StepKeepsOrder(bs, rules, e, start);
      RunKeepsOrder(Next(bs, rules, e), rules, before[1..], after, e.at);
      assert End(before[1..], e.at) == End(before, start);
    }
  }

  lemma BurstAndGain(rules: Rules, before: seq<Event>, window: seq<Event>, id: string, client: string, start: real)
    requires PrefixFree(rules) && id in rules && Limiting(rules[id])
    requires Ordered(before + window, start) && window != []
    ensures Admissions(Final(map[], rules, before), rules, window, id, client) as real <=
            rules[id].requests as real + Gain(rules[id], window[0].at, window[|window| - 1].at)
  {
    RunKeepsOrder(map[], rules, before, window, start);
    var bs, first, last := Final(map[], rules, before), window[0].at, window[|window| - 1].at;
    assert Ordered(window, first);
    AdmissionsAreBounded(bs, rules, window, id, client, first, Credit(bs, rules, id, client, first),
        Gain(rules[id], first, last));
    LevelIsCapped(At(bs, KeyOf(id, client)), rules[id].requests, Rate(rules[id]), first);
  }

  lemma RateTimesWindow(n: real, w: real, span: real)
    requires w > 0.0
    ensures span * (n / w) * w == n * span
  {
    assert n / w * w == n;
    assert span * (n / w) * w == span * (n / w * w);
  }

  lemma Scaled(a: real, b: real, w: real)
    requires a <= b && w > 0.0
    ensures a * w <= b * w
  {
  }

  // So many admissions in a span are no more than the rule's requests at once, and beyond them the
  // rule's requests for every window of the rule that passes.
  ghost predicate WithinLimit(r: Rule, spent: int, span: real) {
    (spent - r.requests) as real * r.windowSec as real <= r.requests as real * span
  }

  lemma BoundInItsOwnTerms(r: Rule, spent: int, start: real, end: real)
    requires Limiting(r) && spent as real <= r.requests as real + Gain(r, start, end)
    ensures WithinLimit(r, spent, end - start)
  {
    var over, w := (spent - r.requests) as real, r.windowSec as real;
    Scaled(over, Gain(r, start, end), w);
    RateTimesWindow(r.requests as real, w, end - start);
  }

  // In any window of any run, one client of one rule stays within the limit the rule states.
  lemma WindowIsBounded(rules: Rules, before: seq<Event>, window: seq<Event>, id: string, client: string, start: real)
    requires PrefixFree(rules) && id in rules && Limiting(rules[id])
    requires Ordered(before + window, start) && window != []
    ensures var spent := Admissions(Final(map[], rules, before), rules, window, id, client);
            WithinLimit(rules[id], spent, window[|window| - 1].at - window[0].at)
  {
    BurstAndGain(rules, before, window, id, client, start);
    var spent := Admissions(Final(map[], rules, before), rules, window, id, client);
    BoundInItsOwnTerms(rules[id], spent, window[0].at, window[|window| - 1].at);
  }

  // ---------------------------------------------------------------- the bound is attained

  function Asks(id: string, client: string, at: real, n: nat): seq<Event> {
    if n == 0 then [] else [Event(Ask(id, client), at)] + Asks(id, client, at, n - 1)
  }

  // Credit is spent as fast as the client likes.
  lemma {:induction false} CreditIsSpendable(bs: Buckets, rules: Rules, id: string, client: string, at: real, n: nat)
    requires PrefixFree(rules) && id in rules && Limiting(rules[id]) && n as real <= Credit(bs, rules, id, client, at)
    ensures Admissions(bs, rules, Asks(id, client, at, n), id, client) == n
    ensures Credit(Final(bs, rules, Asks(id, client, at, n)), rules, id, client, at) ==
            Credit(bs, rules, id, client, at) - n as real
    decreases n
  {
    if n > 0 {
      var events := Asks(id, client, at, n);
      assert events[1..] == Asks(id, client, at, n - 1);
      LimitingHasRate(rules[id]);
      CreditStep(bs, rules, events[0], id, client);
      CreditIsSpendable(Next(bs, rules, events[0]), rules, id, client, at, n - 1);
    }
  }

  lemma Inverse(n: real, w: real)
    requires n > 0.0 && w > 0.0
    ensures w * (n / w) == n && w / n * (n / w) == 1.0
  {
    var x, y := w / n, n / w;
    assert x * n == w && y * w == n;
    assert x * y * w == x * n;
    assert (x * y - 1.0) * w == 0.0;
  }

  lemma GainOfAWindow(r: Rule, now: real)
    requires Limiting(r)
    ensures Gain(r, now, now + r.windowSec as real) == r.requests as real
    ensures Gain(r, now, now + r.windowSec as real / r.requests as real) == 1.0
  {
    var n, w := r.requests as real, r.windowSec as real;
    Inverse(n, w);
    assert now + w - now == w && now + w / n - now == w / n;
  }

  // A client that asks for nothing during a window of its rule, whatever sweeps and other clients do,
  // can have all the rule's requests at once; and so can one that has never asked.
  lemma IdleClientHasItsBurst(bs: Buckets, rules: Rules, id: string, client: string, meanwhile: seq<Event>,
                              start: real, later: real)
    requires PrefixFree(rules) && id in rules && Limiting(rules[id]) && NoDebt(bs) && Past(bs, start)
    requires Ordered(meanwhile, start) && (forall e | e in meanwhile :: e.op != Ask(id, client))
    requires End(meanwhile, start) <= later
    requires start + rules[id].windowSec as real <= later || KeyOf(id, client) !in bs
    ensures var after, n := Final(bs, rules, meanwhile), rules[id].requests;
            Credit(after, rules, id, client, later) == n as real
            && Admissions(after, rules, Asks(id, client, later, n), id, client) == n
  {
    CreditLasts(bs, rules, id, client, meanwhile, start, later);
    var key, r := KeyOf(id, client), rules[id];
    if key in bs {
      LimitingHasRate(r);
      var b := bs[key];
      FilledIsNoDebt(b, Rate(r), start);
      AccruedAdds(Rate(r), b.last, start, later);
      AccruedAdds(Rate(r), start, start + r.windowSec as real, later);
      AccruedGrows(Rate(r), start + r.windowSec as real, later);
      GainOfAWindow(r, start);
    }
    CreditIsSpendable(Final(bs, rules, meanwhile), rules, id, client, later, r.requests);
  }

  // And for each part of the window that a request stands for, exactly one more is to be had.
  lemma OneRequestForEachPart(bs: Buckets, rules: Rules, id: string, client: string, meanwhile: seq<Event>,
                              now: real, later: real)
    requires PrefixFree(rules) && id in rules && Limiting(rules[id])
    requires Ordered(meanwhile, now) && (forall e | e in meanwhile :: e.op != Ask(id, client))
    requires End(meanwhile, now) <= later == now + rules[id].windowSec as real / rules[id].requests as real
    ensures var had, full := Credit(bs, rules, id, client, now), rules[id].requests as real;
            Credit(Final(bs, rules, meanwhile), rules, id, client, later) ==
            if had + 1.0 > full then full else had + 1.0
  {
    CreditLasts(bs, rules, id, client, meanwhile, now, later);
    GainOfAWindow(rules[id], now);
    var key := KeyOf(id, client);
    if key in bs {
      AccruedAdds(Rate(rules[id]), bs[key].last, now, later);
    }
  }

  lemma LevelIsCapped(b: Option<Bucket>, burst: int, rate: real, now: real)
    ensures Level(b, burst, rate, now) <= burst as real
  {
  }

  // ---------------------------------------------------------------- Retry-After

  // The delay is enough for one token, and less than a second more than that, plus one.
  lemma RetryAfterIsTight(tokens: real, rate: real)
    requires rate > 0.0 && 0.0 <= tokens < 1.0
    ensures (1.0 - tokens) / rate < RetryAfter(tokens, rate) as real <= (1.0 - tokens) / rate + 1.0
    ensures RetryAfter(tokens, rate) >= 1
  {
    var x := (1.0 - tokens) / rate;
    var n := (x * 1000000000.0).Floor;
    var w := (n + 1000000000) / 1000000000;
    assert x * rate == 1.0 - tokens;
    assert x > 0.0;
    assert 0 <= n;
    assert w * 1000000000 <= n + 1000000000 < w * 1000000000 + 1000000000;
    assert x * 1000000000.0 < (n + 1) as real <= (w * 1000000000) as real == w as real * 1000000000.0;
  }

  lemma AccruedIn(tokens: real, rate: real, now: real, later: real)
    requires rate > 0.0 && later == now + (1.0 - tokens) / rate
    ensures Accrued(rate, now, later) == 1.0 - tokens
  {
    var x := (1.0 - tokens) / rate;
    assert later - now == x;
    assert x * rate == 1.0 - tokens;
  }

  lemma RetryAfterRefills(tokens: real, burst: int, rate: real, now: real, later: real)
    requires burst > 0 && rate > 0.0 && 0.0 <= tokens < 1.0 && later - now >= RetryAfter(tokens, rate) as real
    ensures Level(Some(Bucket(tokens, now)), burst, rate, later) >= 1.0
  {
    RetryAfterIsTight(tokens, rate);
    var x := (1.0 - tokens) / rate;
    AccruedIn(tokens, rate, now, now + x);
    AccruedGrows(rate, now + x, later);
    AccruedAdds(rate, now, now + x, later);
  }

  // A refused client that waits the delay it was given is admitted, whatever sweeps and other
  // clients do meanwhile.
  lemma WaitingIsRewarded(bs: Buckets, rules: Rules, id: string, client: string, now: real, meanwhile: seq<Event>,
                          later: real)
    requires PrefixFree(rules) && id in rules && NoDebt(bs) && Past(bs, now)
    requires Served(bs, rules, id, client, now).TooMany?
    requires Ordered(meanwhile, now) && (forall e | e in meanwhile :: e.op != Ask(id, client))
    requires End(meanwhile, now) <= later
    requires later >= now + Served(bs, rules, id, client, now).retryAfter as real
    ensures Served(Final(AfterServing(bs, rules, id, client, now), rules, meanwhile), rules, id, client, later) ==
            Admitted
  {
    var ask := Event(Ask(id, client), now);
    var level, rate := Credit(bs, rules, id, client, now), Rate(rules[id]);
    var after := Next(bs, rules, ask);
    StepKeepsOrder(bs, rules, ask, now);
    LimitingHasRate(rules[id]);
    LevelIsNoDebt(At(bs, KeyOf(id, client)), rules[id].requests, rate, now);
    RetryAfterRefills(level, rules[id].requests, rate, now, later);
    assert At(after, KeyOf(id, client)) == Some(Bucket(level, now));
    CreditLasts(after, rules, id, client, meanwhile, now, later);
  }

  // Without requests of its own, a client's credit at a later instant does not depend on what
  // the others did.
  lemma {:induction false} CreditLasts(bs: Buckets, rules: Rules, id: string, client: string, events: seq<Event>,
                                       start: real, later: real)
    requires PrefixFree(rules) && id in rules && Limiting(rules[id])
    requires Ordered(events, start) && End(events, start) <= later
    requires forall e | e in events :: e.op != Ask(id, client)
    ensures Credit(Final(bs, rules, events), rules, id, client, later) == Credit(bs, rules, id, client, later)
    decreases |events|
  {
    if events != [] {
      var e := events[0];
      assert e in events;
      EndIsLast(events, start);
      UntouchedStep(bs, rules, e, id, client, later);
      assert End(events[1..], e.at) == End(events, start);
      CreditLasts(Next(bs, rules, e), rules, id, client, events[1..], e.at, later);
    }
  }

  lemma {:induction false} EndIsLast(events: seq<Event>, start: real)
    requires events != [] && Ordered(events, start)
    ensures events[0].at <= End(events, start)
  {
    if |events| > 1 {
      EndIsLast(events[1..], events[0].at);
      assert End(events[1..], events[0].at) == End(events, start);
    }
  }

  lemma UntouchedStep(bs: Buckets, rules: Rules, e: Event, id: string, client: string, later: real)
    requires PrefixFree(rules) && id in rules && Limiting(rules[id]) && e.at <= later && e.op != Ask(id, client)
    ensures Credit(Next(bs, rules, e), rules, id, client, later) == Credit(bs, rules, id, client, later)
  {
    var key := KeyOf(id, client);
    assert Prefix(id) <= key;
    match e.op {
      case Ask(i, c) =>
        if i in rules && Limiting(rules[i]) {
          SameKey(rules, i, c, id, client);
        }
      case SweepOne(i) =>
        if i in rules && Limiting(rules[i]) && Prefix(i) <= key {
          OneOwner(rules, i, id, key);
          if key in bs && Full(bs[key], rules[i].requests, Rate(rules[i]), e.at) {
            FullStaysFull(bs[key], rules[i], e.at, later);
          }
        }
      case Orphans =>
        assert Owned(key, rules);
    }
  }
}
