/**
 The replay cache and the timestamp window of signed requests.

 Instants and windows are whole nanoseconds. The cache remembers when each accepted signature
 expires; its sweeps drop what has expired, whichever rule it came from.
 */
module Replay {
  import opened Wrappers

  type Expiries = map<string, int>

  predicate Fresh(seen: Expiries, key: string, now: int) { !(key in seen && now <= seen[key]) }

  function AfterAdmit(seen: Expiries, key: string, ttl: int, now: int): Expiries {
    if Fresh(seen, key, now) then seen[key := now + ttl] else seen
  }

  function AfterSweep(seen: Expiries, now: int): Expiries { map k | k in seen && now <= seen[k] :: seen[k] }

  // A signed request: the cache key of its signature, its rule's window, the instant it claims,
  // the instant the claim was checked, whether the signature is genuine, and whether the rule
  // guards against replays.
  datatype Signed = Signed(key: string, ttl: int, stamp: int, checked: int, genuine: bool, guarded: bool)

  predicate InWindow(r: Signed) { -r.ttl <= r.checked - r.stamp <= r.ttl }

  predicate Accepts(seen: Expiries, r: Signed, now: int) {
    InWindow(r) && r.genuine && (r.guarded ==> Fresh(seen, r.key, now))
  }

  function AfterRequest(seen: Expiries, r: Signed, now: int): Expiries {
    if InWindow(r) && r.genuine && r.guarded then AfterAdmit(seen, r.key, r.ttl, now) else seen
  }

  class ReplayCache {
    var seen: Expiries

    constructor ()
      ensures seen == map[]
    {
      seen := map[];
    }

    // Looks at one entry only; an expired one is as good as absent.
    method Admit(key: string, ttl: int, now: int) returns (ok: bool)
      modifies this
      ensures ok == Fresh(old(seen), key, now) && seen == AfterAdmit(old(seen), key, ttl, now)
    {
      if key in seen {
        var dies := seen[key];
        if !(now > dies) {
          return false;
        }
      }
      seen := seen[key := now + ttl];
      return true;
    }

    method Sweep(now: int) returns (n: nat)
      modifies this
      ensures seen == AfterSweep(old(seen), now) && n == |old(seen)| - |seen|
    {
      n := 0;
      ghost var was := seen;
      var todo := seen.Keys;
      while todo != {}
        invariant todo <= seen.Keys <= was.Keys && n == |was| - |seen|
        invariant forall k | k in was && k !in todo :: k in seen <==> now <= was[k]
        invariant forall k | k in seen :: seen[k] == was[k]
        decreases |todo|
      {
        var k :| k in todo;
        todo := todo - {k};
        if now > seen[k] {
          RemovalShrinks(seen, k);
          seen := seen - {k};
          n := n + 1;
        }
      }
    }

    // The last two checks of a signed request, the window first.
    method Verify(r: Signed, now: int) returns (ok: bool)
      modifies this
      ensures ok == Accepts(old(seen), r, now) && seen == AfterRequest(old(seen), r, now)
      // Outside its window, before as after, a request is refused, genuine or not; inside it a genuine
      // one is accepted unless it is guarded and remembered.
      ensures ok <==>
                && r.stamp - r.ttl <= r.checked <= r.stamp + r.ttl && r.genuine
                && !(r.guarded && r.key in old(seen) && now <= old(seen)[r.key])
      ensures seen == if ok && r.guarded then old(seen)[r.key := now + r.ttl] else old(seen)
    {
      var age := r.checked - r.stamp;
      if age > r.ttl || age < -r.ttl {
        return false;
      }
      if !r.genuine {
        return false;
      }
      if r.guarded {
        ok := Admit(r.key, r.ttl, now);
        return;
      }
      return true;
    }
  }

  // ---------------------------------------------------------------- whole runs

  datatype Op = Request(r: Signed) | Sweep

  datatype Event = Event(op: Op, at: int)

  ghost function Next(seen: Expiries, e: Event): Expiries {
    match e.op
    case Request(r) => AfterRequest(seen, r, e.at)
    case Sweep => AfterSweep(seen, e.at)
  }

  ghost function After(events: seq<Event>): Expiries {
    if events == [] then map[] else Next(After(events[..|events| - 1]), events[|events| - 1])
  }

  ghost predicate Ordered(events: seq<Event>) {
    forall i, j | 0 <= i < j < |events| :: events[i].at <= events[j].at
  }

  // The i-th event of a run is a request that was accepted.
  ghost predicate Accepted(events: seq<Event>, i: nat)
    requires i < |events|
  {
    events[i].op.Request? && Accepts(After(events[..i]), events[i].op.r, events[i].at)
  }

  // Some guarded acceptance of the key in the run has not expired.
  ghost predicate Remembered(events: seq<Event>, key: string, now: int) {
    exists i: nat | i < |events| :: Uses(events, i, key) && now <= events[i].at + events[i].op.r.ttl
  }

  ghost predicate Uses(events: seq<Event>, i: nat, key: string)
    requires i < |events|
  {
    Accepted(events, i) && events[i].op.r.key == key && events[i].op.r.guarded
  }

  lemma {:induction false} CacheIsHistory(events: seq<Event>, key: string, now: int)
    requires Ordered(events) && (events != [] ==> events[|events| - 1].at <= now)
    ensures Fresh(After(events), key, now) <==> !Remembered(events, key, now)
  {
    if events != [] {
      var n := |events| - 1;
      var init, e := events[..n], events[n];
      forall i: nat | i < n ensures Uses(events, i, key) <==> Uses(init, i, key) {
        assert events[..i] == init[..i];
      }
      CacheIsHistory(init, key, now);
      CacheIsHistory(init, key, e.at);
      assert Remembered(events, key, now) <==>
          Remembered(init, key, now) || (Uses(events, n, key) && now <= e.at + e.op.r.ttl);
    }
  }

  // In any run with any sweeps, a genuine request of a guarded rule inside its window is refused
  // exactly while an earlier acceptance of its signature has not expired, whatever windows other
  // rules have.
  lemma RefusedExactlyWhileRemembered(events: seq<Event>, j: nat)
    requires Ordered(events) && j < |events| && events[j].op.Request?
    requires events[j].op.r.guarded && events[j].op.r.genuine && InWindow(events[j].op.r)
    ensures Accepted(events, j) <==>
            !exists i: nat | i < j :: Uses(events, i, events[j].op.r.key)
                && events[j].at <= events[i].at + events[i].op.r.ttl
  {
    var before, key := events[..j], events[j].op.r.key;
    CacheIsHistory(before, key, events[j].at);
    forall i: nat | i < j ensures Uses(events, i, key) <==> Uses(before, i, key) {
      assert events[..i] == before[..i];
    }
  }

  // A signature first accepted no earlier than its own timestamp is accepted again, under the
  // same window, only if its second window check and its second look-up lie on either side of
  // the instant the first use expires.
  lemma SecondUseStraddlesExpiry(events: seq<Event>, i: nat, j: nat)
    requires Ordered(events) && i < j < |events| && events[j].op.Request?
    requires var key := events[j].op.r.key; Uses(events, i, key) && events[j].op.r.guarded
    requires events[i].op.r.ttl == events[j].op.r.ttl && events[i].op.r.stamp == events[j].op.r.stamp
    requires events[i].op.r.stamp <= events[i].at
    ensures Accepted(events, j) ==> events[j].op.r.checked <= events[i].at + events[i].op.r.ttl < events[j].at
  {
    if Accepted(events, j) {
      RefusedExactlyWhileRemembered(events, j);
    }
  }

  // So it is never accepted again when both happen at one instant.
  lemma NoSecondUse(events: seq<Event>, i: nat, j: nat)
    requires Ordered(events) && i < j < |events| && events[j].op.Request?
    requires var key := events[j].op.r.key; Uses(events, i, key) && events[j].op.r.guarded
    requires events[i].op.r.ttl == events[j].op.r.ttl && events[i].op.r.stamp == events[j].op.r.stamp
    requires events[i].op.r.stamp <= events[i].at && events[j].op.r.checked == events[j].at
    ensures !Accepted(events, j)
  {
    if Accepted(events, j) {
      SecondUseStraddlesExpiry(events, i, j);
    }
  }

  // A request claiming the future is the exception: once accepted, it can be used again later if
  // and only if it was accepted before the instant it claims.
  lemma OnlyTheFutureCanBeReplayed(events: seq<Event>, r: Signed)
    requires Ordered(events) && events != [] && events[|events| - 1].op == Request(r)
    requires Accepted(events, |events| - 1) && r.guarded
    ensures (exists later: int ::
               later >= events[|events| - 1].at && Accepts(After(events), r.(checked := later), later)) <==>
            events[|events| - 1].at < r.stamp
  {
    var n := |events| - 1;
    var at := events[n].at;
    assert After(events) == After(events[..n])[r.key := at + r.ttl];
    if at < r.stamp {
      var later := r.stamp + r.ttl;
      assert Accepts(After(events), r.(checked := later), later);
    }
  }

  // Nothing is accepted outside its window.
  lemma AcceptedIsGenuineAndInTime(events: seq<Event>, i: nat)
    requires i < |events| && Accepted(events, i)
    ensures var r := events[i].op.r; r.genuine && r.stamp - r.ttl <= r.checked <= r.stamp + r.ttl
  {
  }

  // A later use of a guarded signature: it comes after the first has expired, and both within two
  // windows around the instant the signature claims.
  lemma ReuseIsBounded(events: seq<Event>, i: nat, j: nat)
    requires Ordered(events) && i < j < |events| && events[j].op.Request?
    requires var key := events[j].op.r.key; Uses(events, i, key) && Uses(events, j, key)
    requires events[i].op.r.ttl == events[j].op.r.ttl && events[i].op.r.stamp == events[j].op.r.stamp
    requires events[i].op.r.checked == events[i].at && events[j].op.r.checked == events[j].at
    ensures var r := events[i].op.r;
            && r.stamp - r.ttl <= events[i].at < r.stamp && events[i].at + r.ttl < events[j].at <= r.stamp + r.ttl
            && events[j].at - events[i].at <= 2 * r.ttl
  {
    RefusedExactlyWhileRemembered(events, j);
    AcceptedIsGenuineAndInTime(events, i);
    AcceptedIsGenuineAndInTime(events, j);
  }

  // So in no run is a guarded signature accepted a third time.
  lemma NeverAThirdUse(events: seq<Event>, i: nat, j: nat, k: nat)
    requires Ordered(events) && i < j < k < |events| && events[k].op.Request?
    requires var key := events[k].op.r.key; Uses(events, i, key) && Uses(events, j, key) && events[k].op.r.guarded
    requires events[i].op.r.ttl == events[j].op.r.ttl == events[k].op.r.ttl
    requires events[i].op.r.stamp == events[j].op.r.stamp == events[k].op.r.stamp
    requires events[i].op.r.checked == events[i].at && events[j].op.r.checked == events[j].at
    requires events[k].op.r.checked == events[k].at
    ensures !Accepted(events, k)
  {
    if Accepted(events, k) {
      ReuseIsBounded(events, i, j);
      ReuseIsBounded(events, j, k);
    }
  }
}
