/**
 The health monitor: heartbeats and handshakes in, missed deadlines counted by a periodic tick.

 Instants and durations are whole nanoseconds. An instant that was never set is absent, and is
 older than any deadline.
 */
module Health {
  import opened Wrappers
  import opened Sorting

  datatype Status = Unknown | Healthy | Warned | Offline

  // What the monitor remembers of a node; `gaps` are its last few measured heartbeat intervals.
  datatype NodeState = NodeState(
    lastAt: Option<int>,
    seen: bool,
    misses: nat,
    downSent: bool,
    status: Status,
    prevBeat: Option<int>,
    gaps: seq<int>,
    aliveAt: Option<int>)

  datatype Load = Load(cpu: real, mem: real)

  datatype Limits = Limits(cpu: real, mem: real)

  datatype Timing = Timing(interval: int, threshold: int, assumed: int)

  const GAP_SAMPLES := 5
  const EXIT_MARGIN := 5.0
  const SECOND := 1000000000

  // So many intervals.
  function Span(t: Timing, n: int): int { n * t.interval }

  predicate Sane(t: Timing) { t.interval > 0 && t.threshold > 0 && t.assumed > 0 }

  // ---------------------------------------------------------------- the median gap

  // How often a node reports: the median of its measured gaps, or the assumed interval.
  function Gap(t: Timing, gaps: seq<int>): int {
    if gaps == [] then t.assumed else SortInts(gaps)[|gaps| / 2]
  }

  function Deadline(t: Timing, gaps: seq<int>): int {
    if t.interval >= Gap(t, gaps) then t.interval else Gap(t, gaps)
  }

  function Within(s: seq<int>, lo: int, hi: int): nat {
    if s == [] then 0 else (if lo <= s[0] <= hi then 1 else 0) + Within(s[1..], lo, hi)
  }

  lemma {:induction false} WithinInsert(x: int, s: seq<int>, lo: int, hi: int)
    ensures Within(InsertInt(x, s), lo, hi) == Within(s, lo, hi) + (if lo <= x <= hi then 1 else 0)
  {
    if s != [] && x > s[0] {
      WithinInsert(x, s[1..], lo, hi);
    }
  }

  lemma {:induction false} WithinSort(s: seq<int>, lo: int, hi: int)
    ensures Within(SortInts(s), lo, hi) == Within(s, lo, hi)
  {
    if s != [] {
      WithinSort(s[1..], lo, hi);
      WithinInsert(s[0], SortInts(s[1..]), lo, hi);
    }
  }

  // A sorted sequence with everything up to k outside on the low side, or from k on outside on
  // the high side, has few elements inside.
  lemma {:induction false} FewInside(s: seq<int>, k: nat, lo: int, hi: int)
    requires k < |s| && AscendingInts(s)
    ensures s[k] < lo ==> Within(s, lo, hi) <= |s| - k - 1
    ensures s[k] > hi ==> Within(s, lo, hi) <= k
  {
    if k > 0 {
      FewInside(s[1..], k - 1, lo, hi);
      assert s[0] <= s[k];
    } else {
      WithinAtMost(s[1..], lo, hi);
      if s[0] > hi { NoneInside(s, lo, hi); }
    }
  }

  lemma {:induction false} WithinAtMost(s: seq<int>, lo: int, hi: int)
    ensures Within(s, lo, hi) <= |s|
  {
    if s != [] { WithinAtMost(s[1..], lo, hi); }
  }

  lemma {:induction false} NoneInside(s: seq<int>, lo: int, hi: int)
    requires forall i | 0 <= i < |s| :: s[i] > hi
    ensures Within(s, lo, hi) == 0
  {
    if s != [] { NoneInside(s[1..], lo, hi); }
  }

  // Fewer than half the samples cannot move the measured gap: if most lie in a range, so does it.
  lemma MedianResistsOutliers(t: Timing, gaps: seq<int>, lo: int, hi: int)
    requires 2 * Within(gaps, lo, hi) > |gaps|
    ensures lo <= Gap(t, gaps) <= hi
  {
    var k := |gaps| / 2;
    WithinAtMost(gaps, lo, hi);
    WithinSort(gaps, lo, hi);
    SortIntsSorts(gaps);
    FewInside(SortInts(gaps), k, lo, hi);
  }

  // ---------------------------------------------------------------- one node, one event

  function Classify(l: Limits, load: Load, prev: Status): Status {
    if prev == Warned then
      if load.cpu >= l.cpu - EXIT_MARGIN || load.mem >= l.mem - EXIT_MARGIN then Warned else Healthy
    else
      if load.cpu >= l.cpu || load.mem >= l.mem then Warned else Healthy
  }

  // At or above a limit a node is warned; below both by more than the margin of five points it is
  // healthy; in between it stays what it was.
  lemma StatusByLoad(l: Limits, load: Load, prev: Status)
    ensures load.cpu >= l.cpu || load.mem >= l.mem ==> Classify(l, load, prev) == Warned
    ensures load.cpu < l.cpu - 5.0 && load.mem < l.mem - 5.0 ==> Classify(l, load, prev) == Healthy
    ensures load.cpu < l.cpu && load.mem < l.mem && !(load.cpu < l.cpu - 5.0 && load.mem < l.mem - 5.0) ==>
              Classify(l, load, prev) == if prev == Warned then Warned else Healthy
  {
  }

  const Fresh := NodeState(None, false, 0, false, Unknown, None, [], None)

  // The new gap, when the previous event was a heartbeat and time has passed.
  function Measured(st: NodeState, now: int): seq<int> {
    if st.prevBeat.Some? && now - st.prevBeat.value > 0 then
      var all := st.gaps + [now - st.prevBeat.value];
      if |all| > GAP_SAMPLES then all[|all| - GAP_SAMPLES..] else all
    else st.gaps
  }

  function Beaten(l: Limits, st: NodeState, load: Load, now: int): NodeState {
    NodeState(Some(now), true, 0, false, Classify(l, load, st.status), Some(now), Measured(st, now), st.aliveAt)
  }

  // The gap a heartbeat measures is the time since the last one, unless a handshake came between; the
  // last five are kept.
  lemma GapsAreTimesBetweenBeats(l: Limits, st: NodeState, load: Load, a: int, b: int)
    requires |st.gaps| <= 5 && a < b
    ensures var once := Beaten(l, st, load, a);
            && |once.gaps| <= 5
            && Beaten(l, Shaken(once, a), load, b).gaps == once.gaps
            && var twice := Beaten(l, once, load, b).gaps;
               && |twice| == (if |once.gaps| < 5 then |once.gaps| + 1 else 5) && twice[|twice| - 1] == b - a
               && twice[..|twice| - 1] == once.gaps[|once.gaps| + 1 - |twice|..]
  {
  }

  function Shaken(st: NodeState, now: int): NodeState { st.(aliveAt := Some(now), misses := 0, prevBeat := None) }

  predicate Recent(at: Option<int>, deadline: int, now: int) { at.Some? && now - at.value < deadline }

  predicate Late(t: Timing, st: NodeState, now: int) {
    !Recent(st.lastAt, Deadline(t, st.gaps), now) && !Recent(st.aliveAt, Deadline(t, st.gaps), now)
  }

  function Ticked(t: Timing, st: NodeState, now: int): NodeState {
    if !st.seen || st.downSent || !Late(t, st, now) then st
    else st.(misses := st.misses + 1, downSent := st.misses + 1 >= t.threshold)
  }

  // A node known to the store when the monitor starts.
  datatype Known = Known(lastBeat: Option<int>, status: Status, drained: bool)

  function Warmed(k: Known): NodeState {
    NodeState(k.lastBeat, true, 0, k.status == Offline, k.status, None, [], None)
  }

  predicate Positive(s: seq<int>) { forall i | 0 <= i < |s| :: s[i] > 0 }

  class Monitor {
    var timing: Timing
    const limits: Limits
    var nodes: map<string, NodeState>

    ghost predicate Valid()
      reads this
    {
      Sane(timing) && forall id | id in nodes :: |nodes[id].gaps| <= GAP_SAMPLES && Positive(nodes[id].gaps)
    }

    // Settings that make no sense fall back to the defaults.
    constructor (interval: int, threshold: int, assumed: int, warnCpu: real, warnMem: real)
      ensures Valid() && nodes == map[]
      ensures timing.interval == (if interval > 0 then interval else 3 * SECOND)
      ensures timing.threshold == (if threshold > 0 then threshold else 5)
      ensures timing.assumed == (if assumed > 0 then assumed else 3 * SECOND)
      ensures limits.cpu == (if warnCpu > 0.0 then warnCpu else 80.0)
      ensures limits.mem == (if warnMem > 0.0 then warnMem else 90.0)
    {
      timing := Timing(
        if interval <= 0 then 3 * SECOND else interval,
        if threshold <= 0 then 5 else threshold,
        if assumed <= 0 then 3 * SECOND else assumed);
      limits := Limits(if warnCpu <= 0.0 then 80.0 else warnCpu, if warnMem <= 0.0 then 90.0 else warnMem);
      nodes := map[];
    }

    method SetTiming(interval: int, threshold: int)
      requires Valid()
      modifies this`timing
      ensures Valid() && timing.assumed == old(timing.assumed)
      ensures timing.interval == (if interval > 0 then interval else old(timing.interval))
      ensures timing.threshold == (if threshold > 0 then threshold else old(timing.threshold))
    {
      if interval > 0 {
        timing := timing.(interval := interval);
      }
      if threshold > 0 {
        timing := timing.(threshold := threshold);
      }
    }

    // A heartbeat. A change of status is announced; a node that was down is to be recovered.
    method ObserveAt(id: string, load: Load, now: int) returns (status: Status, announced: bool, recovering: bool)
      requires Valid()
      modifies this`nodes
      ensures Valid()
      ensures load.cpu >= limits.cpu || load.mem >= limits.mem ==> status == Warned
      ensures load.cpu < limits.cpu - 5.0 && load.mem < limits.mem - 5.0 ==> status == Healthy
      ensures var was := if id in old(nodes) then old(nodes)[id] else Fresh;
              && nodes == old(nodes)[id := Beaten(limits, was, load, now)]
              && status == nodes[id].status && announced == (status != was.status) && recovering == was.downSent
    {
      var st := if id in nodes then nodes[id] else Fresh;
      var gaps := st.gaps;
      if st.prevBeat.Some? {
        var g := now - st.prevBeat.value;
        if g > 0 {
          gaps := gaps + [g];
          if |gaps| > GAP_SAMPLES {
            gaps := gaps[|gaps| - GAP_SAMPLES..];
          }
        }
      }
      status := Classify(limits, load, st.status);
      announced, recovering := status != st.status, st.downSent;
      nodes := nodes[id := st.(lastAt := Some(now), seen := true, misses := 0, downSent := false, status := status,
                               prevBeat := Some(now), gaps := gaps)];
    }

    // A tunnel handshake: evidence of life without a sample. It neither creates a node nor
    // recovers one.
    method Alive(id: string, now: int)
      requires Valid()
      modifies this`nodes
      ensures Valid()
      ensures nodes == (if id in old(nodes) then old(nodes)[id := Shaken(old(nodes)[id], now)] else old(nodes))
    {
      if id in nodes {
        nodes := nodes[id := nodes[id].(aliveAt := Some(now), misses := 0, prevBeat := None)];
      }
    }

    // One tick over all nodes, in any order: who did not report in time, and who is now down.
    method TickAt(now: int) returns (down: set<string>)
      requires Valid()
      modifies this`nodes
      ensures Valid() && nodes == map id | id in old(nodes) :: Ticked(timing, old(nodes)[id], now)
      ensures forall id :: id in down <==> id in nodes && !old(nodes)[id].downSent && nodes[id].downSent
    {
      down := {};
      ghost var was := nodes;
      ghost var next := map id | id in nodes :: Ticked(timing, nodes[id], now);
      var todo := nodes.Keys;
      while todo != {}
        invariant todo <= nodes.Keys == was.Keys
        invariant forall id | id in nodes :: nodes[id] == if id in todo then was[id] else next[id]
        invariant forall id :: id in down <==> id in was && id !in todo && !was[id].downSent && next[id].downSent
        decreases |todo|
      {
        var id :| id in todo;
        todo := todo - {id};
        var fell := CountMiss(id, now);
        if fell {
          down := down + {id};
        }
      }
    }

    method CountMiss(id: string, now: int) returns (fell: bool)
      requires id in nodes
      modifies this`nodes
      ensures nodes == old(nodes)[id := Ticked(timing, old(nodes)[id], now)]
      ensures fell == (!old(nodes)[id].downSent && nodes[id].downSent)
    {
      var st := nodes[id];
      if !st.seen || st.downSent {
        return false;
      }
      var deadline := Deadline(timing, st.gaps);
      if Recent(st.lastAt, deadline, now) || Recent(st.aliveAt, deadline, now) {
        return false;
      }
      st := st.(misses := st.misses + 1);
      fell := st.misses >= timing.threshold;
      if fell {
        st := st.(downSent := true);
      }
      nodes := nodes[id := st];
    }

    // Load the nodes the store knows, except drained ones and those already heard from.
    method Warm(known: map<string, Known>) returns (n: nat)
      requires Valid()
      modifies this`nodes
      ensures Valid()
      ensures forall id :: id in nodes <==> id in old(nodes) || (id in known && !known[id].drained)
      ensures forall id | id in nodes :: nodes[id] == if id in old(nodes) then old(nodes)[id] else Warmed(known[id])
      ensures forall id | id in nodes && id !in old(nodes) ::
                && nodes[id].seen && nodes[id].misses == 0 && (nodes[id].downSent <==> known[id].status == Offline)
                && nodes[id].status == known[id].status && nodes[id].lastAt == known[id].lastBeat
                && nodes[id].gaps == []
      ensures n == |nodes| - |old(nodes)|
    {
      n := 0;
      var todo := known.Keys;
      while todo != {}
        invariant Valid() && todo <= known.Keys && old(nodes).Keys <= nodes.Keys && n == |nodes| - |old(nodes)|
        invariant forall id :: id in nodes <==> id in old(nodes) || (id in known && id !in todo && !known[id].drained)
        invariant forall id | id in nodes :: nodes[id] == if id in old(nodes) then old(nodes)[id] else Warmed(known[id])
        decreases |todo|
      {
        var id :| id in todo;
        todo := todo - {id};
        if id !in nodes && !known[id].drained {
          nodes := nodes[id := Warmed(known[id])];
          n := n + 1;
        }
      }
    }

    method Forget(id: string)
      requires Valid()
      modifies this`nodes
      ensures Valid() && nodes == old(nodes) - {id}
    {
      nodes := nodes - {id};
    }

    // How old a sample may be before its node is down for certain: the largest deadline of all
    // nodes, that of one not yet measured included, plus the threshold in intervals.
    method StaleAfter() returns (age: int)
      requires Valid()
      ensures age >= Deadline(timing, []) + Span(timing, timing.threshold)
      ensures forall id | id in nodes :: age >= Deadline(timing, nodes[id].gaps) + Span(timing, timing.threshold)
      ensures (age == Deadline(timing, []) + Span(timing, timing.threshold)
               || exists id | id in nodes :: age == Deadline(timing, nodes[id].gaps) + Span(timing, timing.threshold))
    {
      var deadline := Deadline(timing, []);
      var todo := nodes.Keys;
      while todo != {}
        invariant todo <= nodes.Keys && deadline >= Deadline(timing, [])
        invariant forall id | id in nodes && id !in todo :: deadline >= Deadline(timing, nodes[id].gaps)
        invariant deadline == Deadline(timing, []) || exists id | id in nodes ::
                  deadline == Deadline(timing, nodes[id].gaps)
        decreases |todo|
      {
        var id :| id in todo;
        todo := todo - {id};
        if Deadline(timing, nodes[id].gaps) > deadline {
          deadline := Deadline(timing, nodes[id].gaps);
        }
      }
      age := deadline + Span(timing, timing.threshold);
    }
  }

  // ---------------------------------------------------------------- when a silent node is down

  // The state after k ticks, one interval apart, the first at `first`.
  function AfterTicks(t: Timing, st: NodeState, first: int, k: nat): NodeState {
    if k == 0 then st else Ticked(t, AfterTicks(t, st, first, k - 1), TickTime(t, first, k - 1))
  }

  function TickTime(t: Timing, first: int, k: int): int { first + Span(t, k) }

  lemma SpanAdds(t: Timing, a: int, b: int)
    ensures Span(t, a + b) == Span(t, a) + Span(t, b)
  {
  }

  lemma SpanGrows(t: Timing, a: int, b: int)
    requires Sane(t) && a <= b
    ensures Span(t, a) <= Span(t, b)
  {
  }

  // The latest evidence of life is at e.
  ghost predicate Evidence(st: NodeState, e: int) {
    && (st.lastAt == Some(e) || st.aliveAt == Some(e))
    && (st.lastAt.Some? ==> st.lastAt.value <= e) && (st.aliveAt.Some? ==> st.aliveAt.value <= e)
  }

  // A heartbeat is such evidence and clears the count; so is a handshake of a node that is up. A
  // handshake alone brings no node back.
  lemma EvidenceClearsTheCount(l: Limits, st: NodeState, load: Load, now: int)
    requires (st.lastAt.Some? ==> st.lastAt.value <= now) && (st.aliveAt.Some? ==> st.aliveAt.value <= now)
    ensures var b := Beaten(l, st, load, now); Evidence(b, now) && b.seen && !b.downSent && b.misses == 0
    ensures var h := Shaken(st, now);
            Evidence(h, now) && h.downSent == st.downSent && h.misses == 0 && h.lastAt == st.lastAt
  {
  }

  lemma LateFromDeadlineOn(t: Timing, st: NodeState, e: int, now: int)
    requires Evidence(st, e)
    ensures Late(t, st, now) <==> now >= e + Deadline(t, st.gaps)
  {
  }

  // A node silent since e is late exactly once an interval and its usual gap have both passed: the
  // assumed gap for one not yet measured, and else one in any range that holds most of its gaps.
  lemma LateInItsOwnTerms(t: Timing, st: NodeState, e: int, now: int, lo: int, hi: int)
    requires Evidence(st, e)
    ensures now < e + t.interval ==> !Late(t, st, now)
    ensures st.gaps == [] ==> (Late(t, st, now) <==> now >= e + t.interval && now >= e + t.assumed)
    ensures 2 * Within(st.gaps, lo, hi) > |st.gaps| && now < e + lo ==> !Late(t, st, now)
    ensures 2 * Within(st.gaps, lo, hi) > |st.gaps| && now >= e + t.interval && now >= e + hi ==> Late(t, st, now)
  {
    LateFromDeadlineOn(t, st, e, now);
    if 2 * Within(st.gaps, lo, hi) > |st.gaps| {
      MedianResistsOutliers(t, st.gaps, lo, hi);
    }
  }

  // After k ticks, the misses are the ticks past the deadline, up to the threshold.
  lemma {:induction false} MissesCountLateTicks(t: Timing, st: NodeState, e: int, first: int, c: nat, k: nat)
    requires Sane(t) && Evidence(st, e) && st.seen && !st.downSent && st.misses == 0
    requires forall j: nat :: TickTime(t, first, j) >= e + Deadline(t, st.gaps) <==> j >= c
    ensures var s := AfterTicks(t, st, first, k);
            && s == st.(misses := s.misses, downSent := s.downSent)
            && s.misses == (if k <= c then 0 else if k - c <= t.threshold then k - c else t.threshold)
            && (s.downSent <==> k >= c + t.threshold)
  {
    if k > 0 {
      MissesCountLateTicks(t, st, e, first, c, k - 1);
      var s := AfterTicks(t, st, first, k - 1);
      assert Evidence(s, e);
      LateFromDeadlineOn(t, s, e, TickTime(t, first, k - 1));
    }
  }

  // The first tick at or past an instant, for ticks whose first comes less than an interval
  // after it.
  lemma FirstTickFrom(t: Timing, first: int, from: int) returns (c: nat)
    requires Sane(t) && first < from + t.interval
    ensures from <= TickTime(t, first, c) < from + t.interval
    ensures forall j: nat :: TickTime(t, first, j) >= from <==> j >= c
  {
    if first >= from {
      c := 0;
    } else {
      c := (from - first + t.interval - 1) / t.interval;
      Ceiling(from - first, t.interval);
    }
    SpanAdds(t, c - 1, 1);
    forall j: nat
      ensures TickTime(t, first, j) >= from <==> j >= c
    {
      if j >= c { SpanGrows(t, c, j); } else { SpanGrows(t, j, c - 1); }
    }
  }

  lemma Ceiling(x: int, d: int)
    requires x > 0 && d > 0
    ensures var c := (x + d - 1) / d; c >= 1 && x <= c * d < x + d
  {
  }

  // A node silent since e is declared down at one tick, T, and e + D + (N - 1) I <= T < e + D + N I,
  // whatever the phase of the ticks.
  lemma SilentNodeGoesDownInWindow(t: Timing, st: NodeState, e: int, first: int) returns (k: nat)
    requires Sane(t) && Evidence(st, e) && st.seen && !st.downSent && st.misses == 0
    requires first < e + Deadline(t, st.gaps) + t.interval
    ensures !AfterTicks(t, st, first, k).downSent && AfterTicks(t, st, first, k + 1).downSent
    ensures var d := Deadline(t, st.gaps);
            e + d + Span(t, t.threshold - 1) <= TickTime(t, first, k) < e + d + Span(t, t.threshold)
    ensures forall j: nat :: AfterTicks(t, st, first, j).downSent <==> j > k
  {
    var from := e + Deadline(t, st.gaps);
    var c := FirstTickFrom(t, first, from);
    k := c + t.threshold - 1;
    MissesCountLateTicks(t, st, e, first, c, k);
    MissesCountLateTicks(t, st, e, first, c, k + 1);
    forall j: nat ensures AfterTicks(t, st, first, j).downSent <==> j > k {
      MissesCountLateTicks(t, st, e, first, c, j);
    }
    SpanAdds(t, c, t.threshold - 1);
    SpanAdds(t, t.threshold - 1, 1);
  }

  // Ticks at any instants.
  function AfterAny(t: Timing, st: NodeState, at: seq<int>): NodeState {
    if at == [] then st else Ticked(t, AfterAny(t, st, at[..|at| - 1]), at[|at| - 1])
  }

  // However late its evidence is already, a node just loaded, heard from or shaken hands with
  // takes at least threshold ticks to go down.
  lemma {:induction false} NoNodeGoesDownBeforeThresholdTicks(t: Timing, st: NodeState, at: seq<int>)
    requires Sane(t) && !st.downSent && st.misses == 0 && |at| < t.threshold
    ensures !AfterAny(t, st, at).downSent && AfterAny(t, st, at).misses <= |at|
  {
    if at != [] {
      NoNodeGoesDownBeforeThresholdTicks(t, st, at[..|at| - 1]);
    }
  }

  // A sample older than StaleAfter, with nothing heard since and the ticks on time, belongs to a
  // node already declared down.
  lemma StaleSampleMeansDown(t: Timing, st: NodeState, e: int, first: int, k: nat, now: int, staleAfter: int)
    requires Sane(t) && st.lastAt == Some(e) && Evidence(st, e) && st.seen && !st.downSent && st.misses == 0
    requires first < e + Deadline(t, st.gaps) + t.interval
    requires staleAfter >= Deadline(t, st.gaps) + Span(t, t.threshold)
    requires now < TickTime(t, first, k) && now - e > staleAfter
    ensures AfterTicks(t, st, first, k).downSent
  {
    var down := SilentNodeGoesDownInWindow(t, st, e, first);
    if k <= down {
      SpanGrows(t, k, down);
    }
  }

  // ---------------------------------------------------------------- warn does not flap

  function Dist(a: Load, b: Load): real { Abs(a.cpu - b.cpu) + Abs(a.mem - b.mem) }

  function Abs(x: real): real { if x < 0.0 then -x else x }

  // The total variation of processor load plus that of memory.
  function Variation(at: Load, loads: seq<Load>): real
    decreases |loads|
  {
    if loads == [] then 0.0 else Dist(at, loads[0]) + Variation(loads[0], loads[1..])
  }

  // The announcements a run of heartbeats makes, from a given status.
  function Changes(l: Limits, status: Status, loads: seq<Load>): nat
    decreases |loads|
  {
    if loads == [] then 0 else
    var next := Classify(l, loads[0], status);
    (if next != status then 1 else 0) + Changes(l, next, loads[1..])
  }

  // The status was entered at this load.
  predicate Entered(l: Limits, status: Status, anchor: Load) {
    match status
    case Warned => anchor.cpu >= l.cpu || anchor.mem >= l.mem
    case _ => status == Healthy && anchor.cpu < l.cpu - EXIT_MARGIN && anchor.mem < l.mem - EXIT_MARGIN
  }

  // `spent` is variation since the status was entered that no earlier change has used up.
  lemma {:induction false} EachChangeCostsTheMargin(l: Limits, status: Status, anchor: Load, at: Load, spent: real,
                                                    loads: seq<Load>)
    requires Entered(l, status, anchor) && spent >= Dist(anchor, at)
    ensures EXIT_MARGIN * Changes(l, status, loads) as real <= spent + Variation(at, loads)
    decreases |loads|
  {
    if loads != [] {
      var next := Classify(l, loads[0], status);
      if next == status {
        EachChangeCostsTheMargin(l, status, anchor, loads[0], spent + Dist(at, loads[0]), loads[1..]);
      } else {
        assert Entered(l, next, loads[0]);
        assert Dist(anchor, loads[0]) <= spent + Dist(at, loads[0]);
        EachChangeCostsTheMargin(l, next, loads[0], loads[0], 0.0, loads[1..]);
      }
    }
  }

  // From any heartbeat on, however the status began: all changes but one are paid for by the exit
  // margin, so a load hovering at the threshold cannot set off a storm of alerts.
  lemma {:induction false} HoveringCannotFlap(l: Limits, status: Status, at: Load, loads: seq<Load>)
    requires status == Healthy || status == Warned
    ensures EXIT_MARGIN * (Changes(l, status, loads) as real - 1.0) <= Variation(at, loads)
    decreases |loads|
  {
    if loads != [] {
      var next := Classify(l, loads[0], status);
      if next == status {
        HoveringCannotFlap(l, status, loads[0], loads[1..]);
      } else {
        EachChangeCostsTheMargin(l, next, loads[0], loads[0], 0.0, loads[1..]);
      }
    }
  }
}
