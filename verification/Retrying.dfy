/**
 The background retrier: a registry of running jobs guarded by a mutex, and the job loop.

 A job's loop is interleaved with everything other goroutines may do: at every point where it
 does not hold the mutex, `Interfere` runs an arbitrary list of their steps.
 */
module Retrying {
  import opened Wrappers

  type JobId = nat
  type DeployId = nat

  // A job is live from the moment it is registered until it is cancelled or has cleaned up.
  datatype Job = Job(deploy: DeployId, cancelled: bool, done: bool)

  // What other goroutines do between two steps of a job.
  datatype Other =
    | TakeNumber
    | Enqueue(ticket: JobId, deploy: DeployId)
    | Exit(job: JobId)
    | CancelAll
    | NewBaseline(version: string)

  // A step that neither moves the baseline nor reaches the job of this deploy.
  predicate Harmless(step: Other, deploy: DeployId) {
    !step.NewBaseline? && !step.CancelAll? && (step.Enqueue? ==> step.deploy != deploy)
  }

  predicate Calm(steps: seq<Other>, deploy: DeployId) { forall s | s in steps :: Harmless(s, deploy) }

  // A push's answer: accepted, refused by the node's own server, or no answer at all.
  datatype Outcome = Accepted | Refused | Lost

  const MAX_ATTEMPTS := 5

  class Retrier {
    var running: map<DeployId, JobId>
    var seqNo: nat
    var issued: set<JobId>   // identities handed out whose job is not registered yet
    var jobs: map<JobId, Job>
    var baseline: string

    ghost predicate Live(j: JobId)
      reads this
    {
      j in jobs && !jobs[j].cancelled && !jobs[j].done
    }

    // The registry holds exactly the handle of every live job.
    ghost predicate Valid()
      reads this
    {
      && (forall d | d in running :: Live(running[d]) && jobs[running[d]].deploy == d)
      && (forall j | j in jobs :: Live(j) ==> jobs[j].deploy in running && running[jobs[j].deploy] == j)
      && (forall j | j in jobs :: j <= seqNo && j !in issued)
      && (forall j | j in issued :: j <= seqNo)
    }

    // The job is still in its loop.
    ghost predicate Looping(me: JobId, deploy: DeployId)
      reads this
    {
      Valid() && me in jobs && !jobs[me].done && jobs[me].deploy == deploy
    }

    constructor ()
      ensures Valid() && running == map[] && jobs == map[] && issued == {}
    {
      running, seqNo, jobs, baseline, issued := map[], 0, map[], "", {};
    }

    // The identity is taken before the mutex, so two enqueues may register in either order.
    method NextId() returns (me: JobId)
      requires Valid()
      modifies this
      ensures Valid() && me !in old(issued) && me !in jobs && issued == old(issued) + {me}
      ensures jobs == old(jobs) && running == old(running) && baseline == old(baseline)
    {
      seqNo := seqNo + 1;
      me := seqNo;
      issued := issued + {me};
    }

    // Register a job under its identity, cancelling the one it replaces.
    method Register(me: JobId, deploy: DeployId)
      requires Valid() && me in issued
      modifies this
      ensures Valid() && Live(me) && jobs.Keys == old(jobs.Keys) + {me} && jobs[me].deploy == deploy
      ensures running == old(running)[deploy := me] && issued == old(issued) - {me} && baseline == old(baseline)
      ensures forall j | j in old(jobs) ::
              j in jobs && jobs[j] == (if deploy in old(running)
              && old(running)[deploy] == j then old(jobs[j]).(cancelled := true) else old(jobs[j]))
    {
      if deploy in running {
        var prev := running[deploy];
        jobs := jobs[prev := jobs[prev].(cancelled := true)];
      }
      running := running[deploy := me];
      jobs := jobs[me := Job(deploy, false, false)];
      issued := issued - {me};
    }

    // A job's deferred cleanup: it removes its own entry, never the one of a job that replaced it.
    method CleanUp(me: JobId)
      requires Valid() && me in jobs && !jobs[me].done
      modifies this
      ensures Valid() && jobs == old(jobs)[me := Job(old(jobs)[me].deploy, true, true)]
      ensures forall d :: d in running <==> (d in old(running) && old(running)[d] != me)
      ensures forall d | d in running :: running[d] == old(running)[d]
      ensures baseline == old(baseline) && issued == old(issued)
    {
      var deploy := jobs[me].deploy;
      if deploy in running && running[deploy] == me {
        running := running - {deploy};
      }
      jobs := jobs[me := Job(deploy, true, true)];
    }

    // Stop everything in flight.
    method StopAll()
      requires Valid()
      modifies this
      ensures Valid() && running == map[]
      ensures CancelledSince(old(jobs), jobs) && forall j :: !Live(j)
      ensures baseline == old(baseline) && issued == old(issued)
    {
      ghost var before := jobs;
      while running != map[]
        invariant Valid() && baseline == old(baseline) && issued == old(issued)
        invariant CancelledSince(before, jobs)
        decreases |running|
      {
        var d :| d in running;
        RemovalShrinks(running, d);
        CancelMore(before, jobs, running[d]);
        Stop(d);
      }
    }

    // Cancel one registered job and take it off the registry.
    method Stop(d: DeployId)
      requires Valid() && d in running
      modifies this
      ensures Valid() && running == old(running) - {d}
      ensures jobs == old(jobs)[old(running)[d] := old(jobs[running[d]]).(cancelled := true)]
      ensures baseline == old(baseline) && issued == old(issued)
    {
      jobs := jobs[running[d] := jobs[running[d]].(cancelled := true)];
      running := running - {d};
    }

    // One step of another goroutine. It never ends a job that is still looping; it may cancel it.
    method OtherStep(me: JobId, step: Other)
      requires Valid() && me in jobs && !jobs[me].done
      modifies this
      ensures Looping(me, old(jobs[me].deploy))
      ensures old(jobs[me].cancelled) ==> jobs[me].cancelled
      ensures Harmless(step, old(jobs[me].deploy)) ==> baseline == old(baseline) && jobs[me] == old(jobs[me])
    {
      match step {
        case TakeNumber => var _ := NextId();
        case Enqueue(t, d) => if t in issued { Register(t, d); }
        case Exit(j) => if j in jobs && j != me && !jobs[j].done { CleanUp(j); }
        case CancelAll => StopAll();
        case NewBaseline(v) => baseline := v;
      }
    }

    method Interfere(me: JobId, steps: seq<Other>)
      requires Valid() && me in jobs && !jobs[me].done
      modifies this
      ensures Looping(me, old(jobs[me].deploy))
      ensures old(jobs[me].cancelled) ==> jobs[me].cancelled
      ensures Calm(steps, old(jobs[me].deploy)) ==> baseline == old(baseline) && jobs[me] == old(jobs[me])
    {
      for i := 0 to |steps|
        invariant Looping(me, old(jobs[me].deploy))
        invariant old(jobs[me].cancelled) ==> jobs[me].cancelled
        invariant Calm(steps, old(jobs[me].deploy)) ==> baseline == old(baseline) && jobs[me] == old(jobs[me])
      {
        assert steps[i] in steps;
        OtherStep(me, steps[i]);
      }
    }
  }

  lemma CancelMore(before: map<JobId, Job>, jobs: map<JobId, Job>, j: JobId)
    requires CancelledSince(before, jobs) && j in jobs && !jobs[j].cancelled && !jobs[j].done
    ensures CancelledSince(before, jobs[j := jobs[j].(cancelled := true)])
  {
  }

  // Nothing but the cancellation of live jobs.
  ghost predicate CancelledSince(before: map<JobId, Job>, after: map<JobId, Job>) {
    && after.Keys == before.Keys
    && forall j | j in after && after[j] != before[j] ::
         !before[j].cancelled && !before[j].done && after[j] == before[j].(cancelled := true)
  }

  function Count(s: seq<string>, n: string): nat { multiset(s)[n] }

  function Elements(s: seq<string>): set<string> { set x | x in s }

  lemma CountSnoc(s: seq<string>, x: string, n: string)
    ensures Count(s + [x], n) == Count(s, n) + (if x == n then 1 else 0)
  {
  }

  lemma CountPrefix(s: seq<string>, i: nat)
    requires i <= |s|
    ensures AtMost(s[..i], s)
  {
    assert s == s[..i] + s[i..];
  }

  ghost predicate AtMost(a: seq<string>, b: seq<string>) { forall n :: Count(a, n) <= Count(b, n) }

  // The pushes since `before` number, for each node, at most its places in `nodes`.
  ghost predicate Spent(before: seq<string>, pushed: seq<string>, nodes: seq<string>) {
    forall n :: Count(pushed, n) <= Count(before, n) + Count(nodes, n)
  }

  // What the job loop did: the pushes it started, in order, how many of them started when the
  // job had already been cancelled, the nodes that answered, and the `retrying` flag of the last
  // row of each node.
  datatype Trace = Trace(pushed: seq<string>, late: nat, answered: set<string>, rows: map<string, bool>)

  datatype End = Finished | Superseded

  // Every node still pending gets a final row.
  function Abandon(rows: map<string, bool>, nodes: seq<string>): map<string, bool> {
    if nodes == [] then rows else Abandon(rows, nodes[..|nodes| - 1])[nodes[|nodes| - 1] := false]
  }

  lemma {:induction false} AbandonSettles(rows: map<string, bool>, nodes: seq<string>)
    ensures Abandon(rows, nodes).Keys == rows.Keys + Elements(nodes)
    ensures forall n | n in Abandon(rows, nodes) :: Abandon(rows, nodes)[n] == (n !in nodes && rows[n])
  {
    if nodes != [] {
      var init, last := nodes[..|nodes| - 1], nodes[|nodes| - 1];
      assert nodes == init + [last];
      AbandonSettles(rows, init);
      assert Elements(nodes) == Elements(init) + {last};
    }
  }

  ghost predicate Grows(before: seq<string>, pushed: seq<string>) { forall n :: Count(before, n) <= Count(pushed, n) }

  // Each of the nodes has answered, or was pushed to once more and stays on the list unless this
  // was the last attempt.
  ghost predicate Tried(t: Trace, out: Trace, nodes: seq<string>, still: seq<string>, last: bool) {
    forall n | n in nodes :: n in out.answered ||
        (Count(out.pushed, n) >= Count(t.pushed, n) + 1 && (last || n in still))
  }

  // Each node of the job has a row, and a row that says "will change" is of a node still to try.
  ghost predicate Owed(rows: map<string, bool>, nodes: set<string>, todo: set<string>) {
    rows.Keys == nodes && forall n | n in rows && rows[n] :: n in todo
  }

  lemma AbandonOwesNothing(rows: map<string, bool>, nodes: set<string>, todo: set<string>, pending: seq<string>)
    requires Owed(rows, nodes, todo) && todo <= Elements(pending) <= nodes
    ensures Owed(Abandon(rows, pending), nodes, {})
  {
    AbandonSettles(rows, pending);
  }

  // One node of one attempt: a push, and the row its answer leaves.
  method PushOne(r: Retrier, me: JobId, node: string, last: bool, t: Trace,
                 before: seq<Other>, during: seq<Other>, answer: Outcome)
    returns (out: Trace, again: bool)
    requires r.Valid() && me in r.jobs && !r.jobs[me].done && !r.jobs[me].cancelled && t.late == 0
    modifies r
    ensures r.Looping(me, old(r.jobs[me].deploy))
    ensures out.pushed == t.pushed + [node]
    ensures out.late <= 1 && (out.late == 1 ==> r.jobs[me].cancelled)
    ensures again == (answer == Lost && !last) && out.rows == t.rows[node := again]
    ensures out.answered == t.answered + (if answer == Lost then {} else {node})
  {
    r.Interfere(me, before);
    out := Trace(t.pushed + [node], if r.jobs[me].cancelled then 1 else 0, t.answered, t.rows);
    r.Interfere(me, during);
    match answer {
      case Accepted | Refused =>
        again := false;
        out := out.(answered := out.answered + {node});
      case Lost =>
        again := !last;
    }
    out := out.(rows := out.rows[node := again]);
  }

  // Every choice left to the rest of the system while one attempt runs.
  type Schedule = nat -> (seq<Other>, seq<Other>, Outcome)

  // A pass before its i-th node.
  ghost predicate Midway(t: Trace, out: Trace, pending: seq<string>, i: nat, nodes: set<string>, still: seq<string>,
                         last: bool) {
    && i <= |pending| && (last ==> still == [])
    && Passed(t, out, pending, i, nodes, still, Elements(still) + Elements(pending[i..]))
    && Tried(t, out, pending[..i], still, last)
    && if i == 0 then out == t else |out.pushed| > |t.pushed|
  }

  // A pass that ran through, or was cut short and gave every pending node its final row.
  ghost predicate Over(t: Trace, out: Trace, pending: seq<string>, nodes: set<string>, still: seq<string>, last: bool,
                       end: End) {
    && (last ==> still == [])
    && Passed(t, out, pending, |pending|, nodes, still, if end == Superseded then {} else Elements(still))
    && (end == Finished ==> Tried(t, out, pending, still, last))
    && (if out.pushed == t.pushed then end == Superseded else |out.pushed| > |t.pushed|)
  }

  // One node's turn in a pass.
  method Visit(r: Retrier, me: JobId, pending: seq<string>, i: nat, last: bool, nodes: set<string>, ghost t: Trace,
               kept: seq<string>, was: Trace, turn: (seq<Other>, seq<Other>, Outcome))
    returns (still: seq<string>, out: Trace)
    requires r.Valid() && me in r.jobs && !r.jobs[me].done && !r.jobs[me].cancelled && was.late == 0
    requires i < |pending| && Midway(t, was, pending, i, nodes, kept, last)
    modifies r
    ensures r.Looping(me, old(r.jobs[me].deploy))
    ensures out.late <= 1 && (out.late == 1 ==> r.jobs[me].cancelled)
    ensures Midway(t, out, pending, i + 1, nodes, still, last)
  {
    var again;
    var (before, during, answer) := turn;
    out, again := PushOne(r, me, pending[i], last, was, before, during, answer);
    still := if again then kept + [pending[i]] else kept;
    PassStep(t, was, kept, pending, i, nodes, again, out, still);
    TriedStep(t, was, kept, pending, i, last, out, still);
  }

  // One pass over the pending nodes.
  method Attempt(r: Retrier, me: JobId, pending: seq<string>, last: bool, nodes: set<string>, t: Trace, world: Schedule)
    returns (end: End, still: seq<string>, out: Trace)
    requires r.Valid() && me in r.jobs && !r.jobs[me].done && pending != []
    requires Elements(pending) <= nodes && Owed(t.rows, nodes, Elements(pending))
    requires t.late <= 1 && (t.late == 1 ==> r.jobs[me].cancelled)
    modifies r
    ensures r.Looping(me, old(r.jobs[me].deploy))
    ensures end == Superseded ==> r.jobs[me].cancelled
    ensures out.late <= 1 && (out.late == 1 ==> r.jobs[me].cancelled)
    ensures out.pushed == t.pushed <==> old(r.jobs[me].cancelled)
    ensures Over(t, out, pending, nodes, still, last, end)
  {
    ghost var deploy, cancelled := r.jobs[me].deploy, r.jobs[me].cancelled;
    still, out, end := [], t, Finished;
    PassStart(t, pending, nodes, last);
    for i := 0 to |pending|
      invariant r.Looping(me, deploy)
      invariant out.late <= 1 && (out.late == 1 ==> r.jobs[me].cancelled)
      invariant if i == 0 then r.jobs[me].cancelled == cancelled else !cancelled
      invariant Midway(t, out, pending, i, nodes, still, last)
    {
      // Before each node, a cancelled job stops and gives all of this pass its final row.
      if r.jobs[me].cancelled {
        PassCutShort(t, out, pending, i, nodes, still, last);
        out, end := out.(rows := Abandon(out.rows, pending)), Superseded;
        return;
      }
      still, out := Visit(r, me, pending, i, last, nodes, t, still, out, world(i));
    }
    PassEnd(t, out, pending, nodes, still, last);
  }

  // Where a pass stands after its first i nodes: who is kept for the next attempt, how often it
  // pushed, and which rows are still owed.
  ghost predicate Passed(t: Trace, out: Trace, pending: seq<string>, i: nat, nodes: set<string>,
                         still: seq<string>, todo: set<string>)
  {
    && i <= |pending| && Elements(still) <= Elements(pending) <= nodes
    && AtMost(still, pending[..i]) && Spent(t.pushed, out.pushed, pending[..i])
    && Owed(out.rows, nodes, todo)
    && t.answered <= out.answered && Grows(t.pushed, out.pushed)
  }

  lemma PassStart(t: Trace, pending: seq<string>, nodes: set<string>, last: bool)
    requires Elements(pending) <= nodes && Owed(t.rows, nodes, Elements(pending))
    ensures Midway(t, t, pending, 0, nodes, [], last)
  {
    assert pending[..0] == [] && pending[0..] == pending && Elements([]) == {};
  }

  lemma PassEnd(t: Trace, out: Trace, pending: seq<string>, nodes: set<string>, still: seq<string>, last: bool)
    requires pending != [] && Midway(t, out, pending, |pending|, nodes, still, last)
    ensures Over(t, out, pending, nodes, still, last, Finished)
  {
    assert pending[..|pending|] == pending && Elements(still) + Elements(pending[|pending|..]) == Elements(still);
  }

  lemma PassCutShort(t: Trace, out: Trace, pending: seq<string>, i: nat, nodes: set<string>, still: seq<string>,
                     last: bool)
    requires Midway(t, out, pending, i, nodes, still, last)
    ensures Over(t, out.(rows := Abandon(out.rows, pending)), pending, nodes, still, last, Superseded)
  {
    AbandonOwesNothing(out.rows, nodes, Elements(still) + Elements(pending[i..]), pending);
    CountPrefix(pending, i);
    assert pending[..|pending|] == pending;
  }

  // What one node's push keeps of the pass.
  lemma PassStep(t: Trace, was: Trace, kept: seq<string>, pending: seq<string>, i: nat, nodes: set<string>,
                 again: bool, out: Trace, still: seq<string>)
    requires i < |pending| && Passed(t, was, pending, i, nodes, kept, Elements(kept) + Elements(pending[i..]))
    requires out.pushed == was.pushed + [pending[i]] && out.rows == was.rows[pending[i] := again]
    requires was.answered <= out.answered
    requires still == if again then kept + [pending[i]] else kept
    ensures Passed(t, out, pending, i + 1, nodes, still, Elements(still) + Elements(pending[i + 1..]))
  {
    var node := pending[i];
    assert pending[..i + 1] == pending[..i] + [node] && pending[i..] == [node] + pending[i + 1..];
    forall n
      ensures Count(still, n) <= Count(pending[..i + 1], n)
      ensures Count(t.pushed, n) <= Count(out.pushed, n) <= Count(t.pushed, n) + Count(pending[..i + 1], n)
    {
      CountSnoc(pending[..i], node, n);
      CountSnoc(kept, node, n);
      CountSnoc(was.pushed, node, n);
    }
    assert node in pending;
  }

  lemma TriedStep(t: Trace, was: Trace, kept: seq<string>, pending: seq<string>, i: nat, last: bool, out: Trace,
                  still: seq<string>)
    requires i < |pending| && was.answered <= out.answered && Grows(t.pushed, was.pushed)
    requires Tried(t, was, pending[..i], kept, last)
    requires out.pushed == was.pushed + [pending[i]]
    requires pending[i] in out.answered || (last && still == kept) || still == kept + [pending[i]]
    requires still == kept || still == kept + [pending[i]]
    ensures Tried(t, out, pending[..i + 1], still, last)
  {
    var node := pending[i];
    assert pending[..i + 1] == pending[..i] + [node];
    forall n
      ensures Count(t.pushed, n) <= Count(was.pushed, n) <= Count(out.pushed, n)
      ensures n == node ==> Count(out.pushed, n) == Count(was.pushed, n) + 1
    {
      CountSnoc(was.pushed, node, n);
    }
  }

  // What the rest of the system does around the attempts: who runs while the job waits, whether
  // the wait ends by cancellation or by the timer when both are due, whether the baseline can be
  // read, and the schedule of each attempt.
  datatype Weather = Weather(waiting: seq<Other>, noticed: bool, reading: seq<Other>, readable: bool, pass: Schedule)

  // What a job finds when it is about to push: whether it has been cancelled, and the baseline.
  datatype Sight = Sight(cancelled: bool, baseline: string)

  // A job pushes unless it finds itself cancelled, or reads a baseline that is another version.
  predicate Pushes(seen: Sight, readable: bool, version: string) {
    !seen.cancelled && (readable ==> seen.baseline == "" || seen.baseline == version)
  }

  predicate CalmStart(w: Weather, deploy: DeployId) { Calm(w.waiting, deploy) && Calm(w.reading, deploy) }

  // The wait before an attempt, and the check that the job's version is still the baseline. The
  // timer may win although the job is cancelled, and a baseline that cannot be read is no obstacle.
  method MayStart(r: Retrier, me: JobId, version: string, w: Weather) returns (go: bool)
    requires r.Valid() && me in r.jobs && !r.jobs[me].done
    modifies r
    ensures r.Looping(me, old(r.jobs[me].deploy)) && (old(r.jobs[me].cancelled) ==> r.jobs[me].cancelled)
    ensures CalmStart(w, old(r.jobs[me].deploy)) ==> r.baseline == old(r.baseline) && r.jobs[me] == old(r.jobs[me])
    ensures !go ==> r.jobs[me].cancelled || (r.baseline != "" && r.baseline != version)
    ensures go && w.readable ==> r.baseline == "" || r.baseline == version
    ensures go && !r.jobs[me].cancelled <==> Pushes(Sight(r.jobs[me].cancelled, r.baseline), w.readable, version)
  {
    r.Interfere(me, w.waiting);
    if r.jobs[me].cancelled && w.noticed {
      return false;
    }
    r.Interfere(me, w.reading);
    go := !(w.readable && r.baseline != "" && r.baseline != version);
  }

  // One turn of the job loop.
  method Turn(r: Retrier, me: JobId, version: string, nodes: seq<string>, pending: seq<string>, attempt: nat,
              t: Trace, w: Weather)
    returns (end: End, still: seq<string>, out: Trace, ghost seen: Sight)
    requires r.Valid() && me in r.jobs && !r.jobs[me].done && pending != []
    requires 1 <= attempt <= MAX_ATTEMPTS && Standing(t, nodes, pending, attempt - 1)
    requires t.late <= 1 && (t.late == 1 ==> r.jobs[me].cancelled)
    modifies r
    ensures r.Looping(me, old(r.jobs[me].deploy))
    ensures out.late <= 1 && (out.late == 1 ==> r.jobs[me].cancelled)
    ensures end == Finished ==> Standing(out, nodes, still, attempt) && (attempt == MAX_ATTEMPTS ==> still == [])
    ensures end == Superseded ==> Settled(out, nodes)
    ensures end == Superseded ==> r.jobs[me].cancelled || (r.baseline != "" && r.baseline != version)
    ensures CalmStart(w, old(r.jobs[me].deploy)) ==> seen == Sight(old(r.jobs[me].cancelled), old(r.baseline))
    ensures if Pushes(seen, w.readable, version) then |out.pushed| > |t.pushed|
            else end == Superseded && out.pushed == t.pushed
  {
    var go := MayStart(r, me, version, w);
    seen := Sight(r.jobs[me].cancelled, r.baseline);
    if !go {
      return Superseded, pending, GiveUp(t, nodes, pending, attempt), seen;
    }
    end, still, out := Attempt(r, me, pending, attempt == MAX_ATTEMPTS, Elements(nodes), t, w.pass);
    AttemptStep(t, out, nodes, pending, still, attempt, if end == Superseded then {} else Elements(still));
    if end == Superseded {
      RoomLeft(out, nodes, still, attempt);
    } else {
      PersistStep(t, out, nodes, pending, still, attempt);
    }
  }

  // The first turn is over, and pushed.
  ghost predicate Underway(w: Weather, version: string, deploy: DeployId, nodes: seq<string>, t: Trace, seen: Sight,
                           atFirst: Sight) {
    nodes != [] && t.pushed != [] && Pushes(seen, w.readable, version) && (CalmStart(w, deploy) ==> seen == atFirst)
  }

  // The job loop, from its first wait to its last row; `seen` is what it finds after that wait.
  method Run(r: Retrier, me: JobId, version: string, nodes: seq<string>, rows: map<string, bool>,
             weather: nat -> Weather)
    returns (end: End, t: Trace, ghost seen: Sight)
    requires r.Valid() && me in r.jobs && !r.jobs[me].done && rows.Keys == Elements(nodes)
    modifies r
    ensures r.Looping(me, old(r.jobs[me].deploy))
    // At most one push starts after the job has been cancelled.
    ensures t.late <= 1
    // Pushes are bounded, node by node, and however the job ends, no row of its nodes is left
    // saying it will change.
    ensures Settled(t, nodes) && forall n :: Count(t.pushed, n) <= 5 * Count(nodes, n)
    // A job stops early only when it was cancelled or its version is no longer the baseline.
    ensures end == Superseded ==> r.jobs[me].cancelled || (r.baseline != "" && r.baseline != version)
    // A job that ran its course gave up on no node before the last attempt.
    ensures end == Finished ==> forall n | n in nodes :: n in t.answered || Count(t.pushed, n) >= MAX_ATTEMPTS
    // It pushes at all exactly when it may after its first wait.
    ensures t.pushed != [] <==> nodes != [] && Pushes(seen, weather(1).readable, version)
    ensures nodes != [] && CalmStart(weather(1), old(r.jobs[me].deploy)) ==>
              seen == Sight(old(r.jobs[me].cancelled), old(r.baseline))
  {
    ghost var deploy := r.jobs[me].deploy;
    var pending, attempt := nodes, 1;
    t, end, seen := Trace([], 0, {}, rows), Finished, Sight(r.jobs[me].cancelled, r.baseline);
    StandingStart(nodes, rows);
    ghost var atFirst := seen;
    ghost var w := weather(1);
    while attempt <= MAX_ATTEMPTS && pending != []
      invariant 1 <= attempt <= MAX_ATTEMPTS + 1 && (attempt > MAX_ATTEMPTS ==> pending == [])
      invariant r.Looping(me, deploy)
      invariant t.late <= 1 && (t.late == 1 ==> r.jobs[me].cancelled)
      invariant end == Finished && Standing(t, nodes, pending, attempt - 1)
      invariant if attempt == 1 then pending == nodes && t.pushed == []
                && atFirst == Sight(r.jobs[me].cancelled, r.baseline)
                else Underway(w, version, deploy, nodes, t, seen, atFirst)
    {
      ghost var sight;
      end, pending, t, sight := Turn(r, me, version, nodes, pending, attempt, t, weather(attempt));
      seen := if attempt == 1 then sight else seen;
      if end == Superseded {
        return;
      }
      attempt := attempt + 1;
    }
    CourseRun(t, nodes, pending, attempt - 1);
  }

  // A job's goroutine: the loop, then the deferred cleanup.
  method RunJob(r: Retrier, me: JobId, version: string, nodes: seq<string>, rows: map<string, bool>,
                weather: nat -> Weather, leaving: seq<Other>)
    returns (end: End, t: Trace, ghost seen: Sight)
    requires r.Valid() && me in r.jobs && !r.jobs[me].done && rows.Keys == Elements(nodes)
    modifies r
    ensures r.Valid() && !r.Live(me) && me in r.jobs && r.jobs[me].done
    ensures forall d | d in r.running :: r.running[d] != me
    ensures t.late <= 1 && Settled(t, nodes)
    ensures t.pushed != [] <==> nodes != [] && Pushes(seen, weather(1).readable, version)
    ensures nodes != [] && CalmStart(weather(1), old(r.jobs[me].deploy)) ==>
              seen == Sight(old(r.jobs[me].cancelled), old(r.baseline))
  {
    end, t, seen := Run(r, me, version, nodes, rows, weather);
    r.Interfere(me, leaving);
    r.CleanUp(me);
  }

  // Where the loop stands after k attempts.
  ghost predicate Standing(t: Trace, nodes: seq<string>, pending: seq<string>, k: nat) {
    Under(t, nodes, pending, k) && Owed(t.rows, Elements(nodes), Elements(pending)) && Persisted(t, nodes, pending, k)
  }

  lemma StandingStart(nodes: seq<string>, rows: map<string, bool>)
    requires rows.Keys == Elements(nodes)
    ensures Standing(Trace([], 0, {}, rows), nodes, nodes, 0)
  {
  }

  lemma CourseRun(t: Trace, nodes: seq<string>, pending: seq<string>, k: nat)
    requires Standing(t, nodes, pending, k) && k <= MAX_ATTEMPTS && pending == []
    ensures Settled(t, nodes)
    ensures forall n | n in nodes :: n in t.answered || Count(t.pushed, n) >= MAX_ATTEMPTS
  {
    RoomLeft(t, nodes, pending, k);
  }

  // The job's account when it is over: at most MAX_ATTEMPTS pushes for each place a node has in
  // the job's list, and a final row for every node.
  ghost predicate Settled(t: Trace, nodes: seq<string>) {
    (forall n :: Count(t.pushed, n) <= MAX_ATTEMPTS * Count(nodes, n)) && Owed(t.rows, Elements(nodes), {})
  }

  function Times(k: nat, c: nat): nat { if k == 0 then 0 else c + Times(k - 1, c) }

  lemma {:induction false} TimesIsMultiplication(k: nat, c: nat)
    ensures Times(k, c) == k * c
  {
    if k > 0 { TimesIsMultiplication(k - 1, c); }
  }

  // After k attempts: who is left, and how often each node was pushed to.
  ghost predicate Under(t: Trace, nodes: seq<string>, pending: seq<string>, k: nat) {
    && Elements(pending) <= Elements(nodes) && AtMost(pending, nodes)
    && forall n :: Count(t.pushed, n) <= Times(k, Count(nodes, n))
  }

  function GiveUp(t: Trace, nodes: seq<string>, pending: seq<string>, attempt: nat): (out: Trace)
    requires 1 <= attempt <= MAX_ATTEMPTS && Under(t, nodes, pending, attempt - 1)
    requires Owed(t.rows, Elements(nodes), Elements(pending))
    ensures Settled(out, nodes) && out.late == t.late && out.pushed == t.pushed
  {
    AbandonOwesNothing(t.rows, Elements(nodes), Elements(pending), pending);
    RoomLeft(t, nodes, pending, attempt - 1);
    t.(rows := Abandon(t.rows, pending))
  }

  lemma AttemptStep(was: Trace, t: Trace, nodes: seq<string>, todo: seq<string>, pending: seq<string>, attempt: nat,
                    owed: set<string>)
    requires 1 <= attempt && Under(was, nodes, todo, attempt - 1)
    requires Passed(was, t, todo, |todo|, Elements(nodes), pending, owed)
    ensures Under(t, nodes, pending, attempt)
  {
    assert todo[..|todo|] == todo;
    forall n ensures Count(t.pushed, n) <= Times(attempt, Count(nodes, n)) && Count(pending, n) <= Count(nodes, n) {
      assert Count(t.pushed, n) <= Count(was.pushed, n) + Count(todo, n);
      assert Count(pending, n) <= Count(todo, n);
    }
  }

  // Each node of the job has answered, or was pushed to in each of k attempts and is still wanted.
  ghost predicate Persisted(t: Trace, nodes: seq<string>, pending: seq<string>, k: nat) {
    forall n | n in nodes :: n in t.answered || (Count(t.pushed, n) >= k && (k < MAX_ATTEMPTS ==> n in pending))
  }

  lemma PersistStep(was: Trace, t: Trace, nodes: seq<string>, todo: seq<string>, pending: seq<string>, attempt: nat)
    requires 1 <= attempt <= MAX_ATTEMPTS && Persisted(was, nodes, todo, attempt - 1)
    requires was.answered <= t.answered && Tried(was, t, todo, pending, attempt == MAX_ATTEMPTS)
    ensures Persisted(t, nodes, pending, attempt)
  {
  }

  lemma RoomLeft(t: Trace, nodes: seq<string>, pending: seq<string>, k: nat)
    requires k <= MAX_ATTEMPTS && Under(t, nodes, pending, k)
    ensures forall n :: Count(t.pushed, n) <= MAX_ATTEMPTS * Count(nodes, n)
  {
    forall n ensures Count(t.pushed, n) <= MAX_ATTEMPTS * Count(nodes, n) {
      TimesIsMultiplication(k, Count(nodes, n));
      assert k * Count(nodes, n) <= MAX_ATTEMPTS * Count(nodes, n);
    }
  }

  // The phase a deploy reports: done once every target has a row and no row will change.
  datatype Phase = Running | Done

  function DeployPhase(targets: seq<string>, rows: map<string, bool>): Phase {
    if targets == [] || |rows| < |targets| || (exists n | n in rows.Keys :: rows[n]) then Running else Done
  }

  // With whatever rows a job has written so far, the deploy is running exactly while one of them
  // says it will change; `first` are the rows of the first round, which the job is for.
  lemma PhaseFollowsTheJob(targets: seq<string>, first: map<string, bool>, nodes: seq<string>, rows: map<string, bool>)
    requires targets != [] && (forall i, j | 0 <= i < j < |targets| :: targets[i] != targets[j])
    requires first.Keys == Elements(targets)
    requires Elements(nodes) == set n | n in first && first[n]
    requires rows.Keys == Elements(nodes)
    ensures DeployPhase(targets, first + rows) == Running <==> exists n | n in nodes :: rows[n]
    ensures Owed(rows, Elements(nodes), {}) ==> DeployPhase(targets, first + rows) == Done
    ensures DeployPhase(targets, first) == Done <==> nodes == []
  {
    var all := first + rows;
    assert all.Keys == first.Keys;
    PhaseIsAboutRows(targets, all);
    PhaseIsAboutRows(targets, first);
    forall n | n in all ensures all[n] == (n in rows && rows[n]) {
      assert n in rows || n !in Elements(nodes);
    }
    forall n | n in nodes ensures n in all && all[n] == rows[n] {
      assert n in Elements(nodes);
    }
    if nodes != [] {
      assert nodes[0] in Elements(nodes);
    }
  }

  lemma PhaseIsAboutRows(targets: seq<string>, rows: map<string, bool>)
    requires targets != [] && (forall i, j | 0 <= i < j < |targets| :: targets[i] != targets[j])
    requires rows.Keys == Elements(targets)
    ensures DeployPhase(targets, rows) == Done <==> forall n | n in rows :: !rows[n]
  {
    DistinctSize(targets);
  }

  lemma {:induction false} DistinctSize(s: seq<string>)
    requires forall i, j | 0 <= i < j < |s| :: s[i] != s[j]
    ensures |Elements(s)| == |s|
  {
    if s != [] {
      var init, last := s[..|s| - 1], s[|s| - 1];
      DistinctSize(init);
      assert Elements(s) == Elements(init) + {last};
    }
  }
}
