/**
 The orchestrator object: its two mutexes, its `pending` record and its calls, updated in
 place one atomic block at a time, and the loop that pushes one target after another.
 */
module Orchestration {
  import opened Wrappers
  import opened Coalescer

  class Orchestrator {
    var clock: nat
    var db: nat
    var mu: Option<CallId>
    var coalesceMu: Option<CallId>
    var pending: Option<CallId>
    var calls: map<CallId, Call>
    var cells: map<CallId, Cell>
    var syncs: map<CallId, Sync>
    var order: seq<CallId>

    // Every method below is exactly one step of the protocol, so what is proved about the steps
    // (StepKeepsInv first of all) holds of this object whatever order its calls run in.
    function View(): State
      reads this
    {
      State(clock, db, mu, coalesceMu, pending, calls, cells, syncs, order)
    }

    constructor ()
      ensures View() == Init && Inv(View())
    {
      clock, db, order := 0, 0, [];
      mu, coalesceMu, pending := None, None, None;
      calls, cells, syncs := map[], map[], map[];
    }

    // Attach, Detach or Sync is called.
    method Arrive(id: CallId, kind: Kind)
      requires id !in calls
      modifies this
      ensures View() == Apply(old(View()), Invoke(id, kind))
    {
      calls := calls[id := Call(kind, clock, db, None, if kind.Coalesced? then Start else WantMu)];
      clock := clock + 1;
    }

    // Someone else writes to the store that the syncs read.
    method StoreWrite()
      modifies this
      ensures View() == Apply(old(View()), Write)
    {
      db := db + 1;
      clock := clock + 1;
    }

    method LockCoalesce(id: CallId)
      requires id in calls && Local(View(), id) && calls[id].pc.Start? && coalesceMu.None?
      modifies this
      ensures View() == Apply(old(View()), Step(id, Fine, 0))
    {
      coalesceMu := Some(id);
      calls := calls[id := calls[id].(pc := InCo)];
      clock := clock + 1;
    }

    // Join the sync that is already lined up, or line one up.
    method FollowOrLead(id: CallId)
      requires id in calls && Local(View(), id) && calls[id].pc.InCo?
      modifies this
      ensures View() == Apply(old(View()), Step(id, Fine, 0))
      ensures calls[id].pc.Follow? <==> old(pending).Some?
    {
      if pending.Some? {
        calls := calls[id := calls[id].(pc := Follow(pending.value), via := pending)];
      } else {
        cells := cells[id := Cell(0, false)];
        pending := Some(id);
        calls := calls[id := calls[id].(pc := WantMu)];
      }
      coalesceMu := None;
      clock := clock + 1;
    }

    // The receive on the ready channel, possible once it is closed.
    method Await(id: CallId)
      requires id in calls && Local(View(), id) && calls[id].pc.Follow?
      requires calls[id].pc.leader in cells && cells[calls[id].pc.leader].closes > 0
      modifies this
      ensures View() == Apply(old(View()), Step(id, Fine, 0))
    {
      var done := cells[calls[id].pc.leader];
      calls := calls[id := calls[id].(pc := Returned(done.err))];
      clock := clock + 1;
    }

    // Taking mu. A direct Sync starts reading at once.
    method LockMu(id: CallId)
      requires id in calls && Local(View(), id) && calls[id].pc.WantMu? && mu.None?
      modifies this
      ensures View() == Apply(old(View()), Step(id, Fine, 0))
    {
      mu := Some(id);
      if calls[id].kind.Coalesced? {
        calls := calls[id := calls[id].(pc := HaveMu)];
      } else {
        StartSync(id);
      }
      clock := clock + 1;
    }

    method LockCoalesceAgain(id: CallId)
      requires id in calls && Local(View(), id) && calls[id].pc.HaveMu? && coalesceMu.None?
      modifies this
      ensures View() == Apply(old(View()), Step(id, Fine, 0))
    {
      coalesceMu := Some(id);
      calls := calls[id := calls[id].(pc := ClearCo)];
      clock := clock + 1;
    }

    // From here on, new calls line up behind the sync that is about to read.
    method ClearPending(id: CallId)
      requires id in calls && Local(View(), id) && calls[id].pc.ClearCo?
      modifies this
      ensures View() == Apply(old(View()), Step(id, Fine, 0))
      ensures pending.None?
    {
      pending := None;
      coalesceMu := None;
      StartSync(id);
      clock := clock + 1;
    }

    method StartSync(id: CallId)
      requires id in calls
      modifies this
      ensures View() == BeginSync(old(View()), id)
    {
      calls := calls[id := calls[id].(pc := ReadProvider)];
      syncs := syncs[id := Sync(clock, db, [], Log([], 0, [], None, None), None, db)];
      order := order + [id];
    }

    // One stretch of syncLocked: a store read, a push, or storing the status.
    method SyncStep(id: CallId, end: End, targets: nat)
      requires id in calls && Local(View(), id) && Syncing(calls[id].pc)
      modifies this
      ensures View() == Apply(old(View()), Step(id, end, targets))
    {
      var c := calls[id];
      syncs := syncs[id := Advanced(syncs[id], c.pc, db, end, targets)];
      calls := calls[id := c.(pc := SyncPc(c, end, targets))];
      clock := clock + 1;
    }

    // The deferred mu.Unlock, which runs whether syncLocked returned or panicked.
    method UnlockMu(id: CallId)
      requires id in calls && Local(View(), id) && calls[id].pc.Unlock?
      modifies this
      ensures View() == Apply(old(View()), Step(id, Fine, 0))
      ensures mu.None?
    {
      mu := None;
      syncs := syncs[id := syncs[id].(endedAt := Some(clock), endVer := db)];
      calls := calls[id := calls[id].(pc := AfterUnlock(calls[id].kind, calls[id].pc.end))];
      clock := clock + 1;
    }

    // The deferred close of the ready channel: it was open, and waiters learn how the sync ended.
    method CloseReady(id: CallId)
      requires id in calls && Local(View(), id) && calls[id].pc.Close?
      modifies this
      ensures View() == Apply(old(View()), Step(id, Fine, 0))
      ensures id in old(cells) && old(cells[id].closes) == 0
    {
      var end := calls[id].pc.end;
      cells := cells[id := Cell(cells[id].closes + 1, !end.Fine?)];
      calls := calls[id := calls[id].(pc := if end.Panic? then Panicked else Returned(end.Failed?))];
      clock := clock + 1;
    }
  }

  // ---------------------------------------------------------------- pushing the targets

  type Error = string

  // What one target ended with; `detail` is the provider's error when it failed.
  datatype TargetSync = TargetSync(hostname: string, ok: bool, detail: string)

  const ErrNoProvider: Error := "no provider"

  // The error of the first target, in order, that failed.
  function FirstError(targets: seq<string>, push: string -> Result<string, Error>): Option<Error> {
    if targets == [] then None
    else match push(targets[0]) {
      case Err(e) => Some(e)
      case Ok(_) => FirstError(targets[1..], push)
    }
  }

  // `targets` is None when the settings cannot be read, and the list is empty when they are
  // unusable; `push(t)` assembles the provider for t and pushes the plan to it.
  method SyncOnce(targets: Result<seq<string>, Error>, weights: Result<nat, Error>, nodes: Result<nat, Error>,
                  push: string -> Result<string, Error>)
    returns (out: seq<TargetSync>, err: Option<Error>)
    // Nothing is pushed unless every read succeeded and there is a target to push to.
    ensures targets.Err? ==> out == [] && err == Some(targets.error)
    ensures targets.Ok? && targets.value == [] ==> out == [] && err == Some(ErrNoProvider)
    ensures targets.Ok? && targets.value != [] && weights.Err? ==> out == [] && err == Some(weights.error)
    ensures targets.Ok? && targets.value != [] && weights.Ok? && nodes.Err? ==> out == [] && err == Some(nodes.error)
    // Otherwise every target is tried, in order, whatever happened to the ones before it.
    ensures targets.Ok? && targets.value != [] && weights.Ok? && nodes.Ok? ==>
              && |out| == |targets.value|
              && (forall i | 0 <= i < |out| ::
                    out[i].hostname == targets.value[i] && (out[i].ok <==> push(targets.value[i]).Ok?))
              && err == FirstError(targets.value, push)
              && (err.Some? ==> exists i | 0 <= i < |out| ::
                    push(targets.value[i]) == Err(err.value) && forall j | 0 <= j < i :: push(targets.value[j]).Ok?)
              && (err.None? <==> forall i | 0 <= i < |out| :: out[i].ok)
  {
    out, err := [], None;
    if targets.Err? { return [], Some(targets.error); }
    if targets.value == [] { return [], Some(ErrNoProvider); }
    if weights.Err? { return [], Some(weights.error); }
    if nodes.Err? { return [], Some(nodes.error); }
    var ts := targets.value;
    for i := 0 to |ts|
      invariant |out| == i
      invariant forall k | 0 <= k < i :: out[k].hostname == ts[k] && (out[k].ok <==> push(ts[k]).Ok?)
      invariant err.None? <==> forall k | 0 <= k < i :: out[k].ok
      invariant err.Some? ==> exists k | 0 <= k < i ::
                  push(ts[k]) == Err(err.value) && forall j | 0 <= j < k :: push(ts[j]).Ok?
      invariant FirstError(ts, push) == if err.Some? then err else FirstError(ts[i..], push)
    {
      match push(ts[i]) {
        case Err(e) =>
          out := out + [TargetSync(ts[i], false, e)];
          if err.None? { err := Some(e); }
        case Ok(note) =>
          out := out + [TargetSync(ts[i], true, note)];
      }
    }
  }
}
