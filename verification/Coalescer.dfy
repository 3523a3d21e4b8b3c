/**
 The DNS sync coalescer as a step system.

 Any number of calls run concurrently. Every step below is one stretch of the source
 between two points where another goroutine can observe something: a mutex operation,
 a store read, one provider push, a channel close. Mutexes are not fair, so any enabled
 call may take the next step.
 */
module Coalescer {
  import opened Wrappers

  type CallId = nat

  // Attach and Detach are Coalesced; SyncStored is Sync(nil); SyncGiven carries its own weights.
  datatype Kind = Coalesced | SyncStored | SyncGiven

  // How a stretch of code ends: normally, with an error, or by a panic.
  datatype End = Fine | Failed | Panic

  datatype Pc =
    | Start                        // about to lock coalesceMu
    | InCo                         // holds coalesceMu, about to look at pending
    | Follow(leader: CallId)       // blocked on the leader's ready channel
    | WantMu                       // about to lock mu
    | HaveMu                       // leader: holds mu, about to lock coalesceMu
    | ClearCo                      // leader: holds both, about to clear pending
    | ReadProvider
    | ReadWeights(targets: nat)    // the settings list this many targets
    | ReadNodes(targets: nat)
    | Push(left: nat, failed: bool)   // about to push to one of the targets left
    | Record(failed: bool)         // about to store the sync status
    | Unlock(end: End)             // the deferred mu.Unlock
    | Close(end: End)              // the deferred close of the ready channel
    | Returned(err: bool)
    | Panicked

  // `via` is the leader a call waited on, if it did not sync itself.
  datatype Call = Call(kind: Kind, began: nat, beganVer: nat, via: Option<CallId>, pc: Pc)

  // The record shared by a leader and its followers. A channel may be closed only once.
  datatype Cell = Cell(closes: nat, err: bool)

  // What the outside world answered to a sync: to each read, how many targets the settings listed, to
  // each push, and to storing the status; and whether the status that was stored says all is well.
  datatype Log = Log(
    answers: seq<End>, targets: nat, pushes: seq<End>, status: Option<End>, stored: Option<bool>)

  // One execution of syncLocked: when it started, which store versions it read, what it was answered,
  // when it ended.
  datatype Sync = Sync(
    startedAt: nat, startVer: nat, versions: seq<nat>, log: Log, endedAt: Option<nat>, endVer: nat)

  // `clock` counts steps and `db` counts writes to the store.
  datatype State = State(
    clock: nat, db: nat,
    mu: Option<CallId>, coalesceMu: Option<CallId>, pending: Option<CallId>,
    calls: map<CallId, Call>, cells: map<CallId, Cell>,
    syncs: map<CallId, Sync>, order: seq<CallId>)

  // A choice resolves what the outside world decides: read errors, push errors, panics,
  // and how many targets the provider settings list.
  datatype Label =
    | Invoke(id: CallId, kind: Kind)
    | Write
    | Step(id: CallId, end: End, targets: nat)

  const Init: State := State(0, 0, None, None, None, map[], map[], map[], [])

  predicate Finished(pc: Pc) { pc.Returned? || pc.Panicked? }

  predicate Reading(pc: Pc) { pc.ReadProvider? || pc.ReadWeights? || pc.ReadNodes? }

  // The stretch in which syncLocked runs.
  predicate Syncing(pc: Pc) {
    Reading(pc) || pc.Push? || pc.Record?
  }

  predicate Joining(pc: Pc) { pc.Start? || pc.InCo? || pc.Follow? }

  predicate Entering(pc: Pc) { pc.WantMu? || pc.HaveMu? || pc.ClearCo? }

  predicate Leaving(pc: Pc) { pc.Unlock? || pc.Close? }

  predicate HoldsMu(pc: Pc) { pc.HaveMu? || pc.ClearCo? || Syncing(pc) || pc.Unlock? }

  predicate HoldsCo(pc: Pc) { pc.InCo? || pc.ClearCo? }

  predicate Registered(c: Call) {
    c.kind.Coalesced? && (c.pc.WantMu? || c.pc.HaveMu? || c.pc.ClearCo?)
  }

  // ---------------------------------------------------------------- transitions

  predicate Enabled(s: State, l: Label) {
    match l
    case Invoke(id, _) => id !in s.calls
    case Write => true
    case Step(id, _, _) =>
      id in s.calls &&
      match s.calls[id].pc {
        case Start => s.coalesceMu.None?
        case HaveMu => s.coalesceMu.None?
        case WantMu => s.mu.None?
        case Follow(c) => c in s.cells && s.cells[c].closes > 0
        case Returned(_) => false
        case Panicked => false
        case _ => true
      }
  }

  function Goto(s: State, id: CallId, pc: Pc): State
    requires id in s.calls
  {
    s.(calls := s.calls[id := s.calls[id].(pc := pc)])
  }

  function BeginSync(s: State, id: CallId): State
    requires id in s.calls
  {
    Goto(s, id, ReadProvider).(
      syncs := s.syncs[id := Sync(s.clock, s.db, [], Log([], 0, [], None, None), None, s.db)], order := s.order + [id])
  }

  function AfterUnlock(kind: Kind, end: End): Pc {
    if kind.Coalesced? then Close(end)
    else if end.Panic? then Panicked
    else Returned(end.Failed?)
  }

  // syncCoalesced up to the point where a call is a leader or a follower, and a follower's wake-up.
  function Join(s: State, id: CallId): State
    requires id in s.calls
  {
    var c := s.calls[id];
    match c.pc
    case Start => Goto(s, id, InCo).(coalesceMu := Some(id))
    case InCo =>
      if s.pending.Some? then
        s.(calls := s.calls[id := c.(pc := Follow(s.pending.value), via := s.pending)], coalesceMu := None)
      else
        Goto(s, id, WantMu).(pending := Some(id), cells := s.cells[id := Cell(0, false)], coalesceMu := None)
    case Follow(l) => if l in s.cells then Goto(s, id, Returned(s.cells[l].err)) else s
    case _ => s
  }

  // Taking mu; a leader then clears pending under both locks.
  function Enter(s: State, id: CallId): State
    requires id in s.calls
  {
    var c := s.calls[id];
    match c.pc
    case WantMu =>
      (if c.kind.Coalesced? then Goto(s, id, HaveMu) else BeginSync(s, id)).(mu := Some(id))
    case HaveMu => Goto(s, id, ClearCo).(coalesceMu := Some(id))
    case ClearCo => BeginSync(s, id).(pending := None, coalesceMu := None)
    case _ => s
  }

  // The next program point inside syncLocked. Settings without a target are an error, and a push
  // that fails stops none of the others.
  function SyncPc(c: Call, end: End, targets: nat): Pc {
    if end.Panic? then Unlock(Panic)
    else match c.pc {
      case ReadProvider =>
        if end.Failed? || targets == 0 then Record(true)
        else if c.kind.SyncGiven? then ReadNodes(targets) else ReadWeights(targets)
      case ReadWeights(n) => if end.Failed? then Record(true) else ReadNodes(n)
      case ReadNodes(n) => if end.Failed? then Record(true) else Push(n, false)
      case Push(left, failed) =>
        if left <= 1 then Record(failed || end.Failed?) else Push(left - 1, failed || end.Failed?)
      case Record(failed) => Unlock(if failed then Failed else Fine)
      case _ => c.pc
    }
  }

  // The outside world's answer, as it is given.
  function Answered(log: Log, pc: Pc, end: End, targets: nat): Log {
    match pc
    case ReadProvider => log.(answers := log.answers + [end], targets := targets)
    case ReadWeights(_) => log.(answers := log.answers + [end])
    case ReadNodes(_) => log.(answers := log.answers + [end])
    case Push(_, _) => log.(pushes := log.pushes + [end])
    case Record(failed) => log.(status := Some(end), stored := if end.Fine? then Some(!failed) else None)
    case _ => log
  }

  function Advanced(r: Sync, pc: Pc, db: nat, end: End, targets: nat): Sync {
    r.(versions := if Reading(pc) then r.versions + [db] else r.versions, log := Answered(r.log, pc, end, targets))
  }

  function InSync(s: State, id: CallId, end: End, targets: nat): State
    requires id in s.calls
  {
    var c := s.calls[id];
    var t := Goto(s, id, SyncPc(c, end, targets));
    if id in s.syncs then t.(syncs := s.syncs[id := Advanced(s.syncs[id], c.pc, s.db, end, targets)]) else t
  }

  // The deferred calls, last registered first: mu is released before the channel is closed.
  function Leave(s: State, id: CallId): State
    requires id in s.calls
  {
    var c := s.calls[id];
    match c.pc
    case Unlock(e) =>
      if id in s.syncs then
        Goto(s, id, AfterUnlock(c.kind, e)).(
          mu := None, syncs := s.syncs[id := s.syncs[id].(endedAt := Some(s.clock), endVer := s.db)])
      else s
    case Close(e) =>
      if id in s.cells then
        Goto(s, id, if e.Panic? then Panicked else Returned(e.Failed?)).(
          cells := s.cells[id := Cell(s.cells[id].closes + 1, !e.Fine?)])
      else s
    case _ => s
  }

  // What one call does in its next step.
  function Act(s: State, id: CallId, end: End, targets: nat): State
    requires id in s.calls
  {
    var pc := s.calls[id].pc;
    if Joining(pc) then Join(s, id)
    else if Entering(pc) then Enter(s, id)
    else if Syncing(pc) then InSync(s, id, end, targets)
    else Leave(s, id)
  }

  function Tick(s: State): State { s.(clock := s.clock + 1) }

  function Apply(s: State, l: Label): State
    requires Enabled(s, l)
  {
    var t := match l {
      case Invoke(id, kind) =>
        s.(calls := s.calls[id := Call(kind, s.clock, s.db, None, if kind.Coalesced? then Start else WantMu)])
      case Write => s.(db := s.db + 1)
      case Step(id, end, targets) => Act(s, id, end, targets)
    };
    Tick(t)
  }

  predicate Legal(s: State, run: seq<Label>)
    decreases |run|
  {
    run == [] || (Enabled(s, run[0]) && Legal(Apply(s, run[0]), run[1..]))
  }

  function Exec(s: State, run: seq<Label>): State
    requires Legal(s, run)
    decreases |run|
  {
    if run == [] then s else Exec(Apply(s, run[0]), run[1..])
  }

  // ---------------------------------------------------------------- invariant

  // The locks and the pending slot say exactly what the program counter says.
  ghost predicate LocksOk(s: State, id: CallId)
    requires id in s.calls
  {
    var c := s.calls[id];
    && (HoldsMu(c.pc) <==> s.mu == Some(id))
    && (HoldsCo(c.pc) <==> s.coalesceMu == Some(id))
    && (Registered(c) <==> s.pending == Some(id))
  }

  // Where a call may be, given its kind and what has been recorded about it.
  ghost predicate CallOk(s: State, id: CallId)
    requires id in s.calls
  {
    var c := s.calls[id];
    && c.began <= s.clock && c.beganVer <= s.db
    && (c.pc.Start? || c.pc.InCo? || c.pc.Follow? || c.pc.HaveMu? || c.pc.ClearCo? || c.pc.Close? ==> c.kind.Coalesced?)
    && (c.pc.Follow? ==> c.via == Some(c.pc.leader))
    && (c.via.Some? ==> c.kind.Coalesced? && (c.pc.Follow? || c.pc.Returned?) && c.via.value in s.cells)
  }

  // Which records exist for a call: a sync once it has started one, a cell if it became a leader.
  ghost predicate RecordsOk(s: State, id: CallId)
    requires id in s.calls
  {
    var c := s.calls[id];
    && (id in s.syncs <==> Syncing(c.pc) || c.pc.Unlock? || c.pc.Close? || (Finished(c.pc) && c.via.None?))
    && (id in s.cells <==> c.kind.Coalesced? && c.via.None? && !c.pc.Start? && !c.pc.InCo?)
    && (id in s.cells ==> s.cells[id].closes == if Finished(c.pc) then 1 else 0)
    && (id in s.cells && Finished(c.pc) ==> s.cells[id].err == (c.pc.Panicked? || c.pc.err))
  }

  // Everything a sync read or did lies between its start and its end (or now).
  ghost predicate SyncOk(s: State, r: Sync) {
    && r.startedAt <= s.clock && r.startVer <= s.db && |r.versions| == |r.log.answers|
    && (forall v | v in r.versions :: r.startVer <= v <= (if r.endedAt.Some? then r.endVer else s.db))
    && (r.endedAt.Some? ==> r.startedAt <= r.endedAt.value <= s.clock && r.startVer <= r.endVer <= s.db)
  }

  // Sync `r` started no earlier than call `c`, by the clock and by the store version.
  ghost predicate Covers(r: Sync, c: Call) {
    c.began <= r.startedAt && c.beganVer <= r.startVer
  }

  // The reads a sync makes: of the provider settings, of the weights unless they were given, and of
  // the nodes.
  function AllReads(kind: Kind): nat { if kind.SyncGiven? then 2 else 3 }

  predicate AllFine(ends: seq<End>) { forall e | e in ends :: e.Fine? }

  // So many reads were made, and each succeeded.
  predicate HasRead(log: Log, n: nat) { |log.answers| == n && AllFine(log.answers) }

  // Every read succeeded, there was a target, and there was one push for each, none of which failed.
  predicate Succeeded(kind: Kind, log: Log) {
    HasRead(log, AllReads(kind)) && log.targets > 0 && |log.pushes| == log.targets && AllFine(log.pushes)
  }

  // A read failed, or the settings listed no target, and nothing was pushed; or each target was
  // pushed to and some push failed.
  predicate WentWrong(log: Log) {
    || (log.pushes == [] && (Failed in log.answers || log.targets == 0))
    || (|log.pushes| == log.targets && Failed in log.pushes)
  }

  predicate Crashed(log: Log) { Panic in log.answers || Panic in log.pushes || log.status == Some(Panic) }

  // How a sync ended, by what was answered to it.
  predicate EndedAs(kind: Kind, log: Log, end: End) {
    match end
    case Fine => Succeeded(kind, log)
    case Failed => WentWrong(log) && !Succeeded(kind, log)
    case Panic => Crashed(log)
  }

  // The status a sync stored, if it could, says that all is well exactly if it is.
  predicate StatusOk(kind: Kind, log: Log) { log.stored.Some? ==> log.stored.value == Succeeded(kind, log) }

  // Where a call's sync stands, by what has been answered to it.
  ghost predicate AnswersOk(kind: Kind, pc: Pc, log: Log) {
    Stands(kind, pc, log) && StatusOk(kind, log) && (Syncing(pc) ==> log.stored.None?)
  }

  ghost predicate Stands(kind: Kind, pc: Pc, log: Log) {
    match pc
    case ReadProvider => HasRead(log, 0) && log.pushes == []
    case ReadWeights(n) => HasRead(log, 1) && !kind.SyncGiven? && log.pushes == [] && n == log.targets > 0
    case ReadNodes(n) => HasRead(log, AllReads(kind) - 1) && log.pushes == [] && n == log.targets > 0
    case Push(left, failed) =>
      && HasRead(log, AllReads(kind)) && 0 < left && |log.pushes| + left == log.targets
      && Panic !in log.pushes && (failed <==> Failed in log.pushes)
    case Record(failed) => EndedAs(kind, log, if failed then Failed else Fine)
    case Unlock(end) => EndedAs(kind, log, end)
    case Close(end) => EndedAs(kind, log, end)
    case Returned(err) => EndedAs(kind, log, if err then Failed else Fine)
    case Panicked => EndedAs(kind, log, Panic)
    case _ => true
  }

  // The sync a call ran is well formed, open exactly while the call holds mu, and covers it.
  ghost predicate OwnSyncOk(s: State, id: CallId)
    requires id in s.calls
  {
    id in s.syncs ==>
      SyncOk(s, s.syncs[id]) && Covers(s.syncs[id], s.calls[id])
      && AnswersOk(s.calls[id].kind, s.calls[id].pc, s.syncs[id].log)
      && (s.syncs[id].endedAt.None? <==> s.mu == Some(id))
  }

  // The sync a follower was served by covers the follower, once it has started.
  ghost predicate ViaOk(s: State, id: CallId)
    requires id in s.calls
  {
    var c := s.calls[id];
    c.via.Some? ==>
      && (c.via.value in s.syncs ==> Covers(s.syncs[c.via.value], c))
      && (c.pc.Returned? ==>
            c.via.value in s.cells && s.cells[c.via.value].closes > 0 && c.pc.err == s.cells[c.via.value].err)
  }

  ghost predicate Local(s: State, id: CallId)
    requires id in s.calls
  {
    LocksOk(s, id) && CallOk(s, id) && RecordsOk(s, id) && OwnSyncOk(s, id) && ViaOk(s, id)
  }

  ghost predicate Named(s: State, o: Option<CallId>) { o.Some? ==> o.value in s.calls }

  // Sync a ended before sync b started.
  ghost predicate Before(s: State, a: CallId, b: CallId)
    requires a in s.syncs && b in s.syncs
  {
    a != b && s.syncs[a].endedAt.Some?
    && s.syncs[a].endedAt.value <= s.syncs[b].startedAt
    && s.syncs[a].endVer <= s.syncs[b].startVer
  }

  ghost predicate OrderOk(s: State) {
    && (forall id :: id in s.order <==> id in s.syncs)
    && (forall i, j | 0 <= i < j < |s.order| :: Before(s, s.order[i], s.order[j]))
  }

  ghost predicate Inv(s: State) {
    && Named(s, s.mu) && Named(s, s.coalesceMu) && Named(s, s.pending)
    && s.cells.Keys <= s.calls.Keys && s.syncs.Keys <= s.calls.Keys
    && (forall id | id in s.calls :: Local(s, id))
    && OrderOk(s)
  }

  // ---------------------------------------------------------------- preservation

  // A step of call `id` touches no record of call `o`.
  ghost predicate Untouched(s: State, t: State, o: CallId) {
    && (o in s.calls <==> o in t.calls) && (o in s.calls ==> t.calls[o] == s.calls[o])
    && (o in s.cells <==> o in t.cells) && (o in s.cells ==> t.cells[o] == s.cells[o])
    && (o in s.syncs <==> o in t.syncs) && (o in s.syncs ==> t.syncs[o] == s.syncs[o])
    && (s.mu == Some(o) <==> t.mu == Some(o))
    && (s.coalesceMu == Some(o) <==> t.coalesceMu == Some(o))
    && (s.pending == Some(o) <==> t.pending == Some(o))
  }

  // A step either keeps the start of the stepping call's sync or starts it at this very moment.
  ghost predicate SyncGrows(s: State, t: State, id: CallId) {
    && (id in s.cells ==> id in t.cells && (s.cells[id].closes > 0 ==> t.cells[id] == s.cells[id]))
    && (id in s.syncs ==>
          id in t.syncs && t.order == s.order && (s.mu == Some(id) || t.syncs[id] == s.syncs[id])
          && t.syncs[id].startedAt == s.syncs[id].startedAt && t.syncs[id].startVer == s.syncs[id].startVer)
    && (id !in s.syncs && id in t.syncs ==>
          t.syncs[id].startedAt == s.clock && t.syncs[id].startVer == s.db && s.mu in {None, Some(id)}
          && t.order == s.order + [id])
    && (id !in t.syncs ==> t.order == s.order)
  }

  // The registered leader has a cell but has not started its sync.
  ghost predicate PendingOpen(s: State) {
    s.pending.Some? ==> s.pending.value in s.cells && s.pending.value !in s.syncs
  }

  lemma RegisteredIsOpen(s: State, id: CallId)
    requires id in s.calls && s.pending == Some(id) && LocksOk(s, id) && RecordsOk(s, id) && CallOk(s, id)
    ensures id in s.cells && id !in s.syncs
  {
  }

  lemma PendingIsOpen(s: State)
    requires Inv(s)
    ensures PendingOpen(s)
  {
    if s.pending.Some? {
      assert Local(s, s.pending.value);
      RegisteredIsOpen(s, s.pending.value);
    }
  }

  // The other calls keep their invariant: their own records are untouched, and a follower's
  // leader can only have started its sync just now, after the follower arrived.
  lemma OthersKeep(s: State, t: State, id: CallId, o: CallId)
    requires o in s.calls && Local(s, o) && o != id && Untouched(s, t, o)
    requires s.calls[o].via.Some? ==> s.calls[o].via.value == id || Untouched(s, t, s.calls[o].via.value)
    requires SyncGrows(s, t, id) && s.clock <= t.clock && s.db <= t.db
    ensures o in t.calls && Local(t, o)
  {
  }

  lemma OrderKeeps(s: State, t: State, id: CallId)
    requires Inv(s) && id in s.calls && SyncGrows(s, t, id) && t.syncs.Keys <= s.calls.Keys
    requires forall o | o != id :: Untouched(s, t, o)
    ensures OrderOk(t)
  {
    forall o ensures o in t.order <==> o in t.syncs {
      assert o in s.order <==> o in s.syncs;
      assert o == id || Untouched(s, t, o);
    }
    forall i, j | 0 <= i < j < |t.order|
      ensures t.order[i] in t.syncs && t.order[j] in t.syncs && Before(t, t.order[i], t.order[j])
    {
      var a, b := t.order[i], t.order[j];
      if j < |s.order| {
        assert Before(s, a, b);
        if a == id { assert Local(s, id); } else { assert Untouched(s, t, a); }
        if b != id { assert Untouched(s, t, b); }
      } else {
        assert a in s.order && a in s.syncs;
        assert Untouched(s, t, a) && Local(s, a);
      }
    }
  }

  lemma LocalStepKeepsInv(s: State, t: State, id: CallId)
    requires Inv(s) && id in s.calls && id in t.calls && Local(t, id)
    requires forall o | o != id :: Untouched(s, t, o)
    requires SyncGrows(s, t, id) && s.clock <= t.clock && s.db <= t.db
    ensures Inv(t)
  {
    forall o | o in t.calls ensures Local(t, o) {
      if o != id {
        assert Untouched(s, t, o);
        OthersKeep(s, t, id, o);
      }
    }
    forall o ensures (o in t.cells ==> o in t.calls) && (o in t.syncs ==> o in t.calls) {
      assert o == id || Untouched(s, t, o);
    }
    assert forall o: Option<CallId> | o.Some? && o.value != id :: Untouched(s, t, o.value);
    OrderKeeps(s, t, id);
  }

  lemma JoinKeepsSelf(s: State, id: CallId)
    requires Enabled(s, Step(id, Fine, 0)) && Joining(s.calls[id].pc) && Local(s, id) && PendingOpen(s)
    ensures Local(Tick(Join(s, id)), id)
  {
  }

  lemma JoinFrame(s: State, id: CallId, o: CallId)
    requires Enabled(s, Step(id, Fine, 0)) && Joining(s.calls[id].pc) && LocksOk(s, id) && CallOk(s, id) && o != id
    ensures Untouched(s, Tick(Join(s, id)), o)
  {
  }

  lemma JoinGrows(s: State, id: CallId)
    requires Enabled(s, Step(id, Fine, 0)) && Joining(s.calls[id].pc) && LocksOk(s, id) && CallOk(s, id)
    requires RecordsOk(s, id)
    ensures SyncGrows(s, Tick(Join(s, id)), id)
  {
  }

  lemma JoinKeepsInv(s: State, id: CallId)
    requires Inv(s) && Enabled(s, Step(id, Fine, 0)) && Joining(s.calls[id].pc)
    ensures Inv(Tick(Join(s, id)))
  {
    var t := Tick(Join(s, id));
    assert Local(s, id);
    assert Local(t, id) && SyncGrows(s, t, id) by {
      PendingIsOpen(s);
      JoinKeepsSelf(s, id);
      JoinGrows(s, id);
    }
    forall o | o != id ensures Untouched(s, t, o) { JoinFrame(s, id, o); }
    LocalStepKeepsInv(s, t, id);
  }

  lemma EnterKeepsSelf(s: State, id: CallId)
    requires Enabled(s, Step(id, Fine, 0)) && Entering(s.calls[id].pc) && Local(s, id) && PendingOpen(s)
    ensures Local(Tick(Enter(s, id)), id)
  {
  }

  lemma EnterFrame(s: State, id: CallId, o: CallId)
    requires Enabled(s, Step(id, Fine, 0)) && Entering(s.calls[id].pc) && LocksOk(s, id) && CallOk(s, id) && o != id
    ensures Untouched(s, Tick(Enter(s, id)), o)
  {
  }

  lemma EnterGrows(s: State, id: CallId)
    requires Enabled(s, Step(id, Fine, 0)) && Entering(s.calls[id].pc) && LocksOk(s, id) && CallOk(s, id)
    requires RecordsOk(s, id)
    ensures SyncGrows(s, Tick(Enter(s, id)), id)
  {
  }

  lemma EnterKeepsInv(s: State, id: CallId)
    requires Inv(s) && Enabled(s, Step(id, Fine, 0)) && Entering(s.calls[id].pc)
    ensures Inv(Tick(Enter(s, id)))
  {
    var t := Tick(Enter(s, id));
    assert Local(s, id);
    assert Local(t, id) && SyncGrows(s, t, id) by {
      PendingIsOpen(s);
      EnterKeepsSelf(s, id);
      EnterGrows(s, id);
    }
    forall o | o != id ensures Untouched(s, t, o) { EnterFrame(s, id, o); }
    LocalStepKeepsInv(s, t, id);
  }

  // What the world answers decides how a sync goes on.
  lemma AnswerKeepsAccount(c: Call, log: Log, end: End, targets: nat)
    requires Syncing(c.pc) && AnswersOk(c.kind, c.pc, log)
    ensures AnswersOk(c.kind, SyncPc(c, end, targets), Answered(log, c.pc, end, targets))
  {
  }

  lemma InSyncKeepsSelf(s: State, id: CallId, end: End, targets: nat)
    requires Enabled(s, Step(id, end, targets)) && Syncing(s.calls[id].pc) && Local(s, id) && PendingOpen(s)
    ensures Local(Tick(InSync(s, id, end, targets)), id)
  {
    AnswerKeepsAccount(s.calls[id], s.syncs[id].log, end, targets);
  }

  lemma InSyncFrame(s: State, id: CallId, end: End, targets: nat, o: CallId)
    requires Enabled(s, Step(id, end, targets)) && Syncing(s.calls[id].pc) && LocksOk(s, id) && CallOk(s, id) && o != id
    ensures Untouched(s, Tick(InSync(s, id, end, targets)), o)
  {
  }

  lemma InSyncGrows(s: State, id: CallId, end: End, targets: nat)
    requires Enabled(s, Step(id, end, targets)) && Syncing(s.calls[id].pc) && LocksOk(s, id) && CallOk(s, id)
    requires RecordsOk(s, id)
    ensures SyncGrows(s, Tick(InSync(s, id, end, targets)), id)
  {
  }

  lemma InSyncKeepsInv(s: State, id: CallId, end: End, targets: nat)
    requires Inv(s) && Enabled(s, Step(id, end, targets)) && Syncing(s.calls[id].pc)
    ensures Inv(Tick(InSync(s, id, end, targets)))
  {
    var t := Tick(InSync(s, id, end, targets));
    assert Local(s, id);
    assert Local(t, id) && SyncGrows(s, t, id) by {
      PendingIsOpen(s);
      InSyncKeepsSelf(s, id, end, targets);
      InSyncGrows(s, id, end, targets);
    }
    forall o | o != id ensures Untouched(s, t, o) { InSyncFrame(s, id, end, targets, o); }
    LocalStepKeepsInv(s, t, id);
  }

  lemma UnlockKeepsSelf(s: State, id: CallId)
    requires Enabled(s, Step(id, Fine, 0)) && s.calls[id].pc.Unlock? && Local(s, id) && PendingOpen(s)
    ensures Local(Tick(Leave(s, id)), id)
  {
  }

  lemma CloseKeepsSelf(s: State, id: CallId)
    requires Enabled(s, Step(id, Fine, 0)) && s.calls[id].pc.Close? && Local(s, id) && PendingOpen(s)
    ensures Local(Tick(Leave(s, id)), id)
  {
  }

  lemma LeaveFrame(s: State, id: CallId, o: CallId)
    requires Enabled(s, Step(id, Fine, 0)) && Leaving(s.calls[id].pc) && LocksOk(s, id) && CallOk(s, id) && o != id
    ensures Untouched(s, Tick(Leave(s, id)), o)
  {
  }

  lemma LeaveGrows(s: State, id: CallId)
    requires Enabled(s, Step(id, Fine, 0)) && Leaving(s.calls[id].pc) && LocksOk(s, id) && CallOk(s, id)
    requires RecordsOk(s, id)
    ensures SyncGrows(s, Tick(Leave(s, id)), id)
  {
  }

  lemma LeaveKeepsInv(s: State, id: CallId)
    requires Inv(s) && Enabled(s, Step(id, Fine, 0)) && Leaving(s.calls[id].pc)
    ensures Inv(Tick(Leave(s, id)))
  {
    var t := Tick(Leave(s, id));
    assert Local(s, id);
    assert Local(t, id) && SyncGrows(s, t, id) by {
      PendingIsOpen(s);
      if s.calls[id].pc.Unlock? { UnlockKeepsSelf(s, id); } else { CloseKeepsSelf(s, id); }
      LeaveGrows(s, id);
    }
    forall o | o != id ensures Untouched(s, t, o) { LeaveFrame(s, id, o); }
    LocalStepKeepsInv(s, t, id);
  }

  lemma InvokeKeepsOther(s: State, id: CallId, kind: Kind, o: CallId)
    requires id !in s.calls && o in s.calls && Local(s, o) && id !in s.cells && id !in s.syncs
    ensures Local(Apply(s, Invoke(id, kind)), o)
  {
  }

  lemma InvokedIsLocal(s: State, id: CallId, kind: Kind)
    requires id !in s.calls && id !in s.cells && id !in s.syncs
    requires Named(s, s.mu) && Named(s, s.coalesceMu) && Named(s, s.pending)
    ensures Local(Apply(s, Invoke(id, kind)), id)
  {
  }

  lemma InvokeKeepsOrder(s: State, id: CallId, kind: Kind)
    requires OrderOk(s) && id !in s.calls
    ensures OrderOk(Apply(s, Invoke(id, kind)))
  {
    var t := Apply(s, Invoke(id, kind));
    forall i, j | 0 <= i < j < |t.order| ensures Before(t, t.order[i], t.order[j]) {
      assert Before(s, s.order[i], s.order[j]);
    }
  }

  lemma InvokeKeepsInv(s: State, id: CallId, kind: Kind)
    requires Inv(s) && id !in s.calls
    ensures Inv(Apply(s, Invoke(id, kind)))
  {
    var t := Apply(s, Invoke(id, kind));
    assert id !in s.cells && id !in s.syncs;
    forall o | o in t.calls ensures Local(t, o) {
      if o == id { InvokedIsLocal(s, id, kind); } else { InvokeKeepsOther(s, id, kind, o); }
    }
    InvokeKeepsOrder(s, id, kind);
  }

  lemma WriteKeepsInv(s: State)
    requires Inv(s)
    ensures Inv(Apply(s, Write))
  {
    var t := Apply(s, Write);
    forall o | o in t.calls ensures Local(t, o) {
      assert Local(s, o);
    }
    forall i, j | 0 <= i < j < |t.order| ensures Before(t, t.order[i], t.order[j]) {
      assert Before(s, s.order[i], s.order[j]);
    }
  }

  lemma StepKeepsInv(s: State, l: Label)
    requires Inv(s) && Enabled(s, l)
    ensures Inv(Apply(s, l))
  {
    match l
    case Invoke(id, kind) => InvokeKeepsInv(s, id, kind);
    case Write => WriteKeepsInv(s);
    case Step(id, end, targets) =>
      var pc := s.calls[id].pc;
      if Joining(pc) { JoinKeepsInv(s, id); }
      else if Entering(pc) { EnterKeepsInv(s, id); }
      else if Syncing(pc) { InSyncKeepsInv(s, id, end, targets); }
      else { LeaveKeepsInv(s, id); }
  }

  lemma {:induction false} RunKeepsInv(s: State, run: seq<Label>)
    requires Inv(s) && Legal(s, run)
    ensures Inv(Exec(s, run))
    decreases |run|
  {
    if run != [] {
      StepKeepsInv(s, run[0]);
      RunKeepsInv(Apply(s, run[0]), run[1..]);
    }
  }

  // ---------------------------------------------------------------- what callers get

  // The call whose sync serves this one.
  function Server(s: State, id: CallId): CallId
    requires id in s.calls
  {
    s.calls[id].via.GetOr(id)
  }

  // A coalesced call has been folded once it has looked at pending.
  predicate Folded(s: State, id: CallId) {
    id in s.calls && s.calls[id].kind.Coalesced? && !s.calls[id].pc.Start? && !s.calls[id].pc.InCo?
  }

  // What a finished call can rely on.
  ghost predicate ServedFresh(s: State, id: CallId)
    requires id in s.calls
  {
    var leader := Server(s, id);
    && leader in s.syncs && leader in s.calls && Finished(s.calls[leader].pc)
    && s.syncs[leader].endedAt.Some?
    && Covers(s.syncs[leader], s.calls[id])
    && (forall v | v in s.syncs[leader].versions :: s.calls[id].beganVer <= v)
    && (s.calls[id].pc.Returned? ==>
          (s.calls[id].pc.err <==> s.calls[leader].pc.Panicked? || s.calls[leader].pc.err))
    && StatusOk(s.calls[leader].kind, s.syncs[leader].log)
    && (s.calls[id].pc.Returned? && !s.calls[id].pc.err ==> Succeeded(s.calls[leader].kind, s.syncs[leader].log))
    && (s.calls[id].pc.Returned? && s.calls[id].pc.err ==>
          if s.calls[leader].pc.Panicked? then Crashed(s.syncs[leader].log) else WentWrong(s.syncs[leader].log))
  }

  lemma FinishedIsServed(s: State, id: CallId)
    requires id in s.calls && Local(s, id) && Finished(s.calls[id].pc)
    requires Server(s, id) in s.calls && Local(s, Server(s, id))
    ensures ServedFresh(s, id)
  {
  }

  // In every interleaving, a call that finishes was served by one finished sync that started
  // no earlier than the call, read only store versions at least as new as the one the call
  // was made in, and whose failure or panic is exactly what the caller is told. A call told of no
  // error was served by a sync that made all its reads and one push for every target, none of which
  // failed; a call told of an error, without a panic, by one in which a read or a push failed.
  lemma FinishedCallWasServedFresh(run: seq<Label>, id: CallId)
    requires Legal(Init, run)
    requires var s := Exec(Init, run); id in s.calls && Finished(s.calls[id].pc)
    ensures ServedFresh(Exec(Init, run), id)
  {
    RunKeepsInv(Init, run);
    ServedIn(Exec(Init, run), id);
  }

  lemma ServedIn(s: State, id: CallId)
    requires Inv(s) && id in s.calls && Finished(s.calls[id].pc)
    ensures ServedFresh(s, id)
  {
    assert Local(s, id);
    assert Server(s, id) in s.calls;
    FinishedIsServed(s, id);
  }

  // Two folded calls whose sync has not started yet wait for the same sync.
  lemma WaitersShareOneSync(run: seq<Label>, a: CallId, b: CallId)
    requires Legal(Init, run)
    requires var s := Exec(Init, run);
             && Folded(s, a) && Folded(s, b)
             && Server(s, a) !in s.syncs && Server(s, b) !in s.syncs
    ensures var s := Exec(Init, run); Server(s, a) == Server(s, b) && s.pending == Some(Server(s, a))
  {
    RunKeepsInv(Init, run);
    var s := Exec(Init, run);
    forall x | x in {a, b} ensures s.pending == Some(Server(s, x)) {
      assert Local(s, x);
      assert Server(s, x) in s.cells;
      assert Local(s, Server(s, x));
    }
  }

  // The syncs that serve the folded calls among `ids`.
  function Servers(s: State, ids: set<CallId>): set<CallId> {
    set id | id in ids && Folded(s, id) :: Server(s, id)
  }

  function StartedSince(s: State, from: nat): set<CallId> {
    set id | id in s.syncs && from <= s.syncs[id].startedAt
  }

  // Folding: however many calls arrive from some moment on, they cost at most the syncs
  // started since that moment plus one still to come.
  lemma CallsFoldIntoFewSyncs(run: seq<Label>, ids: set<CallId>, from: nat)
    requires Legal(Init, run)
    requires forall id | id in ids && id in Exec(Init, run).calls :: from <= Exec(Init, run).calls[id].began
    ensures var s := Exec(Init, run); |Servers(s, ids)| <= |StartedSince(s, from)| + 1
  {
    RunKeepsInv(Init, run);
    var s := Exec(Init, run);
    var open: set<CallId> := if s.pending.Some? then {s.pending.value} else {};
    forall x | x in Servers(s, ids) ensures x in StartedSince(s, from) + open {
      var id :| id in ids && Folded(s, id) && Server(s, id) == x;
      assert Local(s, id);
      assert x in s.cells;
      assert Local(s, x);
    }
    SubsetSize(Servers(s, ids), StartedSince(s, from) + open);
  }

  lemma {:induction false} SubsetSize<T>(a: set<T>, b: set<T>)
    requires a <= b
    ensures |a| <= |b|
  {
    if a != {} {
      var x :| x in a;
      SubsetSize(a - {x}, b - {x});
    }
  }

  // At most one call is ever inside a sync, in every interleaving.
  lemma AtMostOneIsSyncing(run: seq<Label>, x: CallId, y: CallId)
    requires Legal(Init, run)
    requires var s := Exec(Init, run); x in s.calls && y in s.calls && Syncing(s.calls[x].pc) && Syncing(s.calls[y].pc)
    ensures x == y
  {
    RunKeepsInv(Init, run);
    assert Local(Exec(Init, run), x) && Local(Exec(Init, run), y);
  }

  // Every sync ends before the next one starts: what a later sync read is never older than what
  // an earlier one read.
  lemma SyncsNeverOverlap(run: seq<Label>, i: nat, j: nat)
    requires Legal(Init, run)
    requires i < j < |Exec(Init, run).order|
    ensures var s := Exec(Init, run);
            var a, b := s.order[i], s.order[j];
            && a in s.syncs && b in s.syncs && Before(s, a, b)
            && (forall v, w | v in s.syncs[a].versions && w in s.syncs[b].versions :: v <= w)
            && (forall x, y | x in s.calls && y in s.calls && Syncing(s.calls[x].pc) && Syncing(s.calls[y].pc) ::
               x == y)
  {
    RunKeepsInv(Init, run);
    var s := Exec(Init, run);
    var a, b := s.order[i], s.order[j];
    assert a in s.syncs && b in s.syncs;
    assert Before(s, a, b);
    assert Local(s, a) && Local(s, b);
    forall x, y | x in s.calls && y in s.calls && Syncing(s.calls[x].pc) && Syncing(s.calls[y].pc) ensures x == y {
      AtMostOneIsSyncing(run, x, y);
    }
  }

  ghost predicate Quiet(s: State) { forall id | id in s.calls :: Finished(s.calls[id].pc) }

  // Sync `last` read nothing older than the store was when call c was made; if it returned without
  // an error it read everything and pushed to every target, and otherwise something failed or panicked.
  ghost predicate CaughtUp(s: State, last: CallId, c: Call) {
    && last in s.syncs && last in s.calls && Covers(s.syncs[last], c)
    && (forall v | v in s.syncs[last].versions :: c.beganVer <= v)
    && (match s.calls[last].pc {
          case Returned(err) =>
            if err then WentWrong(s.syncs[last].log) else Succeeded(s.calls[last].kind, s.syncs[last].log)
          case Panicked => Crashed(s.syncs[last].log)
          case _ => true
        })
  }

  lemma LastSyncCatchesUp(s: State, id: CallId)
    requires Inv(s) && id in s.calls && Finished(s.calls[id].pc)
    ensures |s.order| > 0 && CaughtUp(s, s.order[|s.order| - 1], s.calls[id])
  {
    ServedIn(s, id);
    var leader := Server(s, id);
    var i :| 0 <= i < |s.order| && s.order[i] == leader;
    var last := s.order[|s.order| - 1];
    assert last in s.order && last in s.calls;
    assert i < |s.order| - 1 ==> Before(s, leader, last);
    LaterSyncCatchesUp(s, leader, last, s.calls[id]);
  }

  lemma LaterSyncCatchesUp(s: State, leader: CallId, last: CallId, c: Call)
    requires leader in s.syncs && last in s.syncs && last in s.calls && Local(s, last)
    requires leader in s.calls && Local(s, leader) && Covers(s.syncs[leader], c)
    requires leader == last || Before(s, leader, last)
    ensures CaughtUp(s, last, c)
  {
  }

  // Once every call has finished, by returning or by panicking, both locks are free, nothing
  // is registered, each ready channel was closed exactly once, and the last sync to start is
  // no older than any call ever made.
  lemma QuietMeansCaughtUp(run: seq<Label>)
    requires Legal(Init, run) && Quiet(Exec(Init, run))
    ensures var s := Exec(Init, run);
            && s.mu.None? && s.coalesceMu.None? && s.pending.None?
            && (forall id | id in s.cells :: s.cells[id].closes == 1)
            && (forall id | id in s.calls :: |s.order| > 0 && CaughtUp(s, s.order[|s.order| - 1], s.calls[id]))
  {
    RunKeepsInv(Init, run);
    var s := Exec(Init, run);
    QuietIsClean(s);
    forall id | id in s.calls ensures |s.order| > 0 && CaughtUp(s, s.order[|s.order| - 1], s.calls[id]) {
      LastSyncCatchesUp(s, id);
    }
  }

  lemma QuietIsClean(s: State)
    requires Inv(s) && Quiet(s)
    ensures s.mu.None? && s.coalesceMu.None? && s.pending.None?
    ensures forall id | id in s.cells :: s.cells[id].closes == 1
  {
    assert s.mu.Some? ==> Local(s, s.mu.value);
    assert s.coalesceMu.Some? ==> Local(s, s.coalesceMu.value);
    assert s.pending.Some? ==> Local(s, s.pending.value);
    forall id | id in s.cells ensures s.cells[id].closes == 1 {
      assert Local(s, id);
    }
  }

  // ---------------------------------------------------------------- no call is stranded

  function Rank(pc: Pc): nat {
    match pc
    case Start => 12 case InCo => 11 case WantMu => 10 case HaveMu => 9 case ClearCo => 8
    case ReadProvider => 7 case ReadWeights(_) => 6 case ReadNodes(_) => 5 case Push(_, _) => 4
    case Record(_) => 3 case Unlock(_) => 2 case Close(_) => 1 case Follow(_) => 1
    case Returned(_) => 0 case Panicked => 0
  }

  function PushesLeft(pc: Pc): nat { if pc.Push? then pc.left else 0 }

  // The sum of a weight over all calls with an id below n.
  function Total(f: Pc -> nat, calls: map<CallId, Call>, n: nat): nat {
    if n == 0 then 0
    else Total(f, calls, n - 1) + (if n - 1 in calls then f(calls[n - 1].pc) else 0)
  }

  lemma {:induction false} TotalChanges(f: Pc -> nat, before: map<CallId, Call>, after: map<CallId, Call>, id: CallId,
                                        n: nat)
    requires before.Keys == after.Keys && id in before
    requires forall o | o in before && o != id :: after[o] == before[o]
    ensures Total(f, after, n) == Total(f, before, n) + (if id < n then f(after[id].pc) - f(before[id].pc) else 0)
  {
    if n != 0 {
      TotalChanges(f, before, after, id, n - 1);
    }
  }

  // One call moved strictly forward and no other call moved.
  ghost predicate Lowers(s: State, t: State, id: CallId) {
    && id in s.calls && id in t.calls && t.calls == s.calls[id := t.calls[id]]
    && (|| Rank(t.calls[id].pc) < Rank(s.calls[id].pc)
        || (Rank(t.calls[id].pc) == Rank(s.calls[id].pc) && PushesLeft(t.calls[id].pc) < PushesLeft(s.calls[id].pc)))
  }

  lemma JoinLowers(s: State, id: CallId)
    requires Enabled(s, Step(id, Fine, 0)) && Joining(s.calls[id].pc) && LocksOk(s, id) && CallOk(s, id)
    requires RecordsOk(s, id)
    ensures Lowers(s, Tick(Join(s, id)), id)
  {
  }

  lemma EnterLowers(s: State, id: CallId)
    requires Enabled(s, Step(id, Fine, 0)) && Entering(s.calls[id].pc) && LocksOk(s, id) && CallOk(s, id)
    requires RecordsOk(s, id)
    ensures Lowers(s, Tick(Enter(s, id)), id)
  {
  }

  lemma InSyncLowers(s: State, id: CallId, end: End, targets: nat)
    requires Enabled(s, Step(id, end, targets)) && Syncing(s.calls[id].pc) && LocksOk(s, id) && CallOk(s, id)
    requires RecordsOk(s, id)
    ensures Lowers(s, Tick(InSync(s, id, end, targets)), id)
  {
  }

  lemma LeaveLowers(s: State, id: CallId)
    requires Enabled(s, Step(id, Fine, 0)) && Leaving(s.calls[id].pc) && LocksOk(s, id) && CallOk(s, id)
    requires RecordsOk(s, id)
    ensures Lowers(s, Tick(Leave(s, id)), id)
  {
  }

  // Every step of a call, panicking or not, strictly uses up a lexicographic measure that no
  // other call's step can replenish, so finitely many calls take finitely many steps.
  lemma StepsRunOut(s: State, id: CallId, end: End, targets: nat, n: nat)
    requires Inv(s) && Enabled(s, Step(id, end, targets)) && id < n
    ensures var t := Apply(s, Step(id, end, targets));
            || Total(Rank, t.calls, n) < Total(Rank, s.calls, n)
            || (Total(Rank, t.calls, n) == Total(Rank, s.calls, n)
                && Total(PushesLeft, t.calls, n) < Total(PushesLeft, s.calls, n))
  {
    var t := Apply(s, Step(id, end, targets));
    assert Lowers(s, t, id) by {
      assert Local(s, id);
      var pc := s.calls[id].pc;
      if Joining(pc) { JoinLowers(s, id); }
      else if Entering(pc) { EnterLowers(s, id); }
      else if Syncing(pc) { InSyncLowers(s, id, end, targets); }
      else { LeaveLowers(s, id); }
    }
    TotalChanges(Rank, s.calls, t.calls, id, n);
    TotalChanges(PushesLeft, s.calls, t.calls, id, n);
  }

  // No deadlock: while some call is unfinished, some call can take a step.
  lemma SomeCallCanStep(s: State, id: CallId) returns (mover: CallId)
    requires Inv(s) && id in s.calls && !Finished(s.calls[id].pc)
    ensures mover in s.calls
    ensures forall end, targets :: Enabled(s, Step(mover, end, targets))
  {
    assert Local(s, id);
    mover := id;
    if s.calls[id].pc.Follow? {
      var leader := s.calls[id].pc.leader;
      assert Local(s, leader);
      if Finished(s.calls[leader].pc) {
        return;
      }
      mover := leader;
    }
    mover := LockHolder(s, mover);
  }

  // A call that waits for a lock waits for a call that can step.
  lemma LockHolder(s: State, id: CallId) returns (mover: CallId)
    requires Inv(s) && id in s.calls && !Finished(s.calls[id].pc) && !s.calls[id].pc.Follow?
    ensures mover in s.calls
    ensures forall end, targets :: Enabled(s, Step(mover, end, targets))
  {
    mover := id;
    if s.calls[id].pc.WantMu? && s.mu.Some? {
      mover := s.mu.value;
      assert Local(s, mover);
    }
    if (s.calls[mover].pc.Start? || s.calls[mover].pc.HaveMu?) && s.coalesceMu.Some? {
      mover := s.coalesceMu.value;
      assert Local(s, mover);
    }
  }

  // Some call can step, and its step uses up the measure.
  lemma SomeStep(s: State, end: End, targets: nat, n: nat) returns (l: Label)
    requires Inv(s) && !Quiet(s) && forall id | id in s.calls :: id < n
    ensures Enabled(s, l) && Inv(Apply(s, l)) && Apply(s, l).calls.Keys == s.calls.Keys
    ensures var t := Apply(s, l);
            || Total(Rank, t.calls, n) < Total(Rank, s.calls, n)
            || (Total(Rank, t.calls, n) == Total(Rank, s.calls, n)
                && Total(PushesLeft, t.calls, n) < Total(PushesLeft, s.calls, n))
  {
    var id :| id in s.calls && !Finished(s.calls[id].pc);
    var mover := SomeCallCanStep(s, id);
    l := Step(mover, end, targets);
    StepKeepsInv(s, l);
    StepsRunOut(s, mover, end, targets, n);
    StepKeepsCalls(s, l);
  }

  // Nobody is stranded: from every reachable state, whatever errors and panics `ends` hands
  // out, letting the existing calls run leads to a state in which all of them have finished.
  lemma {:induction false} AllCallsFinish(s: State, ends: nat -> End, targets: nat, n: nat) returns (run: seq<Label>)
    requires Inv(s) && forall id | id in s.calls :: id < n
    ensures Legal(s, run) && Quiet(Exec(s, run)) && Exec(s, run).calls.Keys == s.calls.Keys
    decreases Total(Rank, s.calls, n), Total(PushesLeft, s.calls, n)
  {
    run := [];
    if !Quiet(s) {
      var l := SomeStep(s, ends(s.clock), targets, n);
      var rest := AllCallsFinish(Apply(s, l), ends, targets, n);
      run := [l] + rest;
      assert run[1..] == rest;
    }
  }

  lemma StepKeepsCalls(s: State, l: Label)
    requires Enabled(s, l) && l.Step?
    ensures Apply(s, l).calls.Keys == s.calls.Keys
  {
  }
}
