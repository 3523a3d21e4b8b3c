/**
 A node's row: what people decided about it and what the system observed, kept apart, down to
 whether it gets traffic.

 Each statement on the row is atomic; an operation made of several statements can be interleaved
 with others between them.
 */
module NodeIntent {
  import opened Wrappers
  import opened Plan

  datatype Reason = Manual | AutoOffline | ForDrain

  datatype Row = Row(status: NodeStatus, dnsEnabled: bool, reason: Option<Reason>, actor: Option<string>, drained: bool)

  // One statement: three of the system's, four of people's.
  datatype Step =
    | Beat(warn: bool)
    | TakeDown
    | PutBack
    | SwitchOn(who: string)
    | SwitchOff(draining: bool, who: string)
    | Drain(who: string)
    | Rejoin

  predicate BySystem(s: Step) { s.Beat? || s.TakeDown? || s.PutBack? }

  // An empty name is stored as none.
  function Named(actor: string): Option<string> { if actor == "" then None else Some(actor) }

  function Apply(row: Row, s: Step): Row {
    match s
    case Beat(warn) => row.(status := if warn then Warning else Up)
    case TakeDown =>
      if row.dnsEnabled then row.(status := Down, dnsEnabled := false, reason := Some(AutoOffline), actor := None)
      else row.(status := Down)
    case PutBack =>
      if row.reason == Some(AutoOffline) && !row.drained then row.(dnsEnabled := true, reason := None, actor := None)
      else row
    case SwitchOn(who) => row.(dnsEnabled := true, reason := Some(Manual), actor := Named(who))
    case SwitchOff(draining, who) =>
      row.(dnsEnabled := false, reason := Some(if draining then ForDrain else Manual), actor := Named(who))
    case Drain(who) => row.(drained := true, dnsEnabled := false, reason := Some(ForDrain), actor := Named(who))
    case Rejoin => row.(drained := false)
  }

  function After(row: Row, steps: seq<Step>): Row {
    if steps == [] then row else Apply(After(row, steps[..|steps| - 1]), steps[|steps| - 1])
  }

  // A node as it is created.
  const NewRow := Row(Up, true, None, None, false)

  // A node out of service is left alone; otherwise the write, if it succeeds, follows what came between.
  function Toggled(row: Row, write: Step, between: seq<Step>, written: bool): Row {
    if row.drained then row else if written then Apply(After(row, between), write) else After(row, between)
  }

  class NodeRow {
    var status: NodeStatus
    var dnsEnabled: bool
    var reason: Option<Reason>
    var actor: Option<string>
    var drained: bool

    ghost function View(): Row
      reads this
    {
      Row(status, dnsEnabled, reason, actor, drained)
    }

    constructor ()
      ensures View() == NewRow
    {
      status, dnsEnabled, reason, actor, drained := Up, true, None, None, false;
    }

    // A heartbeat says the node is not down; it does not touch what people decided.
    method TouchHeartbeat(warn: bool)
      modifies this`status
      ensures View() == Apply(old(View()), Beat(warn))
    {
      status := if warn then Warning else Up;
    }

    // Only a node whose traffic was on counts as removed by the system.
    method SetNodeDown()
      modifies this
      ensures View() == Apply(old(View()), TakeDown)
    {
      status := Down;
      if dnsEnabled {
        reason, actor := Some(AutoOffline), None;
      }
      dnsEnabled := false;
    }

    // The system puts back what it removed itself, and nothing else.
    method ReattachAfterRecovery() returns (done: bool)
      modifies this
      ensures View() == Apply(old(View()), PutBack)
      ensures done <==> old(reason) == Some(AutoOffline) && !old(drained)
    {
      done := reason == Some(AutoOffline) && !drained;
      if done {
        dnsEnabled, reason, actor := true, None, None;
      }
    }

    method SetNodeDns(enabled: bool, why: Reason, who: string)
      requires why != AutoOffline && (enabled ==> why == Manual)
      modifies this
      ensures View() == Apply(old(View()), if enabled then SwitchOn(who) else SwitchOff(why == ForDrain, who))
    {
      dnsEnabled, reason, actor := enabled, Some(why), Named(who);
    }

    // Rejoining does not switch traffic back on.
    method SetNodeDrained(yes: bool, who: string)
      modifies this
      ensures View() == Apply(old(View()), if yes then Drain(who) else Rejoin)
    {
      drained := yes;
      if yes {
        dnsEnabled, reason, actor := false, Some(ForDrain), Named(who);
      }
    }

    // Statements of other requests and of the monitor.
    method Others(steps: seq<Step>)
      modifies this
      ensures View() == After(old(View()), steps)
    {
      for i := 0 to |steps|
        invariant View() == After(old(View()), steps[..i])
      {
        match steps[i] {
          case Beat(warn) => TouchHeartbeat(warn);
          case TakeDown => SetNodeDown();
          case PutBack => var _ := ReattachAfterRecovery();
          case SwitchOn(who) => SetNodeDns(true, Manual, who);
          case SwitchOff(draining, who) => SetNodeDns(false, if draining then ForDrain else Manual, who);
          case Drain(who) => SetNodeDrained(true, who);
          case Rejoin => SetNodeDrained(false, "");
        }
        assert steps[..i + 1][..i] == steps[..i];
      }
      assert steps[..|steps|] == steps;
    }

    // The guarded switch: a check, then a write, and anything in between. `written` says whether
    // the write succeeds.
    method Toggle(enabled: bool, why: Reason, who: string, between: seq<Step>, written: bool) returns (refused: bool)
      requires why != AutoOffline && (enabled ==> why == Manual)
      modifies this
      ensures refused == old(drained)
      ensures var write := if enabled then SwitchOn(who) else SwitchOff(why == ForDrain, who);
              View() == Toggled(old(View()), write, between, written)
    {
      if drained {
        return true;
      }
      Others(between);
      if written {
        SetNodeDns(enabled, why, who);
      }
      return false;
    }

    // Taking a node out of service: traffic off, connections drained, and only then the mark,
    // which turns traffic off again whatever happened meanwhile. The first write may fail and the
    // rest goes on; `saved` says whether the mark could be written.
    method TakeOut(who: string, between: seq<Step>, written: bool, meanwhile: seq<Step>, saved: bool)
      modifies this
      ensures saved ==> drained && !dnsEnabled && reason == Some(ForDrain) && actor == Named(who)
      ensures !saved ==> View() == After(Toggled(old(View()), SwitchOff(true, who), between, written), meanwhile)
      ensures !saved && written && !old(drained) && (forall s | s in meanwhile :: BySystem(s)) ==> !dnsEnabled
    {
      var refused := Toggle(false, ForDrain, who, between, written);
      ghost var row := View();
      Others(meanwhile);
      if saved {
        SetNodeDrained(true, who);
      } else if written && !refused && forall s | s in meanwhile :: BySystem(s) {
        PersonsOffLasts(row, meanwhile);
      }
    }

    method TakeBack()
      modifies this
      ensures View() == old(View()).(drained := false)
    {
      SetNodeDrained(false, "");
    }
  }

  // ---------------------------------------------------------------- every run of statements

  lemma {:induction false} AutoOfflineMeansOff(row: Row, steps: seq<Step>)
    requires row.reason == Some(AutoOffline) ==> !row.dnsEnabled
    ensures After(row, steps).reason == Some(AutoOffline) ==> !After(row, steps).dnsEnabled
  {
    if steps != [] { AutoOfflineMeansOff(row, steps[..|steps| - 1]); }
  }

  // Taken out of service means no traffic.
  predicate OutMeansOff(row: Row) { row.drained ==> !row.dnsEnabled }

  // The i-th statement switches traffic on for a node that is out of service at that moment.
  ghost predicate SwitchesOnWhileOut(row: Row, steps: seq<Step>, i: nat)
    requires i < |steps|
  {
    steps[i].SwitchOn? && After(row, steps[..i]).drained
  }

  // In every run: a node taken out of service is off throughout, if and only if no write that
  // switches it on lands while it is out.
  lemma OutMeansOffExactlyWhen(row: Row, steps: seq<Step>)
    requires OutMeansOff(row) && (row.drained ==> row.reason != Some(AutoOffline))
    ensures (forall i: nat | i <= |steps| :: OutMeansOff(After(row, steps[..i]))) <==>
            !exists i: nat | i < |steps| :: SwitchesOnWhileOut(row, steps, i)
  {
    forall i: nat | i < |steps| && SwitchesOnWhileOut(row, steps, i)
      ensures !OutMeansOff(After(row, steps[..i + 1]))
    {
      assert steps[..i + 1][..i] == steps[..i];
    }
    if !exists i: nat | i < |steps| :: SwitchesOnWhileOut(row, steps, i) {
      forall i: nat | i <= |steps| ensures OutMeansOff(After(row, steps[..i])) {
        StaysOff(row, steps, i);
      }
    }
  }

  lemma {:induction false} StaysOff(row: Row, steps: seq<Step>, i: nat)
    requires OutMeansOff(row) && (row.drained ==> row.reason != Some(AutoOffline)) && i <= |steps|
    requires !exists j: nat | j < |steps| :: SwitchesOnWhileOut(row, steps, j)
    ensures var r := After(row, steps[..i]); OutMeansOff(r) && (r.drained ==> r.reason != Some(AutoOffline))
  {
    if i > 0 {
      StaysOff(row, steps, i - 1);
      assert steps[..i][..i - 1] == steps[..i - 1];
      assert !SwitchesOnWhileOut(row, steps, i - 1);
    }
  }

  // The guard's check and its write are two statements: a drain between them leaves a node that
  // is out of service and gets traffic.
  lemma ToggleCanLoseToADrain()
    ensures var row := Apply(After(NewRow, [Drain("a")]), SwitchOn("b"));
            !NewRow.drained && row.drained && row.dnsEnabled
  {
    assert After(NewRow, [Drain("a")]) == Apply(After(NewRow, []), Drain("a")) by {
      assert [Drain("a")][..0] == [];
    }
  }

  predicate OffByAPerson(row: Row) { !row.dnsEnabled && (row.reason == Some(Manual) || row.reason == Some(ForDrain)) }

  // Once a person has switched a node off, no statement but a person switching it on brings it
  // back.
  lemma {:induction false} PersonsOffLasts(row: Row, steps: seq<Step>)
    requires OffByAPerson(row) && forall s | s in steps :: !s.SwitchOn?
    ensures OffByAPerson(After(row, steps))
  {
    if steps != [] {
      PersonsOffLasts(row, steps[..|steps| - 1]);
      assert steps[|steps| - 1] in steps;
    }
  }

  function AsNode(id: string, ip: string, row: Row): Node { Node(id, ip, row.dnsEnabled, row.status, row.drained) }

  // So it gets no traffic in any plan, for any weights, on any line.
  lemma PersonsOffGetsNoTraffic(row: Row, off: Step, steps: seq<Step>, id: string, ip: string, plan: seq<LinePlan>,
                                weights: map<string, LineWeights>, nodes: seq<Node>, honored: bool, code: string)
    requires off.SwitchOff? || off.Drain?
    requires forall s | s in steps :: !s.SwitchOn?
    requires IsPlan(plan, weights, nodes, honored)
    requires Find(nodes, id) == Some(AsNode(id, ip, After(Apply(row, off), steps)))
    ensures !GetsTraffic(plan, code, id)
  {
    PersonsOffLasts(Apply(row, off), steps);
    RotationByLookup(plan, weights, nodes, honored, code, id);
  }

  // A node the system removed, and no person touched since, is back after a recovery: the
  // heartbeat and the reattachment may come in either order.
  lemma RemovedNodeReturns(row: Row, before: seq<Step>, warn: bool)
    requires row.dnsEnabled && !row.drained && forall s | s in before :: s.Beat? || s.TakeDown?
    ensures var removed := After(Apply(row, TakeDown), before);
            && !removed.dnsEnabled
            && Apply(Apply(removed, Beat(warn)), PutBack) == Apply(Apply(removed, PutBack), Beat(warn))
                 == Row(if warn then Warning else Up, true, None, None, false)
  {
    StaysRemoved(Apply(row, TakeDown), before);
  }

  lemma {:induction false} StaysRemoved(row: Row, steps: seq<Step>)
    requires !row.dnsEnabled && row.reason == Some(AutoOffline) && row.actor == None && !row.drained
    requires forall s | s in steps :: s.Beat? || s.TakeDown?
    ensures var r := After(row, steps); !r.dnsEnabled && r.reason == Some(AutoOffline) && r.actor == None && !r.drained
  {
    if steps != [] {
      StaysRemoved(row, steps[..|steps| - 1]);
      assert steps[|steps| - 1] in steps;
    }
  }

  // ---------------------------------------------------------------- removals and recoveries

  // The monitor's memory beside the row: it decides under its lock, and carries out removals and
  // recoveries afterwards, each on its own. A failing write is logged and not tried again.
  datatype Watch = Watch(row: Row, downSent: bool, removals: nat, recoveries: nat)

  datatype Move =
    | Declare                                     // a tick declares the node down
    | Hear                                        // a heartbeat arrives
    | Remove(seenDrained: bool, written: bool)    // a removal is carried out, unless the node is seen drained
    | Recover(written: bool)                      // a recovery is carried out
    | Other(s: Step)                              // a statement of people, or a heartbeat's

  predicate Possible(w: Watch, m: Move) {
    match m
    case Declare => !w.downSent
    case Hear => true
    case Remove(_, _) => w.removals > 0
    case Recover(_) => w.recoveries > 0
    case Other(s) => !s.TakeDown? && !s.PutBack?
  }

  function Moved(w: Watch, m: Move): Watch {
    match m
    case Declare => w.(downSent := true, removals := w.removals + 1)
    case Hear => if w.downSent then w.(downSent := false, recoveries := w.recoveries + 1) else w
    case Remove(seenDrained, written) =>
      w.(removals := if w.removals > 0 then w.removals - 1 else 0,
         row := if written && !seenDrained then Apply(w.row, TakeDown) else w.row)
    case Recover(written) =>
      w.(recoveries := if w.recoveries > 0 then w.recoveries - 1 else 0,
         row := if written then Apply(w.row, PutBack) else w.row)
    case Other(s) => w.(row := Apply(w.row, s))
  }

  function Watched(w: Watch, moves: seq<Move>): Watch {
    if moves == [] then w else Moved(Watched(w, moves[..|moves| - 1]), moves[|moves| - 1])
  }

  // The moves can be made one after the other.
  ghost predicate Follows(w: Watch, moves: seq<Move>) {
    forall i | 0 <= i < |moves| :: Possible(Watched(w, moves[..i]), moves[i])
  }

  const NewWatch := Watch(NewRow, false, 0, 0)

  // Nothing is pending, and the monitor believes the node up: no move of the monitor is to come
  // unless the node is declared down once more.
  predicate Quiet(w: Watch) { !w.downSent && w.removals == 0 && w.recoveries == 0 }

  // Quiet, and off for being offline.
  predicate Stranded(w: Watch) { Quiet(w) && w.row.reason == Some(AutoOffline) && !w.row.dnsEnabled }

  predicate OffForBeingOffline(row: Row) { row.reason == Some(AutoOffline) && !row.dnsEnabled }

  // The move switches the node off in the system's name.
  predicate Removes(row: Row, m: Move) { m.Remove? && m.written && !m.seenDrained && row.dnsEnabled }

  // The move takes that back, or is a person's own decision.
  predicate Settles(row: Row, m: Move) {
    || (m.Recover? && m.written && !row.drained)
    || (m.Other? && (m.s.SwitchOn? || m.s.SwitchOff? || m.s.Drain?))
  }

  // The i-th move removes the node, and no later one settles it.
  ghost predicate Unanswered(w: Watch, moves: seq<Move>, i: nat)
    requires i < |moves|
  {
    && Removes(Watched(w, moves[..i]).row, moves[i])
    && forall j | i < j < |moves| :: !Settles(Watched(w, moves[..j]).row, moves[j])
  }

  ghost predicate Left(w: Watch, moves: seq<Move>) { exists i: nat | i < |moves| :: Unanswered(w, moves, i) }

  // Over all runs, of the monitor and of people, with failing writes: a node is off for being
  // offline if and only if some removal that took effect on it was answered by no recovery that
  // took effect and by no person.
  lemma {:induction false} OffForBeingOfflineExactlyWhen(w: Watch, moves: seq<Move>)
    requires w.row.reason != Some(AutoOffline) && Follows(w, moves)
    ensures OffForBeingOffline(Watched(w, moves).row) <==> Left(w, moves)
    ensures Watched(w, moves).row.reason == Some(AutoOffline) ==> !Watched(w, moves).row.dnsEnabled
  {
    if moves != [] {
      var n := |moves| - 1;
      var init, m := moves[..n], moves[n];
      FollowsSoFar(w, moves, n);
      OffForBeingOfflineExactlyWhen(w, init);
      OneMove(Watched(w, init), m);
      LeftByTheLast(w, moves);
    }
  }

  lemma LeftByTheLast(w: Watch, moves: seq<Move>)
    requires moves != []
    ensures var init, m := moves[..|moves| - 1], moves[|moves| - 1];
            Left(w, moves) <==> Removes(Watched(w, init).row, m) || (Left(w, init) && !Settles(Watched(w, init).row, m))
  {
    var n := |moves| - 1;
    forall i: nat | i < n
      ensures Unanswered(w, moves, i) <==>
              Unanswered(w, moves[..n], i) && !Settles(Watched(w, moves[..n]).row, moves[n])
    {
      UnansweredSoFar(w, moves, i, n);
    }
    assert Unanswered(w, moves, n) <==> Removes(Watched(w, moves[..n]).row, moves[n]);
  }

  lemma OneMove(w: Watch, m: Move)
    requires Possible(w, m) && (w.row.reason == Some(AutoOffline) ==> !w.row.dnsEnabled)
    ensures var row := Moved(w, m).row;
            && (OffForBeingOffline(row) <==> Removes(w.row, m) || (OffForBeingOffline(w.row) && !Settles(w.row, m)))
            && (row.reason == Some(AutoOffline) ==> !row.dnsEnabled)
  {
  }

  lemma FollowsSoFar(w: Watch, moves: seq<Move>, n: nat)
    requires Follows(w, moves) && n <= |moves|
    ensures Follows(w, moves[..n])
  {
    forall i | 0 <= i < n ensures Possible(Watched(w, moves[..n][..i]), moves[..n][i]) {
      assert moves[..n][..i] == moves[..i];
    }
  }

  lemma UnansweredSoFar(w: Watch, moves: seq<Move>, i: nat, n: nat)
    requires i < n == |moves| - 1
    ensures Unanswered(w, moves, i) <==> Unanswered(w, moves[..n], i) && !Settles(Watched(w, moves[..n]).row, moves[n])
  {
    var init := moves[..n];
    assert forall j | 0 <= j < n :: init[..j] == moves[..j];
    if Unanswered(w, moves, i) {
      forall j | i < j < n ensures !Settles(Watched(w, init[..j]).row, init[j]) {
        assert init[..j] == moves[..j];
      }
    }
    if Unanswered(w, init, i) && !Settles(Watched(w, init).row, moves[n]) {
      forall j | i < j < |moves| ensures !Settles(Watched(w, moves[..j]).row, moves[j]) {
        if j < n { assert init[..j] == moves[..j]; }
      }
    }
  }

  // So a node that nobody is going to look at again is stranded exactly when such a removal is
  // left.
  lemma QuietNodeIsStrandedExactlyWhen(moves: seq<Move>)
    requires Follows(NewWatch, moves) && Quiet(Watched(NewWatch, moves))
    ensures Stranded(Watched(NewWatch, moves)) <==> Left(NewWatch, moves)
  {
    OffForBeingOfflineExactlyWhen(NewWatch, moves);
  }

  predicate Untouched(moves: seq<Move>) { forall m | m in moves :: m.Other? ==> m.s.Beat? }

  // A node no person has touched is on exactly when every removal that took effect on it was
  // followed by a recovery that took effect.
  lemma UntouchedNodeReturnsExactlyWhen(moves: seq<Move>)
    requires Follows(NewWatch, moves) && Untouched(moves)
    ensures Watched(NewWatch, moves).row.dnsEnabled <==>
            forall i: nat | i < |moves| && moves[i].Remove? && moves[i].written && !moves[i].seenDrained
                && Watched(NewWatch, moves[..i]).row.dnsEnabled ::
              exists j | i < j < |moves| :: moves[j].Recover? && moves[j].written
  {
    OffForBeingOfflineExactlyWhen(NewWatch, moves);
    UntouchedRow(moves);
    forall i: nat | i < |moves| && Removes(Watched(NewWatch, moves[..i]).row, moves[i])
      ensures Unanswered(NewWatch, moves, i) <==> !exists j | i < j < |moves| :: moves[j].Recover? && moves[j].written
    {
      forall j | i < j < |moves|
        ensures Settles(Watched(NewWatch, moves[..j]).row, moves[j]) <==> moves[j].Recover? && moves[j].written
      {
        UntouchedRow(moves[..j]);
        assert moves[j] in moves;
      }
    }
  }

  lemma {:induction false} UntouchedRow(moves: seq<Move>)
    requires Untouched(moves)
    ensures var row := Watched(NewWatch, moves).row;
            !row.drained && (row.dnsEnabled <==> !OffForBeingOffline(row))
                && (!row.dnsEnabled <==> row.reason == Some(AutoOffline))
  {
    if moves != [] {
      UntouchedRow(moves[..|moves| - 1]);
      assert moves[|moves| - 1] in moves;
    }
  }

  // A schedule under which that always happens: no recovery overtakes the removal before it, none
  // fails, and no write switches a node on that is out of service.
  ghost predicate InOrder(w: Watch, moves: seq<Move>) {
    forall i | 0 <= i < |moves| ::
      && (moves[i].Recover? ==> moves[i].written && Watched(w, moves[..i]).removals == 0)
      && (moves[i].Other? && moves[i].s.SwitchOn? ==> !Watched(w, moves[..i]).row.drained)
  }

  // A node off for being offline is still believed down, or about to be recovered.
  predicate WillReturn(w: Watch) {
    && (w.row.reason == Some(AutoOffline) || w.removals > 0 ==> w.downSent || w.recoveries > 0)
    && (w.row.drained ==> !w.row.dnsEnabled && w.row.reason != Some(AutoOffline))
  }

  lemma {:induction false} RecoveriesInOrderStrandNoNode(w: Watch, moves: seq<Move>)
    requires WillReturn(w) && Follows(w, moves) && InOrder(w, moves)
    ensures WillReturn(Watched(w, moves)) && !Stranded(Watched(w, moves))
  {
    if moves != [] {
      var n := |moves| - 1;
      FollowsSoFar(w, moves, n);
      InOrderSoFar(w, moves, n);
      RecoveriesInOrderStrandNoNode(w, moves[..n]);
      OneMoveInOrder(Watched(w, moves[..n]), moves[n]);
    }
  }

  lemma OneMoveInOrder(w: Watch, m: Move)
    requires WillReturn(w) && Possible(w, m)
    requires m.Recover? ==> m.written && w.removals == 0
    requires m.Other? && m.s.SwitchOn? ==> !w.row.drained
    ensures WillReturn(Moved(w, m)) && !Stranded(Moved(w, m))
  {
  }

  lemma InOrderSoFar(w: Watch, moves: seq<Move>, n: nat)
    requires InOrder(w, moves) && n <= |moves|
    ensures InOrder(w, moves[..n])
  {
    forall i | 0 <= i < n
      ensures moves[..n][i].Recover? ==> moves[..n][i].written && Watched(w, moves[..n][..i]).removals == 0
      ensures moves[..n][i].Other? && moves[..n][i].s.SwitchOn? ==> !Watched(w, moves[..n][..i]).row.drained
    {
      assert moves[..n][..i] == moves[..i];
    }
  }

  // Under such a schedule every removal is answered by the time nothing is pending.
  lemma QuietNodeIsNotStranded(moves: seq<Move>)
    requires Follows(NewWatch, moves) && InOrder(NewWatch, moves) && Quiet(Watched(NewWatch, moves))
    ensures !OffForBeingOffline(Watched(NewWatch, moves).row)
    ensures !Left(NewWatch, moves)
  {
    RecoveriesInOrderStrandNoNode(NewWatch, moves);
    OffForBeingOfflineExactlyWhen(NewWatch, moves);
  }

  // A heartbeat between the decision and the removal lets the recovery overtake it: the node is
  // then off, believed up, and nothing is left that would bring it back.
  lemma OvertakenRemovalStrandsTheNode() returns (moves: seq<Move>)
    ensures Follows(NewWatch, moves) && Stranded(Watched(NewWatch, moves))
    ensures moves == [Declare, Hear, Recover(true), Remove(false, true)]
  {
    moves := [];
    moves := Then(moves, Declare);
    moves := Then(moves, Hear);
    moves := Then(moves, Recover(true));
    moves := Then(moves, Remove(false, true));
  }

  // So does a recovery in its place whose write fails: the monitor has already forgotten that the
  // node was down, and does not try again.
  lemma FailedRecoveryStrandsTheNode() returns (moves: seq<Move>)
    ensures Follows(NewWatch, moves) && Stranded(Watched(NewWatch, moves))
    ensures moves == [Declare, Remove(false, true), Hear, Recover(false)]
  {
    moves := [];
    moves := Then(moves, Declare);
    moves := Then(moves, Remove(false, true));
    moves := Then(moves, Hear);
    moves := Then(moves, Recover(false));
  }

  lemma Then(moves: seq<Move>, m: Move) returns (more: seq<Move>)
    requires Follows(NewWatch, moves) && Possible(Watched(NewWatch, moves), m)
    ensures more == moves + [m] && Follows(NewWatch, more)
    ensures Watched(NewWatch, more) == Moved(Watched(NewWatch, moves), m)
  {
    more := moves + [m];
    assert more[..|moves|] == moves;
    forall i | 0 <= i < |more| ensures Possible(Watched(NewWatch, more[..i]), more[i]) {
      if i < |moves| { assert more[..i] == moves[..i]; }
    }
  }

  // A stranded node stays off through any further heartbeats.
  lemma {:induction false} HeartbeatsDoNotFreeIt(w: Watch, moves: seq<Move>)
    requires Stranded(w) && forall m | m in moves :: m.Hear? || (m.Other? && m.s.Beat?)
    ensures Stranded(Watched(w, moves))
  {
    if moves != [] {
      HeartbeatsDoNotFreeIt(w, moves[..|moves| - 1]);
      assert moves[|moves| - 1] in moves;
    }
  }
}
