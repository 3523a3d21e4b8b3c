/** The store's tables, the commit transaction on them, and the deploy and rollback that drive it. */
module Pipeline {
  import opened Wrappers
  import opened Json
  import opened Records
  import opened Deploy

  // How one node answered a push.
  datatype Push = Push(ok: bool, responded: bool)

  datatype Report =
    | BadDraft                  // a selected draft cannot be merged
    | Rejected                  // orphan drafts or validation issues; no node is touched
    | NoOnlineNodes
    | Done(okCount: nat, committed: bool, retry: seq<string>)

  // The nodes that gave no answer, in order: only transport failures are retried.
  function Silent(targets: seq<string>, push: string -> Push): seq<string> {
    if targets == [] then []
    else
      var last := push(targets[|targets| - 1]);
      Silent(targets[..|targets| - 1], push) + (if !last.ok && !last.responded then [targets[|targets| - 1]] else [])
  }

  lemma {:induction false} SilentAreUnanswered(targets: seq<string>, push: string -> Push)
    ensures forall n :: n in Silent(targets, push) <==> n in targets && !push(n).ok && !push(n).responded
  {
    if targets != [] {
      assert targets == targets[..|targets| - 1] + [targets[|targets| - 1]];
      SilentAreUnanswered(targets[..|targets| - 1], push);
    }
  }

  method PushAll(targets: seq<string>, push: string -> Push) returns (okCount: nat, retry: seq<string>)
    ensures okCount == |set i | 0 <= i < |targets| && push(targets[i]).ok|
    ensures okCount > 0 <==> exists t | t in targets :: push(t).ok
    ensures retry == Silent(targets, push)
    ensures forall t :: t in retry <==> t in targets && !push(t).ok && !push(t).responded
  {
    okCount, retry := 0, [];
    ghost var took: set<int> := {};
    for i := 0 to |targets|
      invariant took == set k | 0 <= k < i && push(targets[k]).ok
      invariant okCount == |took| && retry == Silent(targets[..i], push)
    {
      assert targets[..i + 1][..i] == targets[..i];
      var out := push(targets[i]);
      if out.ok {
        okCount := okCount + 1;
        took := took + {i};
      } else if !out.responded {
        retry := retry + [targets[i]];
      }
    }
    assert targets[..|targets|] == targets;
    if t :| t in targets && push(t).ok {
      var i :| 0 <= i < |targets| && targets[i] == t;
      assert i in took;
    }
    SilentAreUnanswered(targets, push);
  }

  class Store {
    var routes: Rows
    var rules: Rows
    var policies: Rows
    var secrets: map<string, string>
    var drafts: map<Key, J>
    var baseline: string
    var baselineDeploy: nat

    // A store that holds nothing but a baseline.
    constructor (version: string)
      ensures View() == Db(map[], map[], map[], map[], map[], version, 0)
    {
      routes, rules, policies, secrets, drafts := map[], map[], map[], map[], map[];
      baseline, baselineDeploy := version, 0;
    }

    function View(): Db
      reads this
    {
      Db(routes, rules, policies, secrets, drafts, baseline, baselineDeploy)
    }

    // The rows of one kind inside the transaction. `faults(n)` says whether statement n fails.
    method UpsertSelected(kind: ResKind, rows: Rows, order: seq<string>, eff: Rows, keys: set<Key>,
                          start: nat, faults: nat -> bool)
      returns (out: Rows, stmt: nat, failed: bool)
      requires forall id | id in order :: id in eff
      ensures !failed ==> out == Upserts(kind, rows, order, eff, keys)
      ensures failed <==> exists n | start <= n < stmt :: faults(n)
      ensures start <= stmt
    {
      out, stmt, failed := rows, start, false;
      for i := 0 to |order|
        invariant start <= stmt && !failed
        invariant out == Upserts(kind, rows, order[..i], eff, keys)
        invariant forall n | start <= n < stmt :: !faults(n)
      {
        assert order[..i + 1][..i] == order[..i];
        var r := eff[order[i]];
        var id := IdOf(kind, r);
        if Key(kind, id) in keys {
          stmt := stmt + 1;
          if faults(stmt - 1) { failed := true; return; }
          out := out[id := Stored(kind, Get(out, id), r)];
        }
      }
      assert order[..|order|] == order;
    }

    // One transaction: either every statement succeeds and all of it is visible, or one fails
    // and the store is exactly as before.
    method CommitDeploy(c: Config, o: Orders, keys: set<Key>, version: string, deploy: nat, faults: nat -> bool)
      returns (ok: bool)
      requires Lists(o, c)
      modifies this
      ensures ok ==> View() == Committed(old(View()), c, o, keys, version, deploy)
      ensures !ok ==> View() == old(View())
      ensures (forall n :: !faults(n)) ==> ok
      ensures (forall n :: faults(n)) ==> !ok
    {
      var stmt, failed := 0, false;
      var txRoutes, txRules, txPolicies := routes, rules, policies;
      txRoutes, stmt, failed := UpsertSelected(RouteRes, routes, o.routes, c.routes, keys, stmt, faults);
      if failed { return false; }
      txRules, stmt, failed := UpsertSelected(RuleRes, rules, o.rules, c.rules, keys, stmt, faults);
      if failed { return false; }
      txPolicies, stmt, failed := UpsertSelected(PolicyRes, policies, o.policies, c.policies, keys, stmt, faults);
      if failed { return false; }
      // Establish the baseline, advance three kinds of versions, delete the drafts, commit.
      for k := 0 to 6
        invariant k > 0 ==> !faults(stmt)
      {
        if faults(stmt + k) { return false; }
      }
      routes := BumpAll(RouteRes, txRoutes, keys);
      rules := BumpAll(RuleRes, txRules, keys);
      policies := BumpAll(PolicyRes, txPolicies, keys);
      drafts := drafts - keys;
      baseline, baselineDeploy := version, deploy;
      ok := true;
    }

    method ReadRows(kind: ResKind, keys: set<Key>) returns (out: Option<Rows>)
      ensures out == EffectiveRows(kind, View(), keys)
    {
      out := CollectRows(Listed(kind, View()).Keys, RowMerger(kind, View(), keys));
    }

    method ReadEffective(keys: set<Key>) returns (out: Option<Config>)
      ensures out == Effective(View(), keys)
    {
      var a := ReadRows(RouteRes, keys);
      var b := ReadRows(RuleRes, keys);
      var c := ReadRows(PolicyRes, keys);
      out := if a.None? || b.None? || c.None? then None else Some(Config(a.value, b.value, c.value, secrets));
    }

    // A deploy. `renders` says whether the effective configuration passes every check made
    // before the push; the nodes answer as `push` says.
    method Deploy(keys: set<Key>, o: Orders, renders: Config -> bool, targets: seq<string>, push: string -> Push,
                  version: string, deploy: nat, faults: nat -> bool)
      returns (report: Report)
      requires Effective(View(), keys).Some? ==> Lists(o, Effective(View(), keys).value)
      modifies this
      // Refused deploys change nothing, and say why.
      ensures report.BadDraft? <==> Effective(old(View()), keys).None?
      ensures !report.Done? ==> View() == old(View())
      ensures report.Rejected? <==>
        (Effective(old(View()), keys).Some?
         && (Orphans(old(View()), keys) != {} || !renders(Effective(old(View()), keys).value)))
      ensures report.NoOnlineNodes? ==> targets == []
      // Otherwise the baseline moves exactly when some node took the config and the commit held;
      // until then live rows, versions and drafts are untouched.
      ensures report.Done? ==> targets != [] && report.okCount == |set i | 0 <= i < |targets| && push(targets[i]).ok|
      ensures report.Done? ==> (report.okCount > 0 <==> exists t | t in targets :: push(t).ok)
      ensures report.Done? && report.committed ==> exists t | t in targets :: push(t).ok
      ensures report.Done? && report.committed ==>
        report.okCount > 0 && Orphans(old(View()), keys) == {}
        && View() == Committed(old(View()), Effective(old(View()), keys).value, o, keys, version, deploy)
      ensures report.Done? && !report.committed ==> View() == old(View())
      ensures report.Done? && report.okCount > 0 && (forall n :: !faults(n)) ==> report.committed
      ensures report.Done? && (forall n :: faults(n)) ==> !report.committed
      ensures report.Done? ==> baseline == if report.committed then version else old(baseline)
      // A job is started for the nodes that gave no answer, unless the nodes are now ahead of the store.
      ensures report.Done? && report.okCount > 0 && !report.committed ==> report.retry == []
      ensures report.Done? && (report.okCount > 0 ==> report.committed) ==>
                && report.retry == Silent(targets, push)
                && forall t :: t in report.retry <==> t in targets && !push(t).ok && !push(t).responded
    {
      var c := ReadEffective(keys);
      if c.None? { return BadDraft; }
      if Orphans(View(), keys) != {} { return Rejected; }
      if !renders(c.value) { return Rejected; }
      if targets == [] { return NoOnlineNodes; }
      var okCount, retry := PushAll(targets, push);
      var committed := false;
      if okCount > 0 {
        committed := CommitDeploy(c.value, o, keys, version, deploy, faults);
        if !committed { return Done(okCount, false, []); }
      }
      report := Done(okCount, committed, retry);
    }

    // Write the drafts of a rollback, all of them or none.
    method PutDrafts(patches: map<Key, J>, fails: bool) returns (ok: bool)
      modifies this`drafts
      ensures ok <==> !fails
      ensures drafts == if ok then old(drafts) + patches else old(drafts)
    {
      ok := !fails;
      if ok { drafts := drafts + patches; }
    }
  }

  // ---------------------------------------------------------------- the diff of a rollback

  // The rollback of one kind: a draft for every resource that differs, and a note for every
  // resource that exists on one side only.
  method DiffKind(kind: ResKind, snap: Rows, live: Rows) returns (patches: map<Key, J>, skipped: set<Key>)
    ensures forall k :: k in patches <==>
      k.kind == kind && k.id in snap && k.id in live && Diff(live[k.id], snap[k.id]) != map[]
    ensures forall k | k in patches :: patches[k] == Obj(Diff(live[k.id], snap[k.id]))
    ensures forall k :: k in skipped <==> k.kind == kind && ((k.id in snap) != (k.id in live))
  {
    patches, skipped := map[], {};
    var todo := snap.Keys;
    while todo != {}
      invariant todo <= snap.Keys
      invariant forall k :: k in patches <==>
        k.kind == kind && k.id in snap - todo && k.id in live && Diff(live[k.id], snap[k.id]) != map[]
      invariant forall k | k in patches :: patches[k] == Obj(Diff(live[k.id], snap[k.id]))
      invariant forall k :: k in skipped <==> k.kind == kind && k.id in snap - todo && k.id !in live
    {
      var id :| id in todo;
      if id in live {
        var d := FieldDiff(live[id], snap[id]);
        if d != map[] { patches := patches[Key(kind, id) := Obj(d)]; }
      } else {
        skipped := skipped + {Key(kind, id)};
      }
      todo := todo - {id};
    }
    skipped := skipped + set id | id in live && id !in snap :: Key(kind, id);
  }

  // What the draft written for a resource makes of its live row; no draft leaves it alone.
  function AfterDraft(kind: ResKind, live: Fields, patches: map<Key, J>, id: string): Result<Fields, MergeError> {
    EffectiveRow(kind, live, if Key(kind, id) in patches then Some(patches[Key(kind, id)]) else None)
  }

  function Restored(live: Fields, snap: Fields): Fields { snap[VERSION := Field(live, VERSION)] }

  // The patches hold exactly the non-empty diffs of the resources on both sides.
  ghost predicate DraftsTheDiffs(kind: ResKind, snap: Rows, live: Rows, patches: map<Key, J>) {
    forall id | id in snap && id in live ::
      && (Key(kind, id) in patches <==> Diff(live[id], snap[id]) != map[])
      && (Key(kind, id) in patches ==> patches[Key(kind, id)] == Obj(Diff(live[id], snap[id])))
  }

  lemma RouteDraftsRestore(snap: Rows, live: Rows, patches: map<Key, J>, id: string)
    requires DraftsTheDiffs(RouteRes, snap, live, patches) && id in snap && id in live
    requires IsRecord(RouteSchema, live[id]) && IsRecord(RouteSchema, snap[id])
    ensures AfterDraft(RouteRes, live[id], patches, id) == Ok(Restored(live[id], snap[id]))
  {
    RouteRollbackRestores(live[id], snap[id]);
  }

  lemma RuleDraftsRestore(snap: Rows, live: Rows, patches: map<Key, J>, id: string)
    requires DraftsTheDiffs(RuleRes, snap, live, patches) && id in snap && id in live
    requires IsRecord(RuleSchema, live[id]) && IsRecord(RuleSchema, snap[id])
    ensures AfterDraft(RuleRes, live[id], patches, id) == Ok(Restored(live[id], snap[id])) <==>
            RuleComesBack(live[id], snap[id])
  {
    RuleRollbackRestoresExactly(live[id], snap[id]);
  }

  method DiffToDrafts(snapRoutes: Rows, snapRules: Rows, liveRoutes: Rows, liveRules: Rows)
    returns (patches: map<Key, J>, skipped: set<Key>)
    ensures DraftsTheDiffs(RouteRes, snapRoutes, liveRoutes, patches)
    ensures DraftsTheDiffs(RuleRes, snapRules, liveRules, patches)
    ensures forall k | k in patches ::
      (k.kind == RouteRes && k.id in snapRoutes && k.id in liveRoutes) ||
       (k.kind == RuleRes && k.id in snapRules && k.id in liveRules)
    ensures forall id :: Key(RouteRes, id) in skipped <==> ((id in snapRoutes) != (id in liveRoutes))
    ensures forall id :: Key(RuleRes, id) in skipped <==> ((id in snapRules) != (id in liveRules))
  {
    var p, s := DiffKind(RouteRes, snapRoutes, liveRoutes);
    var q, t := DiffKind(RuleRes, snapRules, liveRules);
    patches, skipped := p + q, s + t;
  }

  // Nothing is passed over in silence: a resource on one side only is skipped by name; a route on
  // both sides is brought back to the snapshot, and a rule exactly when RuleComesBack holds.
  lemma RollbackAccountsForEverything(kind: ResKind, snap: Rows, live: Rows, patches: map<Key, J>, skipped: set<Key>,
                                      id: string)
    requires kind != PolicyRes && DraftsTheDiffs(kind, snap, live, patches)
    requires forall x :: Key(kind, x) in skipped <==> ((x in snap) != (x in live))
    requires id in snap || id in live
    requires id in snap ==> IsRecord(SchemaOf(kind), snap[id])
    requires id in live ==> IsRecord(SchemaOf(kind), live[id])
    ensures Key(kind, id) in skipped <==> !(id in snap && id in live)
    ensures Key(kind, id) !in skipped ==>
      (AfterDraft(kind, live[id], patches, id) == Ok(Restored(live[id], snap[id]))
       <==> (kind == RouteRes || RuleComesBack(live[id], snap[id])))
  {
    if id in snap && id in live {
      if kind == RouteRes {
        RouteDraftsRestore(snap, live, patches, id);
      } else {
        RuleDraftsRestore(snap, live, patches, id);
      }
    }
  }
}
