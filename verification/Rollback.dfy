/** A whole rollback: the drafts of the diff written, deployed and committed. */
module Rollback {
  import opened Wrappers
  import opened Json
  import opened Records
  import opened Deploy
  import opened Pipeline

  // The routes and rules a deploy recorded.
  datatype Snapshot = Snapshot(routes: Rows, rules: Rows)

  function Of(s: Snapshot, kind: ResKind): Rows {
    match kind case RouteRes => s.routes case RuleRes => s.rules case PolicyRes => map[]
  }

  // Rows and snapshot are written-out resources under their own ids.
  ghost predicate WellFormed(kind: ResKind, rows: Rows) {
    RowsOk(kind, rows) && forall id | id in rows :: IsRecord(SchemaOf(kind), rows[id])
  }

  // The patches are the drafts of the diff between the live rows and the snapshot.
  ghost predicate Diffed(db: Db, s: Snapshot, patches: map<Key, J>) {
    && DraftsTheDiffs(RouteRes, s.routes, db.routes, patches) && DraftsTheDiffs(RuleRes, s.rules, db.rules, patches)
    && forall k | k in patches :: k.kind != PolicyRes && k.id in Of(s, k.kind) && k.id in RawRows(k.kind, db)
  }

  ghost predicate Ready(db: Db, s: Snapshot, patches: map<Key, J>) {
    && DbOk(db) && Diffed(db, s, patches)
    && WellFormed(RouteRes, db.routes) && WellFormed(RuleRes, db.rules)
    && WellFormed(RouteRes, s.routes) && WellFormed(RuleRes, s.rules)
  }

  // The store once the drafts of the rollback are written.
  function Drafted(db: Db, patches: map<Key, J>): Db { db.(drafts := db.drafts + patches) }

  // ---------------------------------------------------------------- what is rendered

  lemma SpecDecides(snap: Fields, version: J, spec: J)
    requires IsRecord(RuleSchema, snap)
    ensures var row := snap[VERSION := version]["spec" := spec];
            IdOf(RuleRes, row) == IdOf(RuleRes, snap)
                && (Rendered(RuleRes, row) == Rendered(RuleRes, snap) <==> spec == snap["spec"])
  {
    var row := snap[VERSION := version]["spec" := spec];
    assert Rendered(RuleRes, row)["spec"] == spec && Rendered(RuleRes, snap)["spec"] == snap["spec"];
    if spec == snap["spec"] {
      assert row == snap[VERSION := version];
      assert Rendered(RuleRes, row) == Rendered(RuleRes, snap);
    }
  }

  lemma VersionIsNotRendered(snap: Fields, version: J)
    requires IsRecord(RouteSchema, snap)
    ensures var row := snap[VERSION := version];
            IdOf(RouteRes, row) == IdOf(RouteRes, snap) && Rendered(RouteRes, row) == Rendered(RouteRes, snap)
            && Field(row, "body_max") == Field(snap, "body_max")
  {
    assert Rendered(RouteRes, snap[VERSION := version]) == Rendered(RouteRes, snap);
  }

  lemma RolledBackRoute(snap: Rows, live: Rows, patches: map<Key, J>, id: string) returns (row: Fields)
    requires DraftsTheDiffs(RouteRes, snap, live, patches) && WellFormed(RouteRes, snap) && WellFormed(RouteRes, live)
    requires id in live && (Key(RouteRes, id) in patches ==> id in snap)
    ensures AfterDraft(RouteRes, live[id], patches, id) == Ok(row) && IdOf(RouteRes, row) == id
    ensures id in snap ==> Rendered(RouteRes, row) == Rendered(RouteRes, snap[id])
    ensures id in snap ==> Field(row, "body_max") == Field(snap[id], "body_max")
  {
    if id in snap {
      RouteDraftsRestore(snap, live, patches, id);
      row := Restored(live[id], snap[id]);
      VersionIsNotRendered(snap[id], Field(live[id], VERSION));
    } else {
      row := live[id];
    }
  }

  lemma RolledBackRule(snap: Rows, live: Rows, patches: map<Key, J>, id: string) returns (row: Fields)
    requires DraftsTheDiffs(RuleRes, snap, live, patches) && WellFormed(RuleRes, snap) && WellFormed(RuleRes, live)
    requires id in live && (Key(RuleRes, id) in patches ==> id in snap)
    ensures AfterDraft(RuleRes, live[id], patches, id) == Ok(row) && IdOf(RuleRes, row) == id
    ensures id in snap ==> (Rendered(RuleRes, row) == Rendered(RuleRes, snap[id]) <==>
            RuleComesBack(live[id], snap[id]))
  {
    if id in snap {
      var spec := RolledBackRuleIs(live[id], snap[id]);
      row := snap[id][VERSION := live[id][VERSION]]["spec" := spec];
      SpecDecides(snap[id], live[id][VERSION], spec);
    } else {
      row := live[id];
    }
  }

  // What the deploy of a rollback renders for one resource.
  lemma RollbackRow(db: Db, s: Snapshot, patches: map<Key, J>, kind: ResKind, id: string) returns (row: Fields)
    requires Ready(db, s, patches) && kind != PolicyRes && id in RawRows(kind, db)
    ensures RowMerger(kind, Drafted(db, patches), patches.Keys)(id) == Ok(row) && IdOf(kind, row) == id
    ensures id in Of(s, kind) && kind == RouteRes ==>
              Rendered(kind, row) == Rendered(kind, s.routes[id])
                  && Field(row, "body_max") == Field(s.routes[id], "body_max")
    ensures id in Of(s, kind) && kind == RuleRes ==>
              (Rendered(kind, row) == Rendered(kind, s.rules[id]) <==> RuleComesBack(db.rules[id], s.rules[id]))
  {
    var k := Key(kind, id);
    assert SelectedDraft(Drafted(db, patches), patches.Keys, k) == if k in patches then Some(patches[k]) else None;
    if kind == RouteRes {
      row := RolledBackRoute(s.routes, db.routes, patches, id);
    } else {
      row := RolledBackRule(s.rules, db.rules, patches, id);
    }
  }

  lemma RollbackRows(db: Db, s: Snapshot, patches: map<Key, J>, kind: ResKind)
    requires Ready(db, s, patches) && kind != PolicyRes
    ensures EffectiveRows(kind, Drafted(db, patches), patches.Keys).Some?
    ensures EffectiveRows(kind, Drafted(db, patches), patches.Keys).value.Keys == RawRows(kind, db).Keys
    ensures forall id | id in RawRows(kind, db) ::
              RowMerger(kind, Drafted(db, patches), patches.Keys)(id) ==
                  Ok(EffectiveRows(kind, Drafted(db, patches), patches.Keys).value[id])
  {
    var f := RowMerger(kind, Drafted(db, patches), patches.Keys);
    var ids := RawRows(kind, db).Keys;
    forall id | id in ids ensures f(id).Ok? {
      var row := RollbackRow(db, s, patches, kind, id);
    }
    CollectsAll(ids, f);
    assert Listed(kind, Drafted(db, patches)) == RawRows(kind, db);
  }

  lemma PoliciesStay(db: Db, s: Snapshot, patches: map<Key, J>)
    requires Ready(db, s, patches)
    ensures EffectiveRows(PolicyRes, Drafted(db, patches), patches.Keys).Some?
  {
    forall id | id in Listed(PolicyRes, db) ensures RowMerger(PolicyRes, Drafted(db, patches), patches.Keys)(id).Ok? {
      assert Key(PolicyRes, id) !in patches;
    }
  }

  lemma NoneIsAnOrphan(db: Db, s: Snapshot, patches: map<Key, J>)
    requires Ready(db, s, patches)
    ensures Orphans(Drafted(db, patches), patches.Keys) == {}
  {
    forall k | k in patches ensures k.id in Listed(k.kind, Drafted(db, patches)) {
      assert k.kind != PolicyRes && k.id in RawRows(k.kind, db);
    }
  }

  // A rollback's drafts can always be deployed.
  lemma RollbackIsDeployable(db: Db, s: Snapshot, patches: map<Key, J>)
    requires Ready(db, s, patches)
    ensures Effective(Drafted(db, patches), patches.Keys).Some? && Orphans(Drafted(db, patches), patches.Keys) == {}
  {
    RollbackRows(db, s, patches, RouteRes);
    RollbackRows(db, s, patches, RuleRes);
    PoliciesStay(db, s, patches);
    NoneIsAnOrphan(db, s, patches);
  }

  // ---------------------------------------------------------------- what is live afterwards

  lemma RollbackRenamesNothing(db: Db, s: Snapshot, patches: map<Key, J>, kind: ResKind)
    requires Ready(db, s, patches) && kind != PolicyRes && EffectiveRows(kind, Drafted(db, patches), patches.Keys).Some?
    ensures var eff := EffectiveRows(kind, Drafted(db, patches), patches.Keys).value; forall id | id in eff ::
            IdOf(kind, eff[id]) == id
  {
    var eff := EffectiveRows(kind, Drafted(db, patches), patches.Keys).value;
    RollbackRows(db, s, patches, kind);
    forall id | id in eff ensures IdOf(kind, eff[id]) == id {
      var row := RollbackRow(db, s, patches, kind, id);
    }
  }

  lemma WhatIsRendered(db: Db, s: Snapshot, patches: map<Key, J>, kind: ResKind, id: string, eff: Rows)
    requires Ready(db, s, patches) && kind != PolicyRes && id in RawRows(kind, db) && id in Of(s, kind)
    requires EffectiveRows(kind, Drafted(db, patches), patches.Keys) == Some(eff)
    ensures id in eff && IdOf(kind, eff[id]) == id
    ensures kind == RouteRes ==> Rendered(kind, eff[id]) == Rendered(kind, s.routes[id])
    ensures kind == RouteRes ==> Field(eff[id], "body_max") == Field(s.routes[id], "body_max")
    ensures kind == RuleRes ==> (Rendered(kind, eff[id]) == Rendered(kind, s.rules[id]) <==>
            RuleComesBack(db.rules[id], s.rules[id]))
  {
    RollbackRows(db, s, patches, kind);
    var row := RollbackRow(db, s, patches, kind, id);
  }

  // A resource of both sides is back as the snapshot has it: a rule when RuleComesBack holds, a
  // route unless the rollback writes an empty body limit.
  ghost predicate ComesBack(db: Db, s: Snapshot, patches: map<Key, J>, kind: ResKind, id: string)
    requires id in RawRows(kind, db) && id in Of(s, kind)
  {
    if kind == RouteRes then Key(RouteRes, id) in patches ==> Field(Of(s, kind)[id], "body_max") != Str("")
    else RuleComesBack(RawRows(kind, db)[id], Of(s, kind)[id])
  }

  // The whole rollback: after its drafts have been written, deployed and committed, a live
  // resource renders as the snapshot's exactly when it comes back.
  lemma RollbackRestoresExactlyWhen(db: Db, s: Snapshot, patches: map<Key, J>, o: Orders, version: string, deploy: nat,
                                    kind: ResKind, id: string)
    requires Ready(db, s, patches) && kind != PolicyRes && id in RawRows(kind, db) && id in Of(s, kind)
    requires Effective(Drafted(db, patches), patches.Keys).Some?
    requires Lists(o, Effective(Drafted(db, patches), patches.Keys).value)
    ensures var after := Committed(Drafted(db, patches), Effective(Drafted(db, patches), patches.Keys).value, o,
            patches.Keys, version, deploy);
            id in RawRows(kind, after)
            && (Rendered(kind, RawRows(kind, after)[id]) == Rendered(kind, Of(s, kind)[id]) <==>
               ComesBack(db, s, patches, kind, id))
  {
    var db1, keys := Drafted(db, patches), patches.Keys;
    var eff := EffectiveRows(kind, db1, keys).value;
    var order := if kind == RouteRes then o.routes else o.rules;
    RollbackRows(db, s, patches, kind);
    RollbackRenamesNothing(db, s, patches, kind);
    EffectiveRowsOverlay(kind, db1, keys, order);
    RowLandsExactlyWhenClean(kind, RawRows(kind, db1), order, eff, keys, id);
    WhatIsRendered(db, s, patches, kind, id, eff);
  }
}
