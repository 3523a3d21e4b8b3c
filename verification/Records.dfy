/** Resource rows in their JSON form, and laying drafts over them. */
module Records {
  import opened Wrappers
  import opened Json

  // Raw keeps any JSON as it is; Spec is an object that drops its zero values.
  datatype Kind = Text | Number | Flag | Texts | Spec | Raw

  type Schema = map<string, Kind>

  const RouteSchema: Schema := map[
    "domain" := Text, "upstream" := Text, "block_mode" := Text, "mtls" := Flag, "compress" := Flag,
    "body_max" := Text, "whitelist" := Texts, "version" := Number]

  const RuleSchema: Schema := map[
    "id" := Text, "name" := Text, "type" := Text, "enabled" := Flag, "apply_to" := Texts,
    "version" := Number, "spec" := Spec]

  const PolicySchema: Schema := map["id" := Text, "name" := Text, "version" := Number, "spec" := Raw]

  // The union of the fields of all rule types. Filters are an array of objects, kept as it is.
  const SpecSchema: Schema := map[
    "ips" := Texts, "filters" := Raw, "header" := Text, "algo" := Text, "ttl_s" := Number,
    "replay_protection" := Flag, "iss" := Text, "aud" := Text, "jwks_url" := Text, "skew_s" := Number,
    "requests" := Number, "window_s" := Number, "rate_key" := Text, "geo_mode" := Text, "geo_countries" := Texts]

  function Zero(kind: Kind): J {
    match kind
    case Text => Str("")
    case Number => Num(0)
    case Flag => Bool(false)
    case Texts => Null
    case Spec => Obj(map[])
    case Raw => Null
  }

  // A spec field that equals its zero value is left out when the spec is written.
  predicate Omitted(j: J) { j in {Null, Str(""), Num(0), Bool(false), Arr([])} }

  function DecodeSimple(kind: Kind, j: J): Option<J> {
    if j.Null? then Some(Zero(kind))
    else match kind {
      case Text => if j.Str? then Some(j) else None
      case Number => if j.Num? then Some(j) else None
      case Flag => if j.Bool? then Some(j) else None
      case Texts => if j.Arr? && (forall x | x in j.items :: x.Str?) then Some(j) else None
      case Raw => if j.Arr? then Some(j) else None
      case Spec => None
    }
  }

  // Known spec fields are decoded, zero ones dropped, unknown ones ignored.
  function DecodeSpec(f: Fields): Option<Fields> {
    if exists k | k in f && k in SpecSchema :: DecodeSimple(SpecSchema[k], f[k]).None? then None
    else Some(map k | k in f && k in SpecSchema && !Omitted(f[k]) :: f[k])
  }

  function Decode(kind: Kind, j: J): Option<J> {
    match kind
    case Spec =>
      if j.Null? then Some(Obj(map[]))
      else if j.Obj? && DecodeSpec(j.fields).Some? then Some(Obj(DecodeSpec(j.fields).value))
      else None
    case Raw => Some(j)
    case _ => DecodeSimple(kind, j)
  }

  // Reading a JSON object as a resource: missing and null fields become zero, unknown ones vanish.
  function DecodeRecord(schema: Schema, f: Fields): Option<Fields> {
    if exists k | k in f && k in schema :: Decode(schema[k], f[k]).None? then None
    else Some(map k | k in schema ::
        if k in f && Decode(schema[k], f[k]).Some? then Decode(schema[k], f[k]).value else Zero(schema[k]))
  }

  // What a resource looks like when it is written out.
  predicate IsRecord(schema: Schema, f: Fields) {
    f.Keys == schema.Keys && forall k | k in schema :: Decode(schema[k], f[k]) == Some(f[k])
  }

  lemma RecordsDecodeToThemselves(schema: Schema, f: Fields)
    requires IsRecord(schema, f)
    ensures DecodeRecord(schema, f) == Some(f)
  {
    assert DecodeRecord(schema, f).Some?;
    assert DecodeRecord(schema, f).value == f;
  }

  lemma SpecOfRecord(f: Fields)
    requires IsRecord(RuleSchema, f)
    ensures f["spec"].Obj? && f["type"].Str?
    ensures forall k | k in f["spec"].fields ::
            k in SpecSchema && !ReadsAsObject(f["spec"].fields[k]) && !Omitted(f["spec"].fields[k])
    ensures DecodeSpec(f["spec"].fields) == Some(f["spec"].fields)
  {
    assert Decode(RuleSchema["spec"], f["spec"]) == Some(f["spec"]);
    assert Decode(RuleSchema["type"], f["type"]) == Some(f["type"]);
    var sp := f["spec"].fields;
    assert DecodeSpec(sp).Some? && DecodeSpec(sp).value == sp;
    forall k | k in sp ensures k in SpecSchema && !ReadsAsObject(sp[k]) && !Omitted(sp[k]) {
      assert k in DecodeSpec(sp).value;
      assert DecodeSimple(SpecSchema[k], sp[k]).Some?;
    }
  }

  function Field(r: Fields, name: string): J { if name in r then r[name] else Null }

  // ---------------------------------------------------------------- laying a draft over a row

  datatype MergeError = Panicked | BadPatch | BadType

  function MergeInto(schema: Schema, base: Fields, patch: J): Result<Fields, MergeError> {
    if !ReadsAsObject(patch) then Err(BadPatch)
    else if Panics(Obj(base), patch) then Err(Panicked)
    else match DecodeRecord(schema, Merge(Obj(base), patch).fields) {
      case None => Err(BadType)
      case Some(f) => Ok(f)
    }
  }

  // The type a draft asks for, if it names one.
  function PatchType(patch: J): Option<J> {
    if patch.Obj? && "type" in patch.fields && patch.fields["type"].Str? then Some(patch.fields["type"]) else None
  }

  predicate PatchTypeReadable(patch: J) {
    ReadsAsObject(patch) &&
    (patch.Obj? && "type" in patch.fields ==> patch.fields["type"].Str? || patch.fields["type"].Null?)
  }

  // A draft that changes a rule's type starts from an empty spec.
  function MergeRuleDraft(base: Fields, patch: J): Result<Fields, MergeError>
    requires "type" in base
  {
    if !PatchTypeReadable(patch) then Err(BadPatch)
    else
      var changes := PatchType(patch).Some? && PatchType(patch).value != base["type"];
      MergeInto(RuleSchema, if changes then base["spec" := Obj(map[])] else base, patch)
  }

  // ---------------------------------------------------------------- rolling back one resource

  // The draft a rollback writes; no draft when nothing differs.
  function RollbackDraft(live: Fields, snap: Fields): Option<J> {
    var d := Diff(live, snap);
    if d == map[] then None else Some(Obj(d))
  }

  function RollBackRoute(live: Fields, snap: Fields): Result<Fields, MergeError> {
    match RollbackDraft(live, snap)
    case None => Ok(live)
    case Some(p) => MergeInto(RouteSchema, live, p)
  }

  function RollBackRule(live: Fields, snap: Fields): Result<Fields, MergeError>
    requires "type" in live
  {
    match RollbackDraft(live, snap)
    case None => Ok(live)
    case Some(p) => MergeRuleDraft(live, p)
  }

  // Merging the diff over a row whose values the snapshot's values fully replace.
  lemma MergeReplaces(schema: Schema, live: Fields, snap: Fields)
    requires IsRecord(schema, live) && IsRecord(schema, snap) && VERSION in schema
    requires forall k | k in snap && k != VERSION && ReadsAsObject(live[k]) && ReadsAsObject(snap[k]) ::
               Merge(live[k], snap[k]) == snap[k] && !Panics(live[k], snap[k])
    ensures MergeInto(schema, live, Obj(Diff(live, snap))) == Ok(snap[VERSION := live[VERSION]])
  {
    var d := Diff(live, snap);
    var m := Merge(Obj(live), Obj(d)).fields;
    var goal := snap[VERSION := live[VERSION]];
    assert m.Keys == schema.Keys;
    forall k | k in m ensures m[k] == goal[k] {
      assert k in live && k in snap;
      if k in d {
        assert m[k] == Merge(live[k], snap[k]);
      } else {
        assert m[k] == live[k];
      }
    }
    assert m == goal;
    forall k | k in d && k in live ensures !Panics(live[k], d[k]) {
      assert k in snap && k != VERSION && d[k] == snap[k];
    }
    assert !Panics(Obj(live), Obj(d));
    assert IsRecord(schema, goal);
    RecordsDecodeToThemselves(schema, goal);
  }

  lemma NoDiffMeansEqual(schema: Schema, live: Fields, snap: Fields)
    requires IsRecord(schema, live) && IsRecord(schema, snap) && VERSION in schema && Diff(live, snap) == map[]
    ensures live == snap[VERSION := live[VERSION]]
  {
    forall k | k in snap && k != VERSION ensures live[k] == snap[k] {
      assert k !in Diff(live, snap);
    }
  }

  lemma FlatFieldsAreNotObjects(kind: Kind, j: J)
    requires kind in {Text, Number, Flag, Texts} && Decode(kind, j) == Some(j)
    ensures !j.Obj?
  {
  }

  lemma RouteFieldIsReplaced(live: Fields, snap: Fields, k: string)
    requires IsRecord(RouteSchema, live) && IsRecord(RouteSchema, snap) && k in snap && ReadsAsObject(live[k])
    requires ReadsAsObject(snap[k])
    ensures Merge(live[k], snap[k]) == snap[k] && !Panics(live[k], snap[k])
  {
    FlatFieldsAreNotObjects(RouteSchema[k], live[k]);
    FlatFieldsAreNotObjects(RouteSchema[k], snap[k]);
  }

  // A route always comes back exactly, apart from its version.
  lemma RouteRollbackRestores(live: Fields, snap: Fields)
    requires IsRecord(RouteSchema, live) && IsRecord(RouteSchema, snap)
    ensures RollBackRoute(live, snap) == Ok(snap[VERSION := live[VERSION]])
  {
    if Diff(live, snap) == map[] {
      NoDiffMeansEqual(RouteSchema, live, snap);
    } else {
      forall k | k in snap && k != VERSION && ReadsAsObject(live[k]) && ReadsAsObject(snap[k])
        ensures Merge(live[k], snap[k]) == snap[k] && !Panics(live[k], snap[k])
      {
        RouteFieldIsReplaced(live, snap, k);
      }
      MergeReplaces(RouteSchema, live, snap);
    }
  }

  // The exact condition under which a rule comes back: a field the live spec gained since then
  // cannot be taken away by a draft of the same type, and a changed type needs a changed spec.
  predicate RuleComesBack(live: Fields, snap: Fields) {
    var a, b := Field(live, "spec"), Field(snap, "spec");
    if Field(live, "type") == Field(snap, "type") then a.Obj? && b.Obj? && a.fields.Keys <= b.fields.Keys
    else a != b || b == Obj(map[])
  }

  lemma SpecsHideByKeys(live: Fields, snap: Fields)
    requires IsRecord(RuleSchema, live) && IsRecord(RuleSchema, snap)
    ensures var a, b := live["spec"], snap["spec"];
            && a.Obj? && b.Obj? && !Panics(a, b)
            && (Merge(a, b) == b <==> a.fields.Keys <= b.fields.Keys)
            && Merge(a, b).Obj? && Merge(a, b).fields.Keys == a.fields.Keys + b.fields.Keys
            && DecodeSpec(Merge(a, b).fields) == Some(Merge(a, b).fields)
  {
    SpecOfRecord(live);
    SpecOfRecord(snap);
    var a, b := live["spec"], snap["spec"];
    MergeRestoresExactlyWhenHidden(a, b);
    var m := Merge(a, b).fields;
    forall k | k in m ensures k in SpecSchema && DecodeSimple(SpecSchema[k], m[k]).Some? && !Omitted(m[k]) {
      assert m[k] == if k in b.fields then b.fields[k] else a.fields[k];
      SpecFieldDecodes(if k in b.fields then b.fields else a.fields, k);
    }
    assert DecodeSpec(m).Some? && DecodeSpec(m).value == m;
  }

  lemma SpecFieldDecodes(sp: Fields, k: string)
    requires DecodeSpec(sp) == Some(sp) && k in sp
    ensures k in SpecSchema && DecodeSimple(SpecSchema[k], sp[k]).Some?
  {
    assert k in DecodeSpec(sp).value;
  }

  lemma RuleFieldsAreFlat(k: string, live: Fields, snap: Fields)
    requires IsRecord(RuleSchema, live) && IsRecord(RuleSchema, snap)
    requires k in snap && k != "spec"
    ensures !live[k].Obj? && !snap[k].Obj?
  {
    FlatFieldsAreNotObjects(RuleSchema[k], live[k]);
    FlatFieldsAreNotObjects(RuleSchema[k], snap[k]);
  }

  lemma DiffFieldMerges(live: Fields, snap: Fields, k: string)
    requires IsRecord(RuleSchema, live) && IsRecord(RuleSchema, snap) && k in snap && k != "spec"
    ensures var d := Diff(live, snap);
            && (k in d ==> !Panics(live[k], d[k]) && snap[k] == Merge(live[k], d[k]) && k != VERSION)
            && (k !in d ==> k == VERSION || snap[k] == live[k])
  {
    RuleFieldsAreFlat(k, live, snap);
  }

  lemma WithSpec(live: Fields, snap: Fields, sp: Fields)
    requires IsRecord(RuleSchema, live) && IsRecord(RuleSchema, snap) && DecodeSpec(sp) == Some(sp)
    ensures IsRecord(RuleSchema, snap[VERSION := live[VERSION]]["spec" := Obj(sp)])
  {
  }

  // Same type: every field comes back except that the two specs are merged.
  lemma SameTypeRollback(live: Fields, snap: Fields)
    requires IsRecord(RuleSchema, live) && IsRecord(RuleSchema, snap) && live["type"] == snap["type"]
    ensures RollBackRule(live, snap) == Ok(snap[VERSION := live[VERSION]]["spec" := Merge(live["spec"], snap["spec"])])
  {
    var d := Diff(live, snap);
    SpecsHideByKeys(live, snap);
    MergeWithItself(live["spec"]);
    var goal := snap[VERSION := live[VERSION]]["spec" := Merge(live["spec"], snap["spec"])];
    if d == map[] {
      NoDiffMeansEqual(RuleSchema, live, snap);
      assert live == goal;
    } else {
      WithSpec(live, snap, Merge(live["spec"], snap["spec"]).fields);
      SameTypeDraftYields(live, snap, d, goal);
    }
  }

  lemma SameTypeDraftYields(live: Fields, snap: Fields, d: Fields, goal: Fields)
    requires IsRecord(RuleSchema, live) && IsRecord(RuleSchema, snap) && live["type"] == snap["type"]
    requires d == Diff(live, snap) && IsRecord(RuleSchema, goal)
    requires goal == snap[VERSION := live[VERSION]]["spec" := Merge(live["spec"], snap["spec"])]
    requires !Panics(live["spec"], snap["spec"]) && Merge(live["spec"], live["spec"]) == live["spec"]
    ensures MergeRuleDraft(live, Obj(d)) == Ok(goal)
  {
    forall k | k in goal
      ensures k in d ==> !Panics(live[k], d[k]) && goal[k] == Merge(live[k], d[k])
      ensures k !in d ==> goal[k] == live[k]
    {
      if k != "spec" {
        DiffFieldMerges(live, snap, k);
      }
    }
    assert "type" !in d;
    RuleMergeYields(live, d, goal);
  }

  // Changed type: the spec starts empty, so it ends as whatever the draft carries.
  lemma ChangedTypeRollback(live: Fields, snap: Fields)
    requires IsRecord(RuleSchema, live) && IsRecord(RuleSchema, snap) && live["type"] != snap["type"]
    ensures RollBackRule(live, snap) ==
            Ok(snap[VERSION := live[VERSION]]["spec" := if live["spec"] == snap["spec"] then Obj(map[])
                else snap["spec"]])
  {
    var d := Diff(live, snap);
    SpecOfRecord(live);
    SpecOfRecord(snap);
    var base := live["spec" := Obj(map[])];
    var sp := if live["spec"] == snap["spec"] then Obj(map[]) else snap["spec"];
    var goal := snap[VERSION := live[VERSION]]["spec" := sp];
    assert "type" in d;
    assert DecodeSpec(map[]) == Some(map[]);
    WithSpec(live, live, map[]);
    assert base == live[VERSION := live[VERSION]]["spec" := Obj(map[])];
    WithSpec(live, snap, sp.fields);
    ChangedTypeDraftYields(live, snap, base, d, goal);
  }

  lemma ChangedTypeDraftYields(live: Fields, snap: Fields, base: Fields, d: Fields, goal: Fields)
    requires IsRecord(RuleSchema, live) && IsRecord(RuleSchema, snap) && live["type"] != snap["type"]
    requires live["type"].Str? && snap["type"].Str? && snap["spec"].Obj?
    requires d == Diff(live, snap) && IsRecord(RuleSchema, goal) && IsRecord(RuleSchema, base)
    requires base == live["spec" := Obj(map[])]
    requires goal == snap[VERSION := live[VERSION]]["spec" := if live["spec"] == snap["spec"] then Obj(map[])
             else snap["spec"]]
    ensures MergeRuleDraft(live, Obj(d)) == Ok(goal)
  {
    EmptySpecTakesAll(snap["spec"]);
    forall k | k in goal
      ensures k in d ==> !Panics(base[k], d[k]) && goal[k] == Merge(base[k], d[k])
      ensures k !in d ==> goal[k] == base[k]
    {
      ChangedFieldMerges(live, snap, base, d, goal, k);
    }
    MergeYields(RuleSchema, base, d, goal);
    assert PatchType(Obj(d)) == Some(snap["type"]);
  }

  lemma ChangedFieldMerges(live: Fields, snap: Fields, base: Fields, d: Fields, goal: Fields, k: string)
    requires IsRecord(RuleSchema, live) && IsRecord(RuleSchema, snap) && snap["spec"].Obj? && k in goal
    requires d == Diff(live, snap) && base == live["spec" := Obj(map[])]
    requires goal == snap[VERSION := live[VERSION]]["spec" := if live["spec"] == snap["spec"] then Obj(map[])
             else snap["spec"]]
    ensures k in base && (k in d ==> !Panics(base[k], d[k]) && goal[k] == Merge(base[k], d[k]))
    ensures (k !in d ==> goal[k] == base[k])
  {
    if k == "spec" {
      EmptySpecTakesAll(snap["spec"]);
    } else {
      DiffFieldMerges(live, snap, k);
    }
  }

  lemma EmptySpecTakesAll(sp: J)
    requires sp.Obj?
    ensures Merge(Obj(map[]), sp) == sp && !Panics(Obj(map[]), sp)
  {
    assert Merge(Obj(map[]), sp).fields == sp.fields;
  }

  // What merging part of a record over a row gives, once every field of the result is known.
  lemma MergeYields(schema: Schema, base: Fields, d: Fields, goal: Fields)
    requires IsRecord(schema, base) && IsRecord(schema, goal) && d.Keys <= schema.Keys
    requires forall k | k in goal ::
               && (k in d ==> !Panics(base[k], d[k]) && goal[k] == Merge(base[k], d[k]))
               && (k !in d ==> goal[k] == base[k])
    ensures MergeInto(schema, base, Obj(d)) == Ok(goal)
  {
    var m := Merge(Obj(base), Obj(d)).fields;
    forall k | k in d && k in base ensures !Panics(base[k], d[k]) {
      assert k in goal;
    }
    assert !Panics(Obj(base), Obj(d));
    assert m.Keys == schema.Keys;
    assert m == goal;
    RecordsDecodeToThemselves(schema, goal);
  }

  lemma RuleMergeYields(live: Fields, d: Fields, goal: Fields)
    requires IsRecord(RuleSchema, live) && IsRecord(RuleSchema, goal)
    requires d.Keys <= RuleSchema.Keys && "type" !in d
    requires forall k | k in goal ::
               && (k in d ==> !Panics(live[k], d[k]) && goal[k] == Merge(live[k], d[k]))
               && (k !in d ==> goal[k] == live[k])
    ensures MergeRuleDraft(live, Obj(d)) == Ok(goal)
  {
    MergeYields(RuleSchema, live, d, goal);
  }

  // A rule comes back, apart from its version, exactly when RuleComesBack holds.
  lemma RuleRollbackRestoresExactly(live: Fields, snap: Fields)
    requires IsRecord(RuleSchema, live) && IsRecord(RuleSchema, snap)
    ensures RollBackRule(live, snap).Ok?
    ensures RollBackRule(live, snap) == Ok(snap[VERSION := live[VERSION]]) <==> RuleComesBack(live, snap)
  {
    SpecOfRecord(live);
    SpecOfRecord(snap);
    var back := snap[VERSION := live[VERSION]];
    if live["type"] == snap["type"] {
      SameTypeRollback(live, snap);
      SpecsHideByKeys(live, snap);
      assert back["spec" := snap["spec"]] == back;
      assert back["spec" := Merge(live["spec"], snap["spec"])]["spec"] == Merge(live["spec"], snap["spec"]);
    } else {
      ChangedTypeRollback(live, snap);
      assert back["spec" := snap["spec"]] == back;
      assert back["spec" := Obj(map[])]["spec"] == Obj(map[]);
    }
  }

  // In particular a spec field that was set after the snapshot survives a rollback: a rate limit
  // that gained a rate_key keeps it.
  lemma GainedFieldSurvivesRollback(live: Fields, snap: Fields)
    requires IsRecord(RuleSchema, live) && IsRecord(RuleSchema, snap)
    requires live["type"] == snap["type"] == Str("rate_limit")
    requires live["spec"] == Obj(map["requests" := Num(100), "window_s" := Num(60), "rate_key" := Str("ip_path")])
    requires snap["spec"] == Obj(map["requests" := Num(100), "window_s" := Num(60)])
    ensures RollBackRule(live, snap).Ok? && RollBackRule(live, snap).value["spec"] == live["spec"]
    ensures !RuleComesBack(live, snap)
  {
    SameTypeRollback(live, snap);
    GainedField(live["spec"], snap["spec"]);
  }

  lemma GainedField(a: J, b: J)
    requires a == Obj(map["requests" := Num(100), "window_s" := Num(60), "rate_key" := Str("ip_path")])
    requires b == Obj(map["requests" := Num(100), "window_s" := Num(60)])
    ensures Merge(a, b) == a && !(a.fields.Keys <= b.fields.Keys)
  {
    assert Merge(a, b).fields == a.fields;
    assert "rate_key" in a.fields && "rate_key" !in b.fields;
  }

  // A rolled back rule is the snapshot's rule but for its version and perhaps its spec.
  lemma RolledBackRuleIs(live: Fields, snap: Fields) returns (spec: J)
    requires IsRecord(RuleSchema, live) && IsRecord(RuleSchema, snap)
    ensures RollBackRule(live, snap) == Ok(snap[VERSION := live[VERSION]]["spec" := spec])
    ensures spec == snap["spec"] <==> RuleComesBack(live, snap)
  {
    var back := snap[VERSION := live[VERSION]];
    spec := if live["type"] == snap["type"] then Merge(live["spec"], snap["spec"])
            else if live["spec"] == snap["spec"] then Obj(map[]) else snap["spec"];
    if live["type"] == snap["type"] {
      SameTypeRollback(live, snap);
    } else {
      ChangedTypeRollback(live, snap);
    }
    RuleRollbackRestoresExactly(live, snap);
    assert back["spec" := snap["spec"]] == back;
    assert back["spec" := spec]["spec"] == spec && back["spec"] == snap["spec"];
  }
}
