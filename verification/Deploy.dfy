/** What a deploy renders, how it lands in the store, and what a rollback writes. */
module Deploy {
  import opened Wrappers
  import opened Json
  import opened Records

  datatype ResKind = RouteRes | RuleRes | PolicyRes

  // "route:<domain>", "rule:<id>" or "global:<id>".
  datatype Key = Key(kind: ResKind, id: string)

  type Rows = map<string, Fields>

  datatype Db = Db(
    routes: Rows, rules: Rows, policies: Rows, secrets: map<string, string>,
    drafts: map<Key, J>, baseline: string, baselineDeploy: nat)

  function SchemaOf(kind: ResKind): Schema {
    match kind case RouteRes => RouteSchema case RuleRes => RuleSchema case PolicyRes => PolicySchema
  }

  function IdField(kind: ResKind): string { if kind.RouteRes? then "domain" else "id" }

  function IdOf(kind: ResKind, r: Fields): string {
    match Field(r, IdField(kind)) case Str(s) => s case _ => ""
  }

  // Rows are kept under their own id.
  ghost predicate RowsOk(kind: ResKind, rows: Rows) { forall id | id in rows :: IdOf(kind, rows[id]) == id }

  function DefaultPolicy(id: string, name: string): Fields {
    map["id" := Str(id), "name" := Str(name), "version" := Num(0), "spec" := Obj(map[])]
  }

  // The two policies always exist, as empty shells until someone edits them.
  const DefaultPolicies: Rows := map["tls" := DefaultPolicy("tls", "TLS"), "log" := DefaultPolicy("log", "Log")]

  function ListRows(kind: ResKind, rows: Rows): Rows {
    if kind.PolicyRes? then map id | id in DefaultPolicies :: if id in rows then rows[id] else DefaultPolicies[id]
    else rows
  }

  function Listed(kind: ResKind, db: Db): Rows {
    ListRows(kind, match kind case RouteRes => db.routes case RuleRes => db.rules case PolicyRes => db.policies)
  }

  ghost predicate DbOk(db: Db) {
    && RowsOk(RouteRes, db.routes) && RowsOk(RuleRes, db.rules) && RowsOk(PolicyRes, db.policies)
    && (forall id | id in db.routes :: "body_max" in db.routes[id])
  }

  lemma ListedRowsAreOk(kind: ResKind, rows: Rows)
    requires RowsOk(kind, rows)
    ensures RowsOk(kind, ListRows(kind, rows))
  {
  }

  // ---------------------------------------------------------------- live plus the selected drafts

  function EffectiveRow(kind: ResKind, row: Fields, patch: Option<J>): Result<Fields, MergeError> {
    match patch
    case None => Ok(row)
    case Some(p) =>
      if kind.RuleRes? && "type" in row then MergeRuleDraft(row, p) else MergeInto(SchemaOf(kind), row, p)
  }

  function SelectedDraft(db: Db, keys: set<Key>, k: Key): Option<J> {
    if k in keys && k in db.drafts then Some(db.drafts[k]) else None
  }

  // All results, or None when some row cannot be computed.
  function Collect(ids: set<string>, f: string -> Result<Fields, MergeError>): Option<Rows> {
    if exists id | id in ids :: f(id).Err? then None
    else Some(map id | id in ids :: match f(id) case Ok(r) => r case Err(_) => map[])
  }

  method CollectRows(ids: set<string>, f: string -> Result<Fields, MergeError>) returns (out: Option<Rows>)
    ensures out == Collect(ids, f)
  {
    var merged: Rows := map[];
    var todo := ids;
    while todo != {}
      invariant todo <= ids && merged.Keys == ids - todo
      invariant forall id | id in merged :: f(id) == Ok(merged[id])
    {
      var id :| id in todo;
      todo := todo - {id};
      match f(id) {
        case Err(_) => return None;
        case Ok(r) => merged := merged[id := r];
      }
    }
    out := Some(merged);
    assert merged == Collect(ids, f).value;
  }

  function RowMerger(kind: ResKind, db: Db, keys: set<Key>): string -> Result<Fields, MergeError> {
    var rows := Listed(kind, db);
    id => if id in rows then EffectiveRow(kind, rows[id], SelectedDraft(db, keys, Key(kind, id))) else Err(BadPatch)
  }

  function EffectiveRows(kind: ResKind, db: Db, keys: set<Key>): Option<Rows> {
    Collect(Listed(kind, db).Keys, RowMerger(kind, db, keys))
  }

  // Drafts that were selected but have no row to be laid over.
  function Orphans(db: Db, keys: set<Key>): set<Key> {
    set k | k in keys && k in db.drafts && k.id !in Listed(k.kind, db)
  }

  // What is rendered: rows under the id they were read by, and the secrets of the live rules.
  datatype Config = Config(routes: Rows, rules: Rows, policies: Rows, secrets: map<string, string>)

  function RowsOf(c: Config, kind: ResKind): Rows {
    match kind case RouteRes => c.routes case RuleRes => c.rules case PolicyRes => c.policies
  }

  function Effective(db: Db, keys: set<Key>): Option<Config> {
    var a, b := EffectiveRows(RouteRes, db, keys), EffectiveRows(RuleRes, db, keys);
    var c := EffectiveRows(PolicyRes, db, keys);
    if a.None? || b.None? || c.None? then None else Some(Config(a.value, b.value, c.value, db.secrets))
  }

  // ---------------------------------------------------------------- landing

  function Default(j: J, d: string): J { if j == Str("") then Str(d) else j }

  function NonNil(j: J): J { if j.Null? then Arr([]) else j }

  // The row an upsert leaves: columns with their defaults, the version of the row it replaces.
  function Stored(kind: ResKind, prev: Option<Fields>, r: Fields): Fields {
    var v := r[VERSION := if prev.Some? then Field(prev.value, VERSION) else Num(0)];
    match kind
    case RouteRes =>
      v["block_mode" := Default(Field(r, "block_mode"), "abort")]["body_max" := Default(Field(r, "body_max"), "5MB")]
       ["whitelist" := NonNil(Field(r, "whitelist"))]
    case RuleRes => v["apply_to" := NonNil(Field(r, "apply_to"))]
    case PolicyRes => v
  }

  function Get(rows: Rows, id: string): Option<Fields> { if id in rows then Some(rows[id]) else None }

  // Upsert the selected resources, in list order. Selection looks at the merged id.
  function Upserts(kind: ResKind, rows: Rows, order: seq<string>, eff: Rows, keys: set<Key>): Rows
    requires forall id | id in order :: id in eff
  {
    if order == [] then rows
    else
      var before := Upserts(kind, rows, order[..|order| - 1], eff, keys);
      var r := eff[order[|order| - 1]];
      var id := IdOf(kind, r);
      if Key(kind, id) in keys then before[id := Stored(kind, Get(before, id), r)] else before
  }

  function Bumped(row: Fields): Fields {
    if VERSION in row && row[VERSION].Num? then row[VERSION := Num(row[VERSION].n + 1)] else row
  }

  function BumpAll(kind: ResKind, rows: Rows, keys: set<Key>): Rows {
    map id | id in rows :: if id != "" && Key(kind, id) in keys then Bumped(rows[id]) else rows[id]
  }

  // ---------------------------------------------------------------- maps that exchange their keys

  ghost predicate Injective(n: map<string, string>) { forall a, b | a in n && b in n && n[a] == n[b] :: a == b }

  function Image(n: map<string, string>, ids: set<string>): set<string> { set id | id in ids && id in n :: n[id] }

  predicate Reached(n: map<string, string>, ids: set<string>, x: string) {
    exists id | id in ids && id in n :: n[id] == x
  }

  // The names given to these keys are these keys.
  ghost predicate Exchanges(n: map<string, string>, ids: set<string>) {
    forall x {:trigger Reached(n, ids, x)} :: Reached(n, ids, x) <==> x in ids
  }

  // Each value of b stands in a under the name n gives its key.
  ghost predicate StandsIn<T>(a: map<string, T>, b: map<string, T>, n: map<string, string>) {
    n.Keys == b.Keys && forall id | id in b :: n[id] in a && a[n[id]] == b[id]
  }

  ghost predicate AllReached(ids: set<string>, n: map<string, string>) {
    forall x {:trigger Reached(n, n.Keys, x)} | x in ids :: Reached(n, n.Keys, x)
  }

  lemma SameValues<T>(a: map<string, T>, b: map<string, T>, n: map<string, string>)
    requires StandsIn(a, b, n) && AllReached(a.Keys, n)
    ensures a.Values == b.Values
  {
    forall x | x in a ensures a[x] in b.Values {
      assert Reached(n, n.Keys, x);
    }
  }

  lemma {:induction false} ImageCount(n: map<string, string>, ids: set<string>)
    requires Injective(n) && ids <= n.Keys
    ensures |Image(n, ids)| == |ids|
    decreases ids
  {
    if ids != {} {
      var id :| id in ids;
      ImageCount(n, ids - {id});
      assert Image(n, ids) == Image(n, ids - {id}) + {n[id]};
    }
  }

  lemma SubsetOfSameSize(a: set<string>, b: set<string>)
    requires a <= b && |a| == |b|
    ensures a == b
  {
    assert b == a + (b - a);
  }

  // An injection of a finite set that reaches all of the set reaches nothing else.
  lemma Permutes(n: map<string, string>)
    requires Injective(n) && AllReached(n.Keys, n)
    ensures Exchanges(n, n.Keys)
  {
    var all := Image(n, n.Keys);
    forall x | x in n.Keys ensures x in all {
      assert Reached(n, n.Keys, x);
    }
    ImageCount(n, n.Keys);
    SubsetOfSameSize(n.Keys, all);
    forall x | Reached(n, n.Keys, x) ensures x in n.Keys {
      assert x in all;
    }
  }

  lemma ValueStandsIn<T>(a: map<string, T>, b: map<string, T>, id: string) returns (y: string)
    requires a.Values == b.Values && id in b
    ensures y in a && a[y] == b[id]
  {
    assert b[id] in a.Values;
    y :| y in a && a[y] == b[id];
  }

  // Equal values are kept under the names n gives.
  ghost predicate Alike<T>(a: map<string, T>, b: map<string, T>, n: map<string, string>) {
    n.Keys == b.Keys && forall y, id | y in a && id in b && a[y] == b[id] :: y == n[id]
  }

  lemma NameIsReached<T>(a: map<string, T>, b: map<string, T>, n: map<string, string>, x: string)
    requires Alike(a, b, n) && a.Values == b.Values && x in a
    ensures Reached(n, n.Keys, x)
  {
    var id := ValueStandsIn(b, a, x);
    assert n[id] == x;
  }

  lemma NameHoldsValue<T>(a: map<string, T>, b: map<string, T>, n: map<string, string>, id: string)
    requires Alike(a, b, n) && a.Values == b.Values && id in b
    ensures n[id] in a && a[n[id]] == b[id]
  {
    var y := ValueStandsIn(a, b, id);
  }

  lemma AllStandIn<T>(a: map<string, T>, b: map<string, T>, n: map<string, string>)
    requires Alike(a, b, n) && a.Values == b.Values
    ensures StandsIn(a, b, n)
  {
    forall id | id in b ensures n[id] in a && a[n[id]] == b[id] {
      NameHoldsValue(a, b, n, id);
    }
  }

  // If equal values are kept under the names n gives, then n permutes the keys.
  lemma SameValuesAreExchanged<T>(a: map<string, T>, b: map<string, T>, n: map<string, string>)
    requires Injective(n) && b.Keys <= a.Keys && Alike(a, b, n) && a.Values == b.Values
    ensures Exchanges(n, n.Keys) && StandsIn(a, b, n)
  {
    forall x | x in n ensures Reached(n, n.Keys, x) {
      NameIsReached(a, b, n, x);
    }
    Permutes(n);
    AllStandIn(a, b, n);
  }

  // What is left of an exchange when some keys keep their own names.
  lemma TheRestIsExchanged(n: map<string, string>, ids: set<string>)
    requires Injective(n) && Exchanges(n, n.Keys) && ids <= n.Keys
    requires forall id | id in n && id !in ids :: n[id] == id
    ensures Exchanges(n, ids)
  {
    forall x ensures Reached(n, ids, x) <==> x in ids {
      if Reached(n, ids, x) || x in ids {
        assert Reached(n, n.Keys, x);
        var id :| id in n && n[id] == x;
        assert id in ids ==> Reached(n, ids, x);
      }
    }
  }

  // ---------------------------------------------------------------- what landing means

  // A row as the renderer sees it: without its version, an absent list being an empty one,
  // an empty block mode being the default one; the name of a policy is not rendered.
  function Rendered(kind: ResKind, r: Fields): Fields {
    match kind
    case RouteRes =>
      r[VERSION := Null]["block_mode" := Default(Field(r, "block_mode"), "abort")]
       ["whitelist" := NonNil(Field(r, "whitelist"))]
    case RuleRes => r[VERSION := Null]["apply_to" := NonNil(Field(r, "apply_to"))]
    case PolicyRes => r[VERSION := Null]["name" := Null]
  }

  // The secret a rule is rendered with: that of the live rule of this id. Drafts hold none.
  function SecretOf(kind: ResKind, secrets: map<string, string>, id: string): string {
    if kind.RuleRes? && id in secrets then secrets[id] else ""
  }

  // The rows the compiler is given of one kind, each rule with its secret.
  function Sheet(kind: ResKind, rows: Rows, secrets: map<string, string>): map<string, (Fields, string)> {
    map id | id in rows :: (Rendered(kind, rows[id]), SecretOf(kind, secrets, id))
  }

  // It is given them as a list, in which every row goes by the id it names itself.
  function Given(kind: ResKind, rows: Rows, secrets: map<string, string>): set<(Fields, string)> {
    Sheet(kind, rows, secrets).Values
  }

  // The ids merged rows go by, by the ids they were read under.
  function Names(kind: ResKind, eff: Rows): map<string, string> { map id | id in eff :: IdOf(kind, eff[id]) }

  function Selected(kind: ResKind, eff: Rows, keys: set<Key>): set<string> {
    set id | id in eff && Key(kind, id) in keys
  }

  // No selected route asks for an empty body limit, which the store would turn into its default,
  // and every selected rule takes an id whose secret is its own.
  ghost predicate KeepsItsValue(kind: ResKind, eff: Rows, secrets: map<string, string>, id: string)
    requires id in eff
  {
    && (kind.RouteRes? ==> Field(eff[id], "body_max") != Str(""))
    && SecretOf(kind, secrets, id) == SecretOf(kind, secrets, IdOf(kind, eff[id]))
  }

  // The selected drafts exchange identities among themselves at most, and lose nothing by it.
  ghost predicate LandsCleanly(kind: ResKind, eff: Rows, keys: set<Key>, secrets: map<string, string>) {
    && Exchanges(Names(kind, eff), Selected(kind, eff, keys))
    && forall id | id in Selected(kind, eff, keys) :: KeepsItsValue(kind, eff, secrets, id)
  }

  lemma StoredRendersTheSame(kind: ResKind, prev: Option<Fields>, r: Fields)
    requires kind.RouteRes? ==> "body_max" in r
    ensures IdOf(kind, Stored(kind, prev, r)) == IdOf(kind, r)
    ensures Rendered(kind, Stored(kind, prev, r)) == Rendered(kind, r) <==>
            !(kind.RouteRes? && Field(r, "body_max") == Str(""))
    ensures kind.RouteRes? ==> Field(Stored(kind, prev, r), "body_max") != Str("")
  {
    var a, b := Rendered(kind, Stored(kind, prev, r)), Rendered(kind, r);
    if kind.RouteRes? {
      assert a["body_max"] == Default(r["body_max"], "5MB") && b["body_max"] == r["body_max"];
      if r["body_max"] != Str("") { assert a == b; }
    } else {
      assert a == b;
    }
  }

  lemma RenderedKeeps(kind: ResKind, a: Fields, b: Fields)
    requires Rendered(kind, a) == Rendered(kind, b)
    ensures IdOf(kind, a) == IdOf(kind, b)
    ensures kind.RouteRes? ==> Field(a, "body_max") == Field(b, "body_max")
  {
    assert Field(Rendered(kind, a), IdField(kind)) == Field(a, IdField(kind));
    assert Field(Rendered(kind, b), IdField(kind)) == Field(b, IdField(kind));
    if kind.RouteRes? {
      assert Field(Rendered(kind, a), "body_max") == Field(a, "body_max");
      assert Field(Rendered(kind, b), "body_max") == Field(b, "body_max");
    }
  }

  lemma BumpingKeepsTheRest(kind: ResKind, row: Fields)
    ensures Rendered(kind, Bumped(row)) == Rendered(kind, row) && IdOf(kind, Bumped(row)) == IdOf(kind, row)
    ensures Field(Bumped(row), "body_max") == Field(row, "body_max")
  {
  }

  lemma UpsertsSnoc(kind: ResKind, rows: Rows, init: seq<string>, last: string, eff: Rows, keys: set<Key>)
    requires forall id | id in init + [last] :: id in eff
    ensures forall id | id in init :: id in init + [last]
    ensures forall id | id in init + [last] :: id in init || id == last
    ensures var before, id := Upserts(kind, rows, init, eff, keys), IdOf(kind, eff[last]);
            Upserts(kind, rows, init + [last], eff, keys) ==
            if Key(kind, id) in keys then before[id := Stored(kind, Get(before, id), eff[last])] else before
  {
    assert (init + [last])[..|init|] == init;
  }

  // Where the row of id x comes from: the last selected resource that merged to x, or nowhere.
  lemma {:induction false} UpsertsAt(kind: ResKind, rows: Rows, order: seq<string>, eff: Rows, keys: set<Key>,
                                     x: string)
    returns (from: Option<string>, prev: Option<Fields>)
    requires forall id | id in order :: id in eff
    ensures var after := Upserts(kind, rows, order, eff, keys);
            match from {
              case None =>
                Get(after, x) == Get(rows, x)
                && forall id | id in order && Key(kind, x) in keys :: IdOf(kind, eff[id]) != x
              case Some(id) =>
                id in order && Key(kind, x) in keys && IdOf(kind, eff[id]) == x
                && x in after && after[x] == Stored(kind, prev, eff[id])
            }
  {
    if order == [] {
      return None, None;
    }
    var init, last := order[..|order| - 1], order[|order| - 1];
    assert order == init + [last];
    var before := Upserts(kind, rows, init, eff, keys);
    UpsertsSnoc(kind, rows, init, last, eff, keys);
    from, prev := UpsertsAt(kind, rows, init, eff, keys, x);
    if IdOf(kind, eff[last]) == x && Key(kind, x) in keys {
      from, prev := Some(last), Get(before, x);
    }
  }

  // The rows of one kind after a commit.
  function Landed(kind: ResKind, rows: Rows, order: seq<string>, eff: Rows, keys: set<Key>): Rows
    requires forall id | id in order :: id in eff
  {
    BumpAll(kind, Upserts(kind, rows, order, eff, keys), keys)
  }

  // eff is the list of rows, merged with drafts for the selected ids only.
  ghost predicate Overlay(kind: ResKind, rows: Rows, order: seq<string>, eff: Rows, keys: set<Key>) {
    && RowsOk(kind, rows) && eff.Keys == ListRows(kind, rows).Keys
    && (forall id :: id in order <==> id in eff)
    && (forall id | id in eff :: kind.RouteRes? ==> "body_max" in eff[id])
    && (forall id | id in eff && Key(kind, id) !in keys :: eff[id] == ListRows(kind, rows)[id])
  }

  lemma BumpAllAt(kind: ResKind, rows: Rows, keys: set<Key>, x: string)
    ensures x in BumpAll(kind, rows, keys) <==> x in rows
    ensures x in rows ==> BumpAll(kind, rows, keys)[x] in {rows[x], Bumped(rows[x])}
  {
  }

  // The listed row of id x after a commit: that of the selected resource that merged to x, or
  // else the one it was.
  ghost predicate CameFrom(kind: ResKind, live: Rows, eff: Rows, keys: set<Key>, after: Rows, x: string,
                           from: Option<string>) {
    match from
    case None =>
      && (Key(kind, x) in keys ==> forall id | id in eff :: IdOf(kind, eff[id]) != x)
      && (x in after <==> x in live)
      && (x in live ==> Rendered(kind, after[x]) == Rendered(kind, live[x]) && IdOf(kind, after[x]) == x)
    case Some(id) =>
      && id in eff && Key(kind, id) in keys && Key(kind, x) in keys && IdOf(kind, eff[id]) == x
      && x in after && IdOf(kind, after[x]) == x
      && (Rendered(kind, after[x]) == Rendered(kind, eff[id]) <==>
          !(kind.RouteRes? && Field(eff[id], "body_max") == Str("")))
  }

  lemma WrittenRow(kind: ResKind, prev: Option<Fields>, r: Fields, row: Fields)
    requires kind.RouteRes? ==> "body_max" in r
    requires row in {Stored(kind, prev, r), Bumped(Stored(kind, prev, r))}
    ensures IdOf(kind, row) == IdOf(kind, r)
    ensures Rendered(kind, row) == Rendered(kind, r) <==> !(kind.RouteRes? && Field(r, "body_max") == Str(""))
  {
    StoredRendersTheSame(kind, prev, r);
    BumpingKeepsTheRest(kind, Stored(kind, prev, r));
  }

  // What a commit leaves under each id.
  lemma ListedAfter(kind: ResKind, rows: Rows, order: seq<string>, eff: Rows, keys: set<Key>, x: string)
    returns (from: Option<string>)
    requires Overlay(kind, rows, order, eff, keys) && (kind.PolicyRes? ==> x in DefaultPolicies)
    ensures CameFrom(kind, ListRows(kind, rows), eff, keys,
                     ListRows(kind, Landed(kind, rows, order, eff, keys)), x, from)
  {
    var prev;
    var up := Upserts(kind, rows, order, eff, keys);
    from, prev := UpsertsAt(kind, rows, order, eff, keys, x);
    BumpAllAt(kind, up, keys, x);
    ListedRowsAreOk(kind, rows);
    if from.Some? {
      WrittenRow(kind, prev, eff[from.value], BumpAll(kind, up, keys)[x]);
    } else if x in rows {
      BumpingKeepsTheRest(kind, rows[x]);
    }
  }

  // ---------------------------------------------------------------- versions

  lemma StoredKeepsVersion(kind: ResKind, prev: Option<Fields>, r: Fields)
    ensures Field(Stored(kind, prev, r), VERSION) == if prev.Some? then Field(prev.value, VERSION) else Num(0)
  {
  }

  // However often a row is written, it keeps the version it had; what is not selected is not written.
  lemma {:induction false} UpsertsKeepVersions(kind: ResKind, rows: Rows, order: seq<string>, eff: Rows, keys: set<Key>,
                                               x: string)
    requires forall id | id in order :: id in eff
    requires x in rows
    ensures var after := Upserts(kind, rows, order, eff, keys);
            x in after && Field(after[x], VERSION) == Field(rows[x], VERSION)
            && (Key(kind, x) !in keys ==> after[x] == rows[x])
  {
    if order != [] {
      var init, last := order[..|order| - 1], order[|order| - 1];
      assert order == init + [last];
      UpsertsSnoc(kind, rows, init, last, eff, keys);
      UpsertsKeepVersions(kind, rows, init, eff, keys, x);
      var before := Upserts(kind, rows, init, eff, keys);
      StoredKeepsVersion(kind, Get(before, IdOf(kind, eff[last])), eff[last]);
    }
  }

  // A commit advances the version of each live row that was selected by one, and changes nothing at
  // all in any other.
  lemma CommitAdvancesVersions(kind: ResKind, rows: Rows, order: seq<string>, eff: Rows, keys: set<Key>, x: string)
    requires forall id | id in order :: id in eff
    requires x in rows && x != "" && VERSION in rows[x] && rows[x][VERSION].Num?
    ensures var after := Landed(kind, rows, order, eff, keys);
            x in after && if Key(kind, x) in keys then Field(after[x], VERSION) == Num(rows[x][VERSION].n + 1)
                          else after[x] == rows[x]
  {
    UpsertsKeepVersions(kind, rows, order, eff, keys, x);
  }

  // ---------------------------------------------------------------- one kind of resource

  lemma UnselectedKeepsItsName(kind: ResKind, rows: Rows, order: seq<string>, eff: Rows, keys: set<Key>, id: string)
    requires Overlay(kind, rows, order, eff, keys) && id in eff && Key(kind, id) !in keys
    ensures IdOf(kind, eff[id]) == id
  {
    ListedRowsAreOk(kind, rows);
  }

  lemma UnselectedKeepTheirNames(kind: ResKind, rows: Rows, order: seq<string>, eff: Rows, keys: set<Key>)
    requires Overlay(kind, rows, order, eff, keys)
    ensures forall id | id in eff && id !in Selected(kind, eff, keys) :: Names(kind, eff)[id] == id
  {
    forall id | id in eff && id !in Selected(kind, eff, keys) ensures Names(kind, eff)[id] == id {
      UnselectedKeepsItsName(kind, rows, order, eff, keys, id);
    }
  }

  // A clean commit keeps every row that was rendered.
  lemma CleanRowIsGiven(kind: ResKind, rows: Rows, order: seq<string>, eff: Rows, keys: set<Key>,
                        secrets: map<string, string>, id: string)
    requires Overlay(kind, rows, order, eff, keys) && Injective(Names(kind, eff)) && !kind.PolicyRes?
    requires LandsCleanly(kind, eff, keys, secrets) && id in eff
    ensures var after, x := Landed(kind, rows, order, eff, keys), Names(kind, eff)[id];
            x in after && Sheet(kind, after, secrets)[x] == Sheet(kind, eff, secrets)[id]
  {
    var x := Names(kind, eff)[id];
    var from := ListedAfter(kind, rows, order, eff, keys, x);
    if Key(kind, id) in keys {
      assert Reached(Names(kind, eff), Selected(kind, eff, keys), x);
      assert KeepsItsValue(kind, eff, secrets, id);
      assert from.Some? && Names(kind, eff)[from.value] == x;
    } else {
      UnselectedKeepsItsName(kind, rows, order, eff, keys, id);
      assert from.None?;
    }
  }

  // And it adds none.
  lemma LandedRowHasASource(kind: ResKind, rows: Rows, order: seq<string>, eff: Rows, keys: set<Key>, x: string)
    requires Overlay(kind, rows, order, eff, keys) && !kind.PolicyRes?
    requires Exchanges(Names(kind, eff), Selected(kind, eff, keys))
    requires x in Landed(kind, rows, order, eff, keys)
    ensures Reached(Names(kind, eff), eff.Keys, x)
  {
    var from := ListedAfter(kind, rows, order, eff, keys, x);
    if from.Some? {
      assert Names(kind, eff)[from.value] == x;
    } else if x in Selected(kind, eff, keys) {
      assert Reached(Names(kind, eff), Selected(kind, eff, keys), x);
    } else {
      UnselectedKeepsItsName(kind, rows, order, eff, keys, x);
      assert Names(kind, eff)[x] == x;
    }
  }

  lemma LandedRowsHaveASource(kind: ResKind, rows: Rows, order: seq<string>, eff: Rows, keys: set<Key>)
    requires Overlay(kind, rows, order, eff, keys) && !kind.PolicyRes?
    requires Exchanges(Names(kind, eff), Selected(kind, eff, keys))
    ensures AllReached(Landed(kind, rows, order, eff, keys).Keys, Names(kind, eff))
  {
    forall x | x in Landed(kind, rows, order, eff, keys) ensures Reached(Names(kind, eff), Names(kind, eff).Keys, x) {
      assert Names(kind, eff).Keys == eff.Keys;
      LandedRowHasASource(kind, rows, order, eff, keys, x);
    }
  }

  lemma CleanStandIn(kind: ResKind, rows: Rows, order: seq<string>, eff: Rows, keys: set<Key>,
                     secrets: map<string, string>)
    requires Overlay(kind, rows, order, eff, keys) && Injective(Names(kind, eff)) && !kind.PolicyRes?
    requires LandsCleanly(kind, eff, keys, secrets)
    ensures StandsIn(Sheet(kind, Landed(kind, rows, order, eff, keys), secrets), Sheet(kind, eff, secrets),
            Names(kind, eff))
  {
    var a, b, n := Sheet(kind, Landed(kind, rows, order, eff, keys), secrets), Sheet(kind, eff, secrets),
        Names(kind, eff);
    forall id | id in b ensures n[id] in a && a[n[id]] == b[id] {
      CleanRowIsGiven(kind, rows, order, eff, keys, secrets, id);
    }
  }

  lemma CleanLands(kind: ResKind, rows: Rows, order: seq<string>, eff: Rows, keys: set<Key>,
                   secrets: map<string, string>)
    requires Overlay(kind, rows, order, eff, keys) && Injective(Names(kind, eff)) && !kind.PolicyRes?
    requires LandsCleanly(kind, eff, keys, secrets)
    ensures Given(kind, Landed(kind, rows, order, eff, keys), secrets) == Given(kind, eff, secrets)
  {
    var a, b, n := Sheet(kind, Landed(kind, rows, order, eff, keys), secrets), Sheet(kind, eff, secrets),
        Names(kind, eff);
    CleanStandIn(kind, rows, order, eff, keys, secrets);
    LandedRowsHaveASource(kind, rows, order, eff, keys);
    assert a.Keys == Landed(kind, rows, order, eff, keys).Keys;
    SameValues(a, b, n);
  }

  lemma LandedNames(kind: ResKind, rows: Rows, order: seq<string>, eff: Rows, keys: set<Key>, x: string)
    requires Overlay(kind, rows, order, eff, keys) && !kind.PolicyRes?
    ensures var after := Landed(kind, rows, order, eff, keys);
            (x in eff ==> x in after) && (x in after ==> IdOf(kind, after[x]) == x)
  {
    var from := ListedAfter(kind, rows, order, eff, keys, x);
  }

  // What is rendered like a merged row is kept under that row's name.
  lemma AlikeIsUnderItsName(kind: ResKind, rows: Rows, order: seq<string>, eff: Rows, keys: set<Key>,
                            secrets: map<string, string>, y: string, id: string)
    requires Overlay(kind, rows, order, eff, keys) && !kind.PolicyRes?
    requires id in eff && y in Landed(kind, rows, order, eff, keys)
    requires Sheet(kind, Landed(kind, rows, order, eff, keys), secrets)[y] == Sheet(kind, eff, secrets)[id]
    ensures y == Names(kind, eff)[id]
  {
    LandedNames(kind, rows, order, eff, keys, y);
    RenderedKeeps(kind, Landed(kind, rows, order, eff, keys)[y], eff[id]);
  }

  lemma LandedAreExchanged(kind: ResKind, rows: Rows, order: seq<string>, eff: Rows, keys: set<Key>,
                           secrets: map<string, string>)
    requires Overlay(kind, rows, order, eff, keys) && Injective(Names(kind, eff)) && !kind.PolicyRes?
    requires Given(kind, Landed(kind, rows, order, eff, keys), secrets) == Given(kind, eff, secrets)
    ensures Exchanges(Names(kind, eff), eff.Keys)
    ensures StandsIn(Sheet(kind, Landed(kind, rows, order, eff, keys), secrets), Sheet(kind, eff, secrets),
            Names(kind, eff))
  {
    var a, b, n := Sheet(kind, Landed(kind, rows, order, eff, keys), secrets), Sheet(kind, eff, secrets),
        Names(kind, eff);
    forall y, id | y in a && id in b && a[y] == b[id] ensures y == n[id] {
      AlikeIsUnderItsName(kind, rows, order, eff, keys, secrets, y, id);
    }
    forall x | x in b ensures x in a {
      LandedNames(kind, rows, order, eff, keys, x);
    }
    assert n.Keys == eff.Keys;
    SameValuesAreExchanged(a, b, n);
  }

  lemma ExchangedKeepsItsValue(kind: ResKind, rows: Rows, order: seq<string>, eff: Rows, keys: set<Key>,
                               secrets: map<string, string>, id: string)
    requires Overlay(kind, rows, order, eff, keys) && Injective(Names(kind, eff)) && !kind.PolicyRes?
    requires id in eff && Key(kind, id) in keys && Key(kind, Names(kind, eff)[id]) in keys
    requires var x := Names(kind, eff)[id];
             x in Landed(kind, rows, order, eff, keys)
             && Sheet(kind, Landed(kind, rows, order, eff, keys), secrets)[x] == Sheet(kind, eff, secrets)[id]
    ensures KeepsItsValue(kind, eff, secrets, id)
  {
    var x := Names(kind, eff)[id];
    var from := ListedAfter(kind, rows, order, eff, keys, x);
    assert from.Some? && Names(kind, eff)[from.value] == x;
  }

  lemma SelectedAreExchanged(kind: ResKind, rows: Rows, order: seq<string>, eff: Rows, keys: set<Key>)
    requires Overlay(kind, rows, order, eff, keys) && Injective(Names(kind, eff))
    requires Exchanges(Names(kind, eff), eff.Keys)
    ensures Exchanges(Names(kind, eff), Selected(kind, eff, keys))
  {
    UnselectedKeepTheirNames(kind, rows, order, eff, keys);
    assert Names(kind, eff).Keys == eff.Keys;
    TheRestIsExchanged(Names(kind, eff), Selected(kind, eff, keys));
  }

  lemma LandedIsClean(kind: ResKind, rows: Rows, order: seq<string>, eff: Rows, keys: set<Key>,
                      secrets: map<string, string>)
    requires Overlay(kind, rows, order, eff, keys) && Injective(Names(kind, eff)) && !kind.PolicyRes?
    requires Given(kind, Landed(kind, rows, order, eff, keys), secrets) == Given(kind, eff, secrets)
    ensures LandsCleanly(kind, eff, keys, secrets)
  {
    LandedAreExchanged(kind, rows, order, eff, keys, secrets);
    SelectedAreExchanged(kind, rows, order, eff, keys);
    forall id | id in Selected(kind, eff, keys) ensures KeepsItsValue(kind, eff, secrets, id) {
      assert Reached(Names(kind, eff), Selected(kind, eff, keys), Names(kind, eff)[id]);
      ExchangedKeepsItsValue(kind, rows, order, eff, keys, secrets, id);
    }
  }

  // The main result on landing, for routes and rules with different merged ids: pushing the store
  // again gives the compiler what the deploy gave it, if and only if the drafts land cleanly.
  lemma RowsLandExactlyWhenClean(kind: ResKind, rows: Rows, order: seq<string>, eff: Rows, keys: set<Key>,
                                 secrets: map<string, string>)
    requires Overlay(kind, rows, order, eff, keys) && Injective(Names(kind, eff)) && !kind.PolicyRes?
    ensures Given(kind, Landed(kind, rows, order, eff, keys), secrets) == Given(kind, eff, secrets) <==>
            LandsCleanly(kind, eff, keys, secrets)
  {
    if LandsCleanly(kind, eff, keys, secrets) {
      CleanLands(kind, rows, order, eff, keys, secrets);
    } else if Given(kind, Landed(kind, rows, order, eff, keys), secrets) == Given(kind, eff, secrets) {
      LandedIsClean(kind, rows, order, eff, keys, secrets);
    }
  }

  // ---------------------------------------------------------------- the two policies

  // An absent spec is an empty one.
  function SpecOf(row: Fields): J { if Field(row, "spec").Null? then Obj(map[]) else Field(row, "spec") }

  // The spec the compiler is given under a name, the log policy being listed last.
  function SpecNamed(rows: Rows, name: string): J {
    if "log" in rows && IdOf(PolicyRes, rows["log"]) == name then SpecOf(rows["log"])
    else if "tls" in rows && IdOf(PolicyRes, rows["tls"]) == name then SpecOf(rows["tls"])
    else Obj(map[])
  }

  // Every selected policy's name is taken by some merged one, unless what is live there is empty.
  ghost predicate PolicyLandsCleanly(live: Rows, eff: Rows, keys: set<Key>, name: string)
    requires name in live
  {
    Key(PolicyRes, name) in keys ==>
      (exists id | id in eff :: IdOf(PolicyRes, eff[id]) == name) || SpecOf(live[name]) == Obj(map[])
  }

  lemma SpecNamedIs(rows: Rows, name: string, id: string)
    requires rows.Keys == DefaultPolicies.Keys && Injective(Names(PolicyRes, rows))
    requires id in rows && IdOf(PolicyRes, rows[id]) == name
    ensures SpecNamed(rows, name) == SpecOf(rows[id])
  {
    assert Names(PolicyRes, rows)[id] == name;
    assert id in {"tls", "log"};
    if "log" in rows { assert Names(PolicyRes, rows)["log"] == IdOf(PolicyRes, rows["log"]); }
  }

  lemma SameSpec(a: Fields, b: Fields)
    requires Rendered(PolicyRes, a) == Rendered(PolicyRes, b)
    ensures SpecOf(a) == SpecOf(b)
  {
    assert Field(Rendered(PolicyRes, a), "spec") == Field(a, "spec");
    assert Field(Rendered(PolicyRes, b), "spec") == Field(b, "spec");
  }

  lemma PoliciesKeepTheirIds(rows: Rows, order: seq<string>, eff: Rows, keys: set<Key>, name: string)
    requires Overlay(PolicyRes, rows, order, eff, keys) && name in DefaultPolicies
    ensures var after := ListRows(PolicyRes, Landed(PolicyRes, rows, order, eff, keys));
            name in after && SpecNamed(after, name) == SpecOf(after[name])
  {
    var after := ListRows(PolicyRes, Landed(PolicyRes, rows, order, eff, keys));
    forall x | x in DefaultPolicies ensures IdOf(PolicyRes, after[x]) == x {
      var from := ListedAfter(PolicyRes, rows, order, eff, keys, x);
    }
    SpecNamedIs(after, name, name);
  }

  lemma UnselectedPolicy(rows: Rows, order: seq<string>, eff: Rows, keys: set<Key>, name: string)
    requires Overlay(PolicyRes, rows, order, eff, keys) && name in DefaultPolicies
    ensures name in eff && name in ListRows(PolicyRes, rows)
    ensures Key(PolicyRes, name) !in keys ==>
            eff[name] == ListRows(PolicyRes, rows)[name] && IdOf(PolicyRes, eff[name]) == name
  {
    if Key(PolicyRes, name) !in keys {
      UnselectedKeepsItsName(PolicyRes, rows, order, eff, keys, name);
    }
  }

  lemma SpecLands(live: Rows, eff: Rows, keys: set<Key>, after: Rows, name: string, from: Option<string>)
    requires eff.Keys == DefaultPolicies.Keys && name in eff && name in live && name in after
    requires Injective(Names(PolicyRes, eff)) && CameFrom(PolicyRes, live, eff, keys, after, name, from)
    requires Key(PolicyRes, name) !in keys ==> eff[name] == live[name] && IdOf(PolicyRes, eff[name]) == name
    ensures SpecOf(after[name]) == SpecNamed(eff, name) <==> PolicyLandsCleanly(live, eff, keys, name)
  {
    if from.Some? {
      SpecNamedIs(eff, name, from.value);
      SameSpec(after[name], eff[from.value]);
    } else {
      SameSpec(after[name], live[name]);
      if Key(PolicyRes, name) !in keys {
        SpecNamedIs(eff, name, name);
      }
    }
  }

  // The same for each of the two policies.
  lemma PolicyLandsExactlyWhenClean(rows: Rows, order: seq<string>, eff: Rows, keys: set<Key>, after: Rows,
                                    name: string)
    requires Overlay(PolicyRes, rows, order, eff, keys) && Injective(Names(PolicyRes, eff)) && name in DefaultPolicies
    requires after == ListRows(PolicyRes, Landed(PolicyRes, rows, order, eff, keys))
    ensures name in ListRows(PolicyRes, rows)
    ensures SpecNamed(after, name) == SpecNamed(eff, name) <==>
            PolicyLandsCleanly(ListRows(PolicyRes, rows), eff, keys, name)
  {
    PoliciesKeepTheirIds(rows, order, eff, keys, name);
    UnselectedPolicy(rows, order, eff, keys, name);
    var from := ListedAfter(PolicyRes, rows, order, eff, keys, name);
    SpecLands(ListRows(PolicyRes, rows), eff, keys, after, name, from);
  }

  // ---------------------------------------------------------------- the whole commit

  // One listing order per kind of resource.
  datatype Orders = Orders(routes: seq<string>, rules: seq<string>, policies: seq<string>)

  ghost predicate Lists(o: Orders, c: Config) {
    && (forall id :: id in o.routes <==> id in c.routes)
    && (forall id :: id in o.rules <==> id in c.rules)
    && (forall id :: id in o.policies <==> id in c.policies)
  }

  ghost function Committed(db: Db, c: Config, o: Orders, keys: set<Key>, version: string, deploy: nat): Db
    requires Lists(o, c)
  {
    Db(Landed(RouteRes, db.routes, o.routes, c.routes, keys),
       Landed(RuleRes, db.rules, o.rules, c.rules, keys),
       Landed(PolicyRes, db.policies, o.policies, c.policies, keys),
       db.secrets, db.drafts - keys, version, deploy)
  }

  // What the compiler is given.
  datatype Input = Input(routes: set<(Fields, string)>, rules: set<(Fields, string)>, tls: J, log: J)

  function InputOf(c: Config): Input {
    Input(Given(RouteRes, c.routes, c.secrets), Given(RuleRes, c.rules, c.secrets),
          SpecNamed(c.policies, "tls"), SpecNamed(c.policies, "log"))
  }

  ghost predicate DistinctConfig(c: Config) {
    && Injective(Names(RouteRes, c.routes)) && Injective(Names(RuleRes, c.rules))
    && Injective(Names(PolicyRes, c.policies))
  }

  ghost predicate CleanConfig(db: Db, c: Config, keys: set<Key>) {
    && LandsCleanly(RouteRes, c.routes, keys, c.secrets) && LandsCleanly(RuleRes, c.rules, keys, c.secrets)
    && PolicyLandsCleanly(Listed(PolicyRes, db), c.policies, keys, "tls")
    && PolicyLandsCleanly(Listed(PolicyRes, db), c.policies, keys, "log")
  }

  function RawRows(kind: ResKind, db: Db): Rows {
    match kind case RouteRes => db.routes case RuleRes => db.rules case PolicyRes => db.policies
  }

  lemma MergedRouteHasBodyMax(row: Fields, patch: J)
    requires MergeInto(RouteSchema, row, patch).Ok?
    ensures "body_max" in MergeInto(RouteSchema, row, patch).value
  {
  }

  lemma EffectiveRowFacts(kind: ResKind, row: Fields, patch: Option<J>, merged: Fields)
    requires EffectiveRow(kind, row, patch) == Ok(merged)
    ensures patch.None? ==> merged == row
    ensures kind.RouteRes? && "body_max" in row ==> "body_max" in merged
  {
    if kind.RouteRes? && patch.Some? {
      MergedRouteHasBodyMax(row, patch.value);
    }
  }

  lemma MergedRowIs(kind: ResKind, db: Db, keys: set<Key>, id: string)
    requires EffectiveRows(kind, db, keys).Some? && id in Listed(kind, db)
    ensures id in EffectiveRows(kind, db, keys).value
    ensures EffectiveRow(kind, Listed(kind, db)[id], SelectedDraft(db, keys, Key(kind, id))) ==
            Ok(EffectiveRows(kind, db, keys).value[id])
  {
    assert RowMerger(kind, db, keys)(id).Ok?;
  }

  lemma EffectiveRowsOverlay(kind: ResKind, db: Db, keys: set<Key>, order: seq<string>)
    requires DbOk(db) && EffectiveRows(kind, db, keys).Some?
    requires forall id :: id in order <==> id in EffectiveRows(kind, db, keys).value
    ensures Overlay(kind, RawRows(kind, db), order, EffectiveRows(kind, db, keys).value, keys)
  {
    var rows, eff := Listed(kind, db), EffectiveRows(kind, db, keys).value;
    assert eff.Keys == rows.Keys;
    forall id | id in eff
      ensures Key(kind, id) !in keys ==> eff[id] == rows[id]
      ensures kind.RouteRes? ==> "body_max" in eff[id]
    {
      MergedRowIs(kind, db, keys, id);
      EffectiveRowFacts(kind, rows[id], SelectedDraft(db, keys, Key(kind, id)), eff[id]);
    }
  }

  lemma WithoutDraftsLiveIsEffective(kind: ResKind, db: Db)
    ensures EffectiveRows(kind, db, {}) == Some(Listed(kind, db))
  {
    var rows := Listed(kind, db);
    forall id | id in rows ensures RowMerger(kind, db, {})(id) == Ok(rows[id]) {
      assert SelectedDraft(db, {}, Key(kind, id)) == None;
    }
    CollectGivesRows(rows, RowMerger(kind, db, {}));
  }

  lemma CollectsAll(ids: set<string>, f: string -> Result<Fields, MergeError>)
    requires forall id | id in ids :: f(id).Ok?
    ensures Collect(ids, f).Some? && Collect(ids, f).value.Keys == ids
    ensures forall id | id in ids :: f(id) == Ok(Collect(ids, f).value[id])
  {
  }

  lemma CollectGivesRows(rows: Rows, f: string -> Result<Fields, MergeError>)
    requires forall id | id in rows :: f(id) == Ok(rows[id])
    ensures Collect(rows.Keys, f) == Some(rows)
  {
    assert Collect(rows.Keys, f).Some?;
    assert Collect(rows.Keys, f).value == rows;
  }

  lemma KindLandsExactlyWhenClean(kind: ResKind, db: Db, keys: set<Key>, order: seq<string>, eff: Rows, landed: Rows)
    requires DbOk(db) && EffectiveRows(kind, db, keys) == Some(eff) && forall id :: id in order <==> id in eff
    requires Injective(Names(kind, eff)) && !kind.PolicyRes?
    requires landed == Landed(kind, RawRows(kind, db), order, eff, keys)
    ensures Given(kind, ListRows(kind, landed), db.secrets) == Given(kind, eff, db.secrets) <==>
            LandsCleanly(kind, eff, keys, db.secrets)
  {
    EffectiveRowsOverlay(kind, db, keys, order);
    RowsLandExactlyWhenClean(kind, RawRows(kind, db), order, eff, keys, db.secrets);
  }

  lemma BaselineIsLive(db: Db)
    ensures Effective(db, {}) ==
            Some(Config(ListRows(RouteRes, db.routes), ListRows(RuleRes, db.rules), ListRows(PolicyRes, db.policies),
                db.secrets))
  {
    WithoutDraftsLiveIsEffective(RouteRes, db);
    WithoutDraftsLiveIsEffective(RuleRes, db);
    WithoutDraftsLiveIsEffective(PolicyRes, db);
  }

  // Pushing the baseline again after a commit gives the compiler what the deploy gave it, if and
  // only if the selected drafts land cleanly.
  lemma CommitLandsExactlyWhenClean(db: Db, keys: set<Key>, o: Orders, version: string, deploy: nat)
    requires DbOk(db) && Effective(db, keys).Some? && Lists(o, Effective(db, keys).value)
    requires DistinctConfig(Effective(db, keys).value)
    ensures var c := Effective(db, keys).value;
            var after := Committed(db, c, o, keys, version, deploy);
            && Effective(after, {}).Some?
            && (InputOf(Effective(after, {}).value) == InputOf(c) <==> CleanConfig(db, c, keys))
            && after.baseline == version && after.drafts == db.drafts - keys
  {
    var c := Effective(db, keys).value;
    var after := Committed(db, c, o, keys, version, deploy);
    BaselineIsLive(after);
    KindLandsExactlyWhenClean(RouteRes, db, keys, o.routes, c.routes, after.routes);
    KindLandsExactlyWhenClean(RuleRes, db, keys, o.rules, c.rules, after.rules);
    var policies := ListRows(PolicyRes, after.policies);
    EffectiveRowsOverlay(PolicyRes, db, keys, o.policies);
    PolicyLandsExactlyWhenClean(db.policies, o.policies, c.policies, keys, policies, "tls");
    PolicyLandsExactlyWhenClean(db.policies, o.policies, c.policies, keys, policies, "log");
  }

  // ---------------------------------------------------------------- one resource

  // The draft of this resource, if selected, keeps its identity and asks for no empty body limit.
  ghost predicate RowLandsCleanly(kind: ResKind, eff: Rows, keys: set<Key>, x: string)
    requires x in eff
  {
    Key(kind, x) in keys ==> IdOf(kind, eff[x]) == x && (kind.RouteRes? ==> Field(eff[x], "body_max") != Str(""))
  }

  // No other resource is renamed to this one.
  ghost predicate NoneTakesItsPlace(kind: ResKind, eff: Rows, x: string) {
    forall id | id in eff && id != x :: IdOf(kind, eff[id]) != x
  }

  // One resource lands as rendered exactly when its own draft is clean, whatever the others do
  // short of taking its name.
  lemma RowLandsExactlyWhenClean(kind: ResKind, rows: Rows, order: seq<string>, eff: Rows, keys: set<Key>, x: string)
    requires Overlay(kind, rows, order, eff, keys) && x in eff && NoneTakesItsPlace(kind, eff, x)
    ensures var after := ListRows(kind, Landed(kind, rows, order, eff, keys));
            x in after && (Rendered(kind, after[x]) == Rendered(kind, eff[x]) <==> RowLandsCleanly(kind, eff, keys, x))
  {
    var after := ListRows(kind, Landed(kind, rows, order, eff, keys));
    var from := ListedAfter(kind, rows, order, eff, keys, x);
    if from.None? {
      if Key(kind, x) !in keys {
        UnselectedKeepsItsName(kind, rows, order, eff, keys, x);
      } else if Rendered(kind, after[x]) == Rendered(kind, eff[x]) {
        RenderedKeeps(kind, after[x], eff[x]);
      }
    }
  }

  // A draft leaves the store only as part of a commit that selected it, and then the live row
  // renders as that draft laid over the old row, exactly when the draft is clean.
  lemma NoDraftVanishes(db: Db, keys: set<Key>, o: Orders, version: string, deploy: nat, k: Key)
    requires DbOk(db) && Effective(db, keys).Some? && Lists(o, Effective(db, keys).value)
    requires k !in Orphans(db, keys)
    requires NoneTakesItsPlace(k.kind, RowsOf(Effective(db, keys).value, k.kind), k.id)
    requires var after := Committed(db, Effective(db, keys).value, o, keys, version, deploy);
             k in db.drafts && k !in after.drafts
    ensures var c := Effective(db, keys).value;
            var after := Committed(db, c, o, keys, version, deploy);
            && k in keys && k.id in Listed(k.kind, db) && k.id in Listed(k.kind, after) && k.id in RowsOf(c, k.kind)
            && var merged := EffectiveRow(k.kind, Listed(k.kind, db)[k.id], Some(db.drafts[k]));
               merged.Ok?
               && (Rendered(k.kind, Listed(k.kind, after)[k.id]) == Rendered(k.kind, merged.value) <==>
                  RowLandsCleanly(k.kind, RowsOf(c, k.kind), keys, k.id))
  {
    var c := Effective(db, keys).value;
    assert k in keys;
    var order := match k.kind case RouteRes => o.routes case RuleRes => o.rules case PolicyRes => o.policies;
    EffectiveRowsOverlay(k.kind, db, keys, order);
    MergedRowIs(k.kind, db, keys, k.id);
    RowLandsExactlyWhenClean(k.kind, RawRows(k.kind, db), order, RowsOf(c, k.kind), keys, k.id);
  }

  // A draft that renames its route never reaches the live row, although the commit deletes the draft.
  lemma RenamingDraftDoesNotLand(rows: Rows, order: seq<string>, eff: Rows, id: string)
    requires Overlay(RouteRes, rows, order, eff, {Key(RouteRes, id)})
    requires id in eff && IdOf(RouteRes, eff[id]) != id
    ensures var after := Landed(RouteRes, rows, order, eff, {Key(RouteRes, id)});
            id in after && Rendered(RouteRes, after[id]) == Rendered(RouteRes, rows[id])
  {
    var keys := {Key(RouteRes, id)};
    var from, prev := UpsertsAt(RouteRes, rows, order, eff, keys, id);
    BumpAllAt(RouteRes, Upserts(RouteRes, rows, order, eff, keys), keys, id);
    BumpingKeepsTheRest(RouteRes, rows[id]);
  }
}
