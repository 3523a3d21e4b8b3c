/** Concrete drafts that do not land as they were rendered, and one that stops the next deploy. */
module DraftCases {
  import opened Wrappers
  import opened Json
  import opened Records
  import opened Deploy

  // A store with one route and one draft for it.
  function StoreWith(id: string, row: Fields, draft: J): Db {
    Db(map[id := row], map[], map[], map[], map[Key(RouteRes, id) := draft], "v1", 1)
  }

  function OneField(name: string, value: string): J { Obj(map[name := Str(value)]) }

  // A draft of one text field replaces that field.
  lemma OneFieldMerges(base: Fields, name: string, value: string)
    requires IsRecord(RouteSchema, base) && name in {"domain", "body_max"}
    ensures MergeInto(RouteSchema, base, OneField(name, value)) == Ok(base[name := Str(value)])
  {
    var goal := base[name := Str(value)];
    forall k | k in RouteSchema ensures Decode(RouteSchema[k], goal[k]) == Some(goal[k]) {
      assert Decode(RouteSchema[k], base[k]) == Some(base[k]);
    }
    assert Decode(RouteSchema[name], base[name]) == Some(base[name]) && base[name].Str?;
    MergeYields(RouteSchema, base, map[name := Str(value)], goal);
  }

  lemma UnselectedRow(kind: ResKind, db: Db, keys: set<Key>, x: string)
    requires x in Listed(kind, db) && Key(kind, x) !in keys
    ensures RowMerger(kind, db, keys)(x) == Ok(Listed(kind, db)[x])
  {
    assert SelectedDraft(db, keys, Key(kind, x)) == None;
  }

  lemma SelectedRow(kind: ResKind, db: Db, keys: set<Key>, x: string)
    requires x in Listed(kind, db) && Key(kind, x) in keys && Key(kind, x) in db.drafts
    ensures RowMerger(kind, db, keys)(x) == EffectiveRow(kind, Listed(kind, db)[x], Some(db.drafts[Key(kind, x)]))
  {
    assert SelectedDraft(db, keys, Key(kind, x)) == Some(db.drafts[Key(kind, x)]);
  }

  // With one draft selected, the rows of its kind change in one place.
  lemma OneBecomes(kind: ResKind, db: Db, id: string, row: Fields, draft: J, merged: Fields)
    requires id in Listed(kind, db) && Listed(kind, db)[id] == row
    requires Key(kind, id) in db.drafts && db.drafts[Key(kind, id)] == draft
    requires EffectiveRow(kind, row, Some(draft)) == Ok(merged)
    ensures EffectiveRows(kind, db, {Key(kind, id)}) == Some(Listed(kind, db)[id := merged])
  {
    SelectedRow(kind, db, {Key(kind, id)}, id);
    OneChanges(kind, db, id, merged);
  }

  lemma OneChanges(kind: ResKind, db: Db, id: string, merged: Fields)
    requires id in Listed(kind, db) && RowMerger(kind, db, {Key(kind, id)})(id) == Ok(merged)
    ensures EffectiveRows(kind, db, {Key(kind, id)}) == Some(Listed(kind, db)[id := merged])
  {
    var goal := Listed(kind, db)[id := merged];
    forall x | x in goal ensures RowMerger(kind, db, {Key(kind, id)})(x) == Ok(goal[x]) {
      if x != id { UnselectedRow(kind, db, {Key(kind, id)}, x); }
    }
    CollectGivesRows(goal, RowMerger(kind, db, {Key(kind, id)}));
    assert goal.Keys == Listed(kind, db).Keys;
  }

  lemma UnselectedIsLive(kind: ResKind, db: Db, keys: set<Key>)
    requires forall k | k in keys :: k.kind != kind
    ensures EffectiveRows(kind, db, keys) == Some(Listed(kind, db))
  {
    forall id | id in Listed(kind, db) ensures RowMerger(kind, db, keys)(id) == Ok(Listed(kind, db)[id]) {
      assert Key(kind, id) !in keys;
      UnselectedRow(kind, db, keys, id);
    }
    CollectGivesRows(Listed(kind, db), RowMerger(kind, db, keys));
  }

  lemma Assembled(db: Db, keys: set<Key>, routes: Rows, rules: Rows, policies: Rows)
    requires EffectiveRows(RouteRes, db, keys) == Some(routes) && EffectiveRows(RuleRes, db, keys) == Some(rules)
    requires EffectiveRows(PolicyRes, db, keys) == Some(policies)
    ensures Effective(db, keys) == Some(Config(routes, rules, policies, db.secrets))
  {
  }

  lemma {:induction false} SomeOrder(ids: set<string>) returns (order: seq<string>)
    ensures forall id :: id in order <==> id in ids
    decreases ids
  {
    order := [];
    if ids != {} {
      var id :| id in ids;
      var rest := SomeOrder(ids - {id});
      order := rest + [id];
    }
  }

  lemma SomeOrders(c: Config) returns (o: Orders)
    ensures Lists(o, c)
  {
    var routes := SomeOrder(c.routes.Keys);
    var rules := SomeOrder(c.rules.Keys);
    var policies := SomeOrder(c.policies.Keys);
    o := Orders(routes, rules, policies);
  }

  lemma StoreIsOk(id: string, row: Fields, draft: J)
    requires IsRecord(RouteSchema, row) && IdOf(RouteRes, row) == id
    ensures DbOk(StoreWith(id, row, draft))
  {
    assert "body_max" in RouteSchema.Keys && "body_max" in row;
  }

  lemma PlainDraft(kind: ResKind, row: Fields, p: J)
    requires kind != RuleRes
    ensures EffectiveRow(kind, row, Some(p)) == MergeInto(SchemaOf(kind), row, p)
  {
  }

  // What a draft of one field renders.
  lemma OneFieldRenders(id: string, row: Fields, name: string, value: string)
    requires IsRecord(RouteSchema, row) && name in {"domain", "body_max"}
    ensures EffectiveRow(RouteRes, row, Some(OneField(name, value))) == Ok(row[name := Str(value)])
  {
    OneFieldMerges(row, name, value);
    PlainDraft(RouteRes, row, OneField(name, value));
  }

  lemma OneRouteBecomes(db: Db, id: string, row: Fields, draft: J, merged: Fields)
    requires EffectiveRow(RouteRes, row, Some(draft)) == Ok(merged)
    requires Listed(RouteRes, db) == map[id := row] && Key(RouteRes, id) in db.drafts
    requires db.drafts[Key(RouteRes, id)] == draft
    ensures EffectiveRows(RouteRes, db, {Key(RouteRes, id)}) == Some(map[id := merged])
  {
    OneBecomes(RouteRes, db, id, row, draft, merged);
    Replaced(id, row, merged);
  }

  lemma Replaced(id: string, a: Fields, b: Fields)
    ensures map[id := a][id := b] == map[id := b]
  {
  }

  lemma OneRouteRenders(db: Db, id: string, routes: Rows)
    requires EffectiveRows(RouteRes, db, {Key(RouteRes, id)}) == Some(routes) && db.rules == map[]
    requires db.policies == map[]
    ensures Effective(db, {Key(RouteRes, id)}) == Some(Config(routes, map[], DefaultPolicies, db.secrets))
  {
    OthersAreLive(db, id);
    Assembled(db, {Key(RouteRes, id)}, routes, map[], DefaultPolicies);
  }

  lemma OthersAreLive(db: Db, id: string)
    requires db.rules == map[] && db.policies == map[]
    ensures EffectiveRows(RuleRes, db, {Key(RouteRes, id)}) == Some(map[])
    ensures EffectiveRows(PolicyRes, db, {Key(RouteRes, id)}) == Some(DefaultPolicies)
  {
    UnselectedIsLive(RuleRes, db, {Key(RouteRes, id)});
    UnselectedIsLive(PolicyRes, db, {Key(RouteRes, id)});
    assert Listed(PolicyRes, db) == DefaultPolicies;
  }

  // The draft is deployed and committed, and gone, and what the compiler is given from then on is
  // not what the deploy gave it.
  ghost predicate Lost(db: Db, keys: set<Key>, o: Orders) {
    && Effective(db, keys).Some? && Lists(o, Effective(db, keys).value)
    && var after := Committed(db, Effective(db, keys).value, o, keys, "v2", 2);
       && keys <= db.drafts.Keys && after.drafts == map[] && Effective(after, {}).Some?
       && InputOf(Effective(after, {}).value) != InputOf(Effective(db, keys).value)
  }

  lemma Prepared(id: string, row: Fields, name: string, value: string)
    requires IsRecord(RouteSchema, row) && IdOf(RouteRes, row) == id && name in {"domain", "body_max"}
    ensures var db := StoreWith(id, row, OneField(name, value));
            DbOk(db) && Effective(db, {Key(RouteRes, id)}) ==
                Some(Config(map[id := row[name := Str(value)]], map[], DefaultPolicies, map[]))
  {
    var db := StoreWith(id, row, OneField(name, value));
    StoreIsOk(id, row, OneField(name, value));
    OneFieldRenders(id, row, name, value);
    OneRouteBecomes(db, id, row, OneField(name, value), row[name := Str(value)]);
    OneRouteRenders(db, id, map[id := row[name := Str(value)]]);
  }

  lemma UncleanIsLost(id: string, row: Fields, name: string, value: string) returns (o: Orders)
    requires IsRecord(RouteSchema, row) && IdOf(RouteRes, row) == id
    requires (name == "domain" && value != id) || (name == "body_max" && value == "")
    ensures Lost(StoreWith(id, row, OneField(name, value)), {Key(RouteRes, id)}, o)
  {
    Prepared(id, row, name, value);
    var c := Config(map[id := row[name := Str(value)]], map[], DefaultPolicies, map[]);
    OneRouteIsDistinct(c, id);
    Unclean(id, row, name, value, c, {Key(RouteRes, id)});
    o := LostWhenUnclean(StoreWith(id, row, OneField(name, value)), {Key(RouteRes, id)}, c);
  }

  lemma LostWhenUnclean(db: Db, keys: set<Key>, c: Config) returns (o: Orders)
    requires DbOk(db) && Effective(db, keys) == Some(c) && db.drafts.Keys == keys
    requires DistinctConfig(c) && !LandsCleanly(RouteRes, c.routes, keys, c.secrets)
    ensures Lost(db, keys, o)
  {
    o := SomeOrders(c);
    CommitLandsExactlyWhenClean(db, keys, o, "v2", 2);
    assert db.drafts - keys == map[];
  }

  lemma OneRouteIsDistinct(c: Config, id: string)
    requires c.routes.Keys == {id} && c.rules == map[] && c.policies == DefaultPolicies
    ensures DistinctConfig(c)
  {
    assert DefaultPolicies.Keys == {"tls", "log"};
  }

  lemma Unclean(id: string, row: Fields, name: string, value: string, c: Config, keys: set<Key>)
    requires (name == "domain" && value != id) || (name == "body_max" && value == "")
    requires c.routes == map[id := row[name := Str(value)]] && Key(RouteRes, id) in keys
    ensures !LandsCleanly(RouteRes, c.routes, keys, c.secrets)
  {
    assert id in Selected(RouteRes, c.routes, keys);
    assert Field(c.routes[id], name) == Str(value);
    if name == "domain" {
      assert Names(RouteRes, c.routes)[id] == value;
      assert Reached(Names(RouteRes, c.routes), Selected(RouteRes, c.routes, keys), value);
    }
  }

  const SomeRoute: Fields := map[
    "domain" := Str("a.example"), "upstream" := Str("10.0.0.1:80"), "block_mode" := Str("abort"), "mtls" := Bool(false),
    "compress" := Bool(false), "body_max" := Str("5MB"), "whitelist" := Arr([]), "version" := Num(1)]

  lemma SomeRouteDecodes(k: string)
    requires k in RouteSchema && k in SomeRoute
    ensures Decode(RouteSchema[k], SomeRoute[k]) == Some(SomeRoute[k])
  {
  }

  lemma SomeRouteIsARecord()
    ensures IsRecord(RouteSchema, SomeRoute) && IdOf(RouteRes, SomeRoute) == "a.example"
  {
    assert SomeRoute.Keys == RouteSchema.Keys;
    forall k | k in RouteSchema ensures Decode(RouteSchema[k], SomeRoute[k]) == Some(SomeRoute[k]) {
      SomeRouteDecodes(k);
    }
  }

  // Renaming a.example to b.example.
  lemma ARenameIsLost() returns (o: Orders)
    ensures Lost(StoreWith("a.example", SomeRoute, OneField("domain", "b.example")), {Key(RouteRes, "a.example")}, o)
  {
    SomeRouteIsARecord();
    assert "a.example"[0] != "b.example"[0];
    o := UncleanIsLost("a.example", SomeRoute, "domain", "b.example");
  }

  // Taking the body limit away: rendered as none, stored as the default.
  lemma AnEmptyLimitIsLost() returns (o: Orders)
    ensures Lost(StoreWith("a.example", SomeRoute, OneField("body_max", "")), {Key(RouteRes, "a.example")}, o)
  {
    SomeRouteIsARecord();
    o := UncleanIsLost("a.example", SomeRoute, "body_max", "");
  }

  // ---------------------------------------------------------------- two drafts that exchange their ids

  lemma PairExchanges(n: map<string, string>, a: string, b: string)
    requires a in n && b in n && n[a] == b && n[b] == a && forall x | x in n && x != a && x != b :: n[x] == x
    ensures Injective(n) && Exchanges(n, {a, b})
  {
    assert Reached(n, {a, b}, a) && Reached(n, {a, b}, b);
  }

  lemma PairIsSelected(kind: ResKind, eff: Rows, a: string, b: string)
    requires a in eff && b in eff
    ensures Selected(kind, eff, {Key(kind, a), Key(kind, b)}) == {a, b}
  {
  }

  lemma OthersKeepTheirNames(kind: ResKind, rows: Rows, order: seq<string>, eff: Rows, a: string, b: string, x: string)
    requires Overlay(kind, rows, order, eff, {Key(kind, a), Key(kind, b)}) && x in eff && x != a && x != b
    ensures Names(kind, eff)[x] == x
  {
    UnselectedKeepsItsName(kind, rows, order, eff, {Key(kind, a), Key(kind, b)}, x);
  }

  lemma TheTwoExchange(kind: ResKind, rows: Rows, order: seq<string>, eff: Rows, a: string, b: string)
    requires Overlay(kind, rows, order, eff, {Key(kind, a), Key(kind, b)}) && a in eff && b in eff
    requires IdOf(kind, eff[a]) == b && IdOf(kind, eff[b]) == a
    ensures Injective(Names(kind, eff)) && Exchanges(Names(kind, eff), {a, b})
  {
    forall x | x in Names(kind, eff) && x != a && x != b ensures Names(kind, eff)[x] == x {
      OthersKeepTheirNames(kind, rows, order, eff, a, b, x);
    }
    PairExchanges(Names(kind, eff), a, b);
  }

  lemma PairLandsCleanlyExactlyWhen(kind: ResKind, eff: Rows, a: string, b: string, secrets: map<string, string>)
    requires a in eff && b in eff && IdOf(kind, eff[a]) == b && IdOf(kind, eff[b]) == a
    requires kind.RouteRes? ==> Field(eff[a], "body_max") != Str("") && Field(eff[b], "body_max") != Str("")
    requires Exchanges(Names(kind, eff), {a, b})
    ensures LandsCleanly(kind, eff, {Key(kind, a), Key(kind, b)}, secrets) <==>
            (kind.RuleRes? ==> SecretOf(kind, secrets, a) == SecretOf(kind, secrets, b))
  {
    PairIsSelected(kind, eff, a, b);
    assert KeepsItsValue(kind, eff, secrets, a) <==> SecretOf(kind, secrets, a) == SecretOf(kind, secrets, b);
    assert KeepsItsValue(kind, eff, secrets, b) <==> SecretOf(kind, secrets, a) == SecretOf(kind, secrets, b);
  }

  // Two drafts that exchange their ids land, for routes that keep a body limit always, for rules
  // only if their secrets are the same: a secret stays with its id.
  lemma AnExchangeLandsExactlyWhen(kind: ResKind, rows: Rows, order: seq<string>, eff: Rows, a: string, b: string,
                                   secrets: map<string, string>)
    requires Overlay(kind, rows, order, eff, {Key(kind, a), Key(kind, b)}) && !kind.PolicyRes?
    requires a in eff && b in eff && IdOf(kind, eff[a]) == b && IdOf(kind, eff[b]) == a
    requires kind.RouteRes? ==> Field(eff[a], "body_max") != Str("") && Field(eff[b], "body_max") != Str("")
    ensures Given(kind, Landed(kind, rows, order, eff, {Key(kind, a), Key(kind, b)}), secrets) ==
            Given(kind, eff, secrets) <==>
            (kind.RuleRes? ==> SecretOf(kind, secrets, a) == SecretOf(kind, secrets, b))
  {
    TheTwoExchange(kind, rows, order, eff, a, b);
    PairLandsCleanlyExactlyWhen(kind, eff, a, b, secrets);
    RowsLandExactlyWhenClean(kind, rows, order, eff, {Key(kind, a), Key(kind, b)}, secrets);
  }

  // ---------------------------------------------------------------- a null in a policy

  const ToNull: J := Obj(map["spec" := Obj(map["hsts" := Null])])
  const ToObject: J := Obj(map["spec" := Obj(map["hsts" := Obj(map["max_age" := Num(60)])])])

  function PolicyWith(spec: Fields): Fields { DefaultPolicy("tls", "TLS")["spec" := Obj(spec)] }

  lemma PolicyIsARecord(spec: Fields)
    ensures IsRecord(PolicySchema, PolicyWith(spec))
  {
  }

  // A draft that puts a null into a policy can be merged.
  lemma ANullIsAccepted()
    ensures MergeInto(PolicySchema, PolicyWith(map[]), ToNull) == Ok(PolicyWith(map["hsts" := Null]))
  {
    var base, d, goal := PolicyWith(map[]), map["spec" := Obj(map["hsts" := Null])], PolicyWith(map["hsts" := Null]);
    PolicyIsARecord(map[]);
    PolicyIsARecord(map["hsts" := Null]);
    assert Merge(Obj(map[]), Obj(map["hsts" := Null])).fields == map["hsts" := Null];
    MergeYields(PolicySchema, base, d, goal);
  }

  // Where a policy holds that null, a draft that puts an object there panics.
  lemma TheNextObjectPanics(row: Fields)
    requires "spec" in row && row["spec"] == Obj(map["hsts" := Null])
    ensures MergeInto(PolicySchema, row, ToObject) == Err(Panicked)
  {
    var over, inner := ToObject.fields["spec"], Obj(map["max_age" := Num(60)]);
    assert "max_age" in inner.fields && Panics(Null, inner);
    assert "hsts" in over.fields && over.fields["hsts"] == inner && row["spec"].fields["hsts"] == Null;
    assert Panics(row["spec"], over);
    assert "spec" in ToObject.fields && ToObject.fields["spec"] == over;
  }

  // A store without policy rows of its own, and a draft for one.
  function PolicyStore(id: string, draft: J): Db {
    Db(map[], map[], map[], map[], map[Key(PolicyRes, id) := draft], "v1", 1)
  }

  // One policy's draft, rendered, deployed and committed: its spec is what was rendered.
  lemma OnePolicyLands(db: Db, id: string, merged: Fields, order: seq<string>)
    requires DbOk(db) && id in Listed(PolicyRes, db) && IdOf(PolicyRes, merged) == id && "spec" in merged
    requires EffectiveRows(PolicyRes, db, {Key(PolicyRes, id)}) == Some(Listed(PolicyRes, db)[id := merged])
    requires forall x :: x in order <==> x in Listed(PolicyRes, db)[id := merged]
    ensures var after := ListRows(PolicyRes,
            Landed(PolicyRes, db.policies, order, Listed(PolicyRes, db)[id := merged], {Key(PolicyRes, id)}));
            id in after && "spec" in after[id] && after[id]["spec"] == merged["spec"]
  {
    var eff := Listed(PolicyRes, db)[id := merged];
    EffectiveRowsOverlay(PolicyRes, db, {Key(PolicyRes, id)}, order);
    ListedRowsAreOk(PolicyRes, db.policies);
    RowLandsExactlyWhenClean(PolicyRes, db.policies, order, eff, {Key(PolicyRes, id)}, id);
    SpecIsRendered(ListRows(PolicyRes, Landed(PolicyRes, db.policies, order, eff, {Key(PolicyRes, id)}))[id], merged);
  }

  lemma SpecIsRendered(a: Fields, b: Fields)
    requires Rendered(PolicyRes, a) == Rendered(PolicyRes, b) && "spec" in b
    ensures "spec" in a && a["spec"] == b["spec"]
  {
    assert "spec" in Rendered(PolicyRes, b) && Rendered(PolicyRes, b)["spec"] == b["spec"];
    assert "spec" in Rendered(PolicyRes, a) && Rendered(PolicyRes, a)["spec"] == a["spec"];
  }

  lemma FirstRenders(id: string, merged: Fields, first: J)
    requires id in DefaultPolicies && EffectiveRow(PolicyRes, DefaultPolicies[id], Some(first)) == Ok(merged)
    ensures var db, keys := PolicyStore(id, first), {Key(PolicyRes, id)};
            Listed(PolicyRes, db) == DefaultPolicies
                && Effective(db, keys) == Some(Config(map[], map[], DefaultPolicies[id := merged], map[]))
  {
    var db, keys := PolicyStore(id, first), {Key(PolicyRes, id)};
    assert Listed(PolicyRes, db) == DefaultPolicies;
    OneBecomes(PolicyRes, db, id, DefaultPolicies[id], first, merged);
    UnselectedIsLive(RouteRes, db, keys);
    UnselectedIsLive(RuleRes, db, keys);
    Assembled(db, keys, map[], map[], DefaultPolicies[id := merged]);
  }

  // Whatever a first draft leaves as a policy's spec, a second draft is laid over just that.
  lemma FirstThenSecond(id: string, merged: Fields, first: J) returns (o: Orders)
    requires id in DefaultPolicies && IdOf(PolicyRes, merged) == id && "spec" in merged
    requires EffectiveRow(PolicyRes, DefaultPolicies[id], Some(first)) == Ok(merged)
    ensures var db, keys := PolicyStore(id, first), {Key(PolicyRes, id)};
            && Effective(db, keys).Some? && Lists(o, Effective(db, keys).value)
            && var after := Listed(PolicyRes, Committed(db, Effective(db, keys).value, o, keys, "v2", 2));
               id in after && "spec" in after[id] && after[id]["spec"] == merged["spec"]
  {
    FirstRenders(id, merged, first);
    o := SomeOrders(Config(map[], map[], DefaultPolicies[id := merged], map[]));
    OnePolicyLands(PolicyStore(id, first), id, merged, o.policies);
  }

  lemma NullMerges(merged: Fields)
    requires merged == PolicyWith(map["hsts" := Null])
    ensures "tls" in DefaultPolicies && EffectiveRow(PolicyRes, DefaultPolicies["tls"], Some(ToNull)) == Ok(merged)
    ensures IdOf(PolicyRes, merged) == "tls" && "spec" in merged && merged["spec"] == Obj(map["hsts" := Null])
  {
    ANullIsAccepted();
    TlsPolicyIsAShell();
    PlainDraft(PolicyRes, DefaultPolicies["tls"], ToNull);
  }

  lemma TlsPolicyIsAShell()
    ensures "tls" in DefaultPolicies && DefaultPolicies["tls"] == PolicyWith(map[])
  {
  }

  // Through the store: once the first draft has been deployed and committed, the second panics.
  lemma ANullStopsTheNextDeploy() returns (o: Orders)
    ensures var db, keys := PolicyStore("tls", ToNull), {Key(PolicyRes, "tls")};
            && Effective(db, keys).Some? && Lists(o, Effective(db, keys).value)
            && var after := Listed(PolicyRes, Committed(db, Effective(db, keys).value, o, keys, "v2", 2));
               "tls" in after && EffectiveRow(PolicyRes, after["tls"], Some(ToObject)) == Err(Panicked)
  {
    var merged := PolicyWith(map["hsts" := Null]);
    NullMerges(merged);
    o := FirstThenSecond("tls", merged, ToNull);
    var db, keys := PolicyStore("tls", ToNull), {Key(PolicyRes, "tls")};
    TheNextObjectPanics(Listed(PolicyRes, Committed(db, Effective(db, keys).value, o, keys, "v2", 2))["tls"]);
  }
}
