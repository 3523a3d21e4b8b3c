/**
 Reconciling a sub-domain's weighted, per-line address records at DNSPod with a plan.

 Records are matched by line and address. Every call may fail, with or without effect, and the
 provider may not support weights, in which case a record's weight is absent.
 */
module DnsPod {
  import opened Wrappers
  import opened Provider
  import Plan

  datatype Record = Record(typ: string, line: string, value: string, weight: Option<int>)

  type Records = map<Id, Record>

  datatype Key = Key(line: string, value: string)

  type Wanted = map<Key, int>

  // The provider's names of the five lines.
  const LINE_NAMES: map<string, string> :=
    map["ct" := "电信", "cu" := "联通", "cm" := "移动", "tw" := "中国台湾", "ov" := "境外"]

  function KeyOf(r: Record): Key { Key(r.line, r.value) }

  predicate IsManagedLine(name: string) { name in LINE_NAMES.Values }

  predicate Managed(r: Record) { r.typ == "A" && IsManagedLine(r.line) }

  class Zone {
    const weighted: bool   // whether the provider stores weights for this domain
    var records: Records
    var nextId: Id
    ghost var trail: seq<Records>   // the records after each mutating call, effective or not

    ghost predicate Valid()
      reads this
    {
      forall id | id in records :: id < nextId
    }

    constructor (initial: Records, free: Id, weighted: bool)
      requires forall id | id in initial :: id < free
      ensures Valid() && records == initial && trail == [] && this.weighted == weighted
    {
      records, nextId, trail, this.weighted := initial, free, [], weighted;
    }

    method Create(k: Key, weight: int, fate: Fate) returns (ok: bool)
      requires Valid()
      modifies this
      ensures Valid() && ok == fate.Done? && trail == old(trail) + [records] && old(nextId) !in old(records)
      ensures records == if fate.Refused? then old(records) else old(records)[old(nextId) := Fresh(k, weight, weighted)]
    {
      if !fate.Refused? {
        records := records[nextId := Fresh(k, weight, weighted)];
        nextId := nextId + 1;
      }
      trail := trail + [records];
      ok := fate.Done?;
    }

    method Modify(id: Id, weight: int, fate: Fate) returns (ok: bool)
      requires Valid() && id in records
      modifies this
      ensures Valid() && ok == fate.Done? && trail == old(trail) + [records]
      ensures records == if fate.Refused? then old(records)
              else old(records)[id := old(records[id]).(weight := Some(weight))]
    {
      if !fate.Refused? {
        records := records[id := records[id].(weight := Some(weight))];
      }
      trail := trail + [records];
      ok := fate.Done?;
    }

    method Remove(id: Id, fate: Fate) returns (ok: bool)
      requires Valid()
      modifies this
      ensures Valid() && ok == fate.Done? && trail == old(trail) + [records]
      ensures records == if fate.Refused? then old(records) else old(records) - {id}
    {
      if !fate.Refused? {
        records := records - {id};
      }
      trail := trail + [records];
      ok := fate.Done?;
    }
  }

  function Fresh(k: Key, weight: int, weighted: bool): Record {
    Record("A", k.line, k.value, if weighted then Some(weight) else None)
  }

  // ---------------------------------------------------------------- what is wanted

  // The entries of a line that want a record there.
  predicate Wants(e: Plan.Entry) { e.inRotation && e.ip != "" }

  method CollectWanted(plan: seq<Plan.LinePlan>) returns (want: Wanted)
    ensures Collected(want, plan, |plan|, 0)
  {
    want := map[];
    for i := 0 to |plan|
      invariant Collected(want, plan, i, 0)
    {
      if plan[i].code in LINE_NAMES {
        var name := LINE_NAMES[plan[i].code];
        for j := 0 to |plan[i].entries|
          invariant Collected(want, plan, i, j)
        {
          var e := plan[i].entries[j];
          ghost var was := want;
          if Wants(e) {
            want := want[Key(name, e.ip) := e.weight];
          }
          CollectStep(was, want, plan, i, j);
        }
      }
      LineDone(want, plan, i);
    }
  }

  ghost predicate WantedBy(plan: seq<Plan.LinePlan>, i: nat, j: nat, k: Key)
    requires i < |plan| && j < |plan[i].entries|
  {
    plan[i].code in LINE_NAMES && Wants(plan[i].entries[j]) && k == Key(LINE_NAMES[plan[i].code], plan[i].entries[j].ip)
  }

  // Before the j-th entry of the i-th line.
  ghost predicate Reached(a: nat, b: nat, i: nat, j: nat) { a < i || (a == i && b < j) }

  ghost predicate Collected(want: Wanted, plan: seq<Plan.LinePlan>, i: nat, j: nat) {
    && (forall k, a: nat, b: nat | a < |plan| && b < |plan[a].entries| && Reached(a, b, i, j)
       && WantedBy(plan, a, b, k) :: k in want)
    && (forall k | k in want :: exists a: nat, b: nat | a < |plan| && b < |plan[a].entries| ::
       Reached(a, b, i, j) && WantedBy(plan, a, b, k) && plan[a].entries[b].weight == want[k])
  }

  lemma CollectStep(was: Wanted, want: Wanted, plan: seq<Plan.LinePlan>, i: nat, j: nat)
    requires i < |plan| && j < |plan[i].entries| && plan[i].code in LINE_NAMES && Collected(was, plan, i, j)
    requires var e := plan[i].entries[j]; want == if Wants(e) then was[Key(LINE_NAMES[plan[i].code], e.ip) := e.weight]
             else was
    ensures Collected(want, plan, i, j + 1)
  {
    forall k | k in want
      ensures exists a: nat, b: nat | a < |plan| && b < |plan[a].entries| ::
              Reached(a, b, i, j + 1) && WantedBy(plan, a, b, k) && plan[a].entries[b].weight == want[k]
    {
      if Wants(plan[i].entries[j]) && k == Key(LINE_NAMES[plan[i].code], plan[i].entries[j].ip) {
        assert Reached(i, j, i, j + 1) && WantedBy(plan, i, j, k);
      } else {
        var a: nat, b: nat :| a < |plan| && b < |plan[a].entries| && Reached(a, b, i, j) && WantedBy(plan, a, b, k)
            && plan[a].entries[b].weight == was[k];
        assert Reached(a, b, i, j + 1);
      }
    }
  }

  lemma LineDone(want: Wanted, plan: seq<Plan.LinePlan>, i: nat)
    requires i < |plan| && Collected(want, plan, i, if plan[i].code in LINE_NAMES then |plan[i].entries| else 0)
    ensures Collected(want, plan, i + 1, 0)
  {
    forall k | k in want
      ensures exists a: nat, b: nat | a < |plan| && b < |plan[a].entries| ::
              Reached(a, b, i + 1, 0) && WantedBy(plan, a, b, k) && plan[a].entries[b].weight == want[k]
    {
      var a: nat, b: nat :| a < |plan| && b < |plan[a].entries|
          && Reached(a, b, i, if plan[i].code in LINE_NAMES then |plan[i].entries| else 0) && WantedBy(plan, a, b, k)
          && plan[a].entries[b].weight == want[k];
      assert Reached(a, b, i + 1, 0);
    }
  }

  // A node in rotation on the line has the address.
  ghost predicate ServesOn(plan: seq<Plan.LinePlan>, nodes: seq<Plan.Node>, code: string, ip: string, id: string) {
    Plan.GetsTraffic(plan, code, id) && Plan.Find(nodes, id).Some? && Plan.Find(nodes, id).value.ip == ip
  }

  lemma NamesDiffer(a: string, b: string)
    requires a in LINE_NAMES && b in LINE_NAMES && LINE_NAMES[a] == LINE_NAMES[b]
    ensures a == b
  {
    assert LINE_NAMES[a][0] == LINE_NAMES[b][0];
  }

  lemma CodesDiffer(i: nat, k: nat)
    requires i < k < |Plan.LINES|
    ensures Plan.LINES[i] != Plan.LINES[k]
  {
    var l := Plan.LINES;
    assert l[0][1] == 't' && l[1][1] == 'u' && l[2][1] == 'm' && l[3][1] == 'w' && l[4][1] == 'v';
  }

  lemma LinesDiffer(plan: seq<Plan.LinePlan>, weights: map<string, Plan.LineWeights>, nodes: seq<Plan.Node>,
                    honored: bool, k: nat)
    requires Plan.IsPlan(plan, weights, nodes, honored) && k < |plan|
    ensures plan[k].code in Plan.LINES && Plan.RotationOf(plan, plan[k].code) == Plan.Kept(plan[k].entries)
  {
    forall i | 0 <= i < k ensures plan[i].code != plan[k].code {
      CodesDiffer(i, k);
    }
    Plan.RotationOfLine(plan, plan[k].code, k);
  }

  // What one entry of a plan wants is an address its node has, on a line where the node gets traffic.
  lemma EntryServes(plan: seq<Plan.LinePlan>, weights: map<string, Plan.LineWeights>, nodes: seq<Plan.Node>,
                    honored: bool, a: nat, b: nat)
    requires Plan.IsPlan(plan, weights, nodes, honored) && a < |plan| && b < |plan[a].entries|
    ensures var e := plan[a].entries[b];
            && e.weight == Plan.WeightOf(Plan.OfLine(weights, plan[a].code), e.node)
            && (e.inRotation ==> ServesOn(plan, nodes, plan[a].code, e.ip, e.node))
  {
    LinesDiffer(plan, weights, nodes, honored, a);
    Plan.KeptMeansRotating(plan[a].entries, plan[a].entries[b]);
  }

  lemma ServingEntry(plan: seq<Plan.LinePlan>, weights: map<string, Plan.LineWeights>, nodes: seq<Plan.Node>,
                     honored: bool, code: string, ip: string, id: string) returns (a: nat, b: nat)
    requires Plan.IsPlan(plan, weights, nodes, honored) && code in Plan.LINES && ServesOn(plan, nodes, code, ip, id)
    ensures a < |plan| && b < |plan[a].entries| && plan[a].code == code
    ensures plan[a].entries[b].inRotation && plan[a].entries[b].ip == ip
  {
    a :| 0 <= a < |Plan.LINES| && Plan.LINES[a] == code;
    LinesDiffer(plan, weights, nodes, honored, a);
    var e :| e in Plan.RotationOf(plan, code) && e.node == id;
    Plan.KeptMeansRotating(plan[a].entries, e);
    b :| 0 <= b < |plan[a].entries| && plan[a].entries[b] == e;
  }

  // For a built plan an address is wanted on a line exactly when a node in rotation there has it, and
  // with the weight of such a node.
  lemma WantedIsTheRotation(plan: seq<Plan.LinePlan>, weights: map<string, Plan.LineWeights>, nodes: seq<Plan.Node>,
                            honored: bool, want: Wanted, code: string, ip: string)
    requires Plan.IsPlan(plan, weights, nodes, honored) && Collected(want, plan, |plan|, 0) && code in Plan.LINES
    ensures code in LINE_NAMES
    ensures Key(LINE_NAMES[code], ip) in want <==> ip != "" && exists id: string :: ServesOn(plan, nodes, code, ip, id)
    ensures Key(LINE_NAMES[code], ip) in want ==>
              exists id: string | ServesOn(plan, nodes, code, ip, id) ::
                want[Key(LINE_NAMES[code], ip)] == Plan.WeightOf(Plan.OfLine(weights, code), id)
  {
    var k := Key(LINE_NAMES[code], ip);
    if k in want {
      var a: nat, b: nat :| a < |plan| && b < |plan[a].entries| && Reached(a, b, |plan|, 0) && WantedBy(plan, a, b, k)
                            && plan[a].entries[b].weight == want[k];
      NamesDiffer(plan[a].code, code);
      EntryServes(plan, weights, nodes, honored, a, b);
    }
    if ip != "" && exists id: string :: ServesOn(plan, nodes, code, ip, id) {
      var id: string :| ServesOn(plan, nodes, code, ip, id);
      var a, b := ServingEntry(plan, weights, nodes, honored, code, ip, id);
      assert Reached(a, b, |plan|, 0) && WantedBy(plan, a, b, k);
    }
  }

  // ---------------------------------------------------------------- what a run may do

  ghost predicate Exists(rs: Records, k: Key) { exists id | id in rs :: rs[id].typ == "A" && KeyOf(rs[id]) == k }

  ghost predicate AllExist(rs: Records, want: Wanted) { forall k | k in want :: Exists(rs, k) }

  // From `before` to `now`: only weights of wanted records change, only wanted records are added,
  // only unwanted records of managed lines go, and only once every wanted record exists.
  ghost predicate Careful(before: Records, now: Records, want: Wanted) {
    && (forall id | id in before && id in now :: Kept(before[id], now[id], want))
    && (forall id | id in before && id !in now ::
       Managed(before[id]) && KeyOf(before[id]) !in want && AllExist(now, want))
    && (forall id | id in now && id !in before :: now[id].typ == "A" && KeyOf(now[id]) in want)
  }

  // The same record, but perhaps for the weight of a wanted one.
  predicate Kept(was: Record, now: Record, want: Wanted) {
    now == was || (was.typ == "A" && KeyOf(was) in want && was.weight.Some?
        && now == was.(weight := Some(want[KeyOf(was)])))
  }

  // The right weight, as far as the provider keeps one.
  predicate RightWeight(r: Record, want: Wanted)
    requires KeyOf(r) in want
  {
    r.weight == None || r.weight == Some(want[KeyOf(r)])
  }

  // Among the managed address records are exactly the wanted ones, with the wanted weights.
  ghost predicate Exactly(rs: Records, want: Wanted) {
    AllExist(rs, want) && forall id | id in rs && Managed(rs[id]) :: KeyOf(rs[id]) in want && RightWeight(rs[id], want)
  }

  // No two address records of managed lines share line and address.
  ghost predicate NoDuplicates(rs: Records) {
    forall i, j | i in rs && j in rs && Managed(rs[i]) && Managed(rs[j]) && KeyOf(rs[i]) == KeyOf(rs[j]) :: i == j
  }

  ghost predicate AnyManaged(rs: Records) { exists id | id in rs :: Managed(rs[id]) }

  ghost predicate OnManagedLines(want: Wanted) { forall k | k in want :: IsManagedLine(k.line) }

  lemma NeverEmpty(before: Records, now: Records, want: Wanted)
    requires Careful(before, now, want) && want != map[] && OnManagedLines(want) && AnyManaged(before)
    ensures AnyManaged(now)
  {
    var id :| id in before && Managed(before[id]);
    if id in now {
      assert Managed(now[id]);
    } else {
      var k :| k in want;
      assert Exists(now, k);
      var other :| other in now && now[other].typ == "A" && KeyOf(now[other]) == k;
      assert Managed(now[other]);
    }
  }

  ghost predicate AnyOnLine(rs: Records, line: string) {
    exists id | id in rs :: Managed(rs[id]) && rs[id].line == line
  }

  predicate WantsOnLine(want: Wanted, line: string) { exists k | k in want :: k.line == line }

  // What the visitors of one line see: while it wants an address, it keeps one.
  lemma LineNeverEmpty(before: Records, now: Records, want: Wanted, line: string)
    requires Careful(before, now, want) && OnManagedLines(want)
    requires WantsOnLine(want, line) && AnyOnLine(before, line)
    ensures AnyOnLine(now, line)
  {
    var id :| id in before && Managed(before[id]) && before[id].line == line;
    if id in now {
      assert Managed(now[id]) && now[id].line == line;
    } else {
      var k :| k in want && k.line == line;
      assert Exists(now, k);
      var other :| other in now && now[other].typ == "A" && KeyOf(now[other]) == k;
      assert Managed(now[other]) && now[other].line == line;
    }
  }

  // Records of another type, or of a line that is none of the five, are as they were.
  ghost predicate OthersKept(before: Records, now: Records) {
    && (forall id | id in before && (before[id].typ != "A" || before[id].line !in LINE_NAMES.Values) ::
          id in now && now[id] == before[id])
    && (forall id | id in now && id !in before :: now[id].typ == "A" && now[id].line in LINE_NAMES.Values)
  }

  lemma CarefulKeepsOthers(before: Records, now: Records, want: Wanted)
    requires Careful(before, now, want) && OnManagedLines(want)
    ensures OthersKept(before, now)
  {
    forall id | id in now && id !in before ensures now[id].line in LINE_NAMES.Values {
      assert KeyOf(now[id]) in want;
    }
    forall id | id in before && id in now ensures Kept(before[id], now[id], want) {
    }
  }

  lemma StillExist(now: Records, next: Records, k: Key)
    requires Exists(now, k)
    requires forall id | id in now && now[id].typ == "A" && KeyOf(now[id]) == k ::
             id in next && next[id].typ == "A" && KeyOf(next[id]) == k
    ensures Exists(next, k)
  {
  }

  lemma CreateIsCareful(before: Records, now: Records, want: Wanted, id: Id, r: Record)
    requires before.Keys <= now.Keys && Careful(before, now, want) && id !in now && r.typ == "A" && KeyOf(r) in want
    ensures Careful(before, now[id := r], want) && Exists(now[id := r], KeyOf(r))
    ensures forall k | Exists(now, k) :: Exists(now[id := r], k)
  {
    var next := now[id := r];
    assert id in next && next[id] == r;
    forall k | Exists(now, k) ensures Exists(next, k) {
      StillExist(now, next, k);
    }
  }

  lemma ModifyIsCareful(before: Records, now: Records, want: Wanted, id: Id)
    requires before.Keys <= now.Keys && Careful(before, now, want) && id in before && before[id].typ == "A"
    requires KeyOf(before[id]) in want && before[id].weight.Some?
    ensures Careful(before, now[id := now[id].(weight := Some(want[KeyOf(before[id])]))], want)
    ensures forall k | Exists(now, k) :: Exists(now[id := now[id].(weight := Some(want[KeyOf(before[id])]))], k)
  {
    var next := now[id := now[id].(weight := Some(want[KeyOf(before[id])]))];
    forall k | Exists(now, k) ensures Exists(next, k) {
      StillExist(now, next, k);
    }
  }

  lemma RemoveIsCareful(before: Records, now: Records, want: Wanted, id: Id)
    requires Careful(before, now, want) && AllExist(now, want)
    requires id in before && Managed(before[id]) && KeyOf(before[id]) !in want
    ensures Careful(before, now - {id}, want) && AllExist(now - {id}, want)
  {
    forall k | k in want ensures Exists(now - {id}, k) {
      StillExist(now, now - {id}, k);
    }
  }

  // ---------------------------------------------------------------- the run

  // An index of the address records: for each line and address, one record that has them.
  ghost predicate Indexes(have: map<Key, Id>, rs: Records) {
    && (forall k | k in have :: have[k] in rs && rs[have[k]].typ == "A" && KeyOf(rs[have[k]]) == k)
    && (forall id | id in rs && rs[id].typ == "A" :: KeyOf(rs[id]) in have)
  }

  // The provider's listing: every record of the sub-domain, once, in some order.
  ghost predicate Lists(order: seq<Id>, rs: Records) {
    (forall id :: id in order <==> id in rs) && forall i, j | 0 <= i < j < |order| :: order[i] != order[j]
  }

  // Of two records alike, the one listed later is kept.
  function IndexOf(rs: Records, order: seq<Id>): map<Key, Id>
    requires forall id | id in order :: id in rs
  {
    if order == [] then map[] else
    var rest, last := IndexOf(rs, order[..|order| - 1]), order[|order| - 1];
    if rs[last].typ == "A" then rest[KeyOf(rs[last]) := last] else rest
  }

  lemma {:induction false} IndexCovers(rs: Records, order: seq<Id>)
    requires forall id | id in order :: id in rs
    ensures forall k | k in IndexOf(rs, order) :: IndexOf(rs, order)[k] in order
    ensures forall k | k in IndexOf(rs, order) ::
            rs[IndexOf(rs, order)[k]].typ == "A" && KeyOf(rs[IndexOf(rs, order)[k]]) == k
    ensures forall id | id in order && rs[id].typ == "A" :: KeyOf(rs[id]) in IndexOf(rs, order)
  {
    if order != [] {
      var init, last := order[..|order| - 1], order[|order| - 1];
      IndexCovers(rs, init);
      assert forall id :: id in order <==> id in init || id == last by { assert order == init + [last]; }
      forall k | k in IndexOf(rs, order)
        ensures IndexOf(rs, order)[k] in order && rs[IndexOf(rs, order)[k]].typ == "A"
        ensures KeyOf(rs[IndexOf(rs, order)[k]]) == k
      {
        assert k in IndexOf(rs, init) || (rs[last].typ == "A" && k == KeyOf(rs[last]));
      }
    }
  }

  lemma IndexOfListing(rs: Records, order: seq<Id>)
    requires Lists(order, rs)
    ensures Indexes(IndexOf(rs, order), rs)
  {
    IndexCovers(rs, order);
  }

  method Index(z: Zone, order: seq<Id>) returns (have: map<Key, Id>)
    requires Lists(order, z.records)
    ensures have == IndexOf(z.records, order) && Indexes(have, z.records)
  {
    have := map[];
    for i := 0 to |order|
      invariant have == IndexOf(z.records, order[..i])
    {
      assert order[..i + 1][..i] == order[..i];
      var r := z.records[order[i]];
      if r.typ == "A" {
        have := have[KeyOf(r) := order[i]];
      }
    }
    assert order[..|order|] == order;
    IndexOfListing(z.records, order);
  }

  // The indexed record of a wanted key is already right.
  predicate Settled(k: Key, have: map<Key, Id>, before: Records, want: Wanted) {
    && k in want && k in have && have[k] in before
    && (before[have[k]].weight == None || before[have[k]].weight == Some(want[k]))
  }

  // The record is the one kept in the index for its line and address.
  ghost predicate IsIndexed(id: Id, rs: Records, have: map<Key, Id>) {
    id in rs && KeyOf(rs[id]) in have && have[KeyOf(rs[id])] == id
  }

  ghost predicate AllSettled(keys: set<Key>, have: map<Key, Id>, before: Records, want: Wanted) {
    forall k | k in keys :: Settled(k, have, before, want)
  }

  // Records added since `before` are for keys already dealt with that had no record, one each.
  ghost predicate AddedOnce(before: Records, now: Records, have: map<Key, Id>, dealt: set<Key>) {
    forall i | i in now && i !in before ::
        && KeyOf(now[i]) in dealt && KeyOf(now[i]) !in have
        && forall j | j in now && j !in before && KeyOf(now[j]) == KeyOf(now[i]) :: i == j
  }

  // The records that were there and are still to be dealt with are as they were.
  ghost predicate Untouched(before: Records, now: Records, have: map<Key, Id>, dealt: set<Key>) {
    && before.Keys <= now.Keys
    && forall id | id in before :: now[id] == before[id] || (KeyOf(before[id]) in dealt && IsIndexed(id, before, have))
  }

  // Every key dealt with has its record, with the right weight.
  ghost predicate Dealt(before: Records, now: Records, want: Wanted, have: map<Key, Id>, dealt: set<Key>) {
    && (forall k | k in dealt :: k in want && Exists(now, k))
    && (forall k | k in dealt && k in have :: have[k] in now && now[have[k]].weight in {None, Some(want[k])})
    && (forall id | id in now && id !in before :: KeyOf(now[id]) in want && RightWeight(now[id], want))
  }

  ghost predicate InPass(before: Records, now: Records, want: Wanted, have: map<Key, Id>, dealt: set<Key>) {
    Careful(before, now, want) && AddedOnce(before, now, have, dealt) && Untouched(before, now, have, dealt)
        && Dealt(before, now, want, have, dealt)
  }

  // One wanted record: nothing to do, a new weight, or a new record. A failure may leave any of
  // the three behind.
  method Ensure(z: Zone, k: Key, want: Wanted, have: map<Key, Id>, ghost before: Records, ghost dealt: set<Key>,
                fate: Fate)
    returns (ok: bool)
    requires z.Valid() && k in want && k !in dealt && dealt <= want.Keys && Indexes(have, before)
    requires InPass(before, z.records, want, have, dealt)
    modifies z
    ensures z.Valid() && Extends(before, old(z.trail), z.trail, want)
    ensures if ok then InPass(before, z.records, want, have, dealt + {k}) else Stopped(before, z.records, want, have)
    ensures Settled(k, have, before, want) ==> ok && z.trail == old(z.trail)
  {
    ghost var was, trail := z.records, z.trail;
    PassStops(before, was, want, have, dealt);
    if k in have {
      NotYet(before, was, have, dealt, k);
      var current := z.records[have[k]];
      if current.weight == None || current.weight == Some(want[k]) {
        KeepStep(before, was, want, have, dealt, k);
        return true;
      }
      ok := z.Modify(have[k], want[k], fate);
      if !fate.Refused? {
        ModifyStep(before, was, want, have, dealt, k);
        PassStops(before, z.records, want, have, dealt + {k});
      }
    } else {
      var r := Fresh(k, want[k], z.weighted);
      ghost var id := z.nextId;
      ok := z.Create(k, want[k], fate);
      if !fate.Refused? {
        CreateStep(before, was, want, have, dealt, k, id, r);
        PassStops(before, z.records, want, have, dealt + {k});
      }
    }
    ExtendsOne(before, trail, z.records, want);
  }

  lemma NotYet(before: Records, now: Records, have: map<Key, Id>, dealt: set<Key>, k: Key)
    requires Indexes(have, before) && Untouched(before, now, have, dealt) && k in have && k !in dealt
    ensures have[k] in now && now[have[k]] == before[have[k]]
  {
    assert KeyOf(before[have[k]]) == k;
  }

  lemma KeepStep(before: Records, now: Records, want: Wanted, have: map<Key, Id>, dealt: set<Key>, k: Key)
    requires Indexes(have, before) && InPass(before, now, want, have, dealt) && k in want && k in have && k !in dealt
    requires before[have[k]].weight in {None, Some(want[k])}
    ensures InPass(before, now, want, have, dealt + {k})
  {
    NotYet(before, now, have, dealt, k);
    assert Exists(now, k);
  }

  lemma ModifyStep(before: Records, now: Records, want: Wanted, have: map<Key, Id>, dealt: set<Key>, k: Key)
    requires Indexes(have, before) && InPass(before, now, want, have, dealt) && k in want && k in have && k !in dealt
    requires have[k] in now && before[have[k]].weight.Some?
    ensures InPass(before, now[have[k] := now[have[k]].(weight := Some(want[k]))], want, have, dealt + {k})
  {
    NotYet(before, now, have, dealt, k);
    ModifyIsCareful(before, now, want, have[k]);
    assert IsIndexed(have[k], before, have);
    ModifyDeals(before, now, want, have, dealt, k);
  }

  lemma ModifyDeals(before: Records, now: Records, want: Wanted, have: map<Key, Id>, dealt: set<Key>, k: Key)
    requires Indexes(have, before) && Dealt(before, now, want, have, dealt) && k in want && k in have && k !in dealt
    requires have[k] in now && now[have[k]].typ == "A" && KeyOf(now[have[k]]) == k
    ensures Dealt(before, now[have[k] := now[have[k]].(weight := Some(want[k]))], want, have, dealt + {k})
  {
    var next := now[have[k] := now[have[k]].(weight := Some(want[k]))];
    assert next[have[k]].typ == "A" && KeyOf(next[have[k]]) == k;
    forall j | j in dealt ensures Exists(next, j) {
      StillExist(now, next, j);
    }
    forall j | j in dealt && j in have ensures have[j] != have[k] {
      assert KeyOf(before[have[j]]) == j;
    }
  }

  lemma CreateStep(before: Records, now: Records, want: Wanted, have: map<Key, Id>, dealt: set<Key>, k: Key, id: Id,
                   r: Record)
    requires Indexes(have, before) && InPass(before, now, want, have, dealt) && k in want && k !in have
    requires k !in dealt && id !in now
    requires r.typ == "A" && KeyOf(r) == k && RightWeight(r, want)
    ensures InPass(before, now[id := r], want, have, dealt + {k})
  {
    CreateIsCareful(before, now, want, id, r);
    CreateAddsOnce(before, now, have, dealt, k, id, r);
    CreateDeals(before, now, want, have, dealt, k, id, r);
  }

  lemma CreateAddsOnce(before: Records, now: Records, have: map<Key, Id>, dealt: set<Key>, k: Key, id: Id, r: Record)
    requires AddedOnce(before, now, have, dealt) && k !in have && k !in dealt && id !in now && KeyOf(r) == k
    requires Untouched(before, now, have, dealt)
    ensures AddedOnce(before, now[id := r], have, dealt + {k}) && Untouched(before, now[id := r], have, dealt + {k})
  {
  }

  lemma CreateDeals(before: Records, now: Records, want: Wanted, have: map<Key, Id>, dealt: set<Key>, k: Key, id: Id,
                    r: Record)
    requires Dealt(before, now, want, have, dealt) && k in want && k !in have && id !in now && r.typ == "A"
    requires KeyOf(r) == k && RightWeight(r, want)
    requires Indexes(have, before) && before.Keys <= now.Keys
    ensures Dealt(before, now[id := r], want, have, dealt + {k})
  {
    var next := now[id := r];
    assert id in next && next[id] == r;
    forall j | j in dealt ensures Exists(next, j) {
      StillExist(now, next, j);
    }
  }

  lemma PassStarts(before: Records, want: Wanted, have: map<Key, Id>)
    ensures InPass(before, before, want, have, {})
  {
  }

  // What a failure leaves behind.
  ghost predicate Stopped(before: Records, now: Records, want: Wanted, have: map<Key, Id>) {
    before.Keys <= now.Keys && Careful(before, now, want) && AddedOnce(before, now, have, want.Keys)
  }

  lemma PassStops(before: Records, now: Records, want: Wanted, have: map<Key, Id>, dealt: set<Key>)
    requires InPass(before, now, want, have, dealt) && dealt <= want.Keys
    ensures Stopped(before, now, want, have)
  {
  }

  // The trail goes on from t0 to t1, with care at every point.
  ghost predicate Extends(before: Records, t0: seq<Records>, t1: seq<Records>, want: Wanted) {
    t0 <= t1 && forall k | |t0| <= k < |t1| :: Careful(before, t1[k], want)
  }

  lemma ExtendsOn(before: Records, t0: seq<Records>, t1: seq<Records>, t2: seq<Records>, want: Wanted)
    requires Extends(before, t0, t1, want) && Extends(before, t1, t2, want)
    ensures Extends(before, t0, t2, want)
  {
  }

  lemma ExtendsOne(before: Records, t: seq<Records>, now: Records, want: Wanted)
    requires Careful(before, now, want)
    ensures Extends(before, t, t + [now], want)
  {
  }

  // If any call was made since `start`, it was for some wanted record that was not right before.
  ghost predicate Blamed(cause: Option<Key>, start: seq<Records>, trail: seq<Records>, have: map<Key, Id>,
                         before: Records, want: Wanted) {
    match cause
    case Some(k) => k in want && !Settled(k, have, before, want)
    case None => |trail| == |start|
  }

  // The next wanted record of a pass.
  method EnsureNext(z: Zone, k: Key, want: Wanted, have: map<Key, Id>, ghost before: Records, ghost start: seq<Records>,
                    ghost dealt: set<Key>,
                    ghost was: Option<Key>, fate: Fate) returns (ok: bool, ghost cause: Option<Key>)
    requires z.Valid() && k in want && k !in dealt && dealt <= want.Keys && Indexes(have, before)
    requires InPass(before, z.records, want, have, dealt)
    requires Extends(before, start, z.trail, want) && Blamed(was, start, z.trail, have, before, want)
    modifies z
    ensures z.Valid() && Extends(before, start, z.trail, want) && Blamed(cause, start, z.trail, have, before, want)
    ensures if ok then InPass(before, z.records, want, have, dealt + {k})
            else Stopped(before, z.records, want, have) && cause.Some?
  {
    ghost var trail := z.trail;
    ok := Ensure(z, k, want, have, before, dealt, fate);
    ExtendsOn(before, start, trail, z.trail, want);
    cause := if Settled(k, have, before, want) then was else Some(k);
  }

  lemma OneLess<T>(all: set<T>, todo: set<T>, dealt: set<T>, k: T)
    requires todo == all - dealt && dealt <= all && k in todo
    ensures k in all && k !in dealt && todo - {k} == all - (dealt + {k}) && dealt + {k} <= all
  {
  }

  lemma AllDone<T>(all: set<T>, dealt: set<T>)
    requires all - dealt == {} && dealt <= all
    ensures dealt == all
  {
    assert forall x | x in all :: x in all - dealt || x in dealt;
  }

  // Bring every wanted record about, in any order, stopping at the first failure.
  method EnsureAll(z: Zone, want: Wanted, have: map<Key, Id>, fates: nat -> Fate)
    returns (ok: bool, ghost cause: Option<Key>)
    requires z.Valid() && Indexes(have, z.records)
    modifies z
    ensures z.Valid() && Extends(old(z.records), old(z.trail), z.trail, want)
    ensures if ok then InPass(old(z.records), z.records, want, have, want.Keys)
            else Stopped(old(z.records), z.records, want, have) && cause.Some?
    ensures Blamed(cause, old(z.trail), z.trail, have, old(z.records), want)
  {
    ghost var before, start := z.records, z.trail;
    var todo, n := want.Keys, 0;
    ghost var dealt: set<Key> := {};
    cause := None;
    PassStarts(before, want, have);
    while todo != {}
      invariant z.Valid() && todo == want.Keys - dealt && dealt <= want.Keys
      invariant InPass(before, z.records, want, have, dealt)
      invariant Extends(before, start, z.trail, want) && Blamed(cause, start, z.trail, have, before, want)
      decreases |todo|
    {
      var k :| k in todo;
      OneLess(want.Keys, todo, dealt, k);
      ok, cause := EnsureNext(z, k, want, have, before, start, dealt, cause, fates(n));
      if !ok {
        return;
      }
      todo, dealt, n := todo - {k}, dealt + {k}, n + 1;
    }
    AllDone(want.Keys, dealt);
    ok := true;
  }

  // Some records of managed lines nobody wants are gone, and nothing else.
  ghost predicate Shrunk(before: Records, mid: Records, now: Records, want: Wanted, have: map<Key, Id>) {
    && (forall id | id in now :: id in mid && now[id] == mid[id])
    && (forall id | id in mid && id !in now :: IsIndexed(id, before, have) && KeyOf(before[id]) !in want)
  }

  lemma RemoveStep(before: Records, mid: Records, now: Records, want: Wanted, have: map<Key, Id>, k: Key)
    requires Indexes(have, before) && AllExist(now, want) && Careful(before, now, want)
    requires Shrunk(before, mid, now, want, have)
    requires k in have && k !in want && IsManagedLine(k.line)
    ensures AllExist(now - {have[k]}, want) && Careful(before, now - {have[k]}, want)
    ensures Shrunk(before, mid, now - {have[k]}, want, have)
  {
    assert KeyOf(before[have[k]]) == k;
    RemoveIsCareful(before, now, want, have[k]);
  }

  // Remove the records of managed lines nobody wants, in any order, stopping at the first failure.
  method RemoveExtra(z: Zone, want: Wanted, have: map<Key, Id>, ghost before: Records, fates: nat -> Fate)
    returns (ok: bool)
    requires z.Valid() && Indexes(have, before) && AllExist(z.records, want) && Careful(before, z.records, want)
    modifies z
    ensures z.Valid() && Extends(before, old(z.trail), z.trail, want)
    ensures AllExist(z.records, want) && Careful(before, z.records, want)
    ensures Shrunk(before, old(z.records), z.records, want, have)
    ensures ok ==> forall k | k in have && k !in want && IsManagedLine(k.line) :: have[k] !in z.records
    ensures (forall k | k in have && IsManagedLine(k.line) :: k in want) ==> ok && z.trail == old(z.trail)
  {
    ghost var mid, start := z.records, z.trail;
    var todo, n := have.Keys, 0;
    while todo != {}
      invariant z.Valid() && todo <= have.Keys && Extends(before, start, z.trail, want)
      invariant AllExist(z.records, want) && Careful(before, z.records, want)
      invariant Shrunk(before, mid, z.records, want, have)
      invariant forall k | k in have && k !in todo && k !in want && IsManagedLine(k.line) :: have[k] !in z.records
      invariant (forall k | k in have && IsManagedLine(k.line) :: k in want) ==> z.trail == start
      decreases |todo|
    {
      var k :| k in todo;
      todo := todo - {k};
      if k !in want && IsManagedLine(k.line) {
        ghost var trail := z.trail;
        RemoveStep(before, mid, z.records, want, have, k);
        ok := z.Remove(have[k], fates(n));
        ExtendsOne(before, trail, z.records, want);
        ExtendsOn(before, start, trail, z.trail, want);
        n := n + 1;
        if !ok {
          return;
        }
      }
    }
    return true;
  }

  // The records that share line and address with the one that is indexed are all as wanted.
  ghost predicate SparesAreRight(before: Records, want: Wanted, have: map<Key, Id>)
    requires Indexes(have, before)
  {
    forall id | id in before && Managed(before[id]) && have[KeyOf(before[id])] != id ::
        KeyOf(before[id]) in want && RightWeight(before[id], want)
  }

  lemma DoneExactlyWhenSparesAreRight(before: Records, mid: Records, now: Records, want: Wanted, have: map<Key, Id>)
    requires Indexes(have, before) && InPass(before, mid, want, have, want.Keys) && AllExist(now, want)
    requires Shrunk(before, mid, now, want, have)
    requires forall k | k in have && k !in want && IsManagedLine(k.line) :: have[k] !in now
    ensures Exactly(now, want) <==> SparesAreRight(before, want, have)
  {
    forall id | id in before && Managed(before[id]) && have[KeyOf(before[id])] != id
      ensures id in now && now[id] == before[id]
    {
      assert id in mid;
    }
    if SparesAreRight(before, want, have) {
      forall id | id in now && Managed(now[id]) ensures KeyOf(now[id]) in want && RightWeight(now[id], want) {
        if id in before {
          var k := KeyOf(before[id]);
          assert Kept(before[id], mid[id], want);
          assert KeyOf(now[id]) == k;
        }
      }
    }
  }

  lemma StaysAlone(before: Records, mid: Records, now: Records, want: Wanted, have: map<Key, Id>, i: Id, j: Id)
    requires Indexes(have, before) && Careful(before, now, want) && NoDuplicates(before)
    requires i in now && j in now && i in mid && j in mid && mid[i] == now[i] && mid[j] == now[j]
    requires AddedOnce(before, mid, have, want.Keys) && Managed(now[i]) && Managed(now[j])
    requires KeyOf(now[i]) == KeyOf(now[j])
    ensures i == j
  {
    if i in before { assert Kept(before[i], now[i], want) && KeyOf(before[i]) in have; }
    if j in before { assert Kept(before[j], now[j], want) && KeyOf(before[j]) in have; }
  }

  lemma NoDuplicatesStays(before: Records, mid: Records, now: Records, want: Wanted, have: map<Key, Id>)
    requires Indexes(have, before) && Careful(before, now, want)
    requires AddedOnce(before, mid, have, want.Keys) && forall id | id in now :: id in mid && now[id] == mid[id]
    ensures NoDuplicates(before) ==> NoDuplicates(now)
  {
    forall i, j | NoDuplicates(before) && i in now && j in now && Managed(now[i]) && Managed(now[j])
        && KeyOf(now[i]) == KeyOf(now[j])
      ensures i == j
    {
      StaysAlone(before, mid, now, want, have, i, j);
    }
  }

  lemma NothingToDo(before: Records, want: Wanted, have: map<Key, Id>)
    requires Indexes(have, before) && OnManagedLines(want)
    ensures Exactly(before, want) ==> AllSettled(want.Keys, have, before, want)
    ensures Exactly(before, want) ==> forall k | k in have && IsManagedLine(k.line) :: k in want
  {
    if Exactly(before, want) {
      forall k | k in want ensures Settled(k, have, before, want) {
        assert Exists(before, k);
        assert Managed(before[have[k]]);
      }
      forall k | k in have && IsManagedLine(k.line) ensures k in want {
        assert Managed(before[have[k]]);
      }
    }
  }

  // Every managed record that has a twin, an address record with the same line and address, is
  // wanted with the weight it has.
  ghost predicate TwinsAreRight(rs: Records, want: Wanted) {
    forall i | i in rs && Managed(rs[i]) && HasTwin(rs, i) :: KeyOf(rs[i]) in want && RightWeight(rs[i], want)
  }

  ghost predicate HasTwin(rs: Records, i: Id)
    requires i in rs
  {
    exists j | j in rs && j != i :: rs[j].typ == "A" && KeyOf(rs[j]) == KeyOf(rs[i])
  }

  lemma SparesAreTwins(rs: Records, want: Wanted, have: map<Key, Id>)
    requires Indexes(have, rs) && TwinsAreRight(rs, want)
    ensures SparesAreRight(rs, want, have)
  {
    forall id | id in rs && Managed(rs[id]) && have[KeyOf(rs[id])] != id
      ensures KeyOf(rs[id]) in want && RightWeight(rs[id], want)
    {
      assert HasTwin(rs, id) by {
        var j := have[KeyOf(rs[id])];
        assert j in rs && j != id && rs[j].typ == "A" && KeyOf(rs[j]) == KeyOf(rs[id]);
      }
    }
  }

  lemma {:induction false} SomeOrder(ids: set<Id>) returns (order: seq<Id>)
    ensures (forall id :: id in order <==> id in ids) && forall i, j | 0 <= i < j < |order| :: order[i] != order[j]
    decreases ids
  {
    order := [];
    if ids != {} {
      var id :| id in ids;
      var rest := SomeOrder(ids - {id});
      order := rest + [id];
    }
  }

  // A listing in which a given record comes last.
  lemma ListedLast(rs: Records, id: Id) returns (order: seq<Id>)
    requires id in rs && rs[id].typ == "A"
    ensures Lists(order, rs) && KeyOf(rs[id]) in IndexOf(rs, order) && IndexOf(rs, order)[KeyOf(rs[id])] == id
  {
    var rest := SomeOrder(rs.Keys - {id});
    order := rest + [id];
    assert order[..|rest|] == rest;
    assert forall x :: x in order <==> x in rest || x == id;
  }

  // The exact condition, on the zone before the call: whatever order the records are listed in,
  // a completed run leaves exactly what is wanted, if and only if every record with a twin is
  // already right.
  lemma ExactInEveryOrder(rs: Records, want: Wanted)
    ensures (forall order | Lists(order, rs) :: SparesAreRightIn(rs, want, order)) <==> TwinsAreRight(rs, want)
  {
    if TwinsAreRight(rs, want) {
      forall order | Lists(order, rs) ensures SparesAreRightIn(rs, want, order) {
        IndexOfListing(rs, order);
        SparesAreTwins(rs, want, IndexOf(rs, order));
      }
    }
    if forall order | Lists(order, rs) :: SparesAreRightIn(rs, want, order) {
      forall i | i in rs && Managed(rs[i]) && HasTwin(rs, i) ensures KeyOf(rs[i]) in want && RightWeight(rs[i], want) {
        var j :| j in rs && j != i && rs[j].typ == "A" && KeyOf(rs[j]) == KeyOf(rs[i]);
        var order := ListedLast(rs, j);
        assert SparesAreRightIn(rs, want, order);
        IndexOfListing(rs, order);
      }
    }
  }

  ghost predicate SparesAreRightIn(rs: Records, want: Wanted, order: seq<Id>)
    requires Lists(order, rs)
  {
    Indexes(IndexOf(rs, order), rs) && SparesAreRight(rs, want, IndexOf(rs, order))
  }

  // Two stale records alike: in whichever order they are listed, one is left behind.
  lemma ATwinIsLeftBehind(order: seq<Id>)
    requires Lists(order, map[0 := Record("A", "电信", "1.1.1.1", None), 1 := Record("A", "电信", "1.1.1.1", None)])
    ensures !SparesAreRightIn(map[0 := Record("A", "电信", "1.1.1.1", None), 1 := Record("A", "电信", "1.1.1.1", None)],
                              map[Key("电信", "2.2.2.2") := 1], order)
  {
    var before: Records := map[0 := Record("A", "电信", "1.1.1.1", None), 1 := Record("A", "电信", "1.1.1.1", None)];
    IndexOfListing(before, order);
    var have := IndexOf(before, order);
    var spare := if have[KeyOf(before[0])] == 0 then 1 else 0;
    assert LINE_NAMES["ct"] == "电信" && IsManagedLine("电信");
    assert spare in before && Managed(before[spare]) && have[KeyOf(before[spare])] != spare;
    assert "1.1.1.1"[0] != "2.2.2.2"[0];
  }

  // The run once something is wanted.
  method Converge(z: Zone, want: Wanted, have: map<Key, Id>, ensuring: nat -> Fate, removals: nat -> Fate)
    returns (ok: bool)
    requires z.Valid() && Indexes(have, z.records) && OnManagedLines(want)
    modifies z
    ensures z.Valid() && Careful(old(z.records), z.records, want)
    ensures Extends(old(z.records), old(z.trail), z.trail, want)
    ensures ok ==> (Exactly(z.records, want) <==> SparesAreRight(old(z.records), want, have))
    ensures NoDuplicates(old(z.records)) ==> NoDuplicates(z.records)
    ensures Exactly(old(z.records), want) ==> ok && z.trail == old(z.trail)
  {
    ghost var before, start := z.records, z.trail;
    NothingToDo(before, want, have);
    ghost var cause;
    ok, cause := EnsureAll(z, want, have, ensuring);
    ghost var mid, middle := z.records, z.trail;
    if ok {
      PassStops(before, mid, want, have, want.Keys);
      ok := RemoveExtra(z, want, have, before, removals);
      ExtendsOn(before, start, middle, z.trail, want);
      if ok {
        DoneExactlyWhenSparesAreRight(before, mid, z.records, want, have);
      }
    }
    NoDuplicatesStays(before, mid, z.records, want, have);
  }

  lemma CollectedOnManagedLines(want: Wanted, plan: seq<Plan.LinePlan>)
    requires Collected(want, plan, |plan|, 0)
    ensures OnManagedLines(want)
  {
  }

  // Bring the sub-domain's records to the plan. Without anyone in rotation nothing is changed and
  // nothing is even listed; `listed` says whether the listing can be read, `order` is its order.
  method Sync(z: Zone, plan: seq<Plan.LinePlan>, listed: bool, order: seq<Id>, ensuring: nat -> Fate,
              removals: nat -> Fate)
    returns (out: Outcome, ghost want: Wanted)
    requires z.Valid() && Lists(order, z.records)
    modifies z
    ensures z.Valid() && Collected(want, plan, |plan|, 0)
    ensures out == NothingWanted <==> want == map[]
    ensures want == map[] || !listed ==> z.records == old(z.records) && z.trail == old(z.trail)
    ensures Careful(old(z.records), z.records, want) && Extends(old(z.records), old(z.trail), z.trail, want)
    // At no point is a record of another type or line changed, removed or added.
    ensures forall k | |old(z.trail)| <= k < |z.trail| :: OthersKept(old(z.records), z.trail[k])
    // At no point is the sub-domain left without a managed address it had.
    ensures AnyManaged(old(z.records)) ==> forall k | |old(z.trail)| <= k < |z.trail| :: AnyManaged(z.trail[k])
    // Nor is a line that still wants one.
    ensures forall line, k | WantsOnLine(want, line) && AnyOnLine(old(z.records), line)
            && |old(z.trail)| <= k < |z.trail| ::
              AnyOnLine(z.trail[k], line)
    // A completed run leaves exactly the wanted records if and only if the records the listing
    // hides behind a later twin are as wanted; in every order, if every record with a twin is.
    // It makes no twins itself.
    ensures out == Synced ==> (Exactly(z.records, want) <==> SparesAreRightIn(old(z.records), want, order))
    ensures out == Synced && TwinsAreRight(old(z.records), want) ==> Exactly(z.records, want)
    ensures NoDuplicates(old(z.records)) ==> NoDuplicates(z.records) && (out == Synced ==> Exactly(z.records, want))
    // A second run has nothing to do.
    ensures listed && want != map[] && Exactly(old(z.records), want) ==> out == Synced && z.trail == old(z.trail)
  {
    ghost var before, start := z.records, |z.trail|;
    var wanted := CollectWanted(plan);
    want := wanted;
    CollectedOnManagedLines(want, plan);
    if wanted == map[] {
      return NothingWanted, want;
    }
    if !listed {
      return Failed, want;
    }
    var have := Index(z, order);
    var ok := Converge(z, wanted, have, ensuring, removals);
    out := if ok then Synced else Failed;
    ExactInEveryOrder(before, want);
    forall k | start <= k < |z.trail| ensures OthersKept(before, z.trail[k]) {
      CarefulKeepsOthers(before, z.trail[k], want);
    }
    forall line, k | WantsOnLine(want, line) && AnyOnLine(before, line) && start <= k < |z.trail|
      ensures AnyOnLine(z.trail[k], line)
    {
      LineNeverEmpty(before, z.trail[k], want, line);
    }
    if AnyManaged(before) {
      forall k | start <= k < |z.trail| ensures AnyManaged(z.trail[k]) {
        NeverEmpty(before, z.trail[k], want);
      }
    }
  }
}
