/**
 The scheduling plan: for each line, the nodes that could serve it, who is in rotation, and the
 share of traffic each gets.
 */
module Plan {
  import opened Wrappers
  import opened Sorting

  const LINES: seq<string> := ["ct", "cu", "cm", "tw", "ov"]

  datatype NodeStatus = Up | Warning | Down

  datatype Node = Node(id: string, ip: string, dnsEnabled: bool, status: NodeStatus, drained: bool)

  // Weights per node of one line; a missing line has none.
  type LineWeights = map<string, int>

  datatype Entry = Entry(node: string, ip: string, weight: int, weightSet: bool, share: real,
                         dnsEnabled: bool, status: Option<NodeStatus>, inRotation: bool)

  datatype LinePlan = LinePlan(code: string, entries: seq<Entry>)

  // ---------------------------------------------------------------- what a plan says

  // The last node listed under an id.
  function Find(nodes: seq<Node>, id: string): Option<Node> {
    if nodes == [] then None
    else if nodes[|nodes| - 1].id == id then Some(nodes[|nodes| - 1])
    else Find(nodes[..|nodes| - 1], id)
  }

  // Weighted, or not taken out of service.
  function Candidates(ws: LineWeights, nodes: seq<Node>): set<string> {
    ws.Keys + set n | n in nodes && !n.drained :: n.id
  }

  function WeightOf(ws: LineWeights, id: string): int { if id in ws then ws[id] else 0 }

  // `honored` says whether the provider can express weights at all.
  predicate Rotates(n: Option<Node>, w: int, honored: bool) {
    n.Some? && n.value.dnsEnabled && n.value.status != Down && (w > 0 || !honored)
  }

  function Truncate(x: real): int { if x >= 0.0 then x.Floor else -((-x).Floor) }

  function Round1(v: real): real { Truncate(v * 10.0 + 0.5) as real / 10.0 }

  function Exact(w: int, total: int): real
    requires total != 0
  {
    w as real / total as real * 100.0
  }

  function Share(rotates: bool, w: int, total: int): real {
    if rotates && total > 0 then Round1(Exact(w, total)) else 0.0
  }

  // The weights in rotation, added up.
  function Total(ids: seq<string>, ws: LineWeights, nodes: seq<Node>, honored: bool): int {
    if ids == [] then 0 else
    var last := ids[|ids| - 1];
    Total(ids[..|ids| - 1], ws, nodes, honored)
        + (if Rotates(Find(nodes, last), WeightOf(ws, last), honored) then WeightOf(ws, last) else 0)
  }

  function EntryOf(id: string, ws: LineWeights, nodes: seq<Node>, honored: bool, total: int): Entry {
    var n, w := Find(nodes, id), WeightOf(ws, id);
    Entry(id, if n.Some? then n.value.ip else "", w, id in ws, Share(Rotates(n, w, honored), w, total),
          n.Some? && n.value.dnsEnabled, if n.Some? then Some(n.value.status) else None, Rotates(n, w, honored))
  }

  ghost predicate Ascending(ids: seq<string>) { forall i, j | 0 <= i < j < |ids| :: Less(ids[i], ids[j]) }

  function Ids(entries: seq<Entry>): seq<string> { seq(|entries|, i requires 0 <= i < |entries| => entries[i].node) }

  // Each candidate exactly once, in order, with its share of the rotation.
  ghost predicate Describes(entries: seq<Entry>, ws: LineWeights, nodes: seq<Node>, honored: bool) {
    && Ascending(Ids(entries))
    && (forall id :: id in Ids(entries) <==> id in Candidates(ws, nodes))
    && forall i | 0 <= i < |entries| ::
       entries[i] == EntryOf(entries[i].node, ws, nodes, honored, Total(Ids(entries), ws, nodes, honored))
  }

  // ---------------------------------------------------------------- building it

  method IndexById(nodes: seq<Node>) returns (byId: map<string, Node>)
    ensures forall id :: (id in byId <==> Find(nodes, id).Some?) && (id in byId ==> Find(nodes, id) == Some(byId[id]))
  {
    byId := map[];
    for i := 0 to |nodes|
      invariant forall id :: id in byId <==> Find(nodes[..i], id).Some?
      invariant forall id | id in byId :: Find(nodes[..i], id) == Some(byId[id])
    {
      byId := byId[nodes[i].id := nodes[i]];
      assert nodes[..i + 1][..i] == nodes[..i];
    }
    assert nodes[..|nodes|] == nodes;
  }

  ghost predicate NoRepeats(ids: seq<string>) { forall i, j | 0 <= i < j < |ids| :: ids[i] != ids[j] }

  lemma OneMore(ids: seq<string>, id: string)
    requires NoRepeats(ids) && id !in ids
    ensures NoRepeats(ids + [id]) && forall x :: x in ids + [id] <==> x in ids || x == id
  {
  }

  // The weighted nodes in any order, then the listed nodes still in service.
  method CollectIds(ws: LineWeights, nodes: seq<Node>) returns (ids: seq<string>)
    ensures NoRepeats(ids) && forall id :: id in ids <==> id in Candidates(ws, nodes)
  {
    ids := [];
    var todo := ws.Keys;
    while todo != {}
      invariant NoRepeats(ids) && todo <= ws.Keys && forall id :: id in ids <==> id in ws && id !in todo
      decreases |todo|
    {
      var id :| id in todo;
      OneMore(ids, id);
      todo := todo - {id};
      ids := ids + [id];
    }
    for k := 0 to |nodes|
      invariant NoRepeats(ids) && forall id :: id in ids <==> id in Candidates(ws, nodes[..k])
    {
      var n := nodes[k];
      OneMoreCandidate(ws, nodes, k);
      if n.id !in ids && !n.drained {
        OneMore(ids, n.id);
        ids := ids + [n.id];
      }
    }
    assert nodes[..|nodes|] == nodes;
  }

  lemma OneMoreCandidate(ws: LineWeights, nodes: seq<Node>, k: nat)
    requires k < |nodes|
    ensures forall id :: id in Candidates(ws, nodes[..k + 1]) <==>
            id in Candidates(ws, nodes[..k]) || (id == nodes[k].id && !nodes[k].drained)
  {
    assert nodes[..k + 1] == nodes[..k] + [nodes[k]];
    assert nodes[k] in nodes[..k + 1];
    assert forall n | n in nodes[..k] :: n in nodes[..k + 1];
  }

  // Who is in rotation, and the weight of all who are.
  method Arrange(ids: seq<string>, ws: LineWeights, nodes: seq<Node>, honored: bool)
    returns (entries: seq<Entry>, total: int)
    ensures |entries| == |ids| && total == Total(ids, ws, nodes, honored)
    ensures forall k | 0 <= k < |ids| :: entries[k] == EntryOf(ids[k], ws, nodes, honored, 0)
  {
    var byId := IndexById(nodes);
    total := 0;
    entries := [];
    for i := 0 to |ids|
      invariant |entries| == i && total == Total(ids[..i], ws, nodes, honored)
      invariant forall k | 0 <= k < i :: entries[k] == EntryOf(ids[k], ws, nodes, honored, 0)
    {
      var id := ids[i];
      var known := id in byId;
      var n := if known then byId[id] else Node(id, "", false, Up, false);
      var w := if id in ws then ws[id] else 0;
      var rotates := known && n.dnsEnabled && n.status != Down && (w > 0 || !honored);
      if rotates {
        total := total + w;
      }
      var status := if known then Some(n.status) else None;
      entries := entries + [Entry(id, n.ip, w, id in ws, 0.0, n.dnsEnabled, status, rotates)];
      assert ids[..i + 1][..i] == ids[..i];
    }
    assert ids[..|ids|] == ids;
  }

  // Normalise over those in rotation; without any weight there is nothing to divide.
  method BuildLine(ws: LineWeights, nodes: seq<Node>, honored: bool) returns (entries: seq<Entry>)
    ensures Describes(entries, ws, nodes, honored)
  {
    var unsorted := CollectIds(ws, nodes);
    var ids := Sort((id: string) => id, unsorted);
    SortedOnce(unsorted, ids);
    var total;
    entries, total := Arrange(ids, ws, nodes, honored);
    for i := 0 to |entries|
      invariant |entries| == |ids|
      invariant forall k | 0 <= k < |ids| ::
                entries[k] == EntryOf(ids[k], ws, nodes, honored, if k < i then total else 0)
    {
      if entries[i].inRotation && total > 0 {
        entries := entries[i := entries[i].(share := Round1(entries[i].weight as real / total as real * 100.0))];
      }
    }
    assert Ids(entries) == ids;
  }

  method Build(weights: map<string, LineWeights>, nodes: seq<Node>, honored: bool) returns (plan: seq<LinePlan>)
    ensures IsPlan(plan, weights, nodes, honored)
  {
    plan := [];
    for i := 0 to |LINES|
      invariant |plan| == i
      invariant forall k | 0 <= k < i ::
                  plan[k].code == LINES[k] && Describes(plan[k].entries, OfLine(weights, LINES[k]), nodes, honored)
    {
      var entries := BuildLine(OfLine(weights, LINES[i]), nodes, honored);
      plan := plan + [LinePlan(LINES[i], entries)];
    }
  }

  function OfLine(weights: map<string, LineWeights>, code: string): LineWeights {
    if code in weights then weights[code] else map[]
  }

  ghost predicate IsPlan(plan: seq<LinePlan>, weights: map<string, LineWeights>, nodes: seq<Node>, honored: bool) {
    && |plan| == |LINES|
    && forall k | 0 <= k < |plan| ::
       plan[k].code == LINES[k] && Describes(plan[k].entries, OfLine(weights, LINES[k]), nodes, honored)
  }

  // The entries of a line that get traffic: of the first plan for the code, if any.
  method Rotation(plan: seq<LinePlan>, code: string) returns (r: seq<Entry>)
    ensures r == RotationOf(plan, code)
  {
    for i := 0 to |plan|
      invariant RotationOf(plan, code) == RotationOf(plan[i..], code)
    {
      if plan[i].code == code {
        r := [];
        for j := 0 to |plan[i].entries|
          invariant r == Kept(plan[i].entries[..j])
        {
          assert plan[i].entries[..j + 1][..j] == plan[i].entries[..j];
          if plan[i].entries[j].inRotation {
            r := r + [plan[i].entries[j]];
          }
        }
        assert plan[i].entries[..|plan[i].entries|] == plan[i].entries;
        return;
      }
    }
    return [];
  }

  function Kept(entries: seq<Entry>): seq<Entry> {
    if entries == [] then [] else
    Kept(entries[..|entries| - 1]) + (if entries[|entries| - 1].inRotation then [entries[|entries| - 1]] else [])
  }

  function RotationOf(plan: seq<LinePlan>, code: string): seq<Entry> {
    if plan == [] then [] else if plan[0].code == code then Kept(plan[0].entries) else RotationOf(plan[1..], code)
  }

  // ---------------------------------------------------------------- order

  lemma SortedOnce(unsorted: seq<string>, ids: seq<string>)
    requires Sorted((id: string) => id, ids) && multiset(ids) == multiset(unsorted)
    requires NoRepeats(unsorted)
    ensures Ascending(ids) && forall id :: id in ids <==> id in unsorted
  {
    forall id ensures id in ids <==> id in unsorted {
      assert id in multiset(ids) <==> id in multiset(unsorted);
    }
    var key := (id: string) => id;
    forall i, j | 0 <= i < j < |ids| ensures Less(ids[i], ids[j]) {
      assert !Less(key(ids[j]), key(ids[i]));
      LessIsTotal(ids[i], ids[j]);
      if ids[i] == ids[j] {
        TwicePresent(ids, i, j);
        var p :| 0 <= p < |unsorted| && unsorted[p] == ids[i];
        OncePresent(unsorted, p);
      }
    }
  }

  lemma {:induction false} AscendingIsUnique(a: seq<string>, b: seq<string>)
    requires Ascending(a) && Ascending(b) && forall id :: id in a <==> id in b
    ensures a == b
  {
    assert a != [] ==> a[0] in b;
    assert b != [] ==> b[0] in a;
    if a != [] {
      LeastFirst(a, b[0]);
      LeastFirst(b, a[0]);
      LessIsTotal(a[0], b[0]);
      LessIsTotal(a[0], a[0]);
      assert a[0] == b[0];
      forall id ensures id in a[1..] <==> id in b[1..] {
        RestOf(a, id);
        RestOf(b, id);
      }
      AscendingIsUnique(a[1..], b[1..]);
      assert a == [a[0]] + a[1..] && b == [b[0]] + b[1..];
    }
  }

  lemma LeastFirst(a: seq<string>, x: string)
    requires Ascending(a) && x in a
    ensures x == a[0] || Less(a[0], x)
  {
    var i :| 0 <= i < |a| && a[i] == x;
  }

  lemma RestOf(a: seq<string>, x: string)
    requires a != [] && Ascending(a)
    ensures x in a[1..] <==> x in a && x != a[0]
  {
    assert a == [a[0]] + a[1..];
    LessIsTotal(a[0], a[0]);
  }

  ghost predicate DistinctIds(nodes: seq<Node>) { forall i, j | 0 <= i < j < |nodes| :: nodes[i].id != nodes[j].id }

  lemma {:induction false} FindIsMembership(nodes: seq<Node>, n: Node)
    requires DistinctIds(nodes)
    ensures Find(nodes, n.id) == Some(n) <==> n in nodes
    ensures Find(nodes, n.id).Some? ==> Find(nodes, n.id).value in nodes && Find(nodes, n.id).value.id == n.id
  {
    if nodes != [] {
      var init, last := nodes[..|nodes| - 1], nodes[|nodes| - 1];
      assert nodes == init + [last];
      FindIsMembership(init, n);
    }
  }

  lemma SameFind(a: seq<Node>, b: seq<Node>, id: string)
    requires DistinctIds(a) && DistinctIds(b) && forall n :: n in a <==> n in b
    ensures Find(a, id) == Find(b, id)
  {
    FindIsMembership(a, Node(id, "", false, Up, false));
    FindIsMembership(b, Node(id, "", false, Up, false));
    if Find(a, id).Some? { FindIsMembership(b, Find(a, id).value); }
    if Find(b, id).Some? { FindIsMembership(a, Find(b, id).value); }
  }

  lemma {:induction false} SameTotal(ids: seq<string>, ws: LineWeights, a: seq<Node>, b: seq<Node>, honored: bool)
    requires DistinctIds(a) && DistinctIds(b) && forall n :: n in a <==> n in b
    ensures Total(ids, ws, a, honored) == Total(ids, ws, b, honored)
  {
    if ids != [] {
      SameTotal(ids[..|ids| - 1], ws, a, b, honored);
      SameFind(a, b, ids[|ids| - 1]);
    }
  }

  // The same nodes in any order, and the weights in any order, give the same plan.
  lemma PlanIgnoresInputOrder(x: seq<Entry>, y: seq<Entry>, ws: LineWeights, a: seq<Node>, b: seq<Node>, honored: bool)
    requires DistinctIds(a) && DistinctIds(b) && forall n :: n in a <==> n in b
    requires Describes(x, ws, a, honored) && Describes(y, ws, b, honored)
    ensures x == y
  {
    assert Candidates(ws, a) == Candidates(ws, b);
    AscendingIsUnique(Ids(x), Ids(y));
    assert |x| == |Ids(x)| == |Ids(y)| == |y|;
    SameTotal(Ids(x), ws, a, b, honored);
    forall i | 0 <= i < |x| ensures x[i] == y[i] {
      assert x[i].node == Ids(x)[i] == Ids(y)[i] == y[i].node;
      SameFind(a, b, x[i].node);
    }
  }

  // ---------------------------------------------------------------- shares

  lemma RoundingIsClose(v: real)
    requires v >= 0.0
    ensures -0.05 <= Round1(v) - v <= 0.05 && Round1(v) >= 0.0
  {
  }

  lemma RoundingIsMonotone(a: real, b: real)
    requires 0.0 <= a <= b
    ensures Round1(a) <= Round1(b)
  {
    assert Truncate(a * 10.0 + 0.5) <= Truncate(b * 10.0 + 0.5);
  }

  lemma ExactIsMonotone(w: int, v: int, total: int)
    requires 0 <= w <= v && total > 0
    ensures 0.0 <= Exact(w, total) <= Exact(v, total)
  {
    var t := total as real;
    assert w as real / t <= v as real / t by {
      assert (v as real - w as real) / t >= 0.0;
      assert (v as real - w as real) / t == v as real / t - w as real / t;
    }
  }

  lemma ExactAdds(w: int, v: int, total: int)
    requires total > 0
    ensures Exact(w + v, total) == Exact(w, total) + Exact(v, total)
  {
    var t := total as real;
    assert (w as real + v as real) / t == w as real / t + v as real / t;
  }

  lemma ExactWhole(total: int)
    requires total > 0
    ensures Exact(0, total) == 0.0 && Exact(total, total) == 100.0
  {
    var t := total as real;
    assert t / t == 1.0 && 0.0 / t == 0.0;
  }

  // The shares of a line and the number of its entries in rotation, added up.
  function ShareSum(entries: seq<Entry>): real {
    if entries == [] then 0.0 else ShareSum(entries[..|entries| - 1]) + entries[|entries| - 1].share
  }

  function Rotating(entries: seq<Entry>): nat {
    if entries == [] then 0
    else Rotating(entries[..|entries| - 1]) + (if entries[|entries| - 1].inRotation then 1 else 0)
  }

  ghost predicate NoNegativeWeights(ws: LineWeights) { forall id | id in ws :: ws[id] >= 0 }

  lemma {:induction false} PrefixSumsAreClose(entries: seq<Entry>, ws: LineWeights, nodes: seq<Node>, honored: bool,
                                              total: int)
    requires NoNegativeWeights(ws) && total > 0
    requires forall i | 0 <= i < |entries| :: entries[i] == EntryOf(entries[i].node, ws, nodes, honored, total)
    ensures var exact, off := Exact(Total(Ids(entries), ws, nodes, honored), total), 0.05 * Rotating(entries) as real;
            exact - off <= ShareSum(entries) <= exact + off
  {
    if entries == [] {
      ExactWhole(total);
    } else {
      var init, last := entries[..|entries| - 1], entries[|entries| - 1];
      assert Ids(entries)[..|entries| - 1] == Ids(init);
      PrefixSumsAreClose(init, ws, nodes, honored, total);
      ExactAdds(Total(Ids(init), ws, nodes, honored), last.weight, total);
      ExactIsMonotone(0, last.weight, total);
      RoundingIsClose(Exact(last.weight, total));
    }
  }

  // With k nodes in rotation and some weight among them, the shares add up to 100 within 0.05 k;
  // with no weight they are all zero.
  lemma SharesAddUp(entries: seq<Entry>, ws: LineWeights, nodes: seq<Node>, honored: bool)
    requires Describes(entries, ws, nodes, honored) && NoNegativeWeights(ws)
    ensures var total, off := Total(Ids(entries), ws, nodes, honored), 0.05 * Rotating(entries) as real;
            && (total > 0 ==> 100.0 - off <= ShareSum(entries) <= 100.0 + off)
            && (total == 0 ==> forall e | e in entries :: e.share == 0.0)
  {
    var total := Total(Ids(entries), ws, nodes, honored);
    if total > 0 {
      PrefixSumsAreClose(entries, ws, nodes, honored, total);
      ExactWhole(total);
    }
  }

  // The weight of a line's entries in rotation.
  function RotatingWeight(entries: seq<Entry>): int {
    if entries == [] then 0
    else RotatingWeight(entries[..|entries| - 1]) +
         (if entries[|entries| - 1].inRotation then entries[|entries| - 1].weight else 0)
  }

  lemma {:induction false} TotalIsRotatingWeight(entries: seq<Entry>, ws: LineWeights, nodes: seq<Node>, honored: bool,
                                                 total: int)
    requires forall i | 0 <= i < |entries| :: entries[i] == EntryOf(entries[i].node, ws, nodes, honored, total)
    ensures Total(Ids(entries), ws, nodes, honored) == RotatingWeight(entries)
  {
    if entries != [] {
      assert Ids(entries)[..|entries| - 1] == Ids(entries[..|entries| - 1]);
      TotalIsRotatingWeight(entries[..|entries| - 1], ws, nodes, honored, total);
    }
  }

  // The share of a node in rotation is its part, in percent, of the weight in rotation, within 0.05.
  lemma ShareIsItsPart(entries: seq<Entry>, ws: LineWeights, nodes: seq<Node>, honored: bool, i: nat)
    requires Describes(entries, ws, nodes, honored) && NoNegativeWeights(ws) && i < |entries|
    ensures var e, all := entries[i], RotatingWeight(entries);
            if e.inRotation && all > 0 then -0.05 <= e.share - e.weight as real / all as real * 100.0 <= 0.05
            else e.share == 0.0
  {
    var total := Total(Ids(entries), ws, nodes, honored);
    TotalIsRotatingWeight(entries, ws, nodes, honored, total);
    if entries[i].inRotation && total > 0 {
      ExactIsMonotone(0, entries[i].weight, total);
      RoundingIsClose(Exact(entries[i].weight, total));
    }
  }

  // What an entry says of its node, for nodes with different ids.
  lemma EntrySaysOfItsNode(entries: seq<Entry>, ws: LineWeights, nodes: seq<Node>, honored: bool, i: nat)
    requires Describes(entries, ws, nodes, honored) && DistinctIds(nodes) && i < |entries|
    ensures var e := entries[i];
            && e.weight == (if e.node in ws then ws[e.node] else 0) && (e.weightSet <==> e.node in ws)
            && (forall n | n in nodes && n.id == e.node ::
                  && e.ip == n.ip && e.dnsEnabled == n.dnsEnabled && e.status == Some(n.status)
                  && (e.inRotation <==> n.dnsEnabled && n.status != Down && (!honored || e.weight > 0)))
            && ((forall n | n in nodes :: n.id != e.node) ==> e.ip == "" && e.status == None && !e.inRotation)
  {
    var e := entries[i];
    forall n | n in nodes && n.id == e.node ensures Find(nodes, e.node) == Some(n) {
      FindIsMembership(nodes, n);
    }
    FindIsMembership(nodes, Node(e.node, "", false, Up, false));
  }

  // A node outside rotation has no share; within it, more weight is never less share.
  lemma SharesFollowWeights(entries: seq<Entry>, ws: LineWeights, nodes: seq<Node>, honored: bool, i: nat, j: nat)
    requires Describes(entries, ws, nodes, honored) && NoNegativeWeights(ws) && i < |entries| && j < |entries|
    ensures !entries[i].inRotation ==> entries[i].share == 0.0
    ensures entries[i].inRotation && entries[j].inRotation && entries[i].weight <= entries[j].weight ==>
              0.0 <= entries[i].share <= entries[j].share
  {
    var total := Total(Ids(entries), ws, nodes, honored);
    if entries[i].inRotation && entries[j].inRotation && entries[i].weight <= entries[j].weight && total > 0 {
      ExactIsMonotone(entries[i].weight, entries[j].weight, total);
      RoundingIsMonotone(Exact(entries[i].weight, total), Exact(entries[j].weight, total));
      RoundingIsClose(Exact(entries[i].weight, total));
    }
  }

  // ---------------------------------------------------------------- who gets traffic

  lemma {:induction false} KeptMeansRotating(entries: seq<Entry>, e: Entry)
    ensures e in Kept(entries) <==> e in entries && e.inRotation
  {
    if entries != [] {
      var init, last := entries[..|entries| - 1], entries[|entries| - 1];
      assert entries == init + [last];
      KeptMeansRotating(init, e);
    }
  }

  ghost predicate GetsTraffic(plan: seq<LinePlan>, code: string, id: string) {
    exists e | e in RotationOf(plan, code) :: e.node == id
  }

  lemma {:induction false} RotationOfLine(plan: seq<LinePlan>, code: string, k: nat)
    requires k < |plan| && plan[k].code == code && forall i | 0 <= i < k :: plan[i].code != code
    ensures RotationOf(plan, code) == Kept(plan[k].entries)
  {
    if k > 0 { RotationOfLine(plan[1..], code, k - 1); }
  }

  lemma {:induction false} NoSuchLine(plan: seq<LinePlan>, code: string)
    requires forall i | 0 <= i < |plan| :: plan[i].code != code
    ensures RotationOf(plan, code) == []
  {
    if plan != [] { NoSuchLine(plan[1..], code); }
  }

  lemma KeptIsExact(entries: seq<Entry>, ws: LineWeights, nodes: seq<Node>, honored: bool, id: string)
    requires Describes(entries, ws, nodes, honored)
    ensures (exists e | e in Kept(entries) :: e.node == id) <==>
            id in Candidates(ws, nodes) && Rotates(Find(nodes, id), WeightOf(ws, id), honored)
  {
    if id in Candidates(ws, nodes) {
      assert id in Ids(entries);
      var i :| 0 <= i < |entries| && Ids(entries)[i] == id;
      KeptMeansRotating(entries, entries[i]);
    }
    forall e | e in Kept(entries) && e.node == id
      ensures id in Candidates(ws, nodes) && Rotates(Find(nodes, id), WeightOf(ws, id), honored)
    {
      KeptMeansRotating(entries, e);
      var i :| 0 <= i < |entries| && entries[i] == e;
      assert Ids(entries)[i] == id;
    }
  }

  lemma RotationByLookup(plan: seq<LinePlan>, weights: map<string, LineWeights>, nodes: seq<Node>, honored: bool,
                         code: string, id: string)
    requires IsPlan(plan, weights, nodes, honored)
    ensures var ws := OfLine(weights, code);
            GetsTraffic(plan, code, id) <==>
                code in LINES && id in Candidates(ws, nodes) && Rotates(Find(nodes, id), WeightOf(ws, id), honored)
  {
    if code in LINES {
      var k :| 0 <= k < |LINES| && LINES[k] == code;
      RotationOfLine(plan, code, k);
      KeptIsExact(plan[k].entries, OfLine(weights, code), nodes, honored, id);
    } else {
      NoSuchLine(plan, code);
    }
  }

  // A node is in a line's rotation exactly when it is known, switched on and not down, has a weight
  // there or is not out of service, and has a positive weight wherever weights can be expressed.
  lemma RotationIsExact(plan: seq<LinePlan>, weights: map<string, LineWeights>, nodes: seq<Node>, honored: bool,
                        code: string, id: string)
    requires IsPlan(plan, weights, nodes, honored) && DistinctIds(nodes)
    ensures var ws: LineWeights := if code in weights then weights[code] else map[];
            GetsTraffic(plan, code, id) <==>
              && code in LINES
              && exists n | n in nodes ::
                   && n.id == id && n.dnsEnabled && n.status != Down && (id in ws || !n.drained)
                   && (!honored || (id in ws && ws[id] > 0))
  {
    RotationByLookup(plan, weights, nodes, honored, code, id);
    FindIsMembership(nodes, Node(id, "", false, Up, false));
    forall n | n in nodes && n.id == id ensures Find(nodes, id) == Some(n) {
      FindIsMembership(nodes, n);
    }
    var ws := OfLine(weights, code);
    assert id in Candidates(ws, nodes) <==> id in ws || exists n | n in nodes :: !n.drained && n.id == id;
  }
}
