/**
 From people's decisions to published addresses: the node rows, the plan built from them, and the
 records a completed sync leaves, taken together.
 */
module Publish {
  import opened Wrappers
  import opened Plan
  import NodeIntent
  import CloudflareDns
  import DnsPod

  // Some node with the address is in rotation on some line.
  ghost predicate Serves(plan: seq<LinePlan>, nodes: seq<Node>, ip: string) {
    exists code, id | code in LINES ::
        GetsTraffic(plan, code, id) && Find(nodes, id).Some? && Find(nodes, id).value.ip == ip
  }

  // After a completed sync an address is published exactly when some node with it is in rotation.
  lemma PublishedExactlyWhenServing(plan: seq<LinePlan>, weights: map<string, LineWeights>, nodes: seq<Node>,
                                    honored: bool,
                                    want: seq<string>, rs: CloudflareDns.Records, host: string, ip: string)
    requires IsPlan(plan, weights, nodes, honored) && CloudflareDns.Covers(want, plan, |LINES|)
    requires CloudflareDns.Exactly(rs, host, want)
    ensures CloudflareDns.Exists(rs, host, ip) <==> ip != "" && Serves(plan, nodes, ip)
  {
    assert CloudflareDns.Exists(rs, host, ip) <==> ip in want;
    forall c | 0 <= c < |LINES|
      ensures CloudflareDns.WantedOn(plan, LINES[c], ip) ==> ip != "" && Serves(plan, nodes, ip)
    {
      CloudflareDns.WantedIsTheRotation(plan, weights, nodes, honored, LINES[c], ip);
    }
    if ip != "" && Serves(plan, nodes, ip) {
      var code, id :| code in LINES && GetsTraffic(plan, code, id) && Find(nodes, id).Some?
          && Find(nodes, id).value.ip == ip;
      CloudflareDns.WantedIsTheRotation(plan, weights, nodes, honored, code, ip);
      var c :| 0 <= c < |LINES| && LINES[c] == code;
      assert CloudflareDns.WantedOn(plan, LINES[c], ip);
    }
  }

  // Some node in rotation on a line has the address, said of the nodes.
  lemma ServingNodes(plan: seq<LinePlan>, weights: map<string, LineWeights>, nodes: seq<Node>, honored: bool,
                     code: string, ip: string)
    requires IsPlan(plan, weights, nodes, honored) && DistinctIds(nodes) && code in LINES
    ensures var ws: LineWeights := if code in weights then weights[code] else map[];
            (exists id: string :: DnsPod.ServesOn(plan, nodes, code, ip, id)) <==>
              exists n | n in nodes ::
                && n.ip == ip && n.dnsEnabled && n.status != Down && (n.id in ws || !n.drained)
                && (!honored || (n.id in ws && ws[n.id] > 0))
  {
    forall n | n in nodes ensures Find(nodes, n.id) == Some(n) { FindIsMembership(nodes, n); }
    forall id ensures Find(nodes, id).Some? ==> Find(nodes, id).value in nodes && Find(nodes, id).value.id == id {
      FoundIsListed(nodes, id);
    }
    var ws: LineWeights := if code in weights then weights[code] else map[];
    forall id: string | DnsPod.ServesOn(plan, nodes, code, ip, id)
      ensures exists n | n in nodes ::
                && n.ip == ip && n.dnsEnabled && n.status != Down && (n.id in ws || !n.drained)
                && (!honored || (n.id in ws && ws[n.id] > 0))
    {
      RotationIsExact(plan, weights, nodes, honored, code, id);
    }
    forall n | n in nodes && n.ip == ip && n.dnsEnabled && n.status != Down && (n.id in ws || !n.drained)
        && (!honored || (n.id in ws && ws[n.id] > 0))
      ensures DnsPod.ServesOn(plan, nodes, code, ip, n.id)
    {
      RotationIsExact(plan, weights, nodes, honored, code, n.id);
    }
  }

  // The exact condition on the nodes: after a completed sync an address is published exactly when, on
  // some line, some node with it is switched on and not down, weighted there or still in service, and
  // weighted wherever weights count.
  lemma PublishedExactlyForLiveNodes(plan: seq<LinePlan>, weights: map<string, LineWeights>, nodes: seq<Node>,
                                     honored: bool,
                                     want: seq<string>, rs: CloudflareDns.Records, host: string, ip: string)
    requires IsPlan(plan, weights, nodes, honored) && DistinctIds(nodes) && CloudflareDns.Covers(want, plan, |LINES|)
    requires CloudflareDns.Exactly(rs, host, want)
    ensures CloudflareDns.Exists(rs, host, ip) <==>
              ip != "" && exists code | code in LINES ::
                var ws: LineWeights := if code in weights then weights[code] else map[];
                exists n | n in nodes ::
                  && n.ip == ip && n.dnsEnabled && n.status != Down && (n.id in ws || !n.drained)
                  && (!honored || (n.id in ws && ws[n.id] > 0))
  {
    PublishedExactlyWhenServing(plan, weights, nodes, honored, want, rs, host, ip);
    if Serves(plan, nodes, ip) {
      var code, id: string :| code in LINES && GetsTraffic(plan, code, id) && Find(nodes, id).Some?
          && Find(nodes, id).value.ip == ip;
      assert DnsPod.ServesOn(plan, nodes, code, ip, id);
    }
    forall code | code in LINES
      ensures var ws: LineWeights := if code in weights then weights[code] else map[];
              (exists id: string :: DnsPod.ServesOn(plan, nodes, code, ip, id)) <==>
                exists n | n in nodes ::
                  && n.ip == ip && n.dnsEnabled && n.status != Down && (n.id in ws || !n.drained)
                  && (!honored || (n.id in ws && ws[n.id] > 0))
    {
      ServingNodes(plan, weights, nodes, honored, code, ip);
    }
  }

  // The address of a node that is down is in no completed sync's records, unless a node that is
  // switched on and not down shares it.
  lemma DownIsUnpublished(plan: seq<LinePlan>, weights: map<string, LineWeights>, nodes: seq<Node>, honored: bool,
                          want: seq<string>, rs: CloudflareDns.Records, host: string, down: Node)
    requires IsPlan(plan, weights, nodes, honored) && DistinctIds(nodes) && CloudflareDns.Covers(want, plan, |LINES|)
    requires CloudflareDns.Exactly(rs, host, want)
    requires down in nodes && down.status == Down
    requires forall n | n in nodes && n.ip == down.ip && n != down :: !n.dnsEnabled || n.status == Down
    ensures !CloudflareDns.Exists(rs, host, down.ip)
  {
    PublishedExactlyForLiveNodes(plan, weights, nodes, honored, want, rs, host, down.ip);
  }

  // The same at the provider that keeps the lines apart: exactly on the lines where such a node is in
  // rotation, and nowhere else.
  lemma PublishedOnLineExactlyForLiveNodes(plan: seq<LinePlan>, weights: map<string, LineWeights>, nodes: seq<Node>,
                                           honored: bool,
                                           want: DnsPod.Wanted, rs: DnsPod.Records, code: string, ip: string)
    requires IsPlan(plan, weights, nodes, honored) && DistinctIds(nodes)
    requires DnsPod.Collected(want, plan, |plan|, 0) && DnsPod.Exactly(rs, want) && code in LINES
    ensures var ws: LineWeights := if code in weights then weights[code] else map[];
            code in DnsPod.LINE_NAMES &&
            (DnsPod.Exists(rs, DnsPod.Key(DnsPod.LINE_NAMES[code], ip)) <==>
              ip != "" && exists n | n in nodes ::
                && n.ip == ip && n.dnsEnabled && n.status != Down && (n.id in ws || !n.drained)
                && (!honored || (n.id in ws && ws[n.id] > 0)))
  {
    DnsPod.WantedIsTheRotation(plan, weights, nodes, honored, want, code, ip);
    ServingNodes(plan, weights, nodes, honored, code, ip);
    assert DnsPod.IsManagedLine(DnsPod.LINE_NAMES[code]);
  }

  // And each of these records carries, if the provider keeps weights, the weight on that line of a
  // node that has the address.
  lemma PublishedWithItsWeight(plan: seq<LinePlan>, weights: map<string, LineWeights>, nodes: seq<Node>, honored: bool,
                               want: DnsPod.Wanted, rs: DnsPod.Records, code: string, id: nat)
    requires IsPlan(plan, weights, nodes, honored) && DistinctIds(nodes)
    requires DnsPod.Collected(want, plan, |plan|, 0) && DnsPod.Exactly(rs, want)
    requires code in LINES && code in DnsPod.LINE_NAMES
    requires id in rs && rs[id].typ == "A" && rs[id].line == DnsPod.LINE_NAMES[code] && rs[id].weight.Some?
    ensures var ws: LineWeights := if code in weights then weights[code] else map[];
            exists n | n in nodes ::
              n.ip == rs[id].value && rs[id].weight.value == if n.id in ws then ws[n.id] else 0
  {
    assert DnsPod.IsManagedLine(rs[id].line) && DnsPod.Managed(rs[id]);
    DnsPod.WantedIsTheRotation(plan, weights, nodes, honored, want, code, rs[id].value);
    var node: string :| DnsPod.ServesOn(plan, nodes, code, rs[id].value, node)
                        && want[DnsPod.KeyOf(rs[id])] == WeightOf(OfLine(weights, code), node);
    FoundIsListed(nodes, node);
  }

  // A node a person switched off or took out is not published by any completed sync, however
  // often the system saw it go down and come back, until a person switches it on; provided no
  // other node shares its address.
  lemma SwitchedOffIsUnpublished(row: NodeIntent.Row, off: NodeIntent.Step, steps: seq<NodeIntent.Step>, id: string,
                                 ip: string,
                                 plan: seq<LinePlan>, weights: map<string, LineWeights>, nodes: seq<Node>,
                                     honored: bool,
                                 want: seq<string>, rs: CloudflareDns.Records, host: string)
    requires off.SwitchOff? || off.Drain?
    requires forall s | s in steps :: !s.SwitchOn?
    requires Find(nodes, id) == Some(NodeIntent.AsNode(id, ip, NodeIntent.After(NodeIntent.Apply(row, off), steps)))
    requires forall other | Find(nodes, other).Some? && Find(nodes, other).value.ip == ip :: other == id
    requires IsPlan(plan, weights, nodes, honored) && CloudflareDns.Covers(want, plan, |LINES|)
    requires CloudflareDns.Exactly(rs, host, want)
    ensures !CloudflareDns.Exists(rs, host, ip)
  {
    PublishedExactlyWhenServing(plan, weights, nodes, honored, want, rs, host, ip);
    forall code, other | code in LINES && Find(nodes, other).Some? && Find(nodes, other).value.ip == ip
      ensures !GetsTraffic(plan, code, other)
    {
      NodeIntent.PersonsOffGetsNoTraffic(row, off, steps, id, ip, plan, weights, nodes, honored, code);
    }
  }

  // A node the system removed is published again by the first sync after its recovery, on any
  // line where it has a weight or weights do not count.
  lemma RecoveredIsPublished(row: NodeIntent.Row, before: seq<NodeIntent.Step>, warn: bool, id: string, ip: string,
                             code: string,
                             plan: seq<LinePlan>, weights: map<string, LineWeights>, nodes: seq<Node>, honored: bool,
                             want: seq<string>, rs: CloudflareDns.Records, host: string)
    requires row.dnsEnabled && !row.drained && (forall s | s in before :: s.Beat? || s.TakeDown?) && ip != ""
    requires var removed := NodeIntent.After(NodeIntent.Apply(row, NodeIntent.TakeDown), before);
             Find(nodes, id) == Some(NodeIntent.AsNode(id, ip,
                 NodeIntent.Apply(NodeIntent.Apply(removed, NodeIntent.Beat(warn)), NodeIntent.PutBack)))
    requires code in LINES && (WeightOf(OfLine(weights, code), id) > 0 || !honored)
    requires IsPlan(plan, weights, nodes, honored) && CloudflareDns.Covers(want, plan, |LINES|)
    requires CloudflareDns.Exactly(rs, host, want)
    ensures CloudflareDns.Exists(rs, host, ip)
  {
    NodeIntent.RemovedNodeReturns(row, before, warn);
    FoundIsListed(nodes, id);
    RotationByLookup(plan, weights, nodes, honored, code, id);
    PublishedExactlyWhenServing(plan, weights, nodes, honored, want, rs, host, ip);
  }

  lemma {:induction false} FoundIsListed(nodes: seq<Node>, id: string)
    ensures Find(nodes, id).Some? ==> Find(nodes, id).value in nodes && Find(nodes, id).value.id == id
  {
    if nodes != [] {
      assert nodes == nodes[..|nodes| - 1] + [nodes[|nodes| - 1]];
      FoundIsListed(nodes[..|nodes| - 1], id);
    }
  }
}
