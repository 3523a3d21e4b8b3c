/**
 Reconciling a host's address records at Cloudflare with the rotation of a plan.

 Every call to the provider may fail, with or without having taken effect. What matters holds
 after each single call, not only at the end: records are added before any is deleted.
 */
module CloudflareDns {
  import opened Wrappers
  import opened Plan
  import opened Provider
  import Sorting

  // The `rest` of a record, such as its lifetime, is never compared.
  datatype Record = Record(typ: string, name: string, content: string, rest: string)

  type Records = map<Id, Record>

  // The records this module is responsible for.
  predicate Managed(r: Record, host: string) { (r.typ == "A" || r.typ == "AAAA") && r.name == host }

  // The record type an address needs; which addresses are version 6 is left open.
  function TypeOf(ip: string, isV6: string -> bool): string { if isV6(ip) then "AAAA" else "A" }

  class Zone {
    var records: Records
    var nextId: Id
    ghost var trail: seq<Records>   // the records after each mutating call

    ghost predicate Valid()
      reads this
    {
      forall id | id in records :: id < nextId
    }

    constructor (initial: Records, free: Id)
      requires forall id | id in initial :: id < free
      ensures Valid() && records == initial && trail == []
    {
      records, nextId, trail := initial, free, [];
    }

    method Create(r: Record, fate: Fate) returns (ok: bool)
      requires Valid()
      modifies this
      ensures Valid() && ok == fate.Done? && trail == old(trail) + [records]
      ensures old(nextId) !in old(records)
      ensures records == if fate.Refused? then old(records) else old(records)[old(nextId) := r]
    {
      if !fate.Refused? {
        records := records[nextId := r];
        nextId := nextId + 1;
      }
      trail := trail + [records];
      ok := fate.Done?;
    }

    method Delete(id: Id, fate: Fate) returns (ok: bool)
      requires Valid()
      modifies this
      ensures Valid() && ok == fate.Done? && trail == old(trail) + [records]
      ensures records == if fate.Refused? then old(records) else old(records) - {id}
    {
      if !fate.Refused? {
        records := records - {id};
      }
      trail := trail + [records];
      ok := fate.Done?;
    }

    // The host's address records, in whatever order the provider gives them.
    method List(host: string) returns (have: seq<(Id, Record)>)
      ensures Lists(have, records, host)
      ensures forall i, j | 0 <= i < j < |have| :: have[i].0 != have[j].0
    {
      have := [];
      var todo := records.Keys;
      while todo != {}
        invariant todo <= records.Keys
        invariant forall k | 0 <= k < |have| ::
                  have[k].0 in records && have[k].0 !in todo && records[have[k].0] == have[k].1
                  && Managed(have[k].1, host)
        invariant forall id | id in records && id !in todo && Managed(records[id], host) :: (id, records[id]) in have
        invariant forall i, j | 0 <= i < j < |have| :: have[i].0 != have[j].0
        decreases |todo|
      {
        var id :| id in todo;
        todo := todo - {id};
        if Managed(records[id], host) {
          have := have + [(id, records[id])];
        }
      }
    }
  }

  // ---------------------------------------------------------------- what a run may do

  ghost predicate Exists(rs: Records, host: string, ip: string) {
    exists id | id in rs :: Managed(rs[id], host) && rs[id].content == ip
  }

  ghost predicate AllExist(rs: Records, host: string, want: seq<string>) {
    forall ip | ip in want :: Exists(rs, host, ip)
  }

  // From `before` to `now`: what is not managed is untouched, what is wanted stays as it is, only
  // wanted addresses are added, and nothing is gone unless every wanted address has its record.
  ghost predicate Careful(before: Records, now: Records, host: string, want: seq<string>) {
    && (forall id | id in before && id in now :: now[id] == before[id])
    && (forall id | id in before && id !in now ::
       Managed(before[id], host) && before[id].content !in want && AllExist(now, host, want))
    && (forall id | id in now && id !in before :: Managed(now[id], host) && now[id].content in want)
  }

  // The addresses of the host are exactly the wanted ones.
  ghost predicate Exactly(rs: Records, host: string, want: seq<string>) {
    AllExist(rs, host, want) && forall id | id in rs && Managed(rs[id], host) :: rs[id].content in want
  }

  // No two address records of the host have the same address.
  ghost predicate NoDuplicates(rs: Records, host: string) {
    forall i, j | i in rs && j in rs && Managed(rs[i], host) && Managed(rs[j], host)
        && rs[i].content == rs[j].content :: i == j
  }

  ghost predicate AnyManaged(rs: Records, host: string) { exists id | id in rs :: Managed(rs[id], host) }

  // So a host that had an address never loses its last one, at any point of any run.
  lemma NeverEmpty(before: Records, now: Records, host: string, want: seq<string>)
    requires Careful(before, now, host, want) && want != [] && AnyManaged(before, host)
    ensures AnyManaged(now, host)
  {
    var id :| id in before && Managed(before[id], host);
    if id in now {
      assert Managed(now[id], host);
    } else {
      assert Exists(now, host, want[0]);
    }
  }

  lemma CreateIsCareful(before: Records, now: Records, host: string, want: seq<string>, id: Id, r: Record)
    requires before.Keys <= now.Keys && Careful(before, now, host, want) && id !in now && Managed(r, host)
    requires r.content in want
    ensures Careful(before, now[id := r], host, want) && Exists(now[id := r], host, r.content)
    ensures forall ip | Exists(now, host, ip) :: Exists(now[id := r], host, ip)
  {
    var next := now[id := r];
    assert id in next && next[id] == r;
    forall ip | Exists(now, host, ip) ensures Exists(next, host, ip) {
      var k :| k in now && Managed(now[k], host) && now[k].content == ip;
      assert k in next && next[k] == now[k];
    }
  }

  lemma DeleteIsCareful(before: Records, now: Records, host: string, want: seq<string>, id: Id)
    requires Careful(before, now, host, want) && AllExist(now, host, want)
    requires id in before && Managed(before[id], host) && before[id].content !in want
    ensures Careful(before, now - {id}, host, want) && AllExist(now - {id}, host, want)
  {
    var next := now - {id};
    forall ip | ip in want ensures Exists(next, host, ip) {
      var k :| k in now && Managed(now[k], host) && now[k].content == ip;
      assert k in next && next[k] == now[k];
    }
  }

  // ---------------------------------------------------------------- the run

  ghost predicate TrailIsCareful(before: Records, trail: seq<Records>, start: nat, host: string, want: seq<string>) {
    forall k | start <= k < |trail| :: Careful(before, trail[k], host, want)
  }

  ghost predicate Lists(have: seq<(Id, Record)>, rs: Records, host: string) {
    && (forall k | 0 <= k < |have| :: have[k].0 in rs && rs[have[k].0] == have[k].1 && Managed(have[k].1, host))
    && (forall id | id in rs && Managed(rs[id], host) :: (id, rs[id]) in have)
  }

  ghost predicate HasAddress(have: seq<(Id, Record)>, ip: string) {
    exists k | 0 <= k < |have| :: have[k].1.content == ip
  }

  // Once the first i wanted addresses are dealt with.
  ghost predicate Added(before: Records, now: Records, host: string, want: seq<string>, i: nat) {
    && i <= |want| && before.Keys <= now.Keys && Careful(before, now, host, want)
    && (forall j | 0 <= j < i :: Exists(now, host, want[j]))
    && (forall id | id in now && id !in before :: now[id].content in want[..i])
    && (NoDuplicates(before, host) ==> NoDuplicates(now, host))
  }

  // Records of another host, or of another type than addresses have, are as they were.
  ghost predicate OthersKept(before: Records, now: Records, host: string) {
    && (forall id | id in before && (before[id].name != host || before[id].typ !in {"A", "AAAA"}) ::
          id in now && now[id] == before[id])
    && (forall id | id in now && id !in before :: now[id].name == host && now[id].typ in {"A", "AAAA"})
  }

  lemma CarefulKeepsOthers(before: Records, now: Records, host: string, want: seq<string>)
    requires Careful(before, now, host, want)
    ensures OthersKept(before, now, host)
  {
  }

  // Records added since `before` have the type their address needs.
  ghost predicate Typed(before: Records, now: Records, isV6: string -> bool) {
    && (forall id | id in now && id !in before && isV6(now[id].content) :: now[id].typ == "AAAA")
    && (forall id | id in now && id !in before && !isV6(now[id].content) :: now[id].typ == "A")
  }

  // What a failure leaves behind.
  ghost predicate Partly(before: Records, now: Records, host: string, want: seq<string>) {
    Careful(before, now, host, want) && (NoDuplicates(before, host) ==> NoDuplicates(now, host))
  }

  lemma PresentStep(before: Records, now: Records, host: string, want: seq<string>, i: nat, have: seq<(Id, Record)>,
                    k: nat)
    requires Lists(have, before, host) && Added(before, now, host, want, i) && i < |want| && k < |have|
    requires have[k].1.content == want[i]
    ensures Added(before, now, host, want, i + 1)
  {
    assert now[have[k].0] == have[k].1;
    assert Exists(now, host, want[i]);
    assert want[..i + 1] == want[..i] + [want[i]];
  }

  lemma AddStep(before: Records, now: Records, host: string, want: seq<string>, i: nat, have: seq<(Id, Record)>, id: Id,
                r: Record)
    requires Lists(have, before, host) && Added(before, now, host, want, i) && i < |want| && NoRepeats(want)
    requires (forall k | 0 <= k < |have| :: have[k].1.content != want[i]) && id !in now && Managed(r, host)
    requires r.content == want[i]
    ensures Added(before, now[id := r], host, want, i + 1)
  {
    CreateIsCareful(before, now, host, want, id, r);
    AddsNoTwin(before, now, host, want, i, have, id, r);
    assert want[..i + 1] == want[..i] + [want[i]];
  }

  lemma AddsNoTwin(before: Records, now: Records, host: string, want: seq<string>, i: nat, have: seq<(Id, Record)>,
                   id: Id, r: Record)
    requires i < |want| && NoRepeats(want) && r.content == want[i] && id !in now && before.Keys <= now.Keys
    requires forall k | 0 <= k < |have| :: have[k].1.content != want[i]
    requires forall j | j in before && Managed(before[j], host) :: (j, before[j]) in have
    requires forall j | j in before :: now[j] == before[j]
    requires forall j | j in now && j !in before :: now[j].content in want[..i]
    ensures NoDuplicates(now, host) ==> NoDuplicates(now[id := r], host)
  {
    forall j | j in now && Managed(now[j], host) ensures now[j].content != r.content {
      if j in before {
        assert (j, before[j]) in have;
      } else {
        assert forall k | 0 <= k < i :: want[k] != want[i];
      }
    }
  }

  // One wanted address: nothing to do, or a new record, which a failed call may leave as well.
  method AddOne(z: Zone, host: string, want: seq<string>, i: nat, have: seq<(Id, Record)>, isV6: string -> bool,
                ghost before: Records, fate: Fate)
    returns (ok: bool)
    requires z.Valid() && Lists(have, before, host) && NoRepeats(want) && i < |want|
    requires Added(before, z.records, host, want, i)
    requires Typed(before, z.records, isV6)
    modifies z
    ensures z.Valid() && if ok then Added(before, z.records, host, want, i + 1)
            else Partly(before, z.records, host, want)
    ensures Typed(before, z.records, isV6)
    ensures old(z.trail) <= z.trail && TrailIsCareful(before, z.trail, |old(z.trail)|, host, want)
    ensures HasAddress(have, want[i]) ==> ok && z.trail == old(z.trail)
  {
    if k :| 0 <= k < |have| && have[k].1.content == want[i] {
      PresentStep(before, z.records, host, want, i, have, k);
      return true;
    }
    var r := Record(TypeOf(want[i], isV6), host, want[i], "");
    AddStep(before, z.records, host, want, i, have, z.nextId, r);
    ok := z.Create(r, fate);
  }

  // Add what is missing, in the order given, stopping at the first failure. No address gets a
  // second record.
  method AddMissing(z: Zone, host: string, want: seq<string>, have: seq<(Id, Record)>, isV6: string -> bool,
                    fates: nat -> Fate)
    returns (ok: bool)
    requires z.Valid() && Lists(have, z.records, host) && NoRepeats(want)
    modifies z
    ensures z.Valid() && old(z.trail) <= z.trail && TrailIsCareful(old(z.records), z.trail, |old(z.trail)|, host, want)
    ensures if ok then Added(old(z.records), z.records, host, want, |want|)
            else Partly(old(z.records), z.records, host, want)
    ensures Typed(old(z.records), z.records, isV6)
    ensures (forall ip | ip in want :: HasAddress(have, ip)) ==> ok && z.trail == old(z.trail)
  {
    ghost var before, trail := z.records, z.trail;
    for i := 0 to |want|
      invariant z.Valid() && Added(before, z.records, host, want, i) && Typed(before, z.records, isV6)
      invariant trail <= z.trail && TrailIsCareful(before, z.trail, |trail|, host, want)
      invariant (forall ip | ip in want :: HasAddress(have, ip)) ==> z.trail == trail
    {
      assert want[i] in want;
      ok := AddOne(z, host, want, i, have, isV6, before, fates(i));
      if !ok {
        return;
      }
    }
    ok := true;
  }

  ghost predicate Fewer(before: Records, now: Records) {
    forall id | id in now :: id in before && now[id] == before[id]
  }

  // Once the first i listed records are dealt with, starting from `mid`.
  ghost predicate Trimmed(before: Records, mid: Records, now: Records, host: string, want: seq<string>,
                          have: seq<(Id, Record)>, i: nat) {
    && i <= |have| && AllExist(now, host, want) && Careful(before, now, host, want) && Fewer(mid, now)
    && forall k | 0 <= k < i :: have[k].1.content in want || have[k].0 !in now
  }

  lemma TrimStep(before: Records, mid: Records, now: Records, host: string, want: seq<string>, have: seq<(Id, Record)>,
                 i: nat)
    requires Lists(have, before, host) && Trimmed(before, mid, now, host, want, have, i) && i < |have|
    requires have[i].1.content !in want
    ensures Trimmed(before, mid, now - {have[i].0}, host, want, have, i + 1)
  {
    DeleteIsCareful(before, now, host, want, have[i].0);
  }

  // Delete what is not wanted, stopping at the first failure.
  method DeleteExtra(z: Zone, host: string, want: seq<string>, have: seq<(Id, Record)>, ghost before: Records,
                     fates: nat -> Fate)
    returns (ok: bool)
    requires z.Valid() && AllExist(z.records, host, want) && Careful(before, z.records, host, want)
    requires Lists(have, before, host)
    modifies z
    ensures z.Valid() && Trimmed(before, old(z.records), z.records, host, want, have, if ok then |have| else 0)
    ensures old(z.trail) <= z.trail && TrailIsCareful(before, z.trail, |old(z.trail)|, host, want)
    ensures (forall k | 0 <= k < |have| :: have[k].1.content in want) ==> ok && z.trail == old(z.trail)
  {
    ghost var mid, start := z.records, z.trail;
    for i := 0 to |have|
      invariant z.Valid() && Trimmed(before, mid, z.records, host, want, have, i)
      invariant start <= z.trail && TrailIsCareful(before, z.trail, |start|, host, want)
      invariant (forall k | 0 <= k < |have| :: have[k].1.content in want) ==> z.trail == start
    {
      if have[i].1.content in want {
        continue;
      }
      TrimStep(before, mid, z.records, host, want, have, i);
      ok := z.Delete(have[i].0, fates(i));
      if !ok {
        return;
      }
    }
    ok := true;
  }

  // Bring the host's records to the wanted addresses. `listed` says whether the listing can be
  // read at all.
  method Reconcile(z: Zone, host: string, want: seq<string>, listed: bool, isV6: string -> bool, adds: nat -> Fate,
                   deletes: nat -> Fate)
    returns (ok: bool)
    requires z.Valid() && NoRepeats(want)
    modifies z
    ensures z.Valid() && Careful(old(z.records), z.records, host, want)
    ensures NoDuplicates(old(z.records), host) ==> NoDuplicates(z.records, host)
    ensures Typed(old(z.records), z.records, isV6)
    ensures old(z.trail) <= z.trail && TrailIsCareful(old(z.records), z.trail, |old(z.trail)|, host, want)
    ensures ok ==> Exactly(z.records, host, want)
    ensures listed && Exactly(old(z.records), host, want) ==> ok && z.trail == old(z.trail)
    ensures !listed ==> !ok && z.trail == old(z.trail) && z.records == old(z.records)
  {
    if !listed {
      return false;
    }
    ghost var before := z.records;
    var have := z.List(host);
    NothingMissing(before, host, want, have);
    ok := AddMissing(z, host, want, have, isV6, adds);
    if ok {
      ok := DeleteExtra(z, host, want, have, before, deletes);
      if ok {
        AllAccountedFor(before, z.records, host, want, have);
      }
    }
  }

  lemma NothingMissing(before: Records, host: string, want: seq<string>, have: seq<(Id, Record)>)
    requires Lists(have, before, host)
    ensures Exactly(before, host, want) ==> forall ip | ip in want :: HasAddress(have, ip)
    ensures Exactly(before, host, want) ==> forall k | 0 <= k < |have| :: have[k].1.content in want
  {
    if Exactly(before, host, want) {
      forall ip | ip in want ensures HasAddress(have, ip) {
        var id :| id in before && Managed(before[id], host) && before[id].content == ip;
        assert (id, before[id]) in have;
      }
    }
  }

  lemma AllAccountedFor(before: Records, now: Records, host: string, want: seq<string>, have: seq<(Id, Record)>)
    requires Careful(before, now, host, want) && AllExist(now, host, want)
    requires Lists(have, before, host)
    requires forall k | 0 <= k < |have| :: have[k].1.content in want || have[k].0 !in now
    ensures Exactly(now, host, want)
  {
    forall id | id in now && Managed(now[id], host) ensures now[id].content in want {
      if id in before {
        assert (id, before[id]) in have;
      }
    }
  }

  // ---------------------------------------------------------------- one rotation from five lines

  // What one line asks for: its nodes and weights, in no order.
  function Signature(entries: seq<Entry>): multiset<(string, int)> {
    if entries == [] then multiset{} else
    Signature(entries[..|entries| - 1]) + multiset{(entries[|entries| - 1].node, entries[|entries| - 1].weight)}
  }

  ghost predicate WantedOn(plan: seq<LinePlan>, code: string, ip: string) {
    ip != "" && exists e | e in RotationOf(plan, code) :: e.ip == ip
  }

  function Sig(plan: seq<LinePlan>, c: nat): multiset<(string, int)>
    requires c < |LINES|
  {
    Signature(RotationOf(plan, LINES[c]))
  }

  // The lines differ, counted from the first one that has anyone in rotation.
  ghost predicate Divergent(plan: seq<LinePlan>) {
    exists i, j | 0 <= i < j < |LINES| ::
        (forall k | 0 <= k < i :: Sig(plan, k) == multiset{}) && Sig(plan, i) != multiset{}
        && Sig(plan, j) != Sig(plan, i)
  }

  // A plan with one node in rotation, on one line only.
  function OnlyOn(at: nat, e: Entry): seq<LinePlan> {
    seq(|LINES|, i requires 0 <= i < |LINES| => LinePlan(LINES[i], if i == at then [e] else []))
  }

  lemma SigOnly(at: nat, e: Entry, c: nat)
    requires e.inRotation && c < |LINES|
    ensures Sig(OnlyOn(at, e), c) == if c == at then multiset{(e.node, e.weight)} else multiset{}
  {
    var plan := OnlyOn(at, e);
    assert plan[c].code == LINES[c];
    assert forall i | 0 <= i < c :: LINES[i][1] != LINES[c][1];
    RotationOfLine(plan, LINES[c], c);
    assert [e][..0] == [] && Kept([]) == [] && Signature([]) == multiset{};
    assert Kept([e]) == [e] && Signature([e]) == multiset{(e.node, e.weight)};
  }

  // A node on the last line only: the empty lines before it are no difference. On the first line
  // only: the empty lines after it are.
  lemma EmptyLinesDifferOnlyAfterwards(e: Entry)
    requires e.inRotation
    ensures !Divergent(OnlyOn(4, e)) && Divergent(OnlyOn(0, e))
  {
    forall c: nat | c < |LINES|
      ensures Sig(OnlyOn(4, e), c) == if c == 4 then multiset{(e.node, e.weight)} else multiset{}
    {
      SigOnly(4, e, c);
    }
    SigOnly(0, e, 0);
    SigOnly(0, e, 1);
    assert (e.node, e.weight) in Sig(OnlyOn(0, e), 0);
    assert 0 < 1 < |LINES| && Sig(OnlyOn(0, e), 1) != Sig(OnlyOn(0, e), 0) && Sig(OnlyOn(0, e), 0) != multiset{};
  }

  // After c lines: the reference comes from the first line with anyone in rotation.
  ghost predicate Compared(plan: seq<LinePlan>, c: nat, first: nat, reference: multiset<(string, int)>, divergent: bool)
    requires c <= |LINES|
  {
    && first <= c && (forall k | 0 <= k < first :: Sig(plan, k) == multiset{})
    && (if first == c then reference == multiset{} else reference == Sig(plan, first) != multiset{})
    && (divergent <==> exists j | first < j < c :: Sig(plan, j) != reference)
  }

  lemma ComparedStep(plan: seq<LinePlan>, c: nat, first: nat, reference: multiset<(string, int)>, divergent: bool)
    requires c < |LINES| && Compared(plan, c, first, reference, divergent)
    ensures first == c ==> !divergent
    ensures first == c ==>
              Compared(plan, c + 1, if Sig(plan, c) == multiset{} then c + 1 else c, Sig(plan, c), divergent)
    ensures first < c ==> Compared(plan, c + 1, first, reference, divergent || Sig(plan, c) != reference)
  {
    if first < c {
      if divergent {
        var j :| first < j < c && Sig(plan, j) != reference;
        assert first < j < c + 1;
      } else if Sig(plan, c) != reference {
        assert first < c < c + 1;
      }
    }
  }

  lemma ComparedAll(plan: seq<LinePlan>, first: nat, reference: multiset<(string, int)>, divergent: bool)
    requires Compared(plan, |LINES|, first, reference, divergent)
    ensures divergent <==> Divergent(plan)
  {
    if Divergent(plan) {
      var i, j :| 0 <= i < j < |LINES| && (forall k | 0 <= k < i :: Sig(plan, k) == multiset{})
          && Sig(plan, i) != multiset{} && Sig(plan, j) != Sig(plan, i);
      assert i == first;
    }
  }

  ghost predicate Covers(ips: seq<string>, plan: seq<LinePlan>, c: nat)
    requires c <= |LINES|
  {
    NoRepeats(ips) && forall ip :: ip in ips <==> exists k | 0 <= k < c :: WantedOn(plan, LINES[k], ip)
  }

  // The addresses of every node in rotation on any line, each once.
  method Collapse(plan: seq<LinePlan>) returns (want: seq<string>, divergent: bool)
    ensures Covers(want, plan, |LINES|) && Ascending(want)
    ensures divergent <==> Divergent(plan)
  {
    var ips: seq<string> := [];
    divergent := false;
    var reference: multiset<(string, int)> := multiset{};
    ghost var first := 0;
    for c := 0 to |LINES|
      invariant Covers(ips, plan, c) && Compared(plan, c, first, reference, divergent)
    {
      ComparedStep(plan, c, first, reference, divergent);
      var entries := Rotation(plan, LINES[c]);
      var sig := Signature(entries);
      if reference == multiset{} {
        reference := sig;
        if sig == multiset{} { first := c + 1; }
      } else if sig != reference {
        divergent := true;
      }
      ips := AddAddresses(ips, entries, plan, c);
    }
    ComparedAll(plan, first, reference, divergent);
    want := Sorting.Sort((ip: string) => ip, ips);
    SortedOnce(ips, want);
    NoRepeatsSorted(want);
  }

  method AddAddresses(seen: seq<string>, entries: seq<Entry>, ghost plan: seq<LinePlan>, ghost c: nat)
    returns (ips: seq<string>)
    requires c < |LINES| && Covers(seen, plan, c) && entries == RotationOf(plan, LINES[c])
    ensures Covers(ips, plan, c + 1)
  {
    ips := seen;
    for i := 0 to |entries|
      invariant NoRepeats(ips)
      invariant forall ip :: ip in ips <==> ip in seen || (ip != "" && exists e | e in entries[..i] :: e.ip == ip)
    {
      assert entries[..i + 1] == entries[..i] + [entries[i]];
      if entries[i].ip != "" && entries[i].ip !in ips {
        OneMore(ips, entries[i].ip);
        ips := ips + [entries[i].ip];
      }
    }
    assert entries[..|entries|] == entries;
    forall ip ensures ip in ips <==> ip in seen || WantedOn(plan, LINES[c], ip) {
    }
  }

  lemma NoRepeatsSorted(ids: seq<string>)
    requires Ascending(ids)
    ensures NoRepeats(ids)
  {
    forall i, j | 0 <= i < j < |ids| ensures ids[i] != ids[j] {
      Sorting.LessIsTotal(ids[i], ids[i]);
    }
  }

  class Adapter {
    const host: string
    var note: bool   // the lines differ and were merged

    constructor (host: string)
      ensures this.host == host && !note
    {
      this.host, note := host, false;
    }

    // Without anyone in rotation nothing is changed: the last addresses are better than none.
    method Sync(z: Zone, plan: seq<LinePlan>, listed: bool, isV6: string -> bool, adds: nat -> Fate,
                deletes: nat -> Fate)
      returns (out: Outcome, ghost want: seq<string>)
      requires z.Valid()
      modifies this`note, z
      ensures z.Valid() && note == Divergent(plan)
      ensures NoDuplicates(old(z.records), host) ==> NoDuplicates(z.records, host)
      ensures Typed(old(z.records), z.records, isV6)
      ensures Covers(want, plan, |LINES|)
      ensures Careful(old(z.records), z.records, host, want)
      ensures old(z.trail) <= z.trail && TrailIsCareful(old(z.records), z.trail, |old(z.trail)|, host, want)
      // At no point is a record of another name or type changed, removed or added.
      ensures forall k | |old(z.trail)| <= k < |z.trail| :: OthersKept(old(z.records), z.trail[k], host)
      ensures want == [] <==> out == NothingWanted
      ensures out == NothingWanted ==> z.records == old(z.records) && z.trail == old(z.trail)
      ensures out == Synced ==> Exactly(z.records, host, want)
      // At no point is a host that had an address left without one.
      ensures AnyManaged(old(z.records), host) ==>
              forall k | |old(z.trail)| <= k < |z.trail| :: AnyManaged(z.trail[k], host)
      // A second run has nothing to do.
      ensures listed && want != [] && Exactly(old(z.records), host, want) ==> out == Synced && z.trail == old(z.trail)
    {
      var wanted, divergent := Collapse(plan);
      want := wanted;
      note := divergent;
      if wanted == [] {
        return NothingWanted, want;
      }
      ghost var before, start := z.records, |z.trail|;
      var ok := Reconcile(z, host, wanted, listed, isV6, adds, deletes);
      out := if ok then Synced else Failed;
      forall k | start <= k < |z.trail| ensures OthersKept(before, z.trail[k], host) {
        CarefulKeepsOthers(before, z.trail[k], host, want);
      }
      if AnyManaged(before, host) {
        forall k | start <= k < |z.trail| ensures AnyManaged(z.trail[k], host) {
          NeverEmpty(before, z.trail[k], host, want);
        }
      }
    }
  }

  // The wanted addresses of a built plan are those of its nodes in rotation on some line.
  lemma WantedIsTheRotation(plan: seq<LinePlan>, weights: map<string, LineWeights>, nodes: seq<Node>, honored: bool,
                            code: string, ip: string)
    requires IsPlan(plan, weights, nodes, honored) && code in LINES
    ensures WantedOn(plan, code, ip) <==>
            ip != "" && exists id: string ::
                GetsTraffic(plan, code, id) && Find(nodes, id).Some? && Find(nodes, id).value.ip == ip
  {
    var k :| 0 <= k < |LINES| && LINES[k] == code;
    RotationOfLine(plan, code, k);
    forall e | e in RotationOf(plan, code)
      ensures Find(nodes, e.node).Some? && Find(nodes, e.node).value.ip == e.ip && GetsTraffic(plan, code, e.node)
    {
      KeptMeansRotating(plan[k].entries, e);
    }
  }
}
