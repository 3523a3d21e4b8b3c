/** A deploy together with the retries it starts: which of them push, and what the deploy's phase comes to. */
module Redelivery {
  import opened Wrappers
  import opened Deploy
  import opened Pipeline
  import Retrying

  // The rows of the first round: whose row says it will change.
  function FirstRows(targets: seq<string>, push: string -> Push): map<string, bool> {
    map n | n in targets :: !push(n).ok && !push(n).responded
  }

  // Some node gave no answer.
  predicate SomeSilent(targets: seq<string>, push: string -> Push) {
    exists n | n in targets :: !push(n).ok && !push(n).responded
  }

  lemma SilentMeansSome(targets: seq<string>, push: string -> Push)
    ensures Silent(targets, push) != [] <==> SomeSilent(targets, push)
  {
    SilentAreUnanswered(targets, push);
    if Silent(targets, push) != [] {
      assert Silent(targets, push)[0] in Silent(targets, push);
    }
  }

  ghost predicate Distinct(targets: seq<string>) { forall i, j | 0 <= i < j < |targets| :: targets[i] != targets[j] }

  // With the rows a job leaves, or none if there is no job, the deploy is done exactly when every
  // node that owed an answer was in the job.
  lemma PhaseAfterRetries(targets: seq<string>, push: string -> Push, retry: seq<string>, rows: map<string, bool>)
    requires targets != [] && Distinct(targets) && retry in {[], Silent(targets, push)}
    requires Retrying.Owed(rows, Retrying.Elements(retry), {})
    ensures Retrying.DeployPhase(targets, FirstRows(targets, push) + rows) == Retrying.Done <==>
            retry == Silent(targets, push)
  {
    var first, silent := FirstRows(targets, push), Silent(targets, push);
    SilentAreUnanswered(targets, push);
    assert first.Keys == Retrying.Elements(targets);
    assert Retrying.Elements(silent) == set n | n in first && first[n];
    if retry == silent {
      Retrying.PhaseFollowsTheJob(targets, first, silent, rows);
    } else {
      assert rows == map[] && first + rows == first;
      Retrying.PhaseFollowsTheJob(targets, first, silent, map n | n in silent :: true);
    }
  }

  // The job of a deploy, if it has nodes to try again. The retrier reads the baseline the deploy left.
  method Retry(r: Retrying.Retrier, baseline: string, version: string, deploy: nat, nodes: seq<string>,
               weather: nat -> Retrying.Weather, leaving: seq<Retrying.Other>)
    returns (t: Retrying.Trace)
    requires r.Valid()
    modifies r
    ensures r.Valid() && Retrying.Owed(t.rows, Retrying.Elements(nodes), {})
    ensures nodes == [] ==> t.pushed == []
    ensures Retrying.CalmStart(weather(1), deploy) ==>
              (t.pushed != [] <==> nodes != [] && (baseline in {"", version} || !weather(1).readable))
  {
    t := Retrying.Trace([], 0, {}, map[]);
    r.StopAll();
    r.baseline := baseline;
    if nodes != [] {
      var me := r.NextId();
      r.Register(me, deploy);
      var rows := map n | n in nodes :: true;
      assert rows.Keys == Retrying.Elements(nodes);
      var end;
      ghost var seen;
      end, t, seen := Retrying.RunJob(r, me, version, nodes, rows, weather, leaving);
    }
  }

  // A deploy, and then the job for the nodes that gave no answer.
  method DeployAndRetry(s: Store, r: Retrying.Retrier, keys: set<Key>, o: Orders, renders: Config -> bool,
                        targets: seq<string>, push: string -> Push, version: string, deploy: nat, faults: nat -> bool,
                        weather: nat -> Retrying.Weather, leaving: seq<Retrying.Other>)
    returns (report: Report, t: Retrying.Trace)
    requires r.Valid()
    requires Effective(s.View(), keys).Some? ==> Lists(o, Effective(s.View(), keys).value)
    modifies s, r
    ensures r.Valid()
    ensures Answered(report, targets, push)
    ensures report.Done? <==> Accepted(old(s.View()), keys, renders) && targets != []
    ensures report.Done? && (forall n :: faults(n)) ==> !report.committed
    // A refused deploy starts no job.
    ensures !report.Done? ==> t.pushed == []
    // If nothing comes between, the job pushes exactly when some node gave no answer and, if some
    // node took the config, the commit held, and if none did, there was no baseline or it cannot be read.
    ensures report.Done? && old(s.baseline) != version && Retrying.CalmStart(weather(1), deploy) ==>
              (t.pushed != [] <==>
                && SomeSilent(targets, push)
                && if exists n | n in targets :: push(n).ok then report.committed
                   else old(s.baseline) == "" || !weather(1).readable)
    // In the end the deploy is done, unless some node took the config and some gave no answer but
    // the commit failed: then rows that say they will change never do.
    ensures report.Done? && Distinct(targets) ==>
              (Retrying.DeployPhase(targets, FirstRows(targets, push) + t.rows) == Retrying.Done <==>
                !((exists n | n in targets :: push(n).ok) && !report.committed && SomeSilent(targets, push)))
  {
    t := Retrying.Trace([], 0, {}, map[]);
    report := s.Deploy(keys, o, renders, targets, push, version, deploy, faults);
    if report.Done? {
      SilentMeansSome(targets, push);
      t := Retry(r, s.baseline, version, deploy, report.retry, weather, leaving);
      if Distinct(targets) {
        PhaseAfterRetries(targets, push, report.retry, t.rows);
      }
    }
  }

  // Whether a deploy gets as far as its pushes.
  predicate Accepted(db: Db, keys: set<Key>, renders: Config -> bool) {
    Effective(db, keys).Some? && Orphans(db, keys) == {} && renders(Effective(db, keys).value)
  }

  // What a deploy that pushed says of the answers.
  ghost predicate Answered(report: Report, targets: seq<string>, push: string -> Push) {
    report.Done? ==>
      && (report.okCount > 0 <==> exists n | n in targets :: push(n).ok)
      && (report.committed ==> report.okCount > 0)
      && report.retry == if report.okCount > 0 && !report.committed then [] else Silent(targets, push)
  }

  // A world in which every configuration passes, no node answers, nothing fails and nobody interferes.
  predicate Passes(c: Config) { true }

  function NoAnswer(node: string): Push { Push(false, false) }

  predicate NoFault(n: nat) { false }

  function Unanswered(i: nat): (seq<Retrying.Other>, seq<Retrying.Other>, Retrying.Outcome) { ([], [], Retrying.Lost) }

  function Quiet(attempt: nat): Retrying.Weather { Retrying.Weather([], false, [], true, Unanswered) }

  lemma NothingSelected(db: Db, o: Orders)
    requires db.routes == map[] && db.rules == map[] && db.policies == map[] && o == Orders([], [], ["tls", "log"])
    ensures Effective(db, {}).Some? && Lists(o, Effective(db, {}).value) && Accepted(db, {}, Passes)
  {
    BaselineIsLive(db);
    assert Orphans(db, {}) == {};
  }

  lemma OneSilentNode()
    ensures Silent(["n1"], NoAnswer) == ["n1"]
  {
    assert ["n1"][..0] == [];
  }

  // The only node gives no answer while v1 is the baseline: the retry the deploy announces is given
  // up before its first push.
  method NobodyIsTriedAgain() returns (report: Report, t: Retrying.Trace)
    ensures report.Done? && report.okCount == 0 && report.retry == ["n1"] && t.pushed == []
  {
    var s := new Store("v1");
    var r := new Retrying.Retrier();
    var o := Orders([], [], ["tls", "log"]);
    NothingSelected(s.View(), o);
    OneSilentNode();
    assert Retrying.CalmStart(Quiet(1), 2) && Quiet(1).readable;
    assert s.baseline == "v1" && "v1"[1] != "v2"[1];
    report, t := DeployAndRetry(s, r, {}, o, Passes, ["n1"], NoAnswer, "v2", 2, NoFault, Quiet, []);
  }

  function OnlyTheFirst(node: string): Push { if node == "n1" then Push(true, true) else Push(false, false) }

  predicate AlwaysFault(n: nat) { true }

  lemma OneOfTwo(targets: seq<string>)
    requires targets == ["n1", "n2"]
    ensures (exists n | n in targets :: OnlyTheFirst(n).ok) && SomeSilent(targets, OnlyTheFirst) && Distinct(targets)
  {
    assert "n1"[1] != "n2"[1];
    assert targets[0] in targets && targets[1] in targets;
  }

  // One node takes the config, the other gives no answer, and the commit fails: the deploy is never done.
  method ADeployIsNeverDone() returns (targets: seq<string>, report: Report, t: Retrying.Trace)
    ensures report.Done? && report.okCount > 0 && !report.committed
    ensures targets == ["n1", "n2"]
    ensures Retrying.DeployPhase(targets, FirstRows(targets, OnlyTheFirst) + t.rows) == Retrying.Running
  {
    var s := new Store("v1");
    var r := new Retrying.Retrier();
    var o := Orders([], [], ["tls", "log"]);
    NothingSelected(s.View(), o);
    targets := ["n1", "n2"];
    OneOfTwo(targets);
    report, t := DeployAndRetry(s, r, {}, o, Passes, targets, OnlyTheFirst, "v2", 2, AlwaysFault, Quiet, []);
    assert !report.committed;
  }
}
