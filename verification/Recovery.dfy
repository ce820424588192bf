/** Runs of the pipeline, with their stores, against what a restart finds. */
module Recovery {
  import opened Wrappers
  import opened Targets
  import opened Metrics
  import opened Pipeline
  import opened Store

  /** The targets that the events commit, in order. */
  function TargetsIn(events: seq<Event>): seq<Record> {
    if events == [] then []
    else
      TargetsIn(events[..|events| - 1]) +
      match events[|events| - 1]
      case Committed(t) => [t]
      case PiecesPut(_, _) => []
  }

  function Records(os: seq<Outcome>): seq<Record> {
    seq(|os|, i requires 0 <= i < |os| => os[i].record)
  }

  function Over(targets: map<string, Record>, records: seq<Record>): map<string, Record> {
    if records == [] then targets
    else
      var t := records[|records| - 1];
      Over(targets, records[..|records| - 1])[t.id := t]
  }

  /** The targets in memory are those loaded at the start with the committed ones over them. */
  lemma {:induction false} MemoryIsCommits(n: nat, loaded: map<string, Record>, trace: seq<State>)
    requires Run(n, loaded, trace)
    ensures trace[|trace| - 1].targets == Over(loaded, Records(trace[|trace| - 1].committed))
  {
    hide Enabled, Apply;
    if |trace| == 1 {
      assert Records(trace[0].committed) == [];
    } else {
      var m := |trace| - 1;
      assert Run(n, loaded, trace[..m]);
      MemoryIsCommits(n, loaded, trace[..m]);
      assert Next(trace[m - 1], trace[m]);
      var a :| Enabled(trace[m - 1], a) && trace[m] == Apply(trace[m - 1], a);
      MemoryStep(loaded, trace[m - 1], a);
    }
  }

  lemma MemoryStep(loaded: map<string, Record>, s: State, a: Action)
    requires Enabled(s, a) && s.targets == Over(loaded, Records(s.committed))
    ensures Apply(s, a).targets == Over(loaded, Records(Apply(s, a).committed))
  {
    hide Checked;
    if a.Commit? {
      var os := s.committed + [s.checked[0]];
      assert Records(os)[..|s.committed|] == Records(s.committed);
    }
  }

  /** What is put on disk for the recent pieces in between changes nothing in memory. */
  lemma {:induction false} AfterIsOver(c: Codec, files: map<string, string>, targets: map<string, Record>, events: seq<Event>)
    ensures After(c, files, targets, events).1 == Over(targets, TargetsIn(events))
  {
    if events != [] {
      var n := |events| - 1;
      AfterIsOver(c, files, targets, events[..n]);
      if events[n].Committed? {
        assert TargetsIn(events)[..|TargetsIn(events)| - 1] == TargetsIn(events[..n]);
      } else {
        assert TargetsIn(events) == TargetsIn(events[..n]);
      }
    }
  }

  lemma {:induction false} CommittedAmong(events: seq<Event>, t: Record)
    requires Committed(t) in events
    ensures t in TargetsIn(events)
  {
    var n := |events| - 1;
    if events[n] != Committed(t) {
      CommittedAmong(events[..n], t);
    }
  }

  lemma RestartAgrees(
    n: nat, loaded: map<string, Record>, c: Codec, files: map<string, string>, s: State, events: seq<Event>, names: seq<string>)
    requires Reachable(n, loaded, s) && Agrees(c, files, loaded)
    requires TargetsIn(events) == Records(s.committed)
    requires forall o :: o in s.committed ==> Plain(o.record.id) && Durable(c, o.record)
    requires Lists(names, After(c, files, loaded, events).0)
    ensures
      var disk := After(c, files, loaded, events).0;
      && Loaded(c, WalkOf(disk, names)) == (map id | id in s.targets :: Persisted(s.targets[id]))
      && Agrees(c, disk, Loaded(c, WalkOf(disk, names)))
      && Agrees(c, disk, s.targets)
  {
    var trace :| Run(n, loaded, trace) && trace[|trace| - 1] == s;
    MemoryIsCommits(n, loaded, trace);
    AfterIsOver(c, files, loaded, events);
    forall e | e in events && e.Committed?
      ensures Plain(e.target.id) && Durable(c, e.target)
    {
      CommittedAmong(events, e.target);
      var i :| 0 <= i < |s.committed| && Records(s.committed)[i] == e.target;
      assert s.committed[i] in s.committed;
    }
    hide Plain, Durable, After, Agrees, Lists, Loaded;
    RunAgrees(c, files, loaded, events);
    ReloadAgrees(c, After(c, files, loaded, events).0, s.targets, names);
  }

  /** However the pipeline has run, cancelled or not, and whatever recent pieces were put on disk between
      its commits, with or without success: if it began in agreement with its directory, and every
      commit's store succeeded, a restart rebuilds the targets in memory, and again agrees. */
  lemma RestartFindsMemory(
    n: nat, loaded: map<string, Record>, c: Codec, files: map<string, string>, s: State, events: seq<Event>, names: seq<string>)
    requires Reachable(n, loaded, s) && Agrees(c, files, loaded)
    requires TargetsIn(events) == Records(s.committed)
    requires forall o :: o in s.committed ==> Plain(o.record.id) && Durable(c, o.record)
    requires Lists(names, After(c, files, loaded, events).0)
    ensures
      var disk := After(c, files, loaded, events).0;
      && Loaded(c, WalkOf(disk, names)) == (map id | id in s.targets :: s.targets[id].(err := None))
      && Agrees(c, disk, Loaded(c, WalkOf(disk, names)))
      && Agrees(c, disk, s.targets)
  {
    RestartAgrees(n, loaded, c, files, s, events, names);
    WithoutErrors(s.targets);
    hide *;
  }

  lemma WithoutErrors(targets: map<string, Record>)
    ensures (map id | id in targets :: Persisted(targets[id])) == (map id | id in targets :: targets[id].(err := None))
  {
  }

  /** Recent pieces that were put on disk stay there through any commits behind. */
  lemma {:induction false} RestartFindsPieces(
    c: Codec, files: map<string, string>, targets: map<string, Record>, events: seq<Event>, k: nat, rp: map<string, string>)
    requires k < |events| && events[k] == PiecesPut(rp, Completes) && forall j :: k < j < |events| ==> events[j].Committed?
    requires c.decodePieces(c.encodePieces(rp)) == Some(rp)
    ensures
      var disk := After(c, files, targets, events).0;
      "recent.pieces" in disk && c.decodePieces(disk["recent.pieces"]) == Some(rp)
    decreases |events|
  {
    var n := |events| - 1;
    if k < n {
      RestartFindsPieces(c, files, targets, events[..n], k, rp);
      var t := events[n].target;
      CommitSparesPieces(c, After(c, files, targets, events[..n]).0, t);
      assert After(c, files, targets, events).0 == Stored(After(c, files, targets, events[..n]).0, c, t, Completes);
      hide After, Stored;
    } else {
      hide Stored;
    }
  }

  lemma CommitSparesPieces(c: Codec, files: map<string, string>, t: Record)
    requires "recent.pieces" in files
    ensures
      var files' := Stored(files, c, t, Completes);
      "recent.pieces" in files' && files'["recent.pieces"] == files["recent.pieces"]
  {
    FileNames(t.id, "");
  }
}
