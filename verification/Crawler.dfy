/** The goroutines that Start launches, statement by statement on the state that they share. Each of the
    small methods is one step of the pipeline; a goroutine whose step is not enabled blocks. Drain runs
    them in any order until nothing is under way. */
module Crawler {
  import opened Wrappers
  import opened Folds
  import opened Deals
  import opened Targets
  import opened Metrics
  import opened Pipeline
  import opened Ordering
  import opened Overtaking
  import opened Rounds
  import opened Store

  /** The targets of one round, in the order in which its miners are listed. */
  method NewTargets(mids: seq<string>, round: nat) returns (jobs: seq<Job>)
    ensures jobs == Listing(mids, round)
  {
    jobs := [];
    for i := 0 to |mids|
      invariant jobs == Listing(mids, round)[..i]
    {
      jobs := jobs + [Job(mids[i], round)];
    }
    assert Listing(mids, round)[..|mids|] == Listing(mids, round);
  }

  /** A new target is made for the job and checked. */
  method CheckTarget(id: string, world: World) returns (record: Record)
    ensures record == Checked(id, world)
  {
    hide Checked;
    var target := new Target(id);
    var _ := target.Check(world);
    record := target.Value();
  }

  /** The store of the target goes through, in a form that a restart can read. */
  ghost predicate StoreSucceeds(path: string, c: Codec, t: Record, io: Io) {
    path != "" && io.Completes? && Plain(t.id) && Durable(c, t)
  }

  lemma CommitInStep(c: Codec, files: map<string, string>, targets: map<string, Record>, t: Record, io: Io)
    requires Agrees(c, files, targets) && Plain(t.id) && Durable(c, t) && io.Completes?
    ensures Agrees(c, Stored(files, c, t, io), targets[t.id := t])
  {
    hide Durable, Plain, Agrees, Stored;
    CommitAgrees(c, files, targets, t);
    assert io == Completes;
  }

  class Crawler {
    const hf: HeyFil
    const n: nat
    ghost const loaded: map<string, Record>
    var dispatcher: bool
    var handler: bool
    var pending: seq<Job>
    var toCheck: seq<Job>
    var checkers: seq<Checker>
    var checked: seq<Outcome>
    var cancelled: bool
    var clock: nat
    var nextRound: nat
    ghost var round: nat
    ghost var roundStart: nat
    ghost var listed: seq<Job>
    ghost var dispatched: seq<Job>
    ghost var committed: seq<Outcome>
    ghost var dropped: seq<Job>
    /** The directory agreed with memory at the start, and every store since has succeeded. */
    ghost var inStep: bool

    ghost function View(): State
      reads this, hf
    {
      State(dispatcher, handler, pending, toCheck, checkers, checked, hf.targets, round, clock, roundStart, cancelled,
            listed, dispatched, committed, dropped)
    }

    /** The crawler is in a state that some run of the pipeline comes by, and so is its directory while
        the stores succeed. */
    ghost predicate Valid()
      reads this, hf
    {
      && Reachable(n, loaded, View())
      && nextRound == round + 1
      && (inStep ==> Agrees(hf.codec, hf.files, hf.targets))
    }

    constructor (hf0: HeyFil, checkerCount: nat)
      ensures hf == hf0 && n == checkerCount && loaded == hf0.targets
      ensures Valid() && View() == Start(checkerCount, hf0.targets)
      ensures inStep <==> Agrees(hf0.codec, hf0.files, hf0.targets)
    {
      hf, n, loaded := hf0, checkerCount, hf0.targets;
      dispatcher, handler, pending, toCheck, checked, cancelled := true, true, [], [], [], false;
      checkers := seq(checkerCount, i => Idle);
      round, clock, roundStart, nextRound := 0, 0, 0, 1;
      listed, dispatched, committed, dropped := [], [], [], [];
      inStep := Agrees(hf0.codec, hf0.files, hf0.targets);
      new;
      assert Run(n, loaded, [View()]);
    }

    /* ----- What its users can rely on at any time ----- */

    /** Nothing is lost on the way or sent twice, and no more is in flight than the channels and the
        checkers hold. */
    lemma NothingLost()
      requires Valid()
      ensures multiset(dispatched) == Places(View())
      ensures |toCheck| <= CAPACITY && |checked| <= CAPACITY && |checkers| == n
      ensures |dispatched| <= |committed| + |dropped| + CAPACITY + n + CAPACITY
      ensures !cancelled ==> dropped == [] && listed == dispatched + pending
    {
      Conservation(n, loaded, View());
      var trace :| Run(n, loaded, trace) && trace[|trace| - 1] == View();
      Invariant(n, loaded, trace);
    }

    /** With one checker memory shows the newest committed records, and the line of targets is in the
        order in which they were listed. */
    lemma OneCheckerInOrder()
      requires Valid() && n == 1
      ensures NewestKept(View()) && OneLine(View()) && IsSubsequence(dispatched + pending, listed)
    {
      OneCheckerKeepsOrder(loaded, View());
    }

    /** While the stores succeed a restart at any time finds exactly the targets in memory, in whatever
        order it walks the directory. */
    lemma RestartFinds(names: seq<string>)
      requires Valid() && inStep && Lists(names, hf.files)
      ensures Loaded(hf.codec, WalkOf(hf.files, names)) == map id | id in hf.targets :: hf.targets[id].(err := None)
    {
      ReloadAgrees(hf.codec, hf.files, hf.targets, names);
    }

    /* ----- The steps ----- */

    /** The dispatcher's ticker fires and the miners are listed. */
    method Tick(mids: seq<string>)
      requires Valid() && Enabled(View(), Action.Tick(mids))
      modifies this`pending, this`listed, this`round, this`roundStart, this`nextRound
      ensures Valid() && View() == Apply(old(View()), Action.Tick(mids)) && inStep == old(inStep)
    {
      hide Reachable, Agrees, Listing;
      var jobs := NewTargets(mids, nextRound);
      ghost var after := Apply(View(), Action.Tick(mids));
      Step(n, loaded, View(), Action.Tick(mids));
      pending, listed := jobs, listed + jobs;
      round, roundStart, nextRound := round + 1, clock, nextRound + 1;
      assert View() == after;
    }

    /** The dispatcher sends the next target of its round. */
    method Dispatch()
      requires Valid() && Enabled(View(), Action.Dispatch)
      modifies this
      ensures Valid() && View() == Apply(old(View()), Action.Dispatch) && inStep == old(inStep)
    {
      ghost var after := Apply(View(), Action.Dispatch);
      Step(n, loaded, View(), Action.Dispatch);
      hide Reachable, Agrees;
      var job := pending[0];
      pending := pending[1..];
      toCheck := toCheck + [job];
      dispatched := dispatched + [job];
      assert View() == after;
    }

    /** A checker receives a target. */
    method Take(k: nat)
      requires Valid() && Enabled(View(), Action.Take(k))
      modifies this
      ensures Valid() && View() == Apply(old(View()), Action.Take(k)) && inStep == old(inStep)
    {
      ghost var after := Apply(View(), Action.Take(k));
      Step(n, loaded, View(), Action.Take(k));
      hide Reachable, Agrees;
      var job := toCheck[0];
      toCheck := toCheck[1..];
      checkers := checkers[k := Checking(job)];
      assert View() == after;
    }

    /** It checks the target, before it turns to the channel or to the context. */
    method Finish(k: nat, world: World)
      requires Valid() && Enabled(View(), Action.Finish(k, world))
      modifies this`checkers, this`clock
      ensures Valid() && View() == Apply(old(View()), Action.Finish(k, world)) && inStep == old(inStep)
    {
      hide Reachable, Agrees, Checked;
      var job := checkers[k].job;
      var record := CheckTarget(job.id, world);
      ghost var after := Apply(View(), Action.Finish(k, world));
      Step(n, loaded, View(), Action.Finish(k, world));
      checkers, clock := checkers[k := Offering(Outcome(job, record))], clock + 1;
      assert View() == after;
    }

    /** The channel takes the result. */
    method Put(k: nat)
      requires Valid() && Enabled(View(), Action.Put(k))
      modifies this
      ensures Valid() && View() == Apply(old(View()), Action.Put(k)) && inStep == old(inStep)
    {
      ghost var after := Apply(View(), Action.Put(k));
      Step(n, loaded, View(), Action.Put(k));
      hide Reachable, Agrees;
      checked := checked + [checkers[k].outcome];
      checkers := checkers[k := Idle];
      assert View() == after;
    }

    /** The handler receives a result and keeps it. */
    method Commit(io: Io)
      requires Valid() && Enabled(View(), Action.Commit)
      modifies this`checked, this`committed, this`inStep, hf`targets, hf`files
      ensures Valid() && View() == Apply(old(View()), Action.Commit)
      ensures
        var t := old(checked[0].record);
        && hf.files == (if hf.storePath == "" then old(hf.files) else Stored(old(hf.files), hf.codec, t, io))
        && inStep == (old(inStep) && StoreSucceeds(hf.storePath, hf.codec, t, io))
    {
      ghost var after := Apply(View(), Action.Commit);
      Step(n, loaded, View(), Action.Commit);
      hide Reachable, Agrees, StoreSucceeds, Stored;
      var o := checked[0];
      checked, committed := checked[1..], committed + [o];
      Keep(o.record, io);
      assert View() == after;
    }

    /** In memory, and on disk. */
    method Keep(t: Record, io: Io)
      requires inStep ==> Agrees(hf.codec, hf.files, hf.targets)
      modifies this`inStep, hf`targets, hf`files
      ensures hf.targets == old(hf.targets)[t.id := t]
      ensures hf.files == if hf.storePath == "" then old(hf.files) else Stored(old(hf.files), hf.codec, t, io)
      ensures inStep == (old(inStep) && StoreSucceeds(hf.storePath, hf.codec, t, io))
      ensures inStep ==> Agrees(hf.codec, hf.files, hf.targets)
    {
      inStep := inStep && StoreSucceeds(hf.storePath, hf.codec, t, io);
      if inStep {
        CommitInStep(hf.codec, hf.files, hf.targets, t, io);
      }
      hide Agrees, Durable, Plain, Stored;
      hf.Commit(t, io);
    }

    /** The context is done. */
    method Cancel()
      requires Valid()
      modifies this
      ensures Valid() && View() == Apply(old(View()), Action.Cancel) && inStep == old(inStep)
    {
      ghost var after := Apply(View(), Action.Cancel);
      Step(n, loaded, View(), Action.Cancel);
      hide Reachable, Agrees;
      cancelled := true;
      assert View() == after;
    }

    /** The dispatcher finds the context done and leaves the rest of its round. */
    method Abandon()
      requires Valid() && Enabled(View(), Action.Abandon)
      modifies this
      ensures Valid() && View() == Apply(old(View()), Action.Abandon) && inStep == old(inStep)
    {
      ghost var after := Apply(View(), Action.Abandon);
      Step(n, loaded, View(), Action.Abandon);
      hide Reachable, Agrees;
      pending := [];
      assert View() == after;
    }

    /** A checker finds the context done and returns with its result. */
    method Drop(k: nat)
      requires Valid() && Enabled(View(), Action.Drop(k))
      modifies this
      ensures Valid() && View() == Apply(old(View()), Action.Drop(k)) && inStep == old(inStep)
    {
      ghost var after := Apply(View(), Action.Drop(k));
      Step(n, loaded, View(), Action.Drop(k));
      hide Reachable, Agrees;
      dropped := dropped + [checkers[k].outcome.job];
      checkers := checkers[k := Exited];
      assert View() == after;
    }

    /* ----- Until nothing is under way ----- */

    /** The goroutines run, in any order, until nothing is under way. They read the same published counts
        all along; worlds and ios are everything else that the checks and the stores meet with. b is the
        drained state since which the rounds have begun. All that was listed is then committed, after
        exactly as many steps as there was work; memory shows the newest records if the rounds list no
        miner twice; and whatever was finished since b used these counts. */
    method Drain(counts: map<string, DealCounts>, worlds: (Job, nat) -> World, ios: nat -> Io, ghost b: State, ghost rounds: seq<seq<string>>)
      returns (steps: nat)
      requires Valid() && !cancelled && n >= 1
      requires Arrives(b, rounds, Plan(View(), [])) && LookedUp(b, View(), counts)
      modifies this, hf`targets, hf`files
      ensures Valid() && !cancelled && Measure(View()) == 0
      ensures steps == old(Measure(View()))
      ensures listed == old(listed) && multiset(Jobs(committed)) == multiset(listed)
      ensures LookedUp(b, View(), counts)
      ensures Arrives(b, rounds, Plan(View(), []))
    {
      steps := 0;
      hide *;
      while Busy()
        invariant Valid() && !cancelled && listed == old(listed)
        invariant steps + Measure(View()) == old(Measure(View()))
        invariant Arrives(b, rounds, Plan(View(), [])) && LookedUp(b, View(), counts)
        decreases Measure(View())
      {
        ghost var s := View();
        ghost var a := WorkOnce(counts, worlds, ios);
        Worked(b, rounds, counts, s, a);
        steps := steps + 1;
      }
      NoneLeft();
      DrainedIsCommitted(n, loaded, View());
    }

    /** Some target is under way. */
    predicate Busy()
      reads this
    {
      || pending != [] || toCheck != [] || checked != []
      || exists k :: 0 <= k < |checkers| && (checkers[k].Checking? || checkers[k].Offering?)
    }

    /** Any one of the goroutines takes its next step. */
    method WorkOnce(counts: map<string, DealCounts>, worlds: (Job, nat) -> World, ios: nat -> Io) returns (ghost a: Action)
      requires Valid() && !cancelled && n >= 1 && Busy()
      modifies this, hf`targets, hf`files
      ensures Valid() && Enabled(old(View()), a) && View() == Apply(old(View()), a)
      ensures Work(a) && (a.Finish? ==> a.world.counts == counts)
    {
      SomeCase(worlds(Job("", 0), 0));
      hide Reachable, Measure, Agrees, Apply, Checked, Stored, StoreSucceeds, Busy;
      if {
        case dispatcher && pending != [] && |toCheck| < CAPACITY =>
          a := Action.Dispatch;
          Dispatch();
        case k: nat :| k < |checkers| && checkers[k].Idle? && toCheck != [] =>
          a := Action.Take(k);
          Take(k);
        case k: nat :| k < |checkers| && checkers[k].Checking? =>
          var world := worlds(checkers[k].job, clock).(now := clock, counts := counts);
          a := Action.Finish(k, world);
          Finish(k, world);
        case k: nat :| k < |checkers| && checkers[k].Offering? && |checked| < CAPACITY =>
          a := Action.Put(k);
          Put(k);
        case handler && checked != [] =>
          a := Action.Commit;
          Commit(ios(clock));
      }
    }

    /** The loop's guards miss nothing. */
    lemma SomeCase(w: World)
      requires Valid() && !cancelled && n >= 1
      requires Busy()
      ensures
        || (dispatcher && pending != [] && |toCheck| < CAPACITY)
        || (exists k: nat :: k < |checkers| && checkers[k].Idle? && toCheck != [])
        || (exists k: nat :: k < |checkers| && checkers[k].Checking?)
        || (exists k: nat :: k < |checkers| && checkers[k].Offering? && |checked| < CAPACITY)
        || (handler && checked != [])
    {
      MeasureNotNegative(View());
      NoDeadlock(n, loaded, View(), w);
      hide Reachable, Measure;
    }

    lemma NoneLeft()
      requires !Busy()
      ensures Measure(View()) == 0
    {
      MeasureNotNegative(View());
      forall c | c in checkers
        ensures c.Idle? || c.Exited?
      {
        var k :| 0 <= k < |checkers| && checkers[k] == c;
      }
    }
  }

  /** What one step of work does to the facts about a drain. */
  lemma Worked(b: State, rounds: seq<seq<string>>, counts: map<string, DealCounts>, s: State, a: Action)
    requires Enabled(s, a) && Work(a) && (a.Finish? ==> a.world.counts == counts)
    requires Arrives(b, rounds, Plan(s, [])) && LookedUp(b, s, counts)
    ensures Arrives(b, rounds, Plan(Apply(s, a), [])) && LookedUp(b, Apply(s, a), counts)
    ensures Measure(Apply(s, a)) == Measure(s) - 1 >= 0
    ensures Apply(s, a).cancelled == s.cancelled && Apply(s, a).listed == s.listed
  {
    var p := Go(b, rounds, Plan(s, []), a);
    LookedUpStep(b, s, a, counts);
    WorkCounts(s, a);
    MeasureNotNegative(Apply(s, a));
  }
}
