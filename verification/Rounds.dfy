/** A round of checks that begins in a drained pipeline and is drained in turn while the published
    counts stay what they are. */
module Rounds {
  import opened Folds
  import opened Deals
  import opened Targets
  import opened Pipeline
  import opened Ordering

  /** The outcome is that of a check which looked its deals up in these counts. */
  ghost predicate CheckedBy(o: Outcome, counts: map<string, DealCounts>) {
    exists w: World :: w.counts == counts && o.record == Checked(o.job.id, w)
  }

  /** Every target in memory is the outcome of such a check. */
  ghost predicate CheckedWith(targets: map<string, Record>, counts: map<string, DealCounts>) {
    forall id :: id in targets ==> exists w: World :: w.counts == counts && targets[id] == Checked(id, w)
  }

  /** Memory shows one of these results. */
  ghost predicate Shows(targets: map<string, Record>, results: seq<Outcome>, id: string) {
    id in targets && exists o :: o in results && o.record.id == id && o.record == targets[id]
  }

  /** Memory shows what it did before, or the results put over it. */
  ghost predicate ShowsOver(before: map<string, Record>, targets: map<string, Record>, results: seq<Outcome>) {
    && (forall id :: id in targets ==> id in before || Shows(targets, results, id))
    && (forall o :: o in results ==> Shows(targets, results, o.record.id))
  }

  function CommittedSince(b: State, s: State): seq<Outcome>
    requires b.committed <= s.committed
  {
    s.committed[|b.committed|..]
  }

  /** Whatever was finished since b looked its deals up in these counts. */
  ghost predicate AllCheckedBy(b: State, s: State, counts: map<string, DealCounts>)
    requires b.committed <= s.committed
  {
    forall o :: o in s.checked || Offering(o) in s.checkers || o in CommittedSince(b, s) ==> CheckedBy(o, counts)
  }

  ghost predicate LookedUp(b: State, s: State, counts: map<string, DealCounts>) {
    b.committed <= s.committed && AllCheckedBy(b, s, counts) && ShowsOver(b.targets, s.targets, CommittedSince(b, s))
  }

  lemma LookedUpSelf(b: State, counts: map<string, DealCounts>)
    requires Measure(b) == 0
    ensures LookedUp(b, b, counts)
  {
    MeasureNotNegative(b);
  }

  lemma LookedUpStep(b: State, s: State, a: Action, counts: map<string, DealCounts>)
    requires LookedUp(b, s, counts) && Enabled(s, a)
    requires a.Finish? ==> a.world.counts == counts
    ensures LookedUp(b, Apply(s, a), counts)
  {
    AllCheckedStep(b, s, a, counts);
    hide CheckedBy, AllCheckedBy, Checked;
    if a.Commit? {
      var o := s.checked[0];
      assert CommittedSince(b, Apply(s, a)) == CommittedSince(b, s) + [o];
      CommitShows(b.targets, s.targets, CommittedSince(b, s), o);
    } else {
      assert Apply(s, a).committed == s.committed && Apply(s, a).targets == s.targets;
    }
  }

  lemma CommitShows(before: map<string, Record>, targets: map<string, Record>, results: seq<Outcome>, o: Outcome)
    requires ShowsOver(before, targets, results)
    ensures ShowsOver(before, targets[o.record.id := o.record], results + [o])
  {
    var targets', results' := targets[o.record.id := o.record], results + [o];
    forall id | id == o.record.id || Shows(targets, results, id)
      ensures Shows(targets', results', id)
    {
      if id == o.record.id {
        assert o in results';
      } else {
        var c :| c in results && c.record.id == id && c.record == targets[id];
        assert c in results';
      }
    }
  }

  lemma AllCheckedStep(b: State, s: State, a: Action, counts: map<string, DealCounts>)
    requires b.committed <= s.committed && AllCheckedBy(b, s, counts) && Enabled(s, a)
    requires a.Finish? ==> a.world.counts == counts
    ensures b.committed <= Apply(s, a).committed && AllCheckedBy(b, Apply(s, a), counts)
  {
    hide Checked, CheckedBy;
    var s' := Apply(s, a);
    assert CommittedSince(b, s') == CommittedSince(b, s) + (if a.Commit? then [s.checked[0]] else []);
    forall o | o in s'.checked || Offering(o) in s'.checkers
      ensures CheckedBy(o, counts)
    {
      if a.Finish? && o == Outcome(s.checkers[a.k].job, Checked(s.checkers[a.k].job.id, a.world)) {
        ThusChecked(o, a.world);
      }
    }
  }

  lemma ThusChecked(o: Outcome, w: World)
    requires o.record == Checked(o.job.id, w)
    ensures CheckedBy(o, w.counts)
  {
  }

  /** At the end of a round that lists every miner in memory, memory shows nothing older. */
  lemma AllCheckedWith(n: nat, loaded: map<string, Record>, b: State, s: State, mids: seq<string>, counts: map<string, DealCounts>)
    requires Reachable(n, loaded, b) && !b.cancelled && Measure(b) == 0
    requires Reachable(n, loaded, s) && !s.cancelled && Measure(s) == 0
    requires s.listed == b.listed + Listing(mids, b.round + 1) && LookedUp(b, s, counts)
    requires forall id :: id in b.targets ==> id in mids
    ensures CheckedWith(s.targets, counts)
  {
    CommittedAll(n, loaded, b, s, Listing(mids, b.round + 1));
    hide Reachable, Measure, Checked;
    var since := CommittedSince(b, s);
    forall id | id in s.targets
      ensures exists w: World :: w.counts == counts && s.targets[id] == Checked(id, w)
    {
      if id in b.targets {
        var o := ResultOf(since, mids, b.round + 1, id);
        CheckedCarriesId(o, counts);
      }
      var o :| o in since && o.record.id == id && o.record == s.targets[id];
      CheckedCarriesId(o, counts);
    }
  }

  /** Some result is of the job that listed the miner. */
  lemma ResultOf(results: seq<Outcome>, mids: seq<string>, round: nat, id: string) returns (o: Outcome)
    requires multiset(Jobs(results)) == multiset(Listing(mids, round)) && id in mids
    ensures o in results && o.job.id == id
  {
    var i :| 0 <= i < |mids| && mids[i] == id;
    var job := Listing(mids, round)[i];
    assert job in multiset(Jobs(results));
    var k :| 0 <= k < |results| && Jobs(results)[k] == job;
    o := results[k];
  }

  lemma CheckedCarriesId(o: Outcome, counts: map<string, DealCounts>)
    requires CheckedBy(o, counts)
    ensures o.record.id == o.job.id
  {
  }

  /** What was listed since b is what was committed since b. */
  lemma CommittedAll(n: nat, loaded: map<string, Record>, b: State, s: State, jobs: seq<Job>)
    requires Reachable(n, loaded, b) && !b.cancelled && Measure(b) == 0
    requires Reachable(n, loaded, s) && !s.cancelled && Measure(s) == 0
    requires s.listed == b.listed + jobs && b.committed <= s.committed
    ensures multiset(Jobs(CommittedSince(b, s))) == multiset(jobs)
  {
    DrainedIsCommitted(n, loaded, b);
    DrainedIsCommitted(n, loaded, s);
    hide Reachable, Measure;
    var since := CommittedSince(b, s);
    assert s.committed == b.committed + since;
    JobsOfBoth(b.committed, since);
    SameRest(Jobs(b.committed), b.listed, Jobs(since), jobs);
  }

  lemma JobsOfBoth(xs: seq<Outcome>, ys: seq<Outcome>)
    ensures Jobs(xs + ys) == Jobs(xs) + Jobs(ys)
  {
  }

  lemma SameRest(xs: seq<Job>, xs': seq<Job>, ys: seq<Job>, ys': seq<Job>)
    requires multiset(xs) == multiset(xs') && multiset(xs + ys) == multiset(xs' + ys')
    ensures multiset(ys) == multiset(ys')
  {
    forall job
      ensures multiset(ys)[job] == multiset(ys')[job]
    {
      assert multiset(xs + ys)[job] == multiset(xs)[job] + multiset(ys)[job];
      assert multiset(xs' + ys')[job] == multiset(xs')[job] + multiset(ys')[job];
    }
  }

  /** The steps of such a round. */
  ghost predicate QuietStep(s: State, s': State, counts: map<string, DealCounts>) {
    exists a :: Enabled(s, a) && Work(a) && (a.Finish? ==> a.world.counts == counts) && s' == Apply(s, a)
  }

  ghost predicate QuietRound(b: State, mids: seq<string>, counts: map<string, DealCounts>, trace: seq<State>) {
    && Enabled(b, Tick(mids)) && trace != [] && trace[0] == Apply(b, Tick(mids))
    && forall i :: 0 <= i < |trace| - 1 ==> QuietStep(trace[i], trace[i + 1], counts)
  }

  lemma {:induction false} QuietRun(
    n: nat, loaded: map<string, Record>, b: State, mids: seq<string>, counts: map<string, DealCounts>, trace: seq<State>)
    requires Reachable(n, loaded, b) && !b.cancelled && Measure(b) == 0 && QuietRound(b, mids, counts, trace)
    ensures
      var s := trace[|trace| - 1];
      && Reachable(n, loaded, s) && !s.cancelled && LookedUp(b, s, counts)
      && s.listed == b.listed + Listing(mids, b.round + 1)
  {
    hide Reachable, Measure, Checked, LookedUp, Apply, Enabled;
    if |trace| == 1 {
      LookedUpSelf(b, counts);
      LookedUpStep(b, b, Tick(mids), counts);
      Step(n, loaded, b, Tick(mids));
      TickMeasure(b, mids);
    } else {
      var m := |trace| - 1;
      assert QuietRound(b, mids, counts, trace[..m]);
      QuietRun(n, loaded, b, mids, counts, trace[..m]);
      assert QuietStep(trace[m - 1], trace[m], counts);
      var s := trace[m - 1];
      var a :| Enabled(s, a) && Work(a) && (a.Finish? ==> a.world.counts == counts) && trace[m] == Apply(s, a);
      LookedUpStep(b, s, a, counts);
      WorkOnly(n, loaded, s, trace[m]);
    }
  }

  /** A drained round that listed every miner in memory, and whose checks all read these counts, leaves
      every target in memory checked with them, whatever the schedule. */
  lemma QuietRoundRenewsAll(
    n: nat, loaded: map<string, Record>, b: State, mids: seq<string>, counts: map<string, DealCounts>, trace: seq<State>)
    requires Reachable(n, loaded, b) && !b.cancelled && Measure(b) == 0 && QuietRound(b, mids, counts, trace)
    requires Measure(trace[|trace| - 1]) == 0 && forall id :: id in b.targets ==> id in mids
    ensures CheckedWith(trace[|trace| - 1].targets, counts)
  {
    QuietRun(n, loaded, b, mids, counts, trace);
    AllCheckedWith(n, loaded, b, trace[|trace| - 1], mids, counts);
  }
}
