/** In which order results reach the targets: with one checker, and with several from one drained state on. */
module Ordering {
  import opened Folds
  import opened Targets
  import opened Pipeline

  /** The record in memory is one of those committed for its participant, and none is newer. */
  ghost predicate Newest(committed: seq<Outcome>, targets: map<string, Record>, id: string) {
    && id in targets
    && (forall c :: c in committed && c.record.id == id ==> c.record.lastChecked <= targets[id].lastChecked)
    && (exists c :: c in committed && c.record == targets[id])
  }

  /** Each committed participant shows the record that was finished last among those committed. */
  ghost predicate NewestKept(s: State) {
    forall o :: o in s.committed ==> Newest(s.committed, s.targets, o.record.id)
  }

  lemma NewestAfter(committed: seq<Outcome>, targets: map<string, Record>, o: Outcome, id: string)
    requires id != o.record.id ==> Newest(committed, targets, id)
    requires forall c :: c in committed && c.record.id == o.record.id ==> c.record.lastChecked <= o.record.lastChecked
    ensures Newest(committed + [o], targets[o.record.id := o.record], id)
  {
    var committed' := committed + [o];
    assert forall c :: c in committed' <==> c in committed || c == o;
    if id == o.record.id {
      assert o in committed';
    } else {
      var b :| b in committed && b.record == targets[id];
      assert b in committed';
    }
  }

  lemma NewestKeptStep(s: State, a: Action)
    requires NewestKept(s) && Enabled(s, a)
    requires a.Commit? ==> forall c :: c in s.committed && c.record.id == s.checked[0].record.id ==>
                              c.record.lastChecked <= s.checked[0].record.lastChecked
    ensures NewestKept(Apply(s, a))
  {
    hide Checked, Newest;
    if a.Commit? {
      var o := s.checked[0];
      forall c | c in s.committed + [o]
        ensures Newest(s.committed + [o], s.targets[o.record.id := o.record], c.record.id)
      {
        NewestAfter(s.committed, s.targets, o, c.record.id);
      }
    } else {
      assert Apply(s, a).committed == s.committed && Apply(s, a).targets == s.targets;
    }
  }

  /* ----- Every run ----- */

  /** What holds in every reachable state: nothing is sent that was not listed, in the order of listing;
      results carry the identifier of their job and were finished before now. */
  ghost predicate Sound(s: State) {
    && IsSubsequence(s.dispatched + s.pending, s.listed)
    && (forall j :: j in s.listed ==> j.round <= s.round)
    && (forall o :: o in s.checked || Offering(o) in s.checkers || o in s.committed ==> Dated(s, o))
  }

  predicate Dated(s: State, o: Outcome) {
    o.record.id == o.job.id && o.record.lastChecked < s.clock
  }

  lemma SoundStep(s: State, a: Action)
    requires Sound(s) && Enabled(s, a)
    ensures Sound(Apply(s, a))
  {
    ListedStep(s, a);
    hide Checked, IsSubsequence, Dated;
    var s' := Apply(s, a);
    forall o | o in s'.checked || Offering(o) in s'.checkers || o in s'.committed
      ensures Dated(s', o)
    {
      StaysDated(s, a, o);
    }
  }

  lemma StaysDated(s: State, a: Action, o: Outcome)
    requires Sound(s) && Enabled(s, a)
    requires
      var s' := Apply(s, a);
      o in s'.checked || Offering(o) in s'.checkers || o in s'.committed
    ensures Dated(Apply(s, a), o)
  {
    hide IsSubsequence;
    if a.Finish? && o == Outcome(s.checkers[a.k].job, Checked(s.checkers[a.k].job.id, a.world)) {
      FinishedRecord(o.job.id, a.world);
    } else {
      hide Checked;
      assert Dated(s, o);
    }
  }

  lemma ListedStep(s: State, a: Action)
    requires IsSubsequence(s.dispatched + s.pending, s.listed) && Enabled(s, a)
    ensures IsSubsequence(Apply(s, a).dispatched + Apply(s, a).pending, Apply(s, a).listed)
  {
    hide Checked;
    var s' := Apply(s, a);
    match a {
      case Tick(mids) =>
        SubsequenceExtends(s.dispatched + s.pending, s.listed, s'.pending);
        assert s.dispatched + s.pending + s'.pending == s'.dispatched + s'.pending;
      case Dispatch =>
        assert s.pending == [s.pending[0]] + s.pending[1..];
        assert s'.dispatched + s'.pending == s.dispatched + s.pending;
      case Abandon =>
        SubsequencePrefix(s.dispatched, s.pending, s.listed);
        assert s'.dispatched + s'.pending == s.dispatched;
      case _ =>
    }
  }

  lemma FinishedRecord(id: string, w: World)
    ensures Checked(id, w).id == id && Checked(id, w).lastChecked == w.now
  {
  }

  lemma {:induction false} SoundRun(n: nat, loaded: map<string, Record>, trace: seq<State>)
    requires Run(n, loaded, trace)
    ensures Sound(trace[|trace| - 1])
  {
    hide Enabled, Apply, Sound;
    if |trace| == 1 {
      SoundStart(n, loaded);
    } else {
      var m := |trace| - 1;
      assert Run(n, loaded, trace[..m]);
      SoundRun(n, loaded, trace[..m]);
      assert Next(trace[m - 1], trace[m]);
      var a :| Enabled(trace[m - 1], a) && trace[m] == Apply(trace[m - 1], a);
      SoundStep(trace[m - 1], a);
    }
  }

  lemma SoundStart(n: nat, loaded: map<string, Record>)
    ensures Sound(Start(n, loaded))
  {
  }

  /* ----- One checker ----- */

  function HeldBy(c: Checker): seq<Job> {
    match c
    case Checking(job) => [job]
    case Offering(o) => [o.job]
    case _ => []
  }

  function Offered(c: Checker): seq<Outcome> {
    if c.Offering? then [c.outcome] else []
  }

  /** All that was dispatched, in one line from the handler back to the dispatcher. What a cancelled
      checker dropped stands where it held it, for it takes nothing more. */
  ghost predicate OneLine(s: State) {
    && |s.checkers| == 1
    && (s.dropped == [] || s.checkers[0].Exited?)
    && s.dispatched == Line(Jobs(s.committed), Jobs(s.checked), HeldBy(s.checkers[0]) + s.dropped, s.toCheck)
  }

  /** The line, as the sequences it is made of. */
  function Line(done: seq<Job>, offered: seq<Job>, held: seq<Job>, queued: seq<Job>): seq<Job> {
    done + offered + held + queued
  }

  /** The finished results, in that line. */
  function Finished(s: State): seq<Outcome>
    requires |s.checkers| == 1
  {
    s.committed + s.checked + Offered(s.checkers[0])
  }

  ghost predicate InOrderOfFinish(os: seq<Outcome>, clock: nat) {
    && (forall i, j :: 0 <= i < j < |os| ==> os[i].record.lastChecked < os[j].record.lastChecked)
    && (forall i :: 0 <= i < |os| ==> os[i].record.lastChecked < clock)
  }

  ghost predicate Fifo(s: State) {
    OneLine(s) && InOrderOfFinish(Finished(s), s.clock) && NewestKept(s)
  }

  lemma JobsAppend(xs: seq<Outcome>, o: Outcome)
    ensures Jobs(xs + [o]) == Jobs(xs) + [o.job]
    ensures xs != [] ==> Jobs(xs) == [xs[0].job] + Jobs(xs[1..])
  {
  }

  /** The first of a place moves up to the end of the place before. */
  lemma MoveUp(done: seq<Job>, offered: seq<Job>, held: seq<Job>, queued: seq<Job>, job: Job)
    ensures Line(done, offered, held, queued + [job]) == Line(done, offered, held, queued) + [job]
    ensures Line(done, offered, [job], queued) == Line(done, offered, [], [job] + queued)
    ensures Line(done, offered + [job], [], queued) == Line(done, offered, [job], queued)
    ensures Line(done + [job], offered, held, queued) == Line(done, [job] + offered, held, queued)
  {
  }

  lemma OneLineStep(s: State, a: Action)
    requires OneLine(s) && Enabled(s, a)
    ensures OneLine(Apply(s, a))
  {
    hide Checked, Jobs, Line;
    var done, offered, held := Jobs(s.committed), Jobs(s.checked), HeldBy(s.checkers[0]) + s.dropped;
    assert s.dropped == [] ==> held == HeldBy(s.checkers[0]);
    match a {
      case Dispatch =>
        MoveUp(done, offered, held, s.toCheck, s.pending[0]);
      case Take(k) =>
        assert s.toCheck == [s.toCheck[0]] + s.toCheck[1..];
        MoveUp(done, offered, held, s.toCheck[1..], s.toCheck[0]);
        assert [s.toCheck[0]] + [] == [s.toCheck[0]];
      case Put(k) =>
        JobsAppend(s.checked, s.checkers[0].outcome);
        MoveUp(done, offered, held, s.toCheck, s.checkers[0].outcome.job);
        assert HeldBy(Idle) + s.dropped == [];
      case Commit =>
        JobsAppend(s.checked, s.checked[0]);
        JobsAppend(s.committed, s.checked[0]);
        MoveUp(done, Jobs(s.checked[1..]), held, s.toCheck, s.checked[0].job);
      case Drop(k) =>
        assert HeldBy(Exited) + Apply(s, a).dropped == held;
      case _ =>
    }
  }

  /** Results leave the line of the finished only when the checker drops the last of them. */
  lemma FinishedStep(s: State, a: Action)
    requires |s.checkers| == 1 && Enabled(s, a)
    ensures |Apply(s, a).checkers| == 1
    ensures
      var (before, after) := (Finished(s), Finished(Apply(s, a)));
      if a.Finish? then after == before + Offered(Apply(s, a).checkers[0])
      else if a.Drop? then before != [] && after == before[..|before| - 1]
      else after == before
  {
    hide Checked;
    if a.Commit? {
      assert s.checked == [s.checked[0]] + s.checked[1..];
    }
  }

  lemma FinishOrderStep(s: State, a: Action)
    requires |s.checkers| == 1 && Enabled(s, a) && InOrderOfFinish(Finished(s), s.clock)
    ensures |Apply(s, a).checkers| == 1 && InOrderOfFinish(Finished(Apply(s, a)), Apply(s, a).clock)
  {
    hide Checked;
    FinishedStep(s, a);
    if a.Finish? {
      FinishedRecord(s.checkers[0].job.id, a.world);
    }
  }

  lemma FifoStep(s: State, a: Action)
    requires |s.checkers| == 1 && Fifo(s) && Enabled(s, a)
    ensures |Apply(s, a).checkers| == 1 && Fifo(Apply(s, a))
  {
    hide Checked, Line, Newest, Jobs;
    OneLineStep(s, a);
    FinishOrderStep(s, a);
    hide OneLine;
    if a.Commit? {
      forall c | c in s.committed
        ensures c.record.lastChecked <= s.checked[0].record.lastChecked
      {
        var i :| 0 <= i < |s.committed| && s.committed[i] == c;
        assert Finished(s)[i] == c && Finished(s)[|s.committed|] == s.checked[0];
      }
    }
    NewestKeptStep(s, a);
    hide NewestKept;
  }

  lemma FifoStart(loaded: map<string, Record>)
    ensures |Start(1, loaded).checkers| == 1 && Fifo(Start(1, loaded))
  {
  }

  lemma {:induction false} FifoRun(loaded: map<string, Record>, trace: seq<State>)
    requires Run(1, loaded, trace)
    ensures |trace[|trace| - 1].checkers| == 1 && Fifo(trace[|trace| - 1])
  {
    FifoStart(loaded);
    hide Enabled, Apply, Fifo, Start;
    if |trace| > 1 {
      var m := |trace| - 1;
      assert Run(1, loaded, trace[..m]);
      FifoRun(loaded, trace[..m]);
      assert Next(trace[m - 1], trace[m]);
      var a :| Enabled(trace[m - 1], a) && trace[m] == Apply(trace[m - 1], a);
      FifoStep(trace[m - 1], a);
    }
  }

  /** With one checker, cancelled or not, the dispatched targets stand in one line in the order of their
      listing, results are committed in the order in which they were finished, and the in-memory record
      is the newest of the committed ones. Until a cancellation the line and what is pending are all
      that was listed; after it, the abandoned rests of rounds are what is missing from the listing. */
  lemma OneCheckerKeepsOrder(loaded: map<string, Record>, s: State)
    requires Reachable(1, loaded, s)
    ensures OneLine(s) && InOrderOfFinish(Finished(s), s.clock) && NewestKept(s)
    ensures IsSubsequence(s.dispatched + s.pending, s.listed)
    ensures !s.cancelled ==> s.dropped == [] && s.listed == s.dispatched + s.pending
  {
    var trace :| Run(1, loaded, trace) && trace[|trace| - 1] == s;
    FifoRun(loaded, trace);
    SoundRun(1, loaded, trace);
    Invariant(1, loaded, trace);
  }

  /* ----- Several checkers, from a drained state on ----- */

  function Ids(jobs: seq<Job>): seq<string> {
    seq(|jobs|, i requires 0 <= i < |jobs| => jobs[i].id)
  }

  /** What is under way in s, or was committed since b, was listed and finished since b. */
  ghost predicate Since(b: State, s: State) {
    && b.listed <= s.listed && b.committed <= s.committed && b.clock <= s.clock && b.round <= s.round
    && (forall j :: j in s.listed[|b.listed|..] ==> j.round > b.round)
    && (forall j :: j in s.pending || j in s.toCheck || Checking(j) in s.checkers ==> j.round > b.round)
    && (forall o :: o in s.checked || Offering(o) in s.checkers || o in s.committed[|b.committed|..] ==> NewerThan(b, o))
  }

  predicate NewerThan(b: State, o: Outcome) {
    o.job.round > b.round && b.clock <= o.record.lastChecked
  }

  /** No miner was listed twice since b. */
  ghost predicate Distinct(b: State, s: State)
    requires b.listed <= s.listed
  {
    NoDuplicates(Ids(s.listed[|b.listed|..]))
  }

  lemma SinceSelf(s: State)
    requires Measure(s) == 0
    ensures Since(s, s) && Distinct(s, s)
  {
    MeasureNotNegative(s);
  }

  lemma SinceStep(b: State, s: State, a: Action)
    requires Since(b, s) && Enabled(s, a)
    ensures Since(b, Apply(s, a))
  {
    hide Checked;
    var s' := Apply(s, a);
    ListedSince(b, s, a);
    forall j | j in s'.pending || j in s'.toCheck || Checking(j) in s'.checkers
      ensures j.round > b.round
    {
      if a.Tick? {
        assert j in s'.pending ==> j.round == s.round + 1;
      }
    }
    forall o | o in s'.checked || Offering(o) in s'.checkers || o in s'.committed[|b.committed|..]
      ensures NewerThan(b, o)
    {
      OutcomeSince(b, s, a, o);
    }
  }

  lemma ListedSince(b: State, s: State, a: Action)
    requires Since(b, s) && Enabled(s, a)
    ensures
      var s' := Apply(s, a);
      && b.listed <= s'.listed && b.committed <= s'.committed
      && (forall j :: j in s'.listed[|b.listed|..] ==> j.round > b.round)
      && s'.listed[|b.listed|..] == s.listed[|b.listed|..] + (if a.Tick? then Listing(a.mids, s.round + 1) else [])
      && s'.committed[|b.committed|..] == s.committed[|b.committed|..] + (if a.Commit? then [s.checked[0]] else [])
  {
    hide Checked;
  }

  lemma OutcomeSince(b: State, s: State, a: Action, o: Outcome)
    requires Since(b, s) && Enabled(s, a)
    requires
      var s' := Apply(s, a);
      o in s'.checked || Offering(o) in s'.checkers || (b.committed <= s'.committed && o in s'.committed[|b.committed|..])
    ensures NewerThan(b, o)
  {
    ListedSince(b, s, a);
    if a.Finish? && o == Outcome(s.checkers[a.k].job, Checked(s.checkers[a.k].job.id, a.world)) {
      FinishedRecord(o.job.id, a.world);
    } else {
      hide Checked;
    }
  }

  /** A job in two places would have been listed twice. */
  lemma TwoPlaces(n: nat, s: State, c: Outcome, o: Outcome)
    requires Inv(n, s) && Sound(s) && c in s.committed && o in s.checked
    ensures Sum(s.listed, IsJob(c.job)) >= 1 && Sum(s.listed, IsJob(o.job)) >= 1
    ensures c.job == o.job ==> Sum(s.listed, IsJob(o.job)) >= 2
  {
    forall job | job == c.job || job == o.job
      ensures Sum(s.listed, IsJob(job)) >= Sum(s.committed, IsOutcomeOf(job)) + Sum(s.checked, IsOutcomeOf(job))
      ensures job == c.job ==> Sum(s.committed, IsOutcomeOf(job)) >= 1
      ensures job == o.job ==> Sum(s.checked, IsOutcomeOf(job)) >= 1
      ensures 0 <= Sum(s.committed, IsOutcomeOf(job)) && 0 <= Sum(s.checked, IsOutcomeOf(job))
    {
      ListedHolds(n, s, job);
      SumNotNegative(s.committed, IsOutcomeOf(job));
      SumNotNegative(s.checked, IsOutcomeOf(job));
      if job == c.job {
        SumOfMember(s.committed, c, IsOutcomeOf(job));
      }
      if job == o.job {
        SumOfMember(s.checked, o, IsOutcomeOf(job));
      }
    }
  }

  lemma ListedHolds(n: nat, s: State, job: Job)
    requires Inv(n, s) && Sound(s)
    ensures Sum(s.listed, IsJob(job)) >= Sum(s.committed, IsOutcomeOf(job)) + Sum(s.checked, IsOutcomeOf(job))
  {
    assert ConservedJob(s, job);
    SubsequenceSum(s.dispatched + s.pending, s.listed, IsJob(job));
    SumAppend(s.dispatched, s.pending, IsJob(job));
    SumNotNegative(s.pending, IsJob(job));
    SumNotNegative(s.toCheck, IsJob(job));
    SumNotNegative(s.checkers, Holds(job));
    SumNotNegative(s.dropped, IsJob(job));
  }

  /** Among jobs of distinct identifiers each stands once, and no other has its identifier. */
  lemma {:induction false} OnceByIdentifier(jobs: seq<Job>, job: Job)
    requires NoDuplicates(Ids(jobs))
    ensures Sum(jobs, IsJob(job)) <= 1
    ensures job in jobs ==> forall j :: j in jobs && j.id == job.id ==> j == job
    ensures Sum(jobs, IsJob(job)) >= 1 ==> job in jobs
  {
    if jobs != [] {
      var n := |jobs| - 1;
      assert Ids(jobs)[..n] == Ids(jobs[..n]);
      OnceByIdentifier(jobs[..n], job);
      forall i | 0 <= i < n
        ensures jobs[i].id != jobs[n].id
      {
        assert Ids(jobs)[i] != Ids(jobs)[n];
      }
      if jobs[n] == job {
        NotAmong(jobs[..n], job);
      }
    }
  }

  lemma {:induction false} NotAmong(jobs: seq<Job>, job: Job)
    requires job !in jobs
    ensures Sum(jobs, IsJob(job)) == 0
  {
    if jobs != [] {
      NotAmong(jobs[..|jobs| - 1], job);
    }
  }

  /** A result about to be committed is the first since b for its participant. */
  lemma FirstSince(n: nat, b: State, s: State, c: Outcome)
    requires Inv(n, s) && Sound(b) && Sound(s) && Since(b, s) && Distinct(b, s)
    requires s.checked != [] && c in s.committed && c.record.id == s.checked[0].record.id
    ensures c in b.committed
  {
    if c !in b.committed {
      var o, listed := s.checked[0], s.listed[|b.listed|..];
      assert s.committed == b.committed + s.committed[|b.committed|..];
      assert c in s.committed[|b.committed|..];
      assert NewerThan(b, c) && NewerThan(b, o) && Dated(s, c) && Dated(s, o);
      TwoPlaces(n, s, c, o);
      forall job | job == c.job || job == o.job
        ensures Sum(s.listed, IsJob(job)) == Sum(listed, IsJob(job)) <= 1 && job in listed
      {
        NotAmong(b.listed, job);
        assert s.listed == b.listed + listed;
        SumAppend(b.listed, listed, IsJob(job));
        OnceByIdentifier(listed, job);
      }
      OnceByIdentifier(listed, o.job);
      assert false;
    }
  }

  /** Order since b: one step keeps it, as long as no miner is listed twice. */
  lemma OrderStep(n: nat, b: State, s: State, a: Action)
    requires Inv(n, s) && Sound(b) && Sound(s) && Since(b, s) && Distinct(b, s) && NewestKept(s) && Enabled(s, a)
    ensures NewestKept(Apply(s, a))
  {
    hide Inv, Checked, Newest, NoDuplicates;
    if a.Commit? {
      forall c | c in s.committed && c.record.id == s.checked[0].record.id
        ensures c.record.lastChecked <= s.checked[0].record.lastChecked
      {
        FirstSince(n, b, s, c);
        assert NewerThan(b, s.checked[0]) && Dated(b, c);
      }
    }
    hide Since, Sound, Distinct;
    NewestKeptStep(s, a);
  }

  /** A state, and the lists of the rounds that the dispatcher has still to begin. */
  datatype Plan = Plan(state: State, ahead: seq<seq<string>>)

  /** One step of a run that ticks in the rounds one after another, each as soon or as late as it can be. */
  ghost predicate PlanStep(p: Plan, p': Plan) {
    || (p.ahead != [] && Enabled(p.state, Tick(p.ahead[0])) && p' == Plan(Apply(p.state, Tick(p.ahead[0])), p.ahead[1..]))
    || (exists a: Action :: !a.Tick? && Enabled(p.state, a) && p' == Plan(Apply(p.state, a), p.ahead))
  }

  ghost predicate PlanRun(b: State, rounds: seq<seq<string>>, trace: seq<Plan>) {
    && trace != [] && trace[0] == Plan(b, rounds)
    && forall i :: 0 <= i < |trace| - 1 ==> PlanStep(trace[i], trace[i + 1])
  }

  /** Some schedule of these rounds from b on, overlapping or not, comes by p. */
  ghost predicate Arrives(b: State, rounds: seq<seq<string>>, p: Plan) {
    exists trace :: PlanRun(b, rounds, trace) && trace[|trace| - 1] == p
  }

  function Flat(rounds: seq<seq<string>>): seq<string> {
    if rounds == [] then [] else rounds[0] + Flat(rounds[1..])
  }

  ghost predicate PlanInv(n: nat, b: State, rounds: seq<seq<string>>, p: Plan) {
    && Inv(n, p.state) && Sound(p.state) && Since(b, p.state) && NewestKept(p.state)
    && Ids(p.state.listed[|b.listed|..]) + Flat(p.ahead) == Flat(rounds)
  }

  lemma PlanInvStep(n: nat, b: State, rounds: seq<seq<string>>, p: Plan, a: Action)
    requires Sound(b) && PlanInv(n, b, rounds, p) && NoDuplicates(Flat(rounds)) && Enabled(p.state, a)
    requires a.Tick? ==> p.ahead != [] && a.mids == p.ahead[0]
    ensures PlanInv(n, b, rounds, Plan(Apply(p.state, a), if a.Tick? then p.ahead[1..] else p.ahead))
  {
    var s := p.state;
    ListedSince(b, s, a);
    hide Enabled, Apply, Inv, Sound, Since, NewestKept;
    var listed := Ids(s.listed[|b.listed|..]);
    forall i, j | 0 <= i < j < |listed|
      ensures listed[i] != listed[j]
    {
      assert Flat(rounds)[i] == listed[i] && Flat(rounds)[j] == listed[j];
    }
    InvStep(n, s, a);
    SoundStep(s, a);
    SinceStep(b, s, a);
    OrderStep(n, b, s, a);
    if a.Tick? {
      assert Ids(Listing(a.mids, s.round + 1)) == a.mids;
      IdsAppend(s.listed[|b.listed|..], Listing(a.mids, s.round + 1));
    }
  }

  lemma IdsAppend(xs: seq<Job>, ys: seq<Job>)
    ensures Ids(xs + ys) == Ids(xs) + Ids(ys)
  {
  }

  lemma {:induction false} PlanKeeps(n: nat, b: State, rounds: seq<seq<string>>, trace: seq<Plan>)
    requires PlanRun(b, rounds, trace) && NoDuplicates(Flat(rounds))
    requires Inv(n, b) && Sound(b) && NewestKept(b) && Measure(b) == 0
    ensures PlanInv(n, b, rounds, trace[|trace| - 1])
  {
    hide Enabled, Apply, Inv, Sound, Since, NewestKept, NoDuplicates;
    if |trace| == 1 {
      SinceSelf(b);
      assert Ids(b.listed[|b.listed|..]) == [];
    } else {
      var m := |trace| - 1;
      assert PlanRun(b, rounds, trace[..m]);
      PlanKeeps(n, b, rounds, trace[..m]);
      var p, p' := trace[m - 1], trace[m];
      assert PlanStep(p, p');
      hide PlanInv;
      if p.ahead != [] && Enabled(p.state, Tick(p.ahead[0])) && p' == Plan(Apply(p.state, Tick(p.ahead[0])), p.ahead[1..]) {
        PlanInvStep(n, b, rounds, p, Tick(p.ahead[0]));
      } else {
        var a: Action :| !a.Tick? && Enabled(p.state, a) && p' == Plan(Apply(p.state, a), p.ahead);
        PlanInvStep(n, b, rounds, p, a);
      }
    }
  }

  /** With any number of checkers: from a drained state on, whatever the schedule, the overlap of rounds
      and the cancellations, memory keeps showing the newest committed records, when the rounds
      together list no miner twice. */
  lemma DistinctMinersKeepOrder(n: nat, loaded: map<string, Record>, b: State, rounds: seq<seq<string>>, p: Plan)
    requires Reachable(n, loaded, b) && Measure(b) == 0 && NewestKept(b)
    requires NoDuplicates(Flat(rounds)) && Arrives(b, rounds, p)
    ensures NewestKept(p.state)
  {
    var run :| Run(n, loaded, run) && run[|run| - 1] == b;
    Invariant(n, loaded, run);
    SoundRun(n, loaded, run);
    var trace :| PlanRun(b, rounds, trace) && trace[|trace| - 1] == p;
    PlanKeeps(n, b, rounds, trace);
  }

  /* ----- Round after round ----- */

  /** The discipline: a tick only into a drained pipeline, of distinct miners. */
  ghost predicate Orderly(s: State, a: Action) {
    a.Tick? ==> Measure(s) == 0 && NoDuplicates(a.mids)
  }

  ghost predicate OrderlyRun(n: nat, loaded: map<string, Record>, trace: seq<State>) {
    && trace != [] && trace[0] == Start(n, loaded)
    && forall i :: 0 <= i < |trace| - 1 ==> OrderlyNext(trace[i], trace[i + 1])
  }

  ghost predicate OrderlyNext(s: State, s': State) {
    exists a :: Enabled(s, a) && Orderly(s, a) && s' == Apply(s, a)
  }

  ghost predicate RoundInv(n: nat, s: State, b: State) {
    Inv(n, s) && Sound(s) && Sound(b) && Since(b, s) && Distinct(b, s) && NewestKept(s)
  }

  lemma RoundInvStep(n: nat, s: State, b: State, a: Action) returns (b': State)
    requires RoundInv(n, s, b) && Enabled(s, a) && Orderly(s, a)
    ensures RoundInv(n, Apply(s, a), b')
  {
    b' := b;
    if a.Tick? {
      b' := s;
      SinceSelf(s);
      assert Ids(Listing(a.mids, s.round + 1)) == a.mids;
    }
    ListedSince(b', s, a);
    assert a.Tick? ==> s.listed[|s.listed|..] == [];
    hide Enabled, Apply, Inv, Sound, Since, NewestKept, NoDuplicates;
    InvStep(n, s, a);
    SoundStep(s, a);
    SinceStep(b', s, a);
    OrderStep(n, b', s, a);
  }

  /** So the in-memory record is the newest of the committed ones for ever, as long as each round is
      drained before the next begins and lists no miner twice, cancelled or not. */
  lemma {:induction false} DrainedRoundsKeepOrder(n: nat, loaded: map<string, Record>, trace: seq<State>) returns (b: State)
    requires OrderlyRun(n, loaded, trace)
    ensures RoundInv(n, trace[|trace| - 1], b) && NewestKept(trace[|trace| - 1])
  {
    hide Enabled, Apply, Orderly;
    if |trace| == 1 {
      b := trace[0];
      assert Run(n, loaded, trace);
      Invariant(n, loaded, trace);
      SoundRun(n, loaded, trace);
      StartsDrained(n, loaded);
      SinceSelf(b);
    } else {
      var m := |trace| - 1;
      assert OrderlyRun(n, loaded, trace[..m]);
      b := DrainedRoundsKeepOrder(n, loaded, trace[..m]);
      assert OrderlyNext(trace[m - 1], trace[m]);
      var a :| Enabled(trace[m - 1], a) && Orderly(trace[m - 1], a) && trace[m] == Apply(trace[m - 1], a);
      b := RoundInvStep(n, trace[m - 1], b, a);
    }
  }

  lemma StartsDrained(n: nat, loaded: map<string, Record>)
    ensures Measure(Start(n, loaded)) == 0
  {
    MeasureNotNegative(Start(n, loaded));
  }
}
