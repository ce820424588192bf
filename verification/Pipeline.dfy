/** Dispatcher, checkers and result handler, with the channels between them: every run of them. */
module Pipeline {
  import opened Folds
  import opened Targets

  const CAPACITY: nat := 100

  /** One listing of one miner. Rounds number the dispatcher's ticks. */
  datatype Job = Job(id: string, round: nat)

  datatype Outcome = Outcome(job: Job, record: Record)

  /** A checker between targets, checking one, offering its outcome to the handler, or returned. */
  datatype Checker = Idle | Checking(job: Job) | Offering(outcome: Outcome) | Exited

  /** pending is what the dispatcher has yet to send of its round. listed, dispatched, committed and
      dropped are logs. roundStart is the clock's reading when the round began. */
  datatype State = State(
    dispatcher: bool, handler: bool,
    pending: seq<Job>,
    toCheck: seq<Job>,
    checkers: seq<Checker>,
    checked: seq<Outcome>,
    targets: map<string, Record>,
    round: nat, clock: nat, roundStart: nat, cancelled: bool,
    listed: seq<Job>, dispatched: seq<Job>, committed: seq<Outcome>, dropped: seq<Job>)

  function Start(n: nat, loaded: map<string, Record>): State {
    State(true, true, [], [], seq(n, i => Idle), [], loaded, 0, 0, 0, false, [], [], [], [])
  }

  datatype Action =
    | Tick(mids: seq<string>)
    | Dispatch
    | Take(k: nat)
    | Finish(k: nat, world: World)
    | Put(k: nat)
    | Commit
    | Cancel
    | Abandon
    | StopDispatcher
    | StopHandler
    | Drop(k: nat)

  predicate Enabled(s: State, a: Action) {
    match a
    case Tick(_) => s.dispatcher && s.pending == []
    case Dispatch => s.dispatcher && s.pending != [] && |s.toCheck| < CAPACITY
    case Take(k) => k < |s.checkers| && s.checkers[k].Idle? && s.toCheck != []
    case Finish(k, w) => k < |s.checkers| && s.checkers[k].Checking? && w.now == s.clock
    case Put(k) => k < |s.checkers| && s.checkers[k].Offering? && |s.checked| < CAPACITY
    case Commit => s.handler && s.checked != []
    case Cancel => true
    case Abandon => s.cancelled && s.dispatcher && s.pending != []
    case StopDispatcher => s.cancelled && s.pending == []
    case StopHandler => s.cancelled
    case Drop(k) => s.cancelled && k < |s.checkers| && s.checkers[k].Offering?
  }

  function Listing(mids: seq<string>, round: nat): seq<Job> {
    seq(|mids|, i requires 0 <= i < |mids| => Job(mids[i], round))
  }

  function Apply(s: State, a: Action): State
    requires Enabled(s, a)
  {
    match a
    case Tick(mids) =>
      var jobs := Listing(mids, s.round + 1);
      s.(pending := jobs, listed := s.listed + jobs, round := s.round + 1, roundStart := s.clock)
    case Dispatch =>
      s.(pending := s.pending[1..], toCheck := s.toCheck + [s.pending[0]], dispatched := s.dispatched + [s.pending[0]])
    case Take(k) =>
      s.(toCheck := s.toCheck[1..], checkers := s.checkers[k := Checking(s.toCheck[0])])
    case Finish(k, w) =>
      var job := s.checkers[k].job;
      s.(checkers := s.checkers[k := Offering(Outcome(job, Checked(job.id, w)))], clock := s.clock + 1)
    case Put(k) =>
      s.(checkers := s.checkers[k := Idle], checked := s.checked + [s.checkers[k].outcome])
    case Commit =>
      var o := s.checked[0];
      s.(checked := s.checked[1..], targets := s.targets[o.record.id := o.record], committed := s.committed + [o])
    case Cancel => s.(cancelled := true)
    case Abandon => s.(pending := [])
    case StopDispatcher => s.(dispatcher := false)
    case StopHandler => s.(handler := false)
    case Drop(k) =>
      s.(checkers := s.checkers[k := Exited], dropped := s.dropped + [s.checkers[k].outcome.job])
  }

  ghost predicate Next(s: State, s': State) {
    exists a :: Enabled(s, a) && s' == Apply(s, a)
  }

  ghost predicate Run(n: nat, loaded: map<string, Record>, trace: seq<State>) {
    trace != [] && trace[0] == Start(n, loaded) && forall i :: 0 <= i < |trace| - 1 ==> Next(trace[i], trace[i + 1])
  }

  ghost predicate Reachable(n: nat, loaded: map<string, Record>, s: State) {
    exists trace :: Run(n, loaded, trace) && trace[|trace| - 1] == s
  }

  lemma Step(n: nat, loaded: map<string, Record>, s: State, a: Action)
    requires Reachable(n, loaded, s) && Enabled(s, a)
    ensures Reachable(n, loaded, Apply(s, a))
  {
    var trace :| Run(n, loaded, trace) && trace[|trace| - 1] == s;
    var s' := Apply(s, a);
    assert Run(n, loaded, trace + [s']);
    assert (trace + [s'])[|trace|] == s';
  }

  /* ----- Conservation ----- */

  function JobOf(c: Checker): multiset<Job> {
    match c
    case Checking(job) => multiset{job}
    case Offering(o) => multiset{o.job}
    case _ => multiset{}
  }

  function Held(cs: seq<Checker>): multiset<Job> {
    if cs == [] then multiset{} else Held(cs[..|cs| - 1]) + JobOf(cs[|cs| - 1])
  }

  function Jobs(os: seq<Outcome>): seq<Job> {
    seq(|os|, i requires 0 <= i < |os| => os[i].job)
  }

  /** How many targets are on their way from dispatcher to handler. */
  function InFlight(s: State): nat {
    |s.toCheck| + |Held(s.checkers)| + |s.checked|
  }

  /** All dispatched targets, wherever they are by now. */
  function Places(s: State): multiset<Job> {
    multiset(s.toCheck) + Held(s.checkers) + multiset(Jobs(s.checked)) + multiset(Jobs(s.committed)) + multiset(s.dropped)
  }

  function IsJob(job: Job): Job -> int {
    j => if j == job then 1 else 0
  }

  function IsOutcomeOf(job: Job): Outcome -> int {
    (o: Outcome) => if o.job == job then 1 else 0
  }

  function Holds(job: Job): Checker -> int {
    c => JobOf(c)[job]
  }

  /** Conservation, one job at a time. */
  ghost predicate Conserved(s: State) {
    forall job :: ConservedJob(s, job)
  }

  predicate ConservedJob(s: State, job: Job) {
    Sum(s.dispatched, IsJob(job)) ==
    Sum(s.toCheck, IsJob(job)) + Sum(s.checkers, Holds(job)) + Sum(s.checked, IsOutcomeOf(job))
    + Sum(s.committed, IsOutcomeOf(job)) + Sum(s.dropped, IsJob(job))
  }

  lemma {:induction false} SumIsMultiplicity(jobs: seq<Job>, job: Job)
    ensures Sum(jobs, IsJob(job)) == multiset(jobs)[job]
  {
    if jobs != [] {
      var n := |jobs| - 1;
      SumIsMultiplicity(jobs[..n], job);
      assert jobs == jobs[..n] + [jobs[n]];
    }
  }

  lemma {:induction false} OutcomeMultiplicity(os: seq<Outcome>, job: Job)
    ensures Sum(os, IsOutcomeOf(job)) == multiset(Jobs(os))[job]
  {
    if os != [] {
      var n := |os| - 1;
      OutcomeMultiplicity(os[..n], job);
      assert Jobs(os) == Jobs(os[..n]) + [os[n].job];
    }
  }

  lemma {:induction false} HeldMultiplicity(cs: seq<Checker>, job: Job)
    ensures Sum(cs, Holds(job)) == Held(cs)[job]
  {
    if cs != [] {
      HeldMultiplicity(cs[..|cs| - 1], job);
    }
  }

  lemma ConservedPlaces(s: State)
    requires Conserved(s)
    ensures multiset(s.dispatched) == Places(s)
  {
    forall job
      ensures multiset(s.dispatched)[job] == Places(s)[job]
    {
      assert ConservedJob(s, job);
      SumIsMultiplicity(s.dispatched, job);
      SumIsMultiplicity(s.toCheck, job);
      SumIsMultiplicity(s.dropped, job);
      HeldMultiplicity(s.checkers, job);
      OutcomeMultiplicity(s.checked, job);
      OutcomeMultiplicity(s.committed, job);
    }
  }

  ghost predicate Inv(n: nat, s: State) {
    Conserved(s) && Sizes(n, s)
  }

  lemma {:induction false} Invariant(n: nat, loaded: map<string, Record>, trace: seq<State>)
    requires Run(n, loaded, trace)
    ensures Inv(n, trace[|trace| - 1])
  {
    if |trace| == 1 {
      forall job
        ensures ConservedJob(trace[0], job)
      {
        NothingHeld(n, Holds(job));
      }
    } else {
      var m := |trace| - 1;
      assert Run(n, loaded, trace[..m]);
      Invariant(n, loaded, trace[..m]);
      assert Next(trace[m - 1], trace[m]);
      var a :| Enabled(trace[m - 1], a) && trace[m] == Apply(trace[m - 1], a);
      InvStep(n, trace[m - 1], a);
    }
  }

  lemma {:induction false} NothingHeld(n: nat, f: Checker -> int)
    requires f(Idle) == 0
    ensures Sum(seq(n, i => Idle), f) == 0
  {
    if n > 0 {
      NothingHeld(n - 1, f);
      assert seq(n, i => Idle)[..n - 1] == seq(n - 1, i => Idle);
    }
  }

  lemma InvStep(n: nat, s: State, a: Action)
    requires Inv(n, s) && Enabled(s, a)
    ensures Inv(n, Apply(s, a))
  {
    forall job
      ensures ConservedJob(Apply(s, a), job)
    {
      assert ConservedJob(s, job);
      ConservedStep(s, a, job);
    }
    SizesStep(n, s, a);
  }

  ghost predicate Sizes(n: nat, s: State) {
    && |s.checkers| == n && |s.toCheck| <= CAPACITY && |s.checked| <= CAPACITY
    && (!s.cancelled ==> s.dispatcher && s.handler && s.dropped == [] && s.listed == s.dispatched + s.pending)
    && (forall k :: 0 <= k < n && s.checkers[k].Exited? ==> s.cancelled)
  }

  lemma SizesStep(n: nat, s: State, a: Action)
    requires Sizes(n, s) && Enabled(s, a)
    ensures Sizes(n, Apply(s, a))
  {
    hide Checked;
    if a.Dispatch? {
      assert s.pending == [s.pending[0]] + s.pending[1..];
    }
  }

  lemma ConservedStep(s: State, a: Action, job: Job)
    requires ConservedJob(s, job) && Enabled(s, a)
    ensures ConservedJob(Apply(s, a), job)
  {
    hide Checked, Sum;
    match a {
      case Dispatch =>
        SumStep(s.toCheck, s.pending[0], IsJob(job));
        SumStep(s.dispatched, s.pending[0], IsJob(job));
      case Commit =>
        SumFirst(s.checked, IsOutcomeOf(job));
        SumStep(s.committed, s.checked[0], IsOutcomeOf(job));
      case Take(k) => TakeConserves(s, k, job);
      case Finish(k, w) => FinishConserves(s, k, w, job);
      case Put(k) => PutConserves(s, k, job);
      case Drop(k) => DropConserves(s, k, job);
      case _ =>
    }
  }

  lemma TakeConserves(s: State, k: nat, job: Job)
    requires ConservedJob(s, job) && Enabled(s, Take(k))
    ensures ConservedJob(Apply(s, Take(k)), job)
  {
    hide Sum;
    SumFirst(s.toCheck, IsJob(job));
    SumUpdate(s.checkers, k, Checking(s.toCheck[0]), Holds(job));
  }

  lemma FinishConserves(s: State, k: nat, w: World, job: Job)
    requires ConservedJob(s, job) && Enabled(s, Finish(k, w))
    ensures ConservedJob(Apply(s, Finish(k, w)), job)
  {
    hide Checked, Sum;
    var j := s.checkers[k].job;
    SumUpdate(s.checkers, k, Offering(Outcome(j, Checked(j.id, w))), Holds(job));
  }

  lemma PutConserves(s: State, k: nat, job: Job)
    requires ConservedJob(s, job) && Enabled(s, Put(k))
    ensures ConservedJob(Apply(s, Put(k)), job)
  {
    hide Sum;
    SumUpdate(s.checkers, k, Idle, Holds(job));
    SumStep(s.checked, s.checkers[k].outcome, IsOutcomeOf(job));
  }

  lemma DropConserves(s: State, k: nat, job: Job)
    requires ConservedJob(s, job) && Enabled(s, Drop(k))
    ensures ConservedJob(Apply(s, Drop(k)), job)
  {
    hide Sum;
    SumUpdate(s.checkers, k, Exited, Holds(job));
    SumStep(s.dropped, s.checkers[k].outcome.job, IsJob(job));
  }

  lemma {:induction false} HeldBound(cs: seq<Checker>)
    ensures |Held(cs)| <= |cs|
  {
    if cs != [] {
      HeldBound(cs[..|cs| - 1]);
    }
  }

  /** In every reachable state the dispatched targets are those queued, held, offered and committed,
      and after a cancellation those dropped with a checker that returned; and no more than the two
      channels and the checkers can hold are in flight. */
  lemma Conservation(n: nat, loaded: map<string, Record>, s: State)
    requires Reachable(n, loaded, s)
    ensures multiset(s.dispatched) == Places(s)
    ensures !s.cancelled ==> s.dropped == [] && s.listed == s.dispatched + s.pending
    ensures |s.dispatched| == InFlight(s) + |s.committed| + |s.dropped|
    ensures InFlight(s) <= CAPACITY + n + CAPACITY
  {
    var trace :| Run(n, loaded, trace) && trace[|trace| - 1] == s;
    Invariant(n, loaded, trace);
    ConservedPlaces(s);
    HeldBound(s.checkers);
    assert |multiset(s.dispatched)| == |s.dispatched|;
    assert |multiset(s.toCheck)| == |s.toCheck|;
    assert |multiset(Jobs(s.checked))| == |s.checked|;
    assert |multiset(Jobs(s.committed))| == |s.committed|;
  }

  /* ----- Progress ----- */

  predicate Work(a: Action) {
    a.Dispatch? || a.Take? || a.Finish? || a.Put? || a.Commit?
  }

  function Weight(c: Checker): int {
    match c
    case Checking(_) => 3
    case Offering(_) => 2
    case _ => 0
  }

  /** The steps that the targets present have still to go. */
  function Measure(s: State): int {
    5 * |s.pending| + 4 * |s.toCheck| + Sum(s.checkers, Weight) + |s.checked|
  }

  lemma MeasureNotNegative(s: State)
    ensures Measure(s) >= 0
    ensures Measure(s) == 0 <==> s.pending == [] && s.toCheck == [] && s.checked == [] &&
                                 forall c :: c in s.checkers ==> c.Idle? || c.Exited?
  {
    WeightZero(s.checkers);
  }

  lemma {:induction false} WeightZero(cs: seq<Checker>)
    ensures Sum(cs, Weight) >= 0
    ensures Sum(cs, Weight) == 0 <==> forall c :: c in cs ==> c.Idle? || c.Exited?
  {
    if cs != [] {
      var n := |cs| - 1;
      WeightZero(cs[..n]);
      assert forall c :: c in cs <==> c in cs[..n] || c == cs[n];
    }
  }

  /** Every step of work takes exactly one off the measure. */
  lemma WorkCounts(s: State, a: Action)
    requires Enabled(s, a) && Work(a)
    ensures Measure(Apply(s, a)) == Measure(s) - 1
  {
    match a {
      case Take(k) => SumUpdate(s.checkers, k, Checking(s.toCheck[0]), Weight);
      case Finish(k, w) =>
        var job := s.checkers[k].job;
        SumUpdate(s.checkers, k, Offering(Outcome(job, Checked(job.id, w))), Weight);
      case Put(k) => SumUpdate(s.checkers, k, Idle, Weight);
      case _ =>
    }
  }

  ghost predicate CanWork(s: State) {
    exists a :: Enabled(s, a) && Work(a)
  }

  /** With a checker and no cancellation, work is possible exactly as long as there is any: the
      pipeline never deadlocks. With no checker at all it does, once toCheck is full. */
  lemma NoDeadlock(n: nat, loaded: map<string, Record>, s: State, world: World)
    requires Reachable(n, loaded, s) && !s.cancelled
    ensures n >= 1 ==> (CanWork(s) <==> Measure(s) > 0)
    ensures n == 0 ==> (CanWork(s) <==> s.pending != [] && |s.toCheck| < CAPACITY) && s.committed == []
  {
    var trace :| Run(n, loaded, trace) && trace[|trace| - 1] == s;
    Invariant(n, loaded, trace);
    MeasureNotNegative(s);
    if CanWork(s) {
      var a :| Enabled(s, a) && Work(a);
      WorkCounts(s, a);
      MeasureNotNegative(Apply(s, a));
    }
    if n == 0 {
      NoCheckersNoCommits(loaded, trace);
      assert s.pending != [] && |s.toCheck| < CAPACITY ==> Enabled(s, Dispatch) && Work(Dispatch);
    } else if Measure(s) > 0 {
      SomeWork(s, world);
    }
  }

  lemma SomeWork(s: State, world: World)
    requires s.checkers != [] && s.dispatcher && s.handler && Measure(s) > 0
    requires forall c :: c in s.checkers ==> !c.Exited?
    ensures CanWork(s)
  {
    MeasureNotNegative(s);
    if s.checked != [] {
      assert Enabled(s, Commit) && Work(Commit);
    } else if k :| 0 <= k < |s.checkers| && s.checkers[k].Offering? {
      assert Enabled(s, Put(k)) && Work(Put(k));
    } else if k :| 0 <= k < |s.checkers| && s.checkers[k].Checking? {
      var w := world.(now := s.clock);
      assert Enabled(s, Finish(k, w)) && Work(Finish(k, w));
    } else if s.toCheck != [] {
      assert s.checkers[0].Idle?;
      assert Enabled(s, Take(0)) && Work(Take(0));
    } else {
      assert Enabled(s, Dispatch) && Work(Dispatch);
    }
  }

  lemma {:induction false} NoCheckersNoCommits(loaded: map<string, Record>, trace: seq<State>)
    requires Run(0, loaded, trace)
    ensures
      var s := trace[|trace| - 1];
      s.checked == [] && s.committed == [] && s.checkers == []
  {
    if |trace| > 1 {
      var m := |trace| - 1;
      assert Run(0, loaded, trace[..m]);
      NoCheckersNoCommits(loaded, trace[..m]);
      assert Next(trace[m - 1], trace[m]);
      hide Checked, Listing;
    }
  }

  /** Work from s, step by step. */
  ghost predicate Works(trace: seq<State>) {
    trace != [] && forall i :: 0 <= i < |trace| - 1 ==> WorkStep(trace[i], trace[i + 1])
  }

  ghost predicate WorkStep(s: State, s': State) {
    exists a :: Enabled(s, a) && Work(a) && s' == Apply(s, a)
  }

  lemma {:induction false} WorkLength(n: nat, loaded: map<string, Record>, trace: seq<State>)
    requires Works(trace) && Reachable(n, loaded, trace[0])
    ensures Measure(trace[|trace| - 1]) == Measure(trace[0]) - (|trace| - 1)
    ensures Reachable(n, loaded, trace[|trace| - 1]) && trace[|trace| - 1].cancelled == trace[0].cancelled
    ensures trace[|trace| - 1].listed == trace[0].listed
  {
    hide WorkStep, Measure, Reachable;
    if |trace| > 1 {
      var m := |trace| - 1;
      WorkLength(n, loaded, trace[..m]);
      assert WorkStep(trace[m - 1], trace[m]);
      WorkOnly(n, loaded, trace[m - 1], trace[m]);
    }
  }

  lemma WorkOnly(n: nat, loaded: map<string, Record>, s: State, s': State)
    requires WorkStep(s, s') && Reachable(n, loaded, s)
    ensures Measure(s') == Measure(s) - 1 && Reachable(n, loaded, s')
    ensures s'.cancelled == s.cancelled && s'.listed == s.listed
  {
    hide Checked, Reachable;
    var a :| Enabled(s, a) && Work(a) && s' == Apply(s, a);
    WorkCounts(s, a);
    Step(n, loaded, s, a);
  }

  /** A round of m miners, ticked into a drained pipeline, is through after exactly 5 m steps of work,
      in whatever order they come: no run of work is longer, none stops sooner, and at its end every
      target listed is committed. */
  lemma RoundDrains(n: nat, loaded: map<string, Record>, s: State, mids: seq<string>, trace: seq<State>, world: World)
    requires n >= 1 && Reachable(n, loaded, s) && !s.cancelled && Measure(s) == 0
    requires Enabled(s, Tick(mids)) && Works(trace) && trace[0] == Apply(s, Tick(mids))
    ensures |trace| - 1 <= 5 * |mids|
    ensures CanWork(trace[|trace| - 1]) <==> |trace| - 1 < 5 * |mids|
    ensures |trace| - 1 == 5 * |mids| ==> multiset(Jobs(trace[|trace| - 1].committed)) == multiset(s.listed + Listing(mids, s.round + 1))
  {
    var begun, end := trace[0], trace[|trace| - 1];
    Step(n, loaded, s, Tick(mids));
    TickMeasure(s, mids);
    hide Apply, Measure, Reachable, Works, CanWork;
    WorkLength(n, loaded, trace);
    MeasureNotNegative(end);
    NoDeadlock(n, loaded, end, world);
    if Measure(end) == 0 {
      DrainedIsCommitted(n, loaded, end);
    }
  }

  lemma TickMeasure(s: State, mids: seq<string>)
    requires Enabled(s, Tick(mids))
    ensures Measure(Apply(s, Tick(mids))) == Measure(s) + 5 * |mids|
    ensures Apply(s, Tick(mids)).cancelled == s.cancelled
    ensures Apply(s, Tick(mids)).listed == s.listed + Listing(mids, s.round + 1)
  {
  }

  /** Once nothing is under way all that was ever listed is committed. */
  lemma DrainedIsCommitted(n: nat, loaded: map<string, Record>, s: State)
    requires Reachable(n, loaded, s) && !s.cancelled && Measure(s) == 0
    ensures multiset(Jobs(s.committed)) == multiset(s.listed)
  {
    MeasureNotNegative(s);
    Conservation(n, loaded, s);
    NoneHeld(s.checkers);
    assert s.dispatched + [] == s.dispatched;
  }

  lemma {:induction false} NoneHeld(cs: seq<Checker>)
    requires forall c :: c in cs ==> c.Idle? || c.Exited?
    ensures Held(cs) == multiset{}
  {
    if cs != [] {
      NoneHeld(cs[..|cs| - 1]);
    }
  }
}
