/** Where order is lost: with two checkers or more, whenever rounds begun from one drained state list a
    miner twice, some schedule leaves the older of its records in memory. */
module Overtaking {
  import opened Folds
  import opened Targets
  import opened Pipeline
  import opened Ordering

  /** Nothing is between dispatcher and handler but what the first checker may hold back. */
  ghost predicate Free(s: State, front: Checker) {
    && !s.cancelled && s.dispatcher && s.handler && s.toCheck == [] && s.checked == []
    && |s.checkers| >= 2 && s.checkers[0] == front && s.checkers[1] == Idle
  }

  /** The miners that the dispatcher has still to send. */
  function Ahead(p: Plan): seq<string> {
    Ids(p.state.pending) + Flat(p.ahead)
  }

  lemma Begin(b: State, rounds: seq<seq<string>>)
    ensures Arrives(b, rounds, Plan(b, rounds))
  {
    assert PlanRun(b, rounds, [Plan(b, rounds)]);
  }

  lemma GoOn(b: State, rounds: seq<seq<string>>, p: Plan, p': Plan)
    requires Arrives(b, rounds, p) && PlanStep(p, p')
    ensures Arrives(b, rounds, p')
  {
    hide PlanStep;
    var trace :| PlanRun(b, rounds, trace) && trace[|trace| - 1] == p;
    assert PlanRun(b, rounds, trace + [p']);
    assert (trace + [p'])[|trace|] == p';
  }

  lemma Go(b: State, rounds: seq<seq<string>>, p: Plan, a: Action) returns (p': Plan)
    requires Arrives(b, rounds, p) && !a.Tick? && Enabled(p.state, a)
    ensures p' == Plan(Apply(p.state, a), p.ahead) && Arrives(b, rounds, p')
  {
    p' := Plan(Apply(p.state, a), p.ahead);
    hide Enabled, Apply, Arrives;
    assert PlanStep(p, p');
    GoOn(b, rounds, p, p');
  }

  lemma GoTick(b: State, rounds: seq<seq<string>>, p: Plan) returns (p': Plan)
    requires Arrives(b, rounds, p) && p.ahead != [] && p.state.dispatcher && p.state.pending == []
    ensures p' == Plan(Apply(p.state, Tick(p.ahead[0])), p.ahead[1..]) && Arrives(b, rounds, p')
    ensures Ahead(p') == Ahead(p)
  {
    p' := Plan(Apply(p.state, Tick(p.ahead[0])), p.ahead[1..]);
    assert Ids(Listing(p.ahead[0], p.state.round + 1)) == p.ahead[0];
    assert Ids([]) == [];
    hide Arrives;
    assert PlanStep(p, p');
    GoOn(b, rounds, p, p');
  }

  /** A checker takes the first target ahead and checks it. */
  lemma CheckNext(b: State, rounds: seq<seq<string>>, p: Plan, k: nat, w: World) returns (p': Plan, o: Outcome)
    requires Arrives(b, rounds, p) && p.state.dispatcher && p.state.pending != [] && p.state.toCheck == []
    requires k < |p.state.checkers| && p.state.checkers[k] == Idle
    ensures Arrives(b, rounds, p') && p'.ahead == p.ahead
    ensures o.record.id == p.state.pending[0].id && o.record.lastChecked == p.state.clock
    ensures
      p'.state == p.state.(
        pending := p.state.pending[1..], checkers := p.state.checkers[k := Offering(o)], clock := p.state.clock + 1,
        dispatched := p.state.dispatched + [p.state.pending[0]])
  {
    hide Checked, Arrives;
    var job, world := p.state.pending[0], w.(now := p.state.clock);
    p' := Go(b, rounds, p, Dispatch);
    p' := Go(b, rounds, p', Take(k));
    o := Outcome(job, Checked(job.id, world));
    FinishedRecord(job.id, world);
    p' := Go(b, rounds, p', Finish(k, world));
  }

  /** Its result goes through to memory. */
  lemma PassOn(b: State, rounds: seq<seq<string>>, p: Plan, k: nat) returns (p': Plan)
    requires Arrives(b, rounds, p) && p.state.handler && p.state.checked == []
    requires k < |p.state.checkers| && p.state.checkers[k].Offering?
    ensures Arrives(b, rounds, p') && p'.ahead == p.ahead
    ensures
      var o := p.state.checkers[k].outcome;
      p'.state == p.state.(
        checkers := p.state.checkers[k := Idle], targets := p.state.targets[o.record.id := o.record],
        committed := p.state.committed + [o])
  {
    hide Arrives;
    p' := Go(b, rounds, p, Put(k));
    p' := Go(b, rounds, p', Commit);
  }

  /** The second checker carries the first target ahead through, past the first checker. */
  lemma CarryNext(b: State, rounds: seq<seq<string>>, p: Plan, front: Checker, w: World) returns (p': Plan, o: Outcome)
    requires Arrives(b, rounds, p) && Free(p.state, front) && p.state.pending != []
    ensures Arrives(b, rounds, p') && Free(p'.state, front)
    ensures p'.ahead == p.ahead && p'.state.pending == p.state.pending[1..] && Ahead(p') == Ahead(p)[1..]
    ensures o.record.id == p.state.pending[0].id == Ahead(p)[0]
    ensures o.record.lastChecked == p.state.clock < p'.state.clock && o in p'.state.committed
  {
    hide Arrives;
    p', o := CheckNext(b, rounds, p, 1, w);
    p' := PassOn(b, rounds, p', 1);
    TakesFirst(p.state.pending, Flat(p.ahead));
  }

  lemma TakesFirst(pending: seq<Job>, behind: seq<string>)
    requires pending != []
    ensures Ids(pending[1..]) + behind == (Ids(pending) + behind)[1..]
  {
  }

  /** It carries as many as need be, until the m-th target ahead is the next to be sent. */
  lemma {:induction false} Bring(b: State, rounds: seq<seq<string>>, p: Plan, front: Checker, m: nat, w: World) returns (p': Plan)
    requires Arrives(b, rounds, p) && Free(p.state, front) && m < |Ahead(p)|
    ensures Arrives(b, rounds, p') && Free(p'.state, front) && p'.state.pending != []
    ensures Ahead(p') == Ahead(p)[m..] && p'.state.clock >= p.state.clock
    decreases m, |p.ahead|
  {
    hide Arrives;
    if p.state.pending == [] {
      p' := GoTick(b, rounds, p);
      p' := Bring(b, rounds, p', front, m, w);
    } else if m == 0 {
      p' := p;
    } else {
      var carried, o := CarryNext(b, rounds, p, front, w);
      p' := Bring(b, rounds, carried, front, m - 1, w);
      assert Ahead(p)[1..][m - 1..] == Ahead(p)[m..];
    }
  }

  /** The first checker takes the i-th target ahead, and has it checked. */
  lemma Hold(b: State, rounds: seq<seq<string>>, p: Plan, i: nat, w: World) returns (p': Plan, older: Outcome)
    requires Arrives(b, rounds, p) && Free(p.state, Idle) && i < |Ahead(p)|
    ensures Arrives(b, rounds, p') && Free(p'.state, Offering(older)) && Ahead(p') == Ahead(p)[i + 1..]
    ensures older.record.id == Ahead(p)[i] && older.record.lastChecked < p'.state.clock
  {
    hide Arrives;
    var brought := Bring(b, rounds, p, Idle, i, w);
    p', older := CheckNext(b, rounds, brought, 0, w);
    TakesFirst(brought.state.pending, Flat(brought.ahead));
    assert Ahead(p') == Ahead(brought)[1..] == Ahead(p)[i..][1..] == Ahead(p)[i + 1..];
    assert Ahead(brought)[0] == Ahead(p)[i];
  }

  /** It holds the result back until the second has carried that of the m-th target ahead through. */
  lemma Release(b: State, rounds: seq<seq<string>>, p: Plan, older: Outcome, m: nat, w: World) returns (p': Plan)
    requires Arrives(b, rounds, p) && Free(p.state, Offering(older)) && m < |Ahead(p)|
    requires older.record.id == Ahead(p)[m] && older.record.lastChecked < p.state.clock
    ensures Arrives(b, rounds, p') && !p'.state.cancelled && !NewestKept(p'.state)
  {
    hide Arrives, NewestKept;
    p' := Bring(b, rounds, p, Offering(older), m, w);
    assert Ahead(p')[0] == Ahead(p)[m];
    var newer;
    p', newer := CarryNext(b, rounds, p', Offering(older), w);
    p' := PassOn(b, rounds, p', 0);
    Overtaken(p'.state, older, newer);
  }

  /** Of two places of one miner the result for the later one can overtake that for the earlier. */
  lemma LaterOvertakes(b: State, rounds: seq<seq<string>>, p: Plan, i: nat, j: nat, w: World) returns (p': Plan)
    requires Arrives(b, rounds, p) && Free(p.state, Idle)
    requires i < j < |Ahead(p)| && Ahead(p)[i] == Ahead(p)[j]
    ensures Arrives(b, rounds, p') && !p'.state.cancelled && !NewestKept(p'.state)
  {
    var held, older := Hold(b, rounds, p, i, w);
    assert Ahead(held)[j - i - 1] == Ahead(p)[j];
    p' := Release(b, rounds, held, older, j - i - 1, w);
  }

  lemma DuplicateOvertakes(n: nat, loaded: map<string, Record>, b: State, rounds: seq<seq<string>>, i: nat, j: nat, w: World)
      returns (p: Plan)
    requires n >= 2 && Reachable(n, loaded, b) && !b.cancelled && Measure(b) == 0
    requires i < j < |Flat(rounds)| && Flat(rounds)[i] == Flat(rounds)[j]
    ensures Arrives(b, rounds, p) && !p.state.cancelled && !NewestKept(p.state)
  {
    DrainedIsFree(n, loaded, b);
    Begin(b, rounds);
    assert Ahead(Plan(b, rounds)) == Flat(rounds);
    hide *;
    p := LaterOvertakes(b, rounds, Plan(b, rounds), i, j, w);
  }

  lemma DrainedIsFree(n: nat, loaded: map<string, Record>, b: State)
    requires n >= 2 && Reachable(n, loaded, b) && !b.cancelled && Measure(b) == 0
    ensures Free(b, Idle) && b.pending == []
  {
    var run :| Run(n, loaded, run) && run[|run| - 1] == b;
    Invariant(n, loaded, run);
    MeasureNotNegative(b);
    assert b.checkers[0] in b.checkers && b.checkers[1] in b.checkers;
  }

  lemma Overtaken(s: State, older: Outcome, newer: Outcome)
    requires newer in s.committed && newer.record.id == older.record.id
    requires older.record.lastChecked < newer.record.lastChecked
    requires newer.record.id in s.targets && s.targets[newer.record.id] == older.record
    ensures !NewestKept(s)
  {
  }

  /* ----- The exact conditions ----- */

  /** With at least two checkers, let rounds begin one after another from a drained state in order, each
      at any point where the dispatcher is free. Order is kept on every schedule, with or without
      cancellations, exactly when the rounds together list no miner twice. */
  lemma OrderExactly(n: nat, loaded: map<string, Record>, b: State, rounds: seq<seq<string>>, w: World)
    requires n >= 2 && Reachable(n, loaded, b) && !b.cancelled && Measure(b) == 0 && NewestKept(b)
    ensures (forall p :: Arrives(b, rounds, p) ==> NewestKept(p.state)) <==> NoDuplicates(Flat(rounds))
    ensures (forall p :: Arrives(b, rounds, p) && !p.state.cancelled ==> NewestKept(p.state)) <==> NoDuplicates(Flat(rounds))
  {
    hide NewestKept, Arrives, Reachable, Measure;
    if NoDuplicates(Flat(rounds)) {
      forall p | Arrives(b, rounds, p)
        ensures NewestKept(p.state)
      {
        DistinctMinersKeepOrder(n, loaded, b, rounds, p);
      }
    } else {
      var i, j :| 0 <= i < j < |Flat(rounds)| && Flat(rounds)[i] == Flat(rounds)[j];
      var p := DuplicateOvertakes(n, loaded, b, rounds, i, j, w);
    }
  }

  lemma FlatOne(mids: seq<string>)
    ensures Flat([mids]) == mids && [mids][1..] == []
  {
    assert Flat([mids]) == mids + Flat([]);
  }

  lemma FlatTwo(first: seq<string>, second: seq<string>)
    ensures Flat([first, second]) == first + second
  {
    FlatOne(second);
    assert [first, second][1..] == [second];
    assert Flat([first, second]) == first + Flat([second]);
  }

  /** For one round: exactly when it lists no miner twice. */
  lemma OneRoundExactly(n: nat, loaded: map<string, Record>, b: State, mids: seq<string>, w: World)
    requires n >= 2 && Reachable(n, loaded, b) && !b.cancelled && Measure(b) == 0 && NewestKept(b)
    ensures (forall p :: Arrives(b, [mids], p) && !p.state.cancelled ==> NewestKept(p.state)) <==> NoDuplicates(mids)
  {
    OrderExactly(n, loaded, b, [mids], w);
    FlatOne(mids);
  }

  /** For two, the second of which may begin before the first is drained: exactly when they list no
      miner twice between them. */
  lemma TwoRoundsExactly(n: nat, loaded: map<string, Record>, b: State, first: seq<string>, second: seq<string>, w: World)
    requires n >= 2 && Reachable(n, loaded, b) && !b.cancelled && Measure(b) == 0 && NewestKept(b)
    ensures (forall p :: Arrives(b, [first, second], p) && !p.state.cancelled ==> NewestKept(p.state)) <==>
              NoDuplicates(first + second)
  {
    OrderExactly(n, loaded, b, [first, second], w);
    FlatTwo(first, second);
  }

  /* ----- From the start ----- */

  lemma {:induction false} ArrivesReachably(n: nat, loaded: map<string, Record>, b: State, rounds: seq<seq<string>>, trace: seq<Plan>)
    requires Reachable(n, loaded, b) && PlanRun(b, rounds, trace)
    ensures Reachable(n, loaded, trace[|trace| - 1].state)
  {
    hide Reachable, Enabled, Apply;
    if |trace| > 1 {
      var m := |trace| - 1;
      assert PlanRun(b, rounds, trace[..m]);
      ArrivesReachably(n, loaded, b, rounds, trace[..m]);
      assert PlanStep(trace[m - 1], trace[m]);
      var p, p' := trace[m - 1], trace[m];
      if p.ahead != [] && Enabled(p.state, Tick(p.ahead[0])) && p' == Plan(Apply(p.state, Tick(p.ahead[0])), p.ahead[1..]) {
        Step(n, loaded, p.state, Tick(p.ahead[0]));
      } else {
        var a: Action :| !a.Tick? && Enabled(p.state, a) && p' == Plan(Apply(p.state, a), p.ahead);
        Step(n, loaded, p.state, a);
      }
    }
  }

  /** From the start rounds that list a miner twice can leave an older record in place. */
  lemma LosesOrder(n: nat, loaded: map<string, Record>, rounds: seq<seq<string>>, w: World)
    requires n >= 2 && !NoDuplicates(Flat(rounds))
    ensures exists s :: Reachable(n, loaded, s) && !s.cancelled && !NewestKept(s)
  {
    var b := Start(n, loaded);
    assert Run(n, loaded, [b]);
    assert Reachable(n, loaded, b);
    StartsDrained(n, loaded);
    hide Measure, Reachable, NewestKept;
    var i, j :| 0 <= i < j < |Flat(rounds)| && Flat(rounds)[i] == Flat(rounds)[j];
    var p := DuplicateOvertakes(n, loaded, b, rounds, i, j, w);
    var trace :| PlanRun(b, rounds, trace) && trace[|trace| - 1] == p;
    ArrivesReachably(n, loaded, b, rounds, trace);
  }

  /** Any two overlapping rounds that share a miner, for example. */
  lemma OverlapLosesOrder(n: nat, loaded: map<string, Record>, first: seq<string>, second: seq<string>, id: string, w: World)
    requires n >= 2 && id in first && id in second
    ensures exists s :: Reachable(n, loaded, s) && !s.cancelled && !NewestKept(s)
  {
    var i :| 0 <= i < |first| && first[i] == id;
    var j :| 0 <= j < |second| && second[j] == id;
    FlatTwo(first, second);
    assert Flat([first, second])[i] == Flat([first, second])[|first| + j];
    LosesOrder(n, loaded, [first, second], w);
  }

  /** So can any one round that lists a miner twice. */
  lemma DuplicateLosesOrder(n: nat, loaded: map<string, Record>, mids: seq<string>, w: World)
    requires n >= 2 && !NoDuplicates(mids)
    ensures exists s :: Reachable(n, loaded, s) && !s.cancelled && !NewestKept(s)
  {
    FlatOne(mids);
    LosesOrder(n, loaded, [mids], w);
  }
}
