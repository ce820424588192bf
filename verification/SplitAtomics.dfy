/** A snapshot stores its gauges one atomic at a time while a report loads them one at a time: every
    interleaving of the two. */
module SplitAtomics {
  import opened Metrics

  /** The gauges, numbered in the order in which a snapshot stores them. */
  const ADDRESSABLE: nat := 0
  const WITH_DEAL: nat := 1
  const KNOWN: nat := 2
  const GAUGES: nat := 10

  /** The order in which a report loads them. */
  const LOADS: seq<nat> := [KNOWN, ADDRESSABLE, WITH_DEAL, 3, 4, 5, 6, 8, 9, 7]

  /** Instead of a value each gauge holds the number of the snapshot that stored it; 0 is the value
      of metrics.start. stored counts the stores of the snapshot under way. */
  datatype State = State(round: nat, stored: nat, gauges: seq<nat>, loads: seq<nat>)

  const INIT: State := State(0, GAUGES, [0, 0, 0, 0, 0, 0, 0, 0, 0, 0], [])

  predicate Next(s: State, s': State) {
    Writes(s, s') || Loads(s, s')
  }

  /** The handler begins a snapshot, or stores its next gauge. */
  predicate Writes(s: State, s': State) {
    || (s.stored == GAUGES && s' == s.(round := s.round + 1, stored := 0))
    || (s.stored < GAUGES == |s.gauges| && s' == s.(stored := s.stored + 1, gauges := s.gauges[s.stored := s.round]))
  }

  /** The reporter loads its next gauge, or begins a report. */
  predicate Loads(s: State, s': State) {
    || (|s.loads| < |LOADS| && LOADS[|s.loads|] < |s.gauges| &&
        s' == s.(loads := s.loads + [s.gauges[LOADS[|s.loads|]]]))
    || (|s.loads| == |LOADS| && s' == s.(loads := []))
  }

  ghost predicate Run(trace: seq<State>) {
    trace != [] && trace[0] == INIT && forall i :: 0 <= i < |trace| - 1 ==> Next(trace[i], trace[i + 1])
  }

  ghost predicate Reachable(s: State) {
    exists trace :: Run(trace) && trace[|trace| - 1] == s
  }

  lemma Step(s: State, s': State)
    requires Reachable(s) && Next(s, s')
    ensures Reachable(s')
  {
    var trace :| Run(trace) && trace[|trace| - 1] == s;
    assert Run(trace + [s']);
    assert (trace + [s'])[|trace|] == s';
  }

  /** A gauge stored earlier is at least as new as one stored later, and nothing grows older. */
  ghost predicate Inv(s: State) {
    && s.stored <= GAUGES == |s.gauges|
    && |s.loads| <= |LOADS|
    && (s.round == 0 ==> s.stored == GAUGES)
    && (forall g :: 0 <= g < GAUGES ==> s.gauges[g] == if g < s.stored then s.round else s.round - 1)
    && (forall i :: 0 <= i < |s.loads| ==> s.loads[i] <= s.gauges[LOADS[i]])
    && (forall i, j :: 0 <= i < j < |s.loads| <= |LOADS| && LOADS[j] < LOADS[i] ==> s.loads[i] <= s.loads[j])
  }

  lemma {:induction false} Invariant(trace: seq<State>)
    requires Run(trace)
    ensures Inv(trace[|trace| - 1])
  {
    if |trace| > 1 {
      var n := |trace| - 1;
      assert Run(trace[..n]);
      Invariant(trace[..n]);
      assert Next(trace[n - 1], trace[n]);
      InvariantStep(trace[n - 1], trace[n]);
    }
  }

  lemma InvariantStep(s: State, s': State)
    requires Inv(s) && Next(s, s')
    ensures Inv(s')
  {
    hide Inv, Writes, Loads;
    if Writes(s, s') {
      WritesStep(s, s');
    } else {
      LoadsStep(s, s');
    }
  }

  lemma WritesStep(s: State, s': State)
    requires Inv(s) && Writes(s, s')
    ensures Inv(s')
  {
  }

  lemma LoadsStep(s: State, s': State)
    requires Inv(s) && Loads(s, s')
    ensures Inv(s')
  {
  }

  /** Of two gauges that a report loads, the one stored earlier but loaded later is never from an
      older snapshot: in particular the denominator of participant coverage against its numerator. */
  lemma LaterLoadIsNotOlder(s: State, i: nat, j: nat)
    requires Reachable(s) && i < j < |s.loads| <= |LOADS| && LOADS[j] < LOADS[i]
    ensures s.loads[i] <= s.loads[j]
  {
    var trace :| Run(trace) && trace[|trace| - 1] == s;
    Invariant(trace);
  }

  /** What every snapshot's counts satisfy, whatever the targets (Metrics.SummaryLaws). */
  ghost predicate Counted(history: nat -> Participants) {
    forall k :: 0 <= history(k).known <= history(k).withDeal
  }

  /** The participant coverage that a report derives, from the snapshots given by their numbers. */
  function ParticipantCoverage(s: State, history: nat -> Participants): real
    requires |s.loads| == |LOADS|
  {
    Coverage(history(s.loads[0]).known, history(s.loads[2]).withDeal)
  }

  /** No report can exceed one while the denominators do not fall from snapshot to snapshot. */
  lemma CoverageHolds(s: State, history: nat -> Participants)
    requires Reachable(s) && |s.loads| == |LOADS|
    requires Counted(history)
    requires forall k, m :: 0 <= k <= m ==> history(k).withDeal <= history(m).withDeal
    ensures 0.0 <= ParticipantCoverage(s, history) <= 1.0
  {
    LaterLoadIsNotOlder(s, 0, 2);
    CoverageAtMostOne(history(s.loads[0]).known, history(s.loads[2]).withDeal);
  }

  /** The state between snapshots and with the given loads. */
  function Quiet(round: nat, loads: seq<nat>): State {
    State(round, GAUGES, [round, round, round, round, round, round, round, round, round, round], loads)
  }

  lemma {:induction false} WholeSnapshots(k: nat, m: nat, loads: seq<nat>)
    requires k <= m && Reachable(Quiet(k, loads))
    ensures Reachable(Quiet(m, loads))
    decreases m - k
  {
    if k < m {
      var s := Quiet(k, loads).(round := k + 1, stored := 0);
      Step(Quiet(k, loads), s);
      for g := 0 to GAUGES
        invariant Reachable(s) && s.round == k + 1 && s.stored == g && s.loads == loads && |s.gauges| == GAUGES
        invariant forall h :: 0 <= h < g ==> s.gauges[h] == k + 1
      {
        var s' := s.(stored := s.stored + 1, gauges := s.gauges[s.stored := s.round]);
        Step(s, s');
        s := s';
      }
      assert s == Quiet(k + 1, loads);
      WholeSnapshots(k + 1, m, loads);
    }
  }

  /** A report can take its numerator from any snapshot and its denominator from any later one. */
  lemma AnyPairIsLoaded(k: nat, m: nat)
    requires k <= m
    ensures exists s :: Reachable(s) && |s.loads| == |LOADS| && s.loads[0] == k && s.loads[2] == m
  {
    assert INIT == Quiet(0, []);
    assert Run([INIT]);
    assert Reachable(INIT);
    WholeSnapshots(0, k, []);
    Step(Quiet(k, []), Quiet(k, [k]));
    WholeSnapshots(k, m, [k]);
    var s := LoadRest(m, Quiet(m, [k]));
  }

  /** With nothing stored meanwhile a report loads the rest of its gauges from one snapshot. */
  lemma LoadRest(m: nat, begun: State) returns (s: State)
    requires Reachable(begun) && begun.gauges == Quiet(m, []).gauges && |begun.loads| == 1
    ensures Reachable(s) && |s.loads| == |LOADS| && s.loads[0] == begun.loads[0] && s.loads[2] == m
  {
    s := begun;
    for i := 1 to |LOADS|
      invariant Reachable(s) && s.gauges == Quiet(m, []).gauges && |s.loads| == i && s.loads[0] == begun.loads[0]
      invariant i > 2 ==> s.loads[2] == m
    {
      var s' := s.(loads := s.loads + [m]);
      hide Reachable;
      Step(s, s');
      s := s';
    }
  }

  /** Participant coverage stays within one in every interleaving exactly when no snapshot knows more
      participants than it, or any later one that has any, counts with deals. */
  lemma CoverageExact(history: nat -> Participants)
    requires Counted(history)
    ensures (forall s :: Reachable(s) && |s.loads| == |LOADS| ==> ParticipantCoverage(s, history) <= 1.0) <==>
              forall k, m :: 0 <= k <= m && history(m).withDeal > 0 ==> history(k).known <= history(m).withDeal
  {
    if forall s :: Reachable(s) && |s.loads| == |LOADS| ==> ParticipantCoverage(s, history) <= 1.0 {
      forall k: nat, m: nat | k <= m && history(m).withDeal > 0
        ensures history(k).known <= history(m).withDeal
      {
        AnyPairIsLoaded(k, m);
        var s :| Reachable(s) && |s.loads| == |LOADS| && s.loads[0] == k && s.loads[2] == m;
        assert ParticipantCoverage(s, history) <= 1.0;
        CoverageAtMostOne(history(k).known, history(m).withDeal);
        assert Coverage(history(k).known, history(m).withDeal) >= 0.0;
      }
    }
    if forall k, m :: 0 <= k <= m && history(m).withDeal > 0 ==> history(k).known <= history(m).withDeal {
      forall s | Reachable(s) && |s.loads| == |LOADS|
        ensures ParticipantCoverage(s, history) <= 1.0
      {
        LaterLoadIsNotOlder(s, 0, 2);
        CoverageAtMostOne(history(s.loads[0]).known, history(s.loads[2]).withDeal);
      }
    }
  }
}
