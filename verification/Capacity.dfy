/** How much the pipeline can hold: the bound of a hundred targets for each channel and one for each
    checker is reached, and what blocks then. */
module Capacity {
  import opened Folds
  import opened Targets
  import opened Pipeline

  /** Nothing in the queue; some results offered; the first checkers hold results, the others are free. */
  ghost predicate Filling(n: nat, loaded: map<string, Record>, s: State, offered: nat, held: nat, left: nat) {
    && Reachable(n, loaded, s) && !s.cancelled && s.dispatcher
    && |s.pending| == left && s.toCheck == [] && |s.checked| == offered && |s.checkers| == n
    && (forall k :: 0 <= k < held && k < n ==> s.checkers[k].Offering?)
    && (forall k :: held <= k < n ==> s.checkers[k].Idle?)
  }

  /** One more target is dispatched, taken and checked. */
  lemma HoldOne(n: nat, loaded: map<string, Record>, s: State, offered: nat, held: nat, left: nat, w: World) returns (s': State)
    requires Filling(n, loaded, s, offered, held, left) && held < n && left > 0
    ensures Filling(n, loaded, s', offered, held + 1, left - 1)
  {
    hide Reachable, Checked;
    Step(n, loaded, s, Dispatch);
    s' := Apply(s, Dispatch);
    Step(n, loaded, s', Take(held));
    s' := Apply(s', Take(held));
    var world := w.(now := s'.clock);
    Step(n, loaded, s', Finish(held, world));
    s' := Apply(s', Finish(held, world));
  }

  lemma OfferOne(n: nat, loaded: map<string, Record>, s: State, offered: nat, left: nat, w: World) returns (s': State)
    requires Filling(n, loaded, s, offered, 0, left) && n > 0 && left > 0 && offered < 100
    ensures Filling(n, loaded, s', offered + 1, 0, left - 1)
  {
    s' := HoldOne(n, loaded, s, offered, 0, left, w);
    hide Reachable;
    Step(n, loaded, s', Put(0));
    s' := Apply(s', Put(0));
  }

  lemma QueueUp(n: nat, loaded: map<string, Record>, begun: State, m: nat) returns (s: State)
    requires Reachable(n, loaded, begun) && !begun.cancelled && begun.dispatcher && begun.toCheck == [] && m <= |begun.pending| && m <= 100
    ensures Reachable(n, loaded, s) && !s.cancelled && |s.toCheck| == m
    ensures s.checkers == begun.checkers && s.checked == begun.checked
  {
    hide Reachable;
    s := begun;
    for i := 0 to m
      invariant Reachable(n, loaded, s) && !s.cancelled && s.dispatcher && |s.toCheck| == i && |s.pending| == |begun.pending| - i
      invariant s.checkers == begun.checkers && s.checked == begun.checked
    {
      Step(n, loaded, s, Dispatch);
      s := Apply(s, Dispatch);
    }
  }

  lemma {:induction false} AllHeld(cs: seq<Checker>)
    requires forall k :: 0 <= k < |cs| ==> cs[k].Offering?
    ensures |Held(cs)| == |cs|
  {
    if cs != [] {
      AllHeld(cs[..|cs| - 1]);
    }
  }

  lemma Begun(n: nat, loaded: map<string, Record>, m: nat) returns (s: State)
    ensures Filling(n, loaded, s, 0, 0, m)
  {
    var start, mids := Start(n, loaded), seq(m, i => "f01");
    assert Run(n, loaded, [start]);
    assert Reachable(n, loaded, start);
    hide Reachable;
    Step(n, loaded, start, Tick(mids));
    s := Apply(start, Tick(mids));
  }

  lemma Filled(n: nat, loaded: map<string, Record>, w: World) returns (s: State)
    requires n > 0
    ensures Filling(n, loaded, s, 100, n, 100)
  {
    s := Begun(n, loaded, 200 + n);
    hide Filling;
    for i := 0 to 100
      invariant Filling(n, loaded, s, i, 0, 200 + n - i)
    {
      s := OfferOne(n, loaded, s, i, 200 + n - i, w);
    }
    for k := 0 to n
      invariant Filling(n, loaded, s, 100, k, 100 + n - k)
    {
      s := HoldOne(n, loaded, s, 100, k, 100 + n - k, w);
    }
  }

  /** No state of a run has more than a hundred targets queued, a hundred offered and one for each checker in
      flight, and some state of some run has. */
  lemma BoundIsExact(n: nat, loaded: map<string, Record>, w: World)
    requires n > 0
    ensures forall s :: Reachable(n, loaded, s) ==> |s.toCheck| <= 100 && |s.checked| <= 100 && InFlight(s) <= 100 + n + 100
    ensures exists s :: Reachable(n, loaded, s) && !s.cancelled && InFlight(s) == 100 + n + 100
  {
    forall s | Reachable(n, loaded, s)
      ensures |s.toCheck| <= 100 && |s.checked| <= 100 && InFlight(s) <= 100 + n + 100
    {
      var trace :| Run(n, loaded, trace) && trace[|trace| - 1] == s;
      Invariant(n, loaded, trace);
      HeldBound(s.checkers);
    }
    hide Reachable;
    var filled := Filled(n, loaded, w);
    var s := QueueUp(n, loaded, filled, 100);
    AllHeld(s.checkers);
    assert InFlight(s) == 100 + n + 100;
  }

  /** When a step of the pipeline blocks: the dispatcher exactly while a hundred targets are queued, a checker
      with a result, before a cancellation, exactly while a hundred results are offered. */
  lemma BlocksAtHundred(n: nat, loaded: map<string, Record>, s: State, k: nat)
    requires Reachable(n, loaded, s) && !s.cancelled
    ensures s.pending != [] ==> (Enabled(s, Dispatch) <==> |s.toCheck| != 100)
    ensures k < |s.checkers| && s.checkers[k].Offering? ==> (Enabled(s, Put(k)) <==> |s.checked| != 100) && !Enabled(s, Drop(k))
  {
    var trace :| Run(n, loaded, trace) && trace[|trace| - 1] == s;
    Invariant(n, loaded, trace);
  }

  /* ----- After a cancellation ----- */

  /** The checkers in front of k have let go of what they held, nothing was queued, offered or committed meanwhile. */
  ghost predicate Letting(n: nat, loaded: map<string, Record>, begun: State, s: State, k: nat) {
    && Reachable(n, loaded, s) && s.cancelled && |s.checkers| == n
    && s.pending == [] && s.toCheck == begun.toCheck && s.checked == begun.checked
    && s.committed == begun.committed && s.targets == begun.targets
    && (forall j :: 0 <= j < k && j < n ==> s.checkers[j].Idle? || s.checkers[j].Exited?)
    && |s.dropped| <= |begun.dropped| + k
  }

  lemma LetGo(n: nat, loaded: map<string, Record>, begun: State, s: State, k: nat, w: World) returns (s': State)
    requires Letting(n, loaded, begun, s, k) && k < n
    ensures Letting(n, loaded, begun, s', k + 1)
  {
    hide Reachable, Checked;
    s' := s;
    if s'.checkers[k].Checking? {
      var world := w.(now := s'.clock);
      Step(n, loaded, s', Finish(k, world));
      s' := Apply(s', Finish(k, world));
    }
    if s'.checkers[k].Offering? {
      Step(n, loaded, s', Drop(k));
      s' := Apply(s', Drop(k));
    }
  }

  /** From every cancelled state all can return that waits for nothing: the dispatcher leaves the rest of its
      round, each checker that has a target drops it, and no more than that is lost; what is queued or
      offered stays so, and memory as it is. */
  lemma CanShutDown(n: nat, loaded: map<string, Record>, s: State, w: World) returns (s': State)
    requires Reachable(n, loaded, s) && s.cancelled
    ensures Reachable(n, loaded, s') && !s'.dispatcher && !s'.handler && s'.pending == []
    ensures forall c :: c in s'.checkers ==> c.Idle? || c.Exited?
    ensures s'.toCheck == s.toCheck && s'.checked == s.checked && s'.committed == s.committed && s'.targets == s.targets
    ensures |s'.dropped| <= |s.dropped| + n
  {
    var trace :| Run(n, loaded, trace) && trace[|trace| - 1] == s;
    Invariant(n, loaded, trace);
    StoppedIsDone(n, loaded, trace);
    hide Reachable, Checked;
    s' := s;
    if s'.pending != [] {
      Step(n, loaded, s', Abandon);
      s' := Apply(s', Abandon);
    }
    for k := 0 to n
      invariant Letting(n, loaded, s, s', k)
    {
      s' := LetGo(n, loaded, s, s', k, w);
    }
    assert forall c :: c in s'.checkers ==> c.Idle? || c.Exited?;
    Step(n, loaded, s', StopDispatcher);
    s' := Apply(s', StopDispatcher);
    Step(n, loaded, s', StopHandler);
    s' := Apply(s', StopHandler);
  }

  /** A dispatcher that has returned has left nothing pending. */
  lemma {:induction false} StoppedIsDone(n: nat, loaded: map<string, Record>, trace: seq<State>)
    requires Run(n, loaded, trace)
    ensures !trace[|trace| - 1].dispatcher ==> trace[|trace| - 1].pending == []
  {
    if |trace| > 1 {
      var m := |trace| - 1;
      assert Run(n, loaded, trace[..m]);
      StoppedIsDone(n, loaded, trace[..m]);
      assert Next(trace[m - 1], trace[m]);
      hide Checked, Listing;
    }
  }
}
