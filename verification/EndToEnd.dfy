/** Parser, refresh, checks and snapshot together. */
module EndToEnd {
  import opened Wrappers
  import opened Int64
  import opened Folds
  import opened Deals
  import opened DealLaws
  import opened JsonStream
  import opened SnapshotParser
  import opened Targets
  import opened Metrics
  import opened DealStats
  import opened Pipeline
  import opened Ordering
  import opened Overtaking
  import opened Rounds
  import opened Store
  import opened Crawler

  /* ----- From the snapshot to the published counts ----- */

  function Receives(results: seq<DealResult>): seq<Select> {
    seq(|results|, i requires 0 <= i < |results| => Receive(results[i]))
  }

  /** What refresh's selects can give while a producer sends these results and then closes: some of
      them, and then nothing yet, or the context's end, or, after all of them, the channel's. */
  ghost predicate ViewOf(selects: seq<Select>, results: seq<DealResult>) {
    exists n :: 0 <= n <= |results| && IsView(selects, results, n)
  }

  predicate IsView(selects: seq<Select>, results: seq<DealResult>, n: nat)
    requires n <= |results|
  {
    var got := Receives(results[..n]);
    || selects == got
    || selects == got + [Done]
    || (n == |results| && selects == got + [ChannelClosed])
  }

  function DealsOf(results: seq<DealResult>): seq<Deal>
    requires Clean(results)
  {
    seq(|results|, i requires 0 <= i < |results| => assert results[i] in results; results[i].deal)
  }

  /** A refresh publishes exactly when it has seen all of a clean run of the producer, and the close;
      it is then over all of its deals, in order. */
  lemma PublishesCleanRuns(selects: seq<Select>, results: seq<DealResult>)
    requires ViewOf(selects, results)
    ensures EndOf(selects) == Published <==> Clean(results) && selects == Receives(results) + [ChannelClosed]
    ensures EndOf(selects) == Published ==> DealsIn(selects) == DealsOf(results)
  {
    var n :| 0 <= n <= |results| && IsView(selects, results, n);
    var k := DealsBefore(selects);
    assert forall i :: 0 <= i < n ==> selects[i] == Receive(results[i]);
    if EndOf(selects) == Published {
      assert selects[k] == ChannelClosed;
      assert k == n == |results|;
      assert results[..n] == results;
      forall r | r in results
        ensures r.Received?
      {
        var i :| 0 <= i < |results| && results[i] == r;
        assert selects[i].result == r;
      }
      assert DealsIn(selects) == DealsOf(results);
    }
    if Clean(results) && selects == Receives(results) + [ChannelClosed] {
      assert selects[|results|] == ChannelClosed;
      forall i | 0 <= i < |results|
        ensures selects[i].Receive? && selects[i].result.Received?
      {
        assert selects[i] == Receives(results)[i] && results[i] in results;
      }
    }
  }

  /** No truncated snapshot is published: however refresh is scheduled over the run of the producer
      on a proper prefix of a complete document, it does not get to the end. */
  lemma PrefixIsNotPublished(input: Input, entries: seq<Entry>, prefix: Input, selects: seq<Select>)
    requires Complete(input, entries)
    requires prefix.lexemes < input.lexemes && prefix.unmarshal == input.unmarshal
    requires ViewOf(selects, Snapshot(prefix))
    ensures EndOf(selects) != Published
  {
    ProperPrefixFails(input, entries, prefix);
    PublishesCleanRuns(selects, Snapshot(prefix));
  }

  /** What is published is over all entries of a complete document, or of a text cut at an empty key. */
  lemma PublishedIsParsed(input: Input, selects: seq<Select>) returns (entries: seq<Entry>, shape: Shape)
    requires ViewOf(selects, Snapshot(input)) && EndOf(selects) == Published
    ensures (shape == Object && Complete(input, entries)) || CutAtEmptyKey(input, entries, shape)
    ensures |DealsIn(selects)| == |entries|
    ensures forall i :: 0 <= i < |entries| ==> Some(DealsIn(selects)[i]) == input.unmarshal(entries[i].value)
  {
    PublishesCleanRuns(selects, Snapshot(input));
    entries, shape := Parses(input);
    Accepts(input, entries, shape);
    forall i | 0 <= i < |entries|
      ensures Some(DealsIn(selects)[i]) == input.unmarshal(entries[i].value)
    {
      assert entries[i] in entries;
      assert Results(input, entries)[i] == Received(entries[i].key, input.unmarshal(entries[i].value).value);
    }
  }

  /* ----- From the published counts to the coverage ratio ----- */

  function DealsInWindow(w: Window): Record -> int {
    match w
    case AllTime => DealsAllTime
    case LastDay => DealsWithinDay
    case LastWeek => DealsWithinWeek
  }

  function KnownDeals(s: Summary, w: Window): int64 {
    match w
    case AllTime => s.participants.knownDeals
    case LastDay => s.participants.knownDealsWithinDay
    case LastWeek => s.participants.knownDealsWithinWeek
  }

  lemma {:induction false} SumOfValues(order: seq<string>, targets: map<string, Record>, f: Record -> int, g: string -> int)
    requires forall id :: id in order ==> id in targets && 0 <= f(targets[id]) <= g(id)
    ensures 0 <= Sum(Values(order, targets), f) <= Sum(order, g)
  {
    if order != [] {
      var n := |order| - 1;
      assert order[n] in order;
      SumOfValues(order[..n], targets, f, g);
      assert Values(order, targets)[..n] == Values(order[..n], targets);
    }
  }

  lemma CheckedDeals(targets: map<string, Record>, deals: seq<Deal>, e: int64, id: string, w: Window)
    requires |deals| <= MAX && CheckedWith(targets, CountsOf(deals, e)) && id in targets
    ensures 0 <= Where(Known, DealsInWindow(w))(targets[id]) <= TallyBy(deals, e, w)(id)
  {
    var world: World :| world.counts == CountsOf(deals, e) && targets[id] == Checked(id, world);
    hide CountsOf, Objection, Passed;
    LookupMeaning(deals, id, e);
    TallyBound(deals, id, e, w);
  }

  /** The deals of the participants known to the indexer are part of all deals, in every window, when
      all of the targets took their counts from the refresh that published the totals. */
  lemma KnownDealsWithinTotal(targets: map<string, Record>, order: seq<string>, deals: seq<Deal>, e: int64, w: Window)
    requires |deals| <= MAX && CheckedWith(targets, CountsOf(deals, e)) && Enumerates(order, targets)
    ensures 0 <= KnownDeals(SummaryOf(Values(order, targets)), w) <= Wrap(TallyAll(deals, e, w))
  {
    var known, tallies := Where(Known, DealsInWindow(w)), TallyBy(deals, e, w);
    forall id | id in order
      ensures 0 <= known(targets[id]) <= tallies(id)
    {
      CheckedDeals(targets, deals, e, id, w);
    }
    SumOfValues(order, targets, known, tallies);
    SumIsSumOver(order, targets.Keys, tallies);
    var all := targets.Keys + ActiveProviders(deals, e);
    forall p
      ensures 0 <= tallies(p)
    {
      TallyBound(deals, p, e, w);
    }
    SumOverMonotone(targets.Keys, all, tallies, tallies);
    TalliesAddUp(deals, all, e, w);
    TallyBound(deals, "", e, w);
    assert Fits(Sum(Values(order, targets), known)) && Fits(TallyAll(deals, e, w));
    assert KnownDeals(SummaryOf(Values(order, targets)), w) == Wrap(Sum(Values(order, targets), known));
  }

  /** So the deal coverage reported for a quiescent round lies between nought and one. */
  lemma DealCoverageAtMostOne(targets: map<string, Record>, order: seq<string>, deals: seq<Deal>, e: int64, w: Window)
    requires |deals| <= MAX && CheckedWith(targets, CountsOf(deals, e)) && Enumerates(order, targets)
    ensures 0.0 <= Coverage(KnownDeals(SummaryOf(Values(order, targets)), w), Wrap(TallyAll(deals, e, w))) <= 1.0
  {
    KnownDealsWithinTotal(targets, order, deals, e, w);
    CoverageAtMostOne(KnownDeals(SummaryOf(Values(order, targets)), w), Wrap(TallyAll(deals, e, w)));
  }

  /* ----- One quiescent round of the whole ----- */

  /** Every target once, in some order. */
  method Walk(targets: map<string, Record>) returns (order: seq<string>)
    ensures Enumerates(order, targets)
  {
    order := [];
    var rest := targets.Keys;
    while rest != {}
      invariant NoDuplicates(order)
      invariant forall id :: id in order <==> id in targets && id !in rest
      invariant rest <= targets.Keys
      decreases |rest|
    {
      var id :| id in rest;
      order, rest := order + [id], rest - {id};
    }
  }

  /** A refresh; if it publishes, a round that lists every miner in memory, drained on some schedule; a
      snapshot and a report. The whole coverage that is then reported is at most one, and so are its
      parts of the last day and week. */
  method QuietRoundReport(
    ds: DealStats, crawler: Crawler, head: Option<int64>, listing: bool, selects: seq<Select>, io: Io,
    mids: seq<string>, worlds: (Job, nat) -> World, ios: nat -> Io)
    returns (report: Option<Report>)
    requires ds.Valid() && crawler.Valid() && ds.hf == crawler.hf
    requires !crawler.cancelled && crawler.n >= 1 && Measure(crawler.View()) == 0
    requires forall id :: id in crawler.hf.targets ==> id in mids
    modifies ds, ds.metrics, crawler, crawler.hf
    ensures ds.Valid() && crawler.Valid() && !crawler.cancelled && Measure(crawler.View()) == 0
    ensures report.Some? <==> head.Some? && listing && EndOf(selects) == Published
    ensures report.Some? && |DealsIn(selects)| <= MAX ==>
              var r := report.value;
              && 0.0 <= r.dealsCoverage <= 1.0
              && 0 <= r.knownDeals <= r.deals
              && 0 <= r.knownDealsWithinDay <= r.dealsWithinDay
              && 0 <= r.knownDealsWithinWeek <= r.dealsWithinWeek
    ensures report.Some? ==> CheckedWith(crawler.hf.targets, CountsOf(DealsIn(selects), head.value))
  {
    var outcome := RefreshBeside(ds, crawler, head, listing, selects, io);
    if outcome != Published {
      return None;
    }
    RunRound(crawler, ds.dealCountByParticipant, mids, worlds, ios);
    var r := SnapshotAndReport(ds.metrics, crawler.hf.targets, DealsIn(selects), head.value);
    report := Some(r);
  }

  /** A refresh of a crawler's statistics leaves the crawler as it is. */
  method RefreshBeside(
    ds: DealStats, crawler: Crawler, head: Option<int64>, listing: bool, selects: seq<Select>, io: Io)
    returns (outcome: RefreshEnd)
    requires ds.Valid() && crawler.Valid() && ds.hf == crawler.hf
    modifies ds, ds.metrics, ds.hf`files, ds.hf`recentPieces
    ensures ds.Valid() && crawler.Valid() && crawler.View() == old(crawler.View())
    ensures outcome == Published <==> head.Some? && listing && EndOf(selects) == Published
    ensures outcome == Published ==>
              var (deals, e) := (DealsIn(selects), head.value);
              && ds.dealCountByParticipant == CountsOf(deals, e)
              && ds.metrics.totalDealCount == Wrap(TallyAll(deals, e, AllTime))
              && ds.metrics.totalDealCountWithinDay == Wrap(TallyAll(deals, e, LastDay))
              && ds.metrics.totalDealCountWithinWeek == Wrap(TallyAll(deals, e, LastWeek))
  {
    ghost var (files, targets) := (crawler.hf.files, crawler.hf.targets);
    hide Reachable, Agrees, CountsOf, DealsIn, EndOf, TallyAll, PiecesOf, PiecesStored;
    outcome := ds.Refresh(head, listing, selects, io);
    if crawler.inStep {
      PiecesAgree(crawler.hf.codec, files, targets, PiecesOf(DealsIn(selects)), io);
    }
    assert crawler.View() == old(crawler.View());
  }

  /** A round of miners, from a drained crawler to a drained crawler. */
  method RunRound(
    crawler: Crawler, counts: map<string, DealCounts>, mids: seq<string>, worlds: (Job, nat) -> World, ios: nat -> Io)
    requires crawler.Valid() && !crawler.cancelled && crawler.n >= 1 && Measure(crawler.View()) == 0
    requires forall id :: id in crawler.hf.targets ==> id in mids
    modifies crawler, crawler.hf`targets, crawler.hf`files
    ensures crawler.Valid() && !crawler.cancelled && Measure(crawler.View()) == 0
    ensures CheckedWith(crawler.hf.targets, counts)
    ensures old(NewestKept(crawler.View())) && NoDuplicates(mids) ==> NewestKept(crawler.View())
  {
    ghost var b := crawler.View();
    Begun(crawler.n, crawler.loaded, b, mids, counts);
    hide *;
    crawler.Tick(mids);
    ghost var steps := crawler.Drain(counts, worlds, ios, b, [mids]);
    AllCheckedWith(crawler.n, crawler.loaded, b, crawler.View(), mids, counts);
    if NewestKept(b) && NoDuplicates(mids) {
      DistinctMinersKeepOrder(crawler.n, crawler.loaded, b, [mids], Plan(crawler.View(), []));
    }
  }

  /** A round begun in a drained state. */
  lemma Begun(n: nat, loaded: map<string, Record>, b: State, mids: seq<string>, counts: map<string, DealCounts>)
    requires Reachable(n, loaded, b) && !b.cancelled && Measure(b) == 0
    ensures Enabled(b, Tick(mids))
    ensures
      var s := Apply(b, Tick(mids));
      && Arrives(b, [mids], Plan(s, [])) && LookedUp(b, s, counts)
      && s.listed == b.listed + Listing(mids, b.round + 1) && !s.cancelled
    ensures Flat([mids]) == mids
  {
    FreeToTick(n, loaded, b);
    assert Enabled(b, Tick(mids));
    TickMeasure(b, mids);
    FlatOne(mids);
    hide *;
    Begin(b, [mids]);
    var p := GoTick(b, [mids], Plan(b, [mids]));
    LookedUpSelf(b, counts);
    LookedUpStep(b, b, Tick(mids), counts);
  }

  lemma FreeToTick(n: nat, loaded: map<string, Record>, b: State)
    requires Reachable(n, loaded, b) && !b.cancelled && Measure(b) == 0
    ensures b.dispatcher && b.pending == []
  {
    var trace :| Run(n, loaded, trace) && trace[|trace| - 1] == b;
    Invariant(n, loaded, trace);
    MeasureNotNegative(b);
  }

  method SnapshotAndReport(metrics: Metrics, targets: map<string, Record>, ghost deals: seq<Deal>, ghost e: int64)
    returns (r: Report)
    requires CheckedWith(targets, CountsOf(deals, e))
    requires metrics.totalDealCount == Wrap(TallyAll(deals, e, AllTime))
    requires metrics.totalDealCountWithinDay == Wrap(TallyAll(deals, e, LastDay))
    requires metrics.totalDealCountWithinWeek == Wrap(TallyAll(deals, e, LastWeek))
    modifies metrics
    ensures |deals| <= MAX ==>
              && 0.0 <= r.dealsCoverage <= 1.0
              && 0 <= r.knownDeals <= r.deals
              && 0 <= r.knownDealsWithinDay <= r.dealsWithinDay
              && 0 <= r.knownDealsWithinWeek <= r.dealsWithinWeek
  {
    var order := Walk(targets);
    ghost var summary := SummaryOf(Values(order, targets));
    hide SummaryOf, Values, CountsOf, TallyAll, MergeUnindexed, CheckedWith, Enumerates, Coverage;
    if |deals| <= MAX {
      WindowsWithinTotals(targets, order, deals, e);
    }
    hide Wrap;
    metrics.Snapshot(targets, order);
    assert metrics.Published().participants == summary.participants;
    r := metrics.ReportAsyncMetrics();
  }

  lemma WindowsWithinTotals(targets: map<string, Record>, order: seq<string>, deals: seq<Deal>, e: int64)
    requires |deals| <= MAX && CheckedWith(targets, CountsOf(deals, e)) && Enumerates(order, targets)
    ensures
      var p := SummaryOf(Values(order, targets)).participants;
      && 0.0 <= Coverage(p.knownDeals, Wrap(TallyAll(deals, e, AllTime))) <= 1.0
      && 0 <= p.knownDeals <= Wrap(TallyAll(deals, e, AllTime))
      && 0 <= p.knownDealsWithinDay <= Wrap(TallyAll(deals, e, LastDay))
      && 0 <= p.knownDealsWithinWeek <= Wrap(TallyAll(deals, e, LastWeek))
  {
    hide SummaryOf, Values, CountsOf, TallyAll, CheckedWith, Enumerates, Coverage, Wrap;
    KnownDealsWithinTotal(targets, order, deals, e, AllTime);
    KnownDealsWithinTotal(targets, order, deals, e, LastDay);
    KnownDealsWithinTotal(targets, order, deals, e, LastWeek);
    DealCoverageAtMostOne(targets, order, deals, e, AllTime);
  }

  /** The pieces of a refresh that published, with a place to store them, are found by a restart: for each
      provider that of its first newest deal. */
  method RefreshThenRestart(ds: DealStats, head: Option<int64>, listing: bool, selects: seq<Select>) returns (next: HeyFil)
    requires ds.Valid() && ds.hf.storePath != ""
    requires
      var rp := PiecesOf(DealsIn(selects));
      ds.hf.codec.decodePieces(ds.hf.codec.encodePieces(rp)) == Some(rp)
    modifies ds, ds.metrics, ds.hf
    ensures ds.Valid() && fresh(next)
    ensures head.Some? && listing && EndOf(selects) == Published ==> next.recentPieces == PiecesOf(DealsIn(selects))
  {
    hide PiecesOf, DealsIn, EndOf, CountsOf, TallyAll;
    var outcome := ds.Refresh(head, listing, selects, Completes);
    next := Restart(ds.hf);
  }
}
