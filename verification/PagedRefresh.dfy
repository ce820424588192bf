/** The refresh fed by the paginated producer: each of its reads of a deal goes through the pointer, and
    may see another deal than the read before. */
module PagedRefresh {
  import opened Wrappers
  import opened Int64
  import opened Folds
  import opened Deals
  import opened DealLaws
  import opened PagedLister
  import Parser = SnapshotParser
  import Stats = DealStats
  import Ends = EndToEnd

  /* ----- However torn the reads are ----- */

  /** What the reads of one round of the loop's filters and counters give, each by itself. */
  datatype Reading = Reading(
    sectorStartEpoch: int64, slashEpoch: int64, endEpoch: int64,
    provider: string, pieceSize: int64, startEpoch: int64, pieceSizeForDay: int64, pieceSizeForWeek: int64)
  {
    /** The deal that was never listed but is counted. */
    function Seen(): Deal {
      Deal("", provider, startEpoch, endEpoch, pieceSize, sectorStartEpoch, slashEpoch)
    }
  }

  function SeenIn(readings: seq<Reading>): seq<Deal> {
    seq(|readings|, i requires 0 <= i < |readings| => readings[i].Seen())
  }

  /** The two agree in everything but the bytes of the day and the week. */
  ghost predicate SameCounts(counts: map<string, DealCounts>, others: map<string, DealCounts>) {
    && counts.Keys == others.Keys
    && forall p :: p in counts ==> WithoutBytes(counts[p]) == WithoutBytes(others[p])
  }

  function WithoutBytes(c: DealCounts): DealCounts {
    c.(bytesWithinDay := 0, bytesWithinWeek := 0)
  }

  /** One round of the loop, as DealStats has it, with each read by itself. */
  method CountReading(
    r: Reading, currentEpoch: int64, counts: map<string, DealCounts>,
    total: int64, totalWithinDay: int64, totalWithinWeek: int64, ghost deals: seq<Deal>)
    returns (counts': map<string, DealCounts>, total': int64, totalWithinDay': int64, totalWithinWeek': int64)
    requires SameCounts(counts, CountsOf(deals, currentEpoch))
    requires total == Wrap(TallyAll(deals, currentEpoch, AllTime))
    requires totalWithinDay == Wrap(TallyAll(deals, currentEpoch, LastDay))
    requires totalWithinWeek == Wrap(TallyAll(deals, currentEpoch, LastWeek))
    ensures SameCounts(counts', CountsOf(deals + [r.Seen()], currentEpoch))
    ensures total' == Wrap(TallyAll(deals + [r.Seen()], currentEpoch, AllTime))
    ensures totalWithinDay' == Wrap(TallyAll(deals + [r.Seen()], currentEpoch, LastDay))
    ensures totalWithinWeek' == Wrap(TallyAll(deals + [r.Seen()], currentEpoch, LastWeek))
  {
    ghost var d := r.Seen();
    TotalStep(deals, d, currentEpoch, AllTime);
    TotalStep(deals, d, currentEpoch, LastDay);
    TotalStep(deals, d, currentEpoch, LastWeek);
    CountsStep(deals, d, currentEpoch);
    hide CountsOf, TallyAll, Wrap;
    counts', total', totalWithinDay', totalWithinWeek' := counts, total, totalWithinDay, totalWithinWeek;
    if r.sectorStartEpoch == -1 {
    } else if r.slashEpoch != -1 {
    } else if r.endEpoch < currentEpoch {
    } else {
      total' := Wrap(total' + 1);
      var c := Lookup(counts, r.provider);
      c := c.(count := Wrap(c.count + 1));
      c := c.(bytes := Wrap(c.bytes + r.pieceSize));
      var elapsedSinceStartEpoch := Wrap(currentEpoch - r.startEpoch);
      if elapsedSinceStartEpoch < EPOCH_DAY {
        totalWithinDay' := Wrap(totalWithinDay' + 1);
        c := c.(countWithinDay := Wrap(c.countWithinDay + 1));
        c := c.(bytesWithinDay := Wrap(c.bytesWithinDay + r.pieceSizeForDay));
      }
      if elapsedSinceStartEpoch < EPOCH_WEEK {
        totalWithinWeek' := Wrap(totalWithinWeek' + 1);
        c := c.(countWithinWeek := Wrap(c.countWithinWeek + 1));
        c := c.(bytesWithinWeek := Wrap(c.bytesWithinWeek + r.pieceSizeForWeek));
      }
      assert WithoutBytes(c) == WithoutBytes(PlusDeal(Lookup(CountsOf(deals, currentEpoch), r.provider), d, currentEpoch));
      counts' := counts'[r.provider := c];
    }
  }

  /** The whole loop: its counts and totals are those of the deals that it saw, and add up. */
  method CountReadings(readings: seq<Reading>, currentEpoch: int64)
    returns (counts: map<string, DealCounts>, total: int64, totalWithinDay: int64, totalWithinWeek: int64)
    ensures SameCounts(counts, CountsOf(SeenIn(readings), currentEpoch))
    ensures AddsUp(counts, total, AllTime) && AddsUp(counts, totalWithinDay, LastDay) && AddsUp(counts, totalWithinWeek, LastWeek)
    ensures |readings| <= MAX ==>
              && SumOver(counts.Keys, CountBy(counts, AllTime)) == total <= |readings|
              && SumOver(counts.Keys, CountBy(counts, LastDay)) == totalWithinDay
              && SumOver(counts.Keys, CountBy(counts, LastWeek)) == totalWithinWeek
  {
    counts, total, totalWithinDay, totalWithinWeek := FoldReadings(readings, currentEpoch, SeenIn(readings));
    AllAddUp(counts, SeenIn(readings), currentEpoch);
    assert |SeenIn(readings)| == |readings|;
    hide *;
  }

  method FoldReadings(readings: seq<Reading>, currentEpoch: int64, ghost seen: seq<Deal>)
    returns (counts: map<string, DealCounts>, total: int64, totalWithinDay: int64, totalWithinWeek: int64)
    requires |seen| == |readings| && forall i :: 0 <= i < |readings| ==> seen[i] == readings[i].Seen()
    ensures SameCounts(counts, CountsOf(seen, currentEpoch))
    ensures total == Wrap(TallyAll(seen, currentEpoch, AllTime))
    ensures totalWithinDay == Wrap(TallyAll(seen, currentEpoch, LastDay))
    ensures totalWithinWeek == Wrap(TallyAll(seen, currentEpoch, LastWeek))
  {
    counts, total, totalWithinDay, totalWithinWeek := map[], 0, 0, 0;
    NothingSeen(seen, currentEpoch);
    hide *;
    for i := 0 to |readings|
      invariant SameCounts(counts, CountsOf(seen[..i], currentEpoch))
      invariant total == Wrap(TallyAll(seen[..i], currentEpoch, AllTime))
      invariant totalWithinDay == Wrap(TallyAll(seen[..i], currentEpoch, LastDay))
      invariant totalWithinWeek == Wrap(TallyAll(seen[..i], currentEpoch, LastWeek))
    {
      PrefixStep(seen, i);
      counts, total, totalWithinDay, totalWithinWeek :=
        CountReading(readings[i], currentEpoch, counts, total, totalWithinDay, totalWithinWeek, seen[..i]);
    }
    assert seen[..|readings|] == seen;
  }

  lemma AllAddUp(counts: map<string, DealCounts>, seen: seq<Deal>, e: int64)
    requires SameCounts(counts, CountsOf(seen, e))
    ensures forall w :: AddsUp(counts, Wrap(TallyAll(seen, e, w)), w)
    ensures |seen| <= MAX ==>
              forall w :: SumOver(counts.Keys, CountBy(counts, w)) == Wrap(TallyAll(seen, e, w)) <= |seen|
  {
    forall w
      ensures AddsUp(counts, Wrap(TallyAll(seen, e, w)), w)
      ensures |seen| <= MAX ==> SumOver(counts.Keys, CountBy(counts, w)) == Wrap(TallyAll(seen, e, w)) <= |seen|
    {
      TornConservation(counts, seen, e, w);
    }
  }

  lemma NothingSeen(seen: seq<Deal>, e: int64)
    ensures seen[..0] == [] && SameCounts(map[], CountsOf(seen[..0], e))
    ensures forall w :: Wrap(TallyAll(seen[..0], e, w)) == 0
  {
  }

  /** The providers' counts come to the total, in int64. */
  ghost predicate AddsUp(counts: map<string, DealCounts>, total: int64, w: Window) {
    Wrap(SumOver(counts.Keys, CountBy(counts, w))) == total
  }

  /** Each counted reading has one provider, so the counts add up all the same. */
  lemma TornConservation(counts: map<string, DealCounts>, seen: seq<Deal>, e: int64, w: Window)
    requires SameCounts(counts, CountsOf(seen, e))
    ensures AddsUp(counts, Wrap(TallyAll(seen, e, w)), w)
    ensures |seen| <= MAX ==> SumOver(counts.Keys, CountBy(counts, w)) == Wrap(TallyAll(seen, e, w)) <= |seen|
  {
    var others := CountsOf(seen, e);
    Conservation(seen, e, w);
    TallyBound(seen, "", e, w);
    hide CountsOf, TallyAll;
    forall p | p in counts.Keys
      ensures CountBy(counts, w)(p) == CountBy(others, w)(p)
    {
      assert WithoutBytes(counts[p]) == WithoutBytes(others[p]);
    }
    SumOverAgree(counts.Keys, CountBy(counts, w), CountBy(others, w));
  }

  /* ----- Failed and complete listings ----- */

  /** What the consumer makes of the messages: an error of an error, and of a key some deal. */
  ghost predicate Hears(results: seq<Parser.DealResult>, messages: seq<Message>) {
    |results| == |messages| && forall i :: 0 <= i < |messages| ==> (messages[i].Error? <==> results[i].Failed?)
  }

  /** A refresh over a listing publishes only when every page up to an empty one was to be had, and then
      over exactly one deal for each one listed; so a failed listing is never published. */
  lemma PublishesWholeListings(l: Lister, s: State, results: seq<Parser.DealResult>, selects: seq<Stats.Select>)
    requires Reachable(l, s) && s.producer.Closed? && Hears(results, s.received + s.chan)
    requires Ends.ViewOf(selects, results) && Stats.EndOf(selects) == Stats.Published
    ensures l.fetch(s.producer.page) == Page([])
    ensures s.producer.page >= 1 && forall p :: 1 <= p < s.producer.page ==> l.Deals(p) != []
    ensures |Stats.DealsIn(selects)| == |Before(l, Slot(s.producer.page, 0))|
  {
    var trace :| Run(l, trace) && trace[|trace| - 1] == s;
    RunDelivers(l, trace);
    Ends.PublishesCleanRuns(selects, results);
    assert forall i :: 0 <= i < |results| ==> results[i] in results;
    ErrorAtTheEnd(l, s);
  }

  lemma ErrorAtTheEnd(l: Lister, s: State)
    requires Delivered(l, s) && s.producer.Closed?
    ensures
      var messages := s.received + s.chan;
      if l.fetch(s.producer.page).Page? then messages == Before(l, Slot(s.producer.page, 0))
      else messages != [] && messages[|messages| - 1] == Error
  {
  }
}
