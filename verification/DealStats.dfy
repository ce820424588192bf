/** The refresh of the deal statistics: it follows the results channel to its end, and publishes all or
    nothing. */
module DealStats {
  import opened Wrappers
  import opened Int64
  import opened Deals
  import opened JsonStream
  import opened SnapshotParser
  import opened Metrics
  import opened Store

  /** What one round of the loop's select comes up with. */
  datatype Select = Done | Receive(result: DealResult) | ChannelClosed

  datatype RefreshEnd = ChainHeadFailed | ListingFailed | Cancelled | DealFailed(key: string) | Waiting | Published

  /** How many selects give a deal before the first that does not. */
  function DealsBefore(selects: seq<Select>): (n: nat)
    ensures n <= |selects|
    ensures forall i :: 0 <= i < n ==> selects[i].Receive? && selects[i].result.Received?
    ensures n < |selects| ==> !(selects[n].Receive? && selects[n].result.Received?)
  {
    if selects == [] || !(selects[0].Receive? && selects[0].result.Received?) then 0 else 1 + DealsBefore(selects[1..])
  }

  function DealsIn(selects: seq<Select>): seq<Deal> {
    seq(DealsBefore(selects), i requires 0 <= i < DealsBefore(selects) => selects[i].result.deal)
  }

  /** What stops the loop, if anything does. */
  function EndOf(selects: seq<Select>): RefreshEnd {
    var n := DealsBefore(selects);
    if n == |selects| then Waiting
    else
      match selects[n]
      case Done => Cancelled
      case Receive(r) => DealFailed(r.key)
      case ChannelClosed => Published
  }

  /** The first so many selects all give a deal. */
  predicate AllDeals(selects: seq<Select>, n: nat) {
    n <= |selects| && forall i :: 0 <= i < n ==> selects[i].Receive? && selects[i].result.Received?
  }

  /** The loop's end, by the first select that gives no deal; and the deals, those of the selects before. */
  lemma EndExactly(selects: seq<Select>)
    ensures EndOf(selects) == Waiting <==> AllDeals(selects, |selects|)
    ensures forall n: nat :: n < |selects| && AllDeals(selects, n) ==>
              match selects[n]
              case Done => EndOf(selects) == Cancelled && |DealsIn(selects)| == n
              case ChannelClosed => EndOf(selects) == Published && |DealsIn(selects)| == n
              case Receive(Failed(key)) => EndOf(selects) == DealFailed(key) && |DealsIn(selects)| == n
              case Receive(Received(_, deal)) => |DealsIn(selects)| > n && DealsIn(selects)[n] == deal
  {
    var k := DealsBefore(selects);
    forall n: nat | n < |selects| && AllDeals(selects, n)
      ensures k >= n && (k > n <==> selects[n].Receive? && selects[n].result.Received?)
    {
    }
  }

  class DealStats {
    const hf: HeyFil
    const metrics: Metrics
    var dealCountByParticipant: map<string, DealCounts>
    /** The stream and the height of the last refresh that published; none at first. */
    ghost var published: seq<Deal>
    ghost var height: int64

    /** What is published is always what one whole stream amounts to. */
    ghost predicate Valid()
      reads this
    {
      dealCountByParticipant == CountsOf(published, height)
    }

    constructor (hf0: HeyFil, metrics0: Metrics)
      ensures hf == hf0 && metrics == metrics0 && dealCountByParticipant == map[]
      ensures Valid() && published == []
    {
      hf, metrics, dealCountByParticipant, published, height := hf0, metrics0, map[], [], 0;
    }

    /** dealStats.refresh. head and listing say whether the chain's height and the channel were to be
        had; selects is what the selects of its loop give, as far as they get. */
    method Refresh(head: Option<int64>, listing: bool, selects: seq<Select>, io: Io) returns (outcome: RefreshEnd)
      requires Valid()
      modifies this, hf`files, hf`recentPieces
      modifies metrics`totalDealCount, metrics`totalDealCountWithinDay, metrics`totalDealCountWithinWeek
      ensures outcome == if head == None then ChainHeadFailed else if !listing then ListingFailed else EndOf(selects)
      ensures
        if outcome.Published? then
          var deals := DealsIn(selects);
          && published == deals && height == head.value
          && dealCountByParticipant == CountsOf(deals, head.value)
          && metrics.totalDealCount == Wrap(TallyAll(deals, head.value, AllTime))
          && metrics.totalDealCountWithinDay == Wrap(TallyAll(deals, head.value, LastDay))
          && metrics.totalDealCountWithinWeek == Wrap(TallyAll(deals, head.value, LastWeek))
          && hf.files == (if hf.storePath == "" then old(hf.files) else PiecesStored(old(hf.files), hf.codec, PiecesOf(deals), io))
          && hf.recentPieces == (if hf.storePath != "" && io.Completes? then PiecesOf(deals) else old(hf.recentPieces))
        else
          && unchanged(this) && unchanged(metrics) && unchanged(hf)
      ensures Valid()
    {
      if head == None {
        return ChainHeadFailed;
      }
      var currentEpoch := head.value;
      if !listing {
        return ListingFailed;
      }
      var counts: map<string, DealCounts> := map[];
      var latest: map<string, Latest> := map[];
      var total, totalWithinDay, totalWithinWeek: int64 := 0, 0, 0;
      ghost var n := DealsBefore(selects);
      ghost var deals := DealsIn(selects);
      assert deals[..0] == [];
      var i := 0;
      while i < |selects|
        invariant 0 <= i <= n
        invariant unchanged(this) && unchanged(metrics) && unchanged(hf)
        invariant counts == CountsOf(deals[..i], currentEpoch) && latest == LatestOf(deals[..i])
        invariant total == Wrap(TallyAll(deals[..i], currentEpoch, AllTime))
        invariant totalWithinDay == Wrap(TallyAll(deals[..i], currentEpoch, LastDay))
        invariant totalWithinWeek == Wrap(TallyAll(deals[..i], currentEpoch, LastWeek))
      {
        match selects[i] {
          case Done =>
            return Cancelled;
          case ChannelClosed =>
            assert deals[..i] == deals;
            Publish(counts, latest, total, totalWithinDay, totalWithinWeek, io);
            published, height := deals, currentEpoch;
            return Published;
          case Receive(dr) =>
            if dr.Failed? {
              return DealFailed(dr.key);
            }
            assert deals[..i + 1] == deals[..i] + [dr.deal];
            counts, total, totalWithinDay, totalWithinWeek :=
              CountDeal(dr.deal, currentEpoch, counts, total, totalWithinDay, totalWithinWeek, deals[..i]);
            latest := NoteLatest(dr.deal, latest, deals[..i]);
        }
        i := i + 1;
      }
      return Waiting;
    }

    /** The filters and counters for one deal. */
    method CountDeal(
      d: Deal, currentEpoch: int64, counts: map<string, DealCounts>,
      total: int64, totalWithinDay: int64, totalWithinWeek: int64, ghost deals: seq<Deal>)
      returns (counts': map<string, DealCounts>, total': int64, totalWithinDay': int64, totalWithinWeek': int64)
      requires counts == CountsOf(deals, currentEpoch)
      requires total == Wrap(TallyAll(deals, currentEpoch, AllTime))
      requires totalWithinDay == Wrap(TallyAll(deals, currentEpoch, LastDay))
      requires totalWithinWeek == Wrap(TallyAll(deals, currentEpoch, LastWeek))
      ensures counts' == CountsOf(deals + [d], currentEpoch)
      ensures total' == Wrap(TallyAll(deals + [d], currentEpoch, AllTime))
      ensures totalWithinDay' == Wrap(TallyAll(deals + [d], currentEpoch, LastDay))
      ensures totalWithinWeek' == Wrap(TallyAll(deals + [d], currentEpoch, LastWeek))
    {
      TotalStep(deals, d, currentEpoch, AllTime);
      TotalStep(deals, d, currentEpoch, LastDay);
      TotalStep(deals, d, currentEpoch, LastWeek);
      CountsStep(deals, d, currentEpoch);
      hide CountsOf, TallyAll, Wrap;
      counts', total', totalWithinDay', totalWithinWeek' := counts, total, totalWithinDay, totalWithinWeek;
      if d.sectorStartEpoch == -1 {
      } else if d.slashEpoch != -1 {
      } else if d.endEpoch < currentEpoch {
      } else {
        total' := Wrap(total' + 1);
        var c := Lookup(counts, d.provider);
        c := c.(count := Wrap(c.count + 1));
        c := c.(bytes := Wrap(c.bytes + d.pieceSize));
        var elapsedSinceStartEpoch := Wrap(currentEpoch - d.startEpoch);
        if elapsedSinceStartEpoch < EPOCH_DAY {
          totalWithinDay' := Wrap(totalWithinDay' + 1);
          c := c.(countWithinDay := Wrap(c.countWithinDay + 1));
          c := c.(bytesWithinDay := Wrap(c.bytesWithinDay + d.pieceSize));
        }
        if elapsedSinceStartEpoch < EPOCH_WEEK {
          totalWithinWeek' := Wrap(totalWithinWeek' + 1);
          c := c.(countWithinWeek := Wrap(c.countWithinWeek + 1));
          c := c.(bytesWithinWeek := Wrap(c.bytesWithinWeek + d.pieceSize));
        }
        counts' := counts'[d.provider := c];
      }
    }

    /** The newest piece of the deal's provider, whether the deal counted or not. */
    method NoteLatest(d: Deal, latest: map<string, Latest>, ghost deals: seq<Deal>) returns (latest': map<string, Latest>)
      requires latest == LatestOf(deals)
      ensures latest' == LatestOf(deals + [d])
    {
      latest' := latest;
      if d.provider !in latest || d.startEpoch > latest[d.provider].epoch {
        latest' := latest'[d.provider := Latest(d.startEpoch, d.pieceCid)];
      }
      LatestStep(deals, d);
    }

    /** The end of the stream. */
    method Publish(
      counts: map<string, DealCounts>, latest: map<string, Latest>,
      total: int64, totalWithinDay: int64, totalWithinWeek: int64, io: Io)
      modifies this`dealCountByParticipant, hf`files, hf`recentPieces
      modifies metrics`totalDealCount, metrics`totalDealCountWithinDay, metrics`totalDealCountWithinWeek
      ensures dealCountByParticipant == counts
      ensures metrics.totalDealCount == total
      ensures metrics.totalDealCountWithinDay == totalWithinDay
      ensures metrics.totalDealCountWithinWeek == totalWithinWeek
      ensures
        var pieces := map p | p in latest :: latest[p].cid;
        && hf.files == (if hf.storePath == "" then old(hf.files) else PiecesStored(old(hf.files), hf.codec, pieces, io))
        && hf.recentPieces == (if hf.storePath != "" && io.Completes? then pieces else old(hf.recentPieces))
    {
      var pieces := map p | p in latest :: latest[p].cid;
      dealCountByParticipant := counts;
      var _ := hf.StoreRecentPieces(pieces, io);
      metrics.NotifyDealCount(total);
      metrics.NotifyDealCountWithinDay(totalWithinDay);
      metrics.NotifyDealCountWithinWeek(totalWithinWeek);
    }

    /** dealStats.getDealCounts: whatever refreshes went before, the filtered sums of the participant's own
        active deals in the last stream that was published, zeros if it has none. */
    method GetDealCounts(id: string) returns (c: DealCounts)
      requires Valid()
      ensures c == CountsFor(published, id, height)
    {
      LookupMeaning(published, id, height);
      c := if id in dealCountByParticipant then dealCountByParticipant[id] else ZERO_COUNTS;
    }
  }
}
