/** What each deal adds to the published statistics, in terms of the deal's own fields. */
module DealAccount {
  import opened Wrappers
  import opened Int64
  import opened Folds
  import opened Deals
  import opened DealLaws

  /** A deal whose sector did not start, that was slashed, or that has ended is nowhere counted. */
  lemma ExcludedDealAddsNothing(deals: seq<Deal>, d: Deal, e: int64)
    requires d.sectorStartEpoch == -1 || d.slashEpoch != -1 || d.endEpoch < e
    ensures CountsOf(deals + [d], e) == CountsOf(deals, e)
    ensures forall w :: TallyAll(deals + [d], e, w) == TallyAll(deals, e, w)
  {
    CountsStep(deals, d, e);
    forall w
      ensures TallyAll(deals + [d], e, w) == TallyAll(deals, e, w)
    {
      SumStep(deals, d, AnyOne(e, w));
    }
    hide CountsOf;
  }

  /** The elapsed epochs as 64 bits hold them. */
  function ElapsedIn64(d: Deal, e: int64): int {
    var x := e - d.startEpoch;
    if x > 9223372036854775807 then x - 18446744073709551616
    else if x < -9223372036854775808 then x + 18446744073709551616
    else x
  }

  /** Every other deal adds one to the total, and to the total of the day when fewer than 2880 epochs have
      elapsed since its start, of the week when fewer than 20160 have. */
  lemma CountedDealAdds(deals: seq<Deal>, d: Deal, e: int64)
    requires d.sectorStartEpoch != -1 && d.slashEpoch == -1 && d.endEpoch >= e
    ensures TallyAll(deals + [d], e, AllTime) == TallyAll(deals, e, AllTime) + 1
    ensures TallyAll(deals + [d], e, LastDay) == TallyAll(deals, e, LastDay) + if ElapsedIn64(d, e) < 2880 then 1 else 0
    ensures TallyAll(deals + [d], e, LastWeek) == TallyAll(deals, e, LastWeek) + if ElapsedIn64(d, e) < 20160 then 1 else 0
  {
    WindowsByField(d, e);
    hide InWindow, ElapsedIn64;
    SumStep(deals, d, AnyOne(e, AllTime));
    SumStep(deals, d, AnyOne(e, LastDay));
    SumStep(deals, d, AnyOne(e, LastWeek));
  }

  /** One more deal in its provider's entry, in 64 bits. */
  function Entered(c: DealCounts, d: Deal, e: int64): DealCounts {
    var (inDay, inWeek) := (ElapsedIn64(d, e) < 2880, ElapsedIn64(d, e) < 20160);
    DealCounts(
      Wrap(c.count + 1), Wrap(c.bytes + d.pieceSize),
      if inDay then Wrap(c.countWithinDay + 1) else c.countWithinDay,
      if inDay then Wrap(c.bytesWithinDay + d.pieceSize) else c.bytesWithinDay,
      if inWeek then Wrap(c.countWithinWeek + 1) else c.countWithinWeek,
      if inWeek then Wrap(c.bytesWithinWeek + d.pieceSize) else c.bytesWithinWeek)
  }

  /** It adds one to its provider's entry likewise, and its size to the bytes; a provider without an
      entry gets one. No other entry changes. */
  lemma CountedDealEnters(deals: seq<Deal>, d: Deal, e: int64)
    requires d.sectorStartEpoch != -1 && d.slashEpoch == -1 && d.endEpoch >= e
    ensures
      var counts := CountsOf(deals, e);
      var c := if d.provider in counts then counts[d.provider] else DealCounts(0, 0, 0, 0, 0, 0);
      CountsOf(deals + [d], e) == counts[d.provider := Entered(c, d, e)]
  {
    CountsStep(deals, d, e);
    WindowsByField(d, e);
    PlusIsEntered(Lookup(CountsOf(deals, e), d.provider), d, e);
    hide CountsOf, Entered, PlusDeal, Active;
  }

  lemma PlusIsEntered(c: DealCounts, d: Deal, e: int64)
    requires d.sectorStartEpoch != -1 && d.slashEpoch == -1 && d.endEpoch >= e
    ensures PlusDeal(c, d, e) == Entered(c, d, e)
  {
    WindowsByField(d, e);
    hide InWindow, ElapsedIn64, Wrap;
  }

  lemma WindowsByField(d: Deal, e: int64)
    requires d.sectorStartEpoch != -1 && d.slashEpoch == -1 && d.endEpoch >= e
    ensures Active(d, e) && InWindow(d, e, AllTime)
    ensures InWindow(d, e, LastDay) <==> ElapsedIn64(d, e) < 2880
    ensures InWindow(d, e, LastWeek) <==> ElapsedIn64(d, e) < 20160
  {
    assert Fits(d.startEpoch) && Fits(e);
    WrapExactly(e - d.startEpoch);
  }

  lemma NothingFromNothing(e: int64)
    ensures CountsOf([], e) == map[] && forall w :: TallyAll([], e, w) == 0
  {
  }

  /** The places of the deals that count: started, not slashed, not ended, and of the provider if one is given. */
  function Places(deals: seq<Deal>, e: int64, p: Option<string>): set<nat> {
    set i: nat | i < |deals| && deals[i].sectorStartEpoch != -1 && deals[i].slashEpoch == -1 && deals[i].endEpoch >= e
                 && (p == None || p == Some(deals[i].provider))
  }

  /** The totals are the numbers of those places, and a provider's count is that of its own. */
  lemma {:induction false} TotalsArePlaces(deals: seq<Deal>, e: int64, p: string)
    ensures TallyAll(deals, e, AllTime) == |Places(deals, e, None)|
    ensures Tally(deals, p, e, AllTime) == |Places(deals, e, Some(p))|
  {
    if deals != [] {
      var n := |deals| - 1;
      TotalsArePlaces(deals[..n], e, p);
      OneMorePlace(deals, e, None);
      OneMorePlace(deals, e, Some(p));
      assert InWindow(deals[n], e, AllTime) <==>
             deals[n].sectorStartEpoch != -1 && deals[n].slashEpoch == -1 && deals[n].endEpoch >= e;
      hide InWindow, Places;
    }
  }

  lemma OneMorePlace(deals: seq<Deal>, e: int64, p: Option<string>)
    requires deals != []
    ensures
      var (n, d) := (|deals| - 1, deals[|deals| - 1]);
      |Places(deals, e, p)| == |Places(deals[..n], e, p)| +
        if d.sectorStartEpoch != -1 && d.slashEpoch == -1 && d.endEpoch >= e && (p == None || p == Some(d.provider)) then 1 else 0
  {
    var n := |deals| - 1;
    var last := Places(deals, e, p) - Places(deals[..n], e, p);
    assert Places(deals, e, p) == Places(deals[..n], e, p) + last;
    assert last == if n in Places(deals, e, p) then {n} else {};
  }

  /** So the total is that of the whole stream exactly when no deal of it is excluded. */
  lemma {:induction false} AllCounted(deals: seq<Deal>, e: int64)
    ensures TallyAll(deals, e, AllTime) == |deals| <==>
              forall d :: d in deals ==> d.sectorStartEpoch != -1 && d.slashEpoch == -1 && d.endEpoch >= e
  {
    if deals != [] {
      var n := |deals| - 1;
      AllCounted(deals[..n], e);
      TallyBound(deals[..n], "", e, AllTime);
      assert forall d :: d in deals <==> d in deals[..n] || d == deals[n];
    }
  }

  /** The published piece of a provider is that of the deal after which none of its deals starts later, and
      before which all start earlier; counted or not. */
  lemma PieceOfFirstNewest(deals: seq<Deal>, i: nat)
    requires i < |deals|
    requires forall j :: 0 <= j < |deals| && deals[j].provider == deals[i].provider ==>
               if j < i then deals[j].startEpoch < deals[i].startEpoch else deals[j].startEpoch <= deals[i].startEpoch
    ensures deals[i].provider in PiecesOf(deals) && PiecesOf(deals)[deals[i].provider] == deals[i].pieceCid
  {
    assert IsFirstLatest(deals, deals[i].provider, i);
    hide PiecesOf;
    LatestPiece(deals, 0);
  }
}
