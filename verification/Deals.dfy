/** Market deals, and declaratively what a stream of them amounts to at a chain height. */
module Deals {
  import opened Int64
  import opened Folds

  datatype Deal = Deal(
    pieceCid: string,
    provider: string,
    startEpoch: int64,
    endEpoch: int64,
    pieceSize: int64,
    sectorStartEpoch: int64,
    slashEpoch: int64)

  datatype DealCounts = DealCounts(
    count: int64, bytes: int64,
    countWithinDay: int64, bytesWithinDay: int64,
    countWithinWeek: int64, bytesWithinWeek: int64)
  {
    function Count(w: Window): int64 {
      match w
      case AllTime => count
      case LastDay => countWithinDay
      case LastWeek => countWithinWeek
    }

    function Bytes(w: Window): int64 {
      match w
      case AllTime => bytes
      case LastDay => bytesWithinDay
      case LastWeek => bytesWithinWeek
    }
  }

  const ZERO_COUNTS: DealCounts := DealCounts(0, 0, 0, 0, 0, 0)

  datatype Window = AllTime | LastDay | LastWeek

  const EPOCH_SECONDS: int := 30
  const EPOCH_DAY: int := 24 * 60 * 60 / EPOCH_SECONDS
  const EPOCH_WEEK: int := 7 * EPOCH_DAY

  /** A deal that counts at height e: its sector started, it was never slashed, it has not ended. */
  predicate Active(d: Deal, e: int64) {
    d.sectorStartEpoch != -1 && d.slashEpoch == -1 && d.endEpoch >= e
  }

  function Elapsed(d: Deal, e: int64): int64 {
    Wrap(e - d.startEpoch)
  }

  function Limit(w: Window): int
    requires w != AllTime
  {
    if w == LastDay then EPOCH_DAY else EPOCH_WEEK
  }

  predicate InWindow(d: Deal, e: int64, w: Window) {
    Active(d, e) && (w != AllTime ==> Elapsed(d, e) < Limit(w))
  }

  /* ----- Sums over a stream ----- */

  function One(p: string, e: int64, w: Window): Deal -> int {
    (d: Deal) => if d.provider == p && InWindow(d, e, w) then 1 else 0
  }

  function Size(p: string, e: int64, w: Window): Deal -> int {
    (d: Deal) => if d.provider == p && InWindow(d, e, w) then d.pieceSize else 0
  }

  function AnyOne(e: int64, w: Window): Deal -> int {
    d => if InWindow(d, e, w) then 1 else 0
  }

  /** How many deals of provider p are in window w at height e. */
  function Tally(deals: seq<Deal>, p: string, e: int64, w: Window): int {
    Sum(deals, One(p, e, w))
  }

  /** How many bytes those deals have. */
  function Volume(deals: seq<Deal>, p: string, e: int64, w: Window): int {
    Sum(deals, Size(p, e, w))
  }

  /** How many deals of anyone are in window w at height e. */
  function TallyAll(deals: seq<Deal>, e: int64, w: Window): int {
    Sum(deals, AnyOne(e, w))
  }

  lemma TallyBound(deals: seq<Deal>, p: string, e: int64, w: Window)
    ensures 0 <= Tally(deals, p, e, w) <= TallyAll(deals, e, w) <= |deals|
  {
    SumBound(deals, One(p, e, w), 1);
    SumBound(deals, AnyOne(e, w), 1);
    SumMonotone(deals, One(p, e, w), AnyOne(e, w));
  }

  /* ----- What refresh is to publish ----- */

  function CountsFor(deals: seq<Deal>, p: string, e: int64): DealCounts {
    DealCounts(
      Wrap(Tally(deals, p, e, AllTime)), Wrap(Volume(deals, p, e, AllTime)),
      Wrap(Tally(deals, p, e, LastDay)), Wrap(Volume(deals, p, e, LastDay)),
      Wrap(Tally(deals, p, e, LastWeek)), Wrap(Volume(deals, p, e, LastWeek)))
  }

  function ActiveProviders(deals: seq<Deal>, e: int64): set<string> {
    set d | d in deals && Active(d, e) :: d.provider
  }

  /** The published counts: each provider of an active deal, with the filtered sums of its deals. */
  function CountsOf(deals: seq<Deal>, e: int64): map<string, DealCounts> {
    map p | p in ActiveProviders(deals, e) :: CountsFor(deals, p, e)
  }

  /** getDealCounts: Go's lookup, which answers the zero value for an absent key. */
  function Lookup(counts: map<string, DealCounts>, id: string): DealCounts {
    if id in counts then counts[id] else ZERO_COUNTS
  }

  /** A lookup is the provider's filtered sums, whether or not the provider is in the map. */
  lemma {:induction false} LookupMeaning(deals: seq<Deal>, p: string, e: int64)
    ensures Lookup(CountsOf(deals, e), p) == CountsFor(deals, p, e)
  {
    if p !in ActiveProviders(deals, e) {
      forall w
        ensures Tally(deals, p, e, w) == 0 == Volume(deals, p, e, w)
      {
        assert forall d :: d in deals && d.provider == p ==> !Active(d, e);
        SumBound(deals, One(p, e, w), 0);
        SumBound(deals, Size(p, e, w), 0);
      }
    }
  }

  /** Every deal of p, active or not, is at most as new as the i-th, and the earlier ones older. */
  ghost predicate IsFirstLatest(deals: seq<Deal>, p: string, i: int) {
    && 0 <= i < |deals|
    && deals[i].provider == p
    && forall j :: 0 <= j < |deals| && deals[j].provider == p ==>
         deals[j].startEpoch <= deals[i].startEpoch && (j < i ==> deals[j].startEpoch < deals[i].startEpoch)
  }

  function Providers(deals: seq<Deal>): set<string> {
    set d | d in deals :: d.provider
  }

  function LatestIndex(deals: seq<Deal>, p: string): (i: nat)
    requires p in Providers(deals)
    ensures IsFirstLatest(deals, p, i)
  {
    var n := |deals| - 1;
    if p !in Providers(deals[..n]) then
      n
    else
      var i := LatestIndex(deals[..n], p);
      if deals[n].provider == p && deals[n].startEpoch > deals[i].startEpoch then n else i
  }

  datatype Latest = Latest(epoch: int64, cid: string)

  /** For each provider of any deal, the start and the piece of its first newest deal. */
  function LatestOf(deals: seq<Deal>): map<string, Latest> {
    map p | p in Providers(deals) ::
      var d := deals[LatestIndex(deals, p)];
      Latest(d.startEpoch, d.pieceCid)
  }

  function PiecesOf(deals: seq<Deal>): map<string, string> {
    var latest := LatestOf(deals);
    map p | p in latest :: latest[p].cid
  }

  /* ----- One deal more ----- */

  /** One more deal of value x in a sum that wraps. */
  function Added(c: int64, counted: bool, x: int): int64 {
    if counted then Wrap(c + x) else c
  }

  lemma TotalStep(deals: seq<Deal>, d: Deal, e: int64, w: Window)
    ensures Wrap(TallyAll(deals + [d], e, w)) == Added(Wrap(TallyAll(deals, e, w)), InWindow(d, e, w), 1)
  {
    SumStep(deals, d, AnyOne(e, w));
    WrapAdd(TallyAll(deals, e, w), 1);
  }

  lemma ProviderStep(deals: seq<Deal>, d: Deal, p: string, e: int64, w: Window)
    ensures
      var counted := d.provider == p && InWindow(d, e, w);
      && Wrap(Tally(deals + [d], p, e, w)) == Added(Wrap(Tally(deals, p, e, w)), counted, 1)
      && Wrap(Volume(deals + [d], p, e, w)) == Added(Wrap(Volume(deals, p, e, w)), counted, d.pieceSize)
  {
    SumStep(deals, d, One(p, e, w));
    SumStep(deals, d, Size(p, e, w));
    WrapAdd(Tally(deals, p, e, w), 1);
    WrapAdd(Volume(deals, p, e, w), d.pieceSize);
  }

  function PlusDeal(c: DealCounts, d: Deal, e: int64): DealCounts {
    DealCounts(
      Added(c.count, InWindow(d, e, AllTime), 1), Added(c.bytes, InWindow(d, e, AllTime), d.pieceSize),
      Added(c.countWithinDay, InWindow(d, e, LastDay), 1), Added(c.bytesWithinDay, InWindow(d, e, LastDay), d.pieceSize),
      Added(c.countWithinWeek, InWindow(d, e, LastWeek), 1), Added(c.bytesWithinWeek, InWindow(d, e, LastWeek), d.pieceSize))
  }

  lemma CountsForStep(deals: seq<Deal>, d: Deal, p: string, e: int64)
    ensures CountsFor(deals + [d], p, e) ==
              if d.provider == p && Active(d, e) then PlusDeal(CountsFor(deals, p, e), d, e) else CountsFor(deals, p, e)
  {
    ProviderStep(deals, d, p, e, AllTime);
    ProviderStep(deals, d, p, e, LastDay);
    ProviderStep(deals, d, p, e, LastWeek);
  }

  lemma CountsStep(deals: seq<Deal>, d: Deal, e: int64)
    ensures CountsOf(deals + [d], e) ==
              if Active(d, e) then CountsOf(deals, e)[d.provider := PlusDeal(Lookup(CountsOf(deals, e), d.provider), d, e)]
              else CountsOf(deals, e)
  {
    hide CountsFor, PlusDeal, Active;
    LookupMeaning(deals, d.provider, e);
    ProvidersStep(deals, d, e);
    hide ActiveProviders, Lookup;
    forall p
      ensures CountsFor(deals + [d], p, e) ==
                if d.provider == p && Active(d, e) then PlusDeal(CountsFor(deals, p, e), d, e) else CountsFor(deals, p, e)
    {
      CountsForStep(deals, d, p, e);
    }
  }

  lemma ProvidersStep(deals: seq<Deal>, d: Deal, e: int64)
    ensures ActiveProviders(deals + [d], e) == ActiveProviders(deals, e) + if Active(d, e) then {d.provider} else {}
  {
    hide Active;
  }

  lemma LatestStep(deals: seq<Deal>, d: Deal)
    ensures
      var latest := LatestOf(deals);
      LatestOf(deals + [d]) ==
      if d.provider !in latest || d.startEpoch > latest[d.provider].epoch then
        latest[d.provider := Latest(d.startEpoch, d.pieceCid)]
      else latest
  {
    var more := deals + [d];
    assert more[..|deals|] == deals;
    assert Providers(more) == Providers(deals) + {d.provider};
    forall p | p in Providers(more) && p != d.provider
      ensures LatestIndex(more, p) == LatestIndex(deals, p)
    {
    }
  }
}
