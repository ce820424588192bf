/** The laws of the statistics that refresh publishes. */
module DealLaws {
  import opened Int64
  import opened Folds
  import opened Deals

  /* ----- Conservation: providers add up to the totals ----- */

  function TallyBy(deals: seq<Deal>, e: int64, w: Window): string -> int {
    p => Tally(deals, p, e, w)
  }

  function CountBy(counts: map<string, DealCounts>, w: Window): string -> int {
    p => Lookup(counts, p).Count(w)
  }

  lemma {:induction false} TalliesAddUp(deals: seq<Deal>, keys: set<string>, e: int64, w: Window)
    requires ActiveProviders(deals, e) <= keys
    ensures SumOver(keys, TallyBy(deals, e, w)) == TallyAll(deals, e, w)
  {
    if deals == [] {
      SumOverZero(keys, TallyBy(deals, e, w));
    } else {
      var n := |deals| - 1;
      var d := deals[n];
      assert ActiveProviders(deals[..n], e) <= keys;
      TalliesAddUp(deals[..n], keys, e, w);
      var before, after := TallyBy(deals[..n], e, w), TallyBy(deals, e, w);
      if InWindow(d, e, w) {
        assert d.provider in ActiveProviders(deals, e);
        SumOverBump(keys, d.provider, 1, before, after);
      } else {
        SumOverAgree(keys, before, after);
      }
    }
  }

  lemma {:induction false} SumOverWrap(keys: set<string>, f: string -> int, g: string -> int)
    requires forall k :: k in keys ==> g(k) == Wrap(f(k))
    ensures Wrap(SumOver(keys, g)) == Wrap(SumOver(keys, f))
  {
    if keys != {} {
      var k :| k in keys;
      SumOverTake(keys, k, f);
      SumOverTake(keys, k, g);
      SumOverWrap(keys - {k}, f, g);
      var rest := keys - {k};
      WrapAdd(f(k), SumOver(rest, g));
      WrapAdd(SumOver(rest, g), f(k));
      WrapAdd(SumOver(rest, f), f(k));
    }
  }

  /** For every stream the published counts of all providers add up to the published total, in
      int64 arithmetic always and exactly when the stream has no more deals than int64 can count. */
  lemma Conservation(deals: seq<Deal>, e: int64, w: Window)
    ensures Wrap(SumOver(CountsOf(deals, e).Keys, CountBy(CountsOf(deals, e), w))) == Wrap(TallyAll(deals, e, w))
    ensures |deals| <= MAX ==>
              SumOver(CountsOf(deals, e).Keys, CountBy(CountsOf(deals, e), w)) == Wrap(TallyAll(deals, e, w))
  {
    var counts := CountsOf(deals, e);
    forall p
      ensures CountBy(counts, w)(p) == Wrap(TallyBy(deals, e, w)(p))
      ensures |deals| <= MAX ==> CountBy(counts, w)(p) == TallyBy(deals, e, w)(p)
    {
      LookupMeaning(deals, p, e);
      TallyBound(deals, p, e, w);
    }
    SumOverWrap(counts.Keys, TallyBy(deals, e, w), CountBy(counts, w));
    TalliesAddUp(deals, counts.Keys, e, w);
    TallyBound(deals, "", e, w);
    if |deals| <= MAX {
      SumOverAgree(counts.Keys, CountBy(counts, w), TallyBy(deals, e, w));
    }
  }

  /* ----- The shape of one provider's entry ----- */

  /** A day lies within a week and a week within all time: for the sums of counts, and of the bytes of
      deals whose piece sizes are not negative; and for the published entry where these fit int64. */
  lemma WindowsNest(deals: seq<Deal>, p: string, e: int64)
    ensures 0 <= Tally(deals, p, e, LastDay) <= Tally(deals, p, e, LastWeek) <= Tally(deals, p, e, AllTime) <= |deals|
    ensures (forall d :: d in deals ==> 0 <= d.pieceSize) ==>
              0 <= Volume(deals, p, e, LastDay) <= Volume(deals, p, e, LastWeek) <= Volume(deals, p, e, AllTime)
    ensures
      var c := Lookup(CountsOf(deals, e), p);
      && (|deals| <= MAX ==> 0 <= c.countWithinDay <= c.countWithinWeek <= c.count <= |deals|)
      && ((forall d :: d in deals ==> 0 <= d.pieceSize) && Fits(Volume(deals, p, e, AllTime)) ==>
            0 <= c.bytesWithinDay <= c.bytesWithinWeek <= c.bytes)
  {
    LookupMeaning(deals, p, e);
    hide CountsOf;
    SumMonotone(deals, One(p, e, LastDay), One(p, e, LastWeek));
    SumMonotone(deals, One(p, e, LastWeek), One(p, e, AllTime));
    TallyBound(deals, p, e, LastDay);
    TallyBound(deals, p, e, AllTime);
    if forall d :: d in deals ==> 0 <= d.pieceSize {
      SumBound(deals, Size(p, e, LastDay), MAX);
      SumMonotone(deals, Size(p, e, LastDay), Size(p, e, LastWeek));
      SumMonotone(deals, Size(p, e, LastWeek), Size(p, e, AllTime));
    }
  }

  /* ----- int64 against mathematics ----- */

  /** The deal is in the window, with the elapsed epochs as mathematics has them. */
  predicate TrulyInWindow(d: Deal, e: int64, w: Window) {
    Active(d, e) && (w != AllTime ==> e - d.startEpoch < Limit(w))
  }

  /** The two ways for int64 to get a window wrong: more epochs have elapsed than it can count, and come
      back negative; or fewer, and come back large. */
  predicate WronglyIn(d: Deal, e: int64, w: Window) {
    Active(d, e) && w != AllTime && e - d.startEpoch > MAX
  }

  predicate WronglyOut(d: Deal, e: int64, w: Window) {
    Active(d, e) && w != AllTime && Limit(w) - MODULUS <= e - d.startEpoch < MIN
  }

  lemma WindowExactly(d: Deal, e: int64, w: Window)
    ensures InWindow(d, e, w) <==> (TrulyInWindow(d, e, w) && !WronglyOut(d, e, w)) || WronglyIn(d, e, w)
    ensures WronglyIn(d, e, w) ==> !TrulyInWindow(d, e, w)
    ensures WronglyOut(d, e, w) ==> TrulyInWindow(d, e, w)
    ensures 0 <= e ==> !WronglyOut(d, e, w)
    ensures 0 <= e && 0 <= d.startEpoch ==> !WronglyIn(d, e, w)
  {
    assert Fits(d.startEpoch) && Fits(e);
    WrapExactly(e - d.startEpoch);
  }

  lemma WrapExactly(x: int)
    requires MIN - MAX <= x <= MAX - MIN
    ensures Wrap(x) == if x > MAX then x - MODULUS else if x < MIN then x + MODULUS else x
  {
    if x > MAX {
      assert (x - MODULUS - MIN) % MODULUS == (x - MIN) % MODULUS;
    } else if x < MIN {
      assert (x + MODULUS - MIN) % MODULUS == (x - MIN) % MODULUS;
    }
  }

  datatype Unit = PerDeal | PerByte {
    function Of(d: Deal): int {
      if this == PerDeal then 1 else d.pieceSize
    }
  }

  function Part(p: string, q: Deal -> bool, unit: Unit): Deal -> int {
    (d: Deal) => if d.provider == p && q(d) then unit.Of(d) else 0
  }

  function Truly(e: int64, w: Window): Deal -> bool {
    d => TrulyInWindow(d, e, w)
  }

  function TooMany(e: int64, w: Window): Deal -> bool {
    d => WronglyIn(d, e, w)
  }

  function TooFew(e: int64, w: Window): Deal -> bool {
    d => WronglyOut(d, e, w)
  }

  /** The provider's deals in the window, or their bytes, all in mathematics. */
  function TrueSum(deals: seq<Deal>, p: string, e: int64, w: Window, unit: Unit): int {
    Sum(deals, Part(p, Truly(e, w), unit))
  }

  function EntryOf(deals: seq<Deal>, p: string, e: int64, w: Window, unit: Unit): int64 {
    var c := Lookup(CountsOf(deals, e), p);
    if unit == PerDeal then c.Count(w) else c.Bytes(w)
  }

  function Counted(p: string, e: int64, w: Window, unit: Unit): Deal -> int {
    if unit == PerDeal then One(p, e, w) else Size(p, e, w)
  }

  lemma OneDeal(d: Deal, p: string, e: int64, w: Window, unit: Unit)
    ensures Counted(p, e, w, unit)(d) ==
              Part(p, Truly(e, w), unit)(d) + Part(p, TooMany(e, w), unit)(d) - Part(p, TooFew(e, w), unit)(d)
    ensures 0 <= e ==> Part(p, TooFew(e, w), unit)(d) == 0
  {
    WindowExactly(d, e, w);
    assert Truly(e, w)(d) == TrulyInWindow(d, e, w);
    assert TooMany(e, w)(d) == WronglyIn(d, e, w);
    assert TooFew(e, w)(d) == WronglyOut(d, e, w);
    hide InWindow, TrulyInWindow, WronglyIn, WronglyOut;
    assert Counted(p, e, w, unit)(d) == if d.provider == p && InWindow(d, e, w) then unit.Of(d) else 0;
  }

  lemma PublishedCounts(deals: seq<Deal>, p: string, e: int64, w: Window, unit: Unit)
    ensures EntryOf(deals, p, e, w, unit) == Wrap(Sum(deals, Counted(p, e, w, unit)))
  {
    LookupMeaning(deals, p, e);
    hide CountsOf;
  }

  lemma CountedSum(deals: seq<Deal>, p: string, e: int64, w: Window, unit: Unit)
    ensures Sum(deals, Counted(p, e, w, unit)) ==
              TrueSum(deals, p, e, w, unit) + Sum(deals, Part(p, TooMany(e, w), unit)) - Sum(deals, Part(p, TooFew(e, w), unit))
    ensures 0 <= e ==> Sum(deals, Part(p, TooFew(e, w), unit)) == 0
  {
    forall d
      ensures Counted(p, e, w, unit)(d) ==
                Part(p, Truly(e, w), unit)(d) + Part(p, TooMany(e, w), unit)(d) - Part(p, TooFew(e, w), unit)(d)
      ensures 0 <= e ==> Part(p, TooFew(e, w), unit)(d) == 0
    {
      OneDeal(d, p, e, w, unit);
    }
    hide Counted, Part;
    SumCombine(deals, Counted(p, e, w, unit), Part(p, Truly(e, w), unit), Part(p, TooMany(e, w), unit), Part(p, TooFew(e, w), unit));
    if 0 <= e {
      SumBound(deals, Part(p, TooFew(e, w), unit), 0);
    }
  }

  /** For every stream and height the published entry is the mathematical sum, plus the deals wrongly in
      the window and less those wrongly out, up to the width of int64. */
  lemma PublishedExactly(deals: seq<Deal>, p: string, e: int64, w: Window, unit: Unit)
    ensures EntryOf(deals, p, e, w, unit) ==
              Wrap(TrueSum(deals, p, e, w, unit) + Sum(deals, Part(p, TooMany(e, w), unit)) - Sum(deals, Part(p, TooFew(e, w), unit)))
  {
    PublishedCounts(deals, p, e, w, unit);
    CountedSum(deals, p, e, w, unit);
  }

  /** While the stream is short and its pieces small enough, at heights from zero the entry is the
      mathematical one, in deals exactly when no active deal of the provider has more elapsed epochs
      than int64 can count. Starts from zero never do. */
  lemma NoOverflow(deals: seq<Deal>, p: string, e: int64, w: Window, s: nat)
    requires 0 <= e
    requires forall d :: d in deals ==> 0 <= d.pieceSize <= s
    requires |deals| <= MAX && |deals| * s <= MAX
    ensures EntryOf(deals, p, e, w, PerDeal) == TrueSum(deals, p, e, w, PerDeal) <==>
              forall d :: d in deals && d.provider == p ==> !WronglyIn(d, e, w)
    ensures (forall d :: d in deals && d.provider == p ==> !WronglyIn(d, e, w)) ==>
              EntryOf(deals, p, e, w, PerByte) == TrueSum(deals, p, e, w, PerByte)
    ensures (forall d :: d in deals && d.provider == p ==> 0 <= d.startEpoch) ==>
              EntryOf(deals, p, e, w, PerDeal) == TrueSum(deals, p, e, w, PerDeal)
  {
    hide EntryOf, TrueSum;
    EntryFits(deals, p, e, w, PerDeal, 1);
    EntryFits(deals, p, e, w, PerByte, s);
    forall d | d in deals && 0 <= d.startEpoch
      ensures !WronglyIn(d, e, w)
    {
      WindowExactly(d, e, w);
    }
    NoneWronglyIn(deals, p, e, w, PerDeal);
    NoneWronglyIn(deals, p, e, w, PerByte);
  }

  /** An entry that fits is the mathematical one and what is wrongly in the window. */
  lemma EntryFits(deals: seq<Deal>, p: string, e: int64, w: Window, unit: Unit, s: nat)
    requires 0 <= e && |deals| * s <= MAX && forall d :: d in deals ==> 0 <= unit.Of(d) <= s
    ensures EntryOf(deals, p, e, w, unit) == TrueSum(deals, p, e, w, unit) + Sum(deals, Part(p, TooMany(e, w), unit))
  {
    PublishedCounts(deals, p, e, w, unit);
    CountedSum(deals, p, e, w, unit);
    CountedBound(deals, p, e, w, unit, s);
  }

  lemma CountedBound(deals: seq<Deal>, p: string, e: int64, w: Window, unit: Unit, s: nat)
    requires |deals| * s <= MAX && forall d :: d in deals ==> 0 <= unit.Of(d) <= s
    ensures Fits(Sum(deals, Counted(p, e, w, unit)))
  {
    SumBound(deals, Counted(p, e, w, unit), s);
  }

  lemma NoneWronglyIn(deals: seq<Deal>, p: string, e: int64, w: Window, unit: Unit)
    ensures (forall d :: d in deals && d.provider == p ==> !WronglyIn(d, e, w)) ==>
              Sum(deals, Part(p, TooMany(e, w), unit)) == 0
    ensures unit == PerDeal && Sum(deals, Part(p, TooMany(e, w), unit)) == 0 ==>
              forall d :: d in deals && d.provider == p ==> !WronglyIn(d, e, w)
  {
    if forall d :: d in deals && d.provider == p ==> !WronglyIn(d, e, w) {
      SumBound(deals, Part(p, TooMany(e, w), unit), 0);
    } else if unit == PerDeal {
      var d :| d in deals && d.provider == p && WronglyIn(d, e, w);
      SumOfMember(deals, d, Part(p, TooMany(e, w), unit));
    }
  }

  /* ----- The stream's order ----- */

  /** Deals of one provider that start at its newest start share their piece. */
  ghost predicate NewestAgree(deals: seq<Deal>) {
    forall c, d :: c in deals && d in deals && c.provider == d.provider && IsNewest(deals, c) && IsNewest(deals, d) ==>
      c.pieceCid == d.pieceCid
  }

  ghost predicate IsNewest(deals: seq<Deal>, d: Deal) {
    forall other :: other in deals && other.provider == d.provider ==> other.startEpoch <= d.startEpoch
  }

  /** Counts and totals do not depend on the order of the stream. */
  lemma PermutationInvariance(xs: seq<Deal>, ys: seq<Deal>, e: int64)
    requires multiset(xs) == multiset(ys)
    ensures CountsOf(xs, e) == CountsOf(ys, e)
    ensures forall w :: TallyAll(xs, e, w) == TallyAll(ys, e, w)
  {
    forall w
      ensures TallyAll(xs, e, w) == TallyAll(ys, e, w)
    {
      SumPermutation(xs, ys, AnyOne(e, w));
    }
    forall p
      ensures CountsFor(xs, p, e) == CountsFor(ys, p, e)
    {
      TallyPermutation(xs, ys, p, e, AllTime);
      TallyPermutation(xs, ys, p, e, LastDay);
      TallyPermutation(xs, ys, p, e, LastWeek);
    }
    SameMembers(xs, ys);
    hide CountsFor;
    assert ActiveProviders(xs, e) == ActiveProviders(ys, e);
  }

  lemma TallyPermutation(xs: seq<Deal>, ys: seq<Deal>, p: string, e: int64, w: Window)
    requires multiset(xs) == multiset(ys)
    ensures Tally(xs, p, e, w) == Tally(ys, p, e, w) && Volume(xs, p, e, w) == Volume(ys, p, e, w)
  {
    SumPermutation(xs, ys, One(p, e, w));
    SumPermutation(xs, ys, Size(p, e, w));
  }

  lemma SameMembers(xs: seq<Deal>, ys: seq<Deal>)
    requires multiset(xs) == multiset(ys)
    ensures forall d :: d in xs <==> d in ys
  {
    assert forall d :: d in xs <==> d in multiset(xs);
    assert forall d :: d in ys <==> d in multiset(ys);
  }

  /** Nor does a provider's newest start depend on the order; nor do the pieces, exactly when each
      provider's newest deals share one. */
  lemma LatestPermutation(xs: seq<Deal>)
    ensures forall ys :: multiset(ys) == multiset(xs) ==> SameStarts(xs, ys)
    ensures (forall ys :: multiset(ys) == multiset(xs) ==> PiecesOf(ys) == PiecesOf(xs)) <==> NewestAgree(xs)
  {
    forall ys | multiset(ys) == multiset(xs)
      ensures SameStarts(xs, ys)
      ensures NewestAgree(xs) ==> PiecesOf(ys) == PiecesOf(xs)
    {
      OrderOfStarts(xs, ys);
    }
    if !NewestAgree(xs) {
      var c, d :| c in xs && d in xs && c.provider == d.provider && IsNewest(xs, c) && IsNewest(xs, d) && c.pieceCid != d.pieceCid;
      var cs := MoveToFront(xs, c);
      var ds := MoveToFront(xs, d);
      assert PiecesOf(cs)[c.provider] != PiecesOf(ds)[c.provider];
    }
  }

  ghost predicate SameStarts(xs: seq<Deal>, ys: seq<Deal>) {
    LatestOf(xs).Keys == LatestOf(ys).Keys && forall p :: p in LatestOf(xs) ==> LatestOf(xs)[p].epoch == LatestOf(ys)[p].epoch
  }

  lemma OrderOfStarts(xs: seq<Deal>, ys: seq<Deal>)
    requires multiset(ys) == multiset(xs)
    ensures SameStarts(xs, ys)
    ensures NewestAgree(xs) ==> PiecesOf(ys) == PiecesOf(xs)
  {
    SameMembers(xs, ys);
    assert Providers(xs) == Providers(ys);
    forall p | p in Providers(xs)
      ensures LatestOf(xs)[p].epoch == LatestOf(ys)[p].epoch
      ensures NewestAgree(xs) ==> LatestOf(xs)[p] == LatestOf(ys)[p]
    {
      LatestEither(xs, ys, p);
    }
    hide LatestIndex, NewestAgree, Providers;
  }

  /** The newest deals of one provider, found in one order and in the other. */
  lemma LatestEither(xs: seq<Deal>, ys: seq<Deal>, p: string)
    requires (forall d :: d in xs <==> d in ys) && p in Providers(xs) && p in Providers(ys)
    ensures LatestOf(xs)[p].epoch == LatestOf(ys)[p].epoch
    ensures NewestAgree(xs) ==> LatestOf(xs)[p] == LatestOf(ys)[p]
  {
    var x, y := LatestDeal(xs, p), LatestDeal(ys, p);
    LatestIsNewest(xs, p);
    LatestIsNewest(ys, p);
    hide LatestOf, Providers, LatestDeal;
    assert IsNewest(xs, y);
  }

  function LatestDeal(deals: seq<Deal>, p: string): Deal
    requires p in Providers(deals)
  {
    deals[LatestIndex(deals, p)]
  }

  lemma LatestIsNewest(deals: seq<Deal>, p: string)
    requires p in Providers(deals)
    ensures
      var d := LatestDeal(deals, p);
      && d in deals && d.provider == p && IsNewest(deals, d)
      && LatestOf(deals)[p] == Latest(d.startEpoch, d.pieceCid)
  {
    var i := LatestIndex(deals, p);
    assert IsFirstLatest(deals, p, i);
    forall other | other in deals && other.provider == p
      ensures other.startEpoch <= deals[i].startEpoch
    {
      var j :| 0 <= j < |deals| && deals[j] == other;
    }
    hide LatestIndex;
  }

  /** A newest deal that comes first gives its provider's piece. */
  lemma MoveToFront(xs: seq<Deal>, d: Deal) returns (ys: seq<Deal>)
    requires d in xs && IsNewest(xs, d)
    ensures multiset(ys) == multiset(xs)
    ensures d.provider in PiecesOf(ys) && PiecesOf(ys)[d.provider] == d.pieceCid
  {
    var i :| 0 <= i < |xs| && xs[i] == d;
    var rest := xs[..i] + xs[i + 1..];
    WithoutOne(xs, i);
    ys := [d] + rest;
    assert multiset(ys) == multiset{d} + multiset(rest);
    assert d in multiset(xs);
    SameMembers(xs, ys);
    FrontIsLatest(d, rest);
  }

  lemma FrontIsLatest(d: Deal, rest: seq<Deal>)
    requires IsNewest([d] + rest, d)
    ensures d.provider in PiecesOf([d] + rest) && PiecesOf([d] + rest)[d.provider] == d.pieceCid
  {
    var ys := [d] + rest;
    assert forall j :: 0 <= j < |ys| ==> ys[j] in ys;
    assert IsFirstLatest(ys, d.provider, 0);
    hide LatestIndex, PiecesOf;
    LatestPiece(ys, 0);
  }

  /** The published pieces: one for each provider seen in any deal, counted or not, namely the
      piece of the one deal that is the first of the provider's newest. */
  lemma LatestPiece(deals: seq<Deal>, e: int64)
    ensures PiecesOf(deals).Keys == Providers(deals)
    ensures CountsOf(deals, e).Keys <= PiecesOf(deals).Keys
    ensures forall p, i :: IsFirstLatest(deals, p, i) ==> p in PiecesOf(deals) && PiecesOf(deals)[p] == deals[i].pieceCid
  {
    forall p, i | IsFirstLatest(deals, p, i)
      ensures p in PiecesOf(deals) && PiecesOf(deals)[p] == deals[i].pieceCid
    {
      assert deals[i] in deals;
      assert LatestIndex(deals, p) == i;
    }
  }

  /* ----- The chain's height ----- */

  /** Where a later height pushes a deal into a window that it was not in: the elapsed epochs pass the
      end of int64 and come back negative, or, from below the least int64, stop coming back large. */
  predicate TurnsOver(d: Deal, e: int64, later: int64, w: Window) {
    w != AllTime &&
    var (before, after, limit) := (e - d.startEpoch, later - d.startEpoch, Limit(w));
    || limit <= before <= MAX < after
    || (limit - MODULUS <= before < MIN && (MIN <= after < limit || MAX < after))
  }

  /** An active deal outside a window stays outside at later heights exactly when its elapsed epochs do
      not turn over between the two. Future starts are no exception, and all time has none. */
  lemma WindowAntitone(d: Deal, e: int64, later: int64, w: Window)
    requires e <= later && Active(d, later)
    ensures (InWindow(d, later, w) ==> InWindow(d, e, w)) <==> !TurnsOver(d, e, later, w)
  {
    assert Fits(d.startEpoch) && Fits(e) && Fits(later);
    WrapExactly(e - d.startEpoch);
    WrapExactly(later - d.startEpoch);
  }

  /** A deal with a start near the least int64 leaves the day and enters it again. */
  lemma WindowNotAntitone()
    ensures exists d: Deal, e: int64, later: int64 :: 0 <= e <= later && Active(d, later) &&
              !InWindow(d, e, LastDay) && InWindow(d, later, LastDay)
  {
    var d := Deal("", "f01", -MAX + 1, MAX, 0, 0, -1);
    assert !InWindow(d, 0, LastDay) && InWindow(d, 2, LastDay);
  }

  /** From one height to the other the window gains nothing: no deal of anyone, and no byte while no
      piece is of negative size. */
  ghost predicate NothingGained(deals: seq<Deal>, e: int64, later: int64, w: Window) {
    && TallyAll(deals, later, w) <= TallyAll(deals, e, w)
    && (forall p :: Tally(deals, p, later, w) <= Tally(deals, p, e, w))
    && ((forall d :: d in deals ==> 0 <= d.pieceSize) ==> forall p :: Volume(deals, p, later, w) <= Volume(deals, p, e, w))
  }

  /** As the chain grows nothing is gained in a window, unless an active deal's elapsed epochs turn
      over; so never in all time. */
  lemma HeightAntitone(deals: seq<Deal>, e: int64, later: int64, w: Window)
    requires e <= later
    requires forall d :: d in deals && Active(d, later) ==> !TurnsOver(d, e, later, w)
    ensures NothingGained(deals, e, later, w)
  {
    forall d | d in deals && InWindow(d, later, w)
      ensures InWindow(d, e, w)
    {
      WindowAntitone(d, e, later, w);
    }
    hide InWindow, TurnsOver;
    SumMonotone(deals, AnyOne(later, w), AnyOne(e, w));
    forall p
      ensures Tally(deals, p, later, w) <= Tally(deals, p, e, w)
      ensures (forall d :: d in deals ==> 0 <= d.pieceSize) ==> Volume(deals, p, later, w) <= Volume(deals, p, e, w)
    {
      SumMonotone(deals, One(p, later, w), One(p, e, w));
      if forall d :: d in deals ==> 0 <= d.pieceSize {
        SumMonotone(deals, Size(p, later, w), Size(p, e, w));
      }
    }
  }

  /** The condition is exact: of every part of the stream the law holds just when it is met. */
  lemma HeightAntitoneExactly(deals: seq<Deal>, e: int64, later: int64, w: Window)
    requires e <= later
    ensures (forall part :: multiset(part) <= multiset(deals) ==> NothingGained(part, e, later, w)) <==>
              forall d :: d in deals && Active(d, later) ==> !TurnsOver(d, e, later, w)
  {
    if forall d :: d in deals && Active(d, later) ==> !TurnsOver(d, e, later, w) {
      forall part | multiset(part) <= multiset(deals)
        ensures NothingGained(part, e, later, w)
      {
        assert forall d :: d in part ==> d in multiset(part) && d in multiset(deals);
        HeightAntitone(part, e, later, w);
      }
    } else {
      var d :| d in deals && Active(d, later) && TurnsOver(d, e, later, w);
      WindowAntitone(d, e, later, w);
      SumStep([], d, AnyOne(later, w));
      SumStep([], d, AnyOne(e, w));
      assert [] + [d] == [d];
      assert d in multiset(deals);
      assert multiset([d]) <= multiset(deals);
      assert !NothingGained([d], e, later, w);
    }
  }
}
