/** The metrics: what a snapshot of all targets adds up to, and what a report makes of it. */
module Metrics {
  import opened Wrappers
  import opened Int64
  import opened Folds
  import opened Targets

  const MARKET_1_0_1: string := "/fil/storage/mk/1.0.1"
  const MARKET_1_1_0: string := "/fil/storage/mk/1.1.0"
  const MARKET_1_1_1: string := "/fil/storage/mk/1.1.1"
  const MARKET_1_2_0: string := "/fil/storage/mk/1.2.0"

  /* ----- What is counted ----- */

  predicate Addressable(t: Record) {
    t.addrInfo.Some? && t.addrInfo.value.peerId != "" && t.addrInfo.value.addrs != []
  }

  predicate WithDeal(t: Record) {
    Addressable(t) && t.dealCount > 0
  }

  predicate Known(t: Record) {
    WithDeal(t) && t.knownByIndexer
  }

  predicate MinPowered(t: Record) {
    t.power.Some? && t.power.value.hasMinPower
  }

  predicate Boost(t: Record) {
    MinPowered(t) && MARKET_1_2_0 in t.protocols
  }

  function Indicator(p: Record -> bool): Record -> int {
    t => if p(t) then 1 else 0
  }

  function Where(p: Record -> bool, f: Record -> int): Record -> int {
    t => if p(t) then f(t) else 0
  }

  function DealsAllTime(t: Record): int { t.dealCount }
  function DealsWithinDay(t: Record): int { t.dealCountWithinDay }
  function DealsWithinWeek(t: Record): int { t.dealCountWithinWeek }

  /** The powers of a target, when it has them in decimal. */
  function QualityAdjPower(t: Record): int {
    if t.power.Some? then ParseDecimal(t.power.value.qualityAdjPower).GetOr(0) else 0
  }

  function RawBytePower(t: Record): int {
    if t.power.Some? then ParseDecimal(t.power.value.rawBytePower).GetOr(0) else 0
  }

  /** big.Int.SetString in base ten: an optional sign and at least one digit, nothing else. */
  function ParseDecimal(s: string): Option<int> {
    if s == "" then None
    else if s[0] == '-' then
      (match ParseDigits(s[1..])
       case None => None
       case Some(n) => Some(-n))
    else if s[0] == '+' then ParseDigits(s[1..])
    else ParseDigits(s)
  }

  function ParseDigits(s: string): Option<int> {
    if s == "" || !('0' <= s[|s| - 1] <= '9') then None
    else
      var digit := s[|s| - 1] as int - '0' as int;
      if |s| == 1 then Some(digit)
      else
        match ParseDigits(s[..|s| - 1])
        case None => None
        case Some(n) => Some(10 * n + digit)
  }

  /** How decimal powers are written. */
  function FormatDecimal(n: int): string {
    if n < 0 then "-" + FormatDigits(-n) else FormatDigits(n)
  }

  function FormatDigits(n: nat): (s: string)
    ensures s != "" && '0' <= s[0] <= '9'
  {
    var digit := [(n % 10 + '0' as int) as char];
    if n < 10 then digit else FormatDigits(n / 10) + digit
  }

  lemma {:induction false} ParseFormatted(n: nat)
    ensures ParseDigits(FormatDigits(n)) == Some(n)
  {
    var s := FormatDigits(n);
    if n >= 10 {
      ParseFormatted(n / 10);
      assert s[..|s| - 1] == FormatDigits(n / 10);
    }
  }

  /** Every integer's decimal text is read back as that integer. */
  lemma DecimalRoundTrip(n: int)
    ensures ParseDecimal(FormatDecimal(n)) == Some(n)
  {
    if n < 0 {
      ParseFormatted(-n);
      assert FormatDecimal(n)[1..] == FormatDigits(-n);
    } else {
      ParseFormatted(n);
    }
  }

  /* ----- Histograms ----- */

  /** How often each label was counted, in the form that the snapshot keeps it. */
  function Histogram<K>(bag: multiset<K>): map<K, nat> {
    map k | k in bag :: bag[k]
  }

  function Bump<K>(m: map<K, nat>, k: K): map<K, nat> {
    m[k := (if k in m then m[k] else 0) + 1]
  }

  function Bag<K>(ts: seq<Record>, f: Record -> multiset<K>): multiset<K> {
    if ts == [] then multiset{} else Bag(ts[..|ts| - 1], f) + f(ts[|ts| - 1])
  }

  lemma BagStep<K>(ts: seq<Record>, t: Record, f: Record -> multiset<K>)
    ensures Bag(ts + [t], f) == Bag(ts, f) + f(t)
  {
    assert (ts + [t])[..|ts|] == ts;
  }

  lemma {:induction false} BagRemove<K>(ts: seq<Record>, i: nat, f: Record -> multiset<K>)
    requires i < |ts|
    ensures Bag(ts, f) == Bag(ts[..i] + ts[i + 1..], f) + f(ts[i])
  {
    var n := |ts| - 1;
    if i == n {
      assert ts[..i] + ts[i + 1..] == ts[..n];
    } else {
      BagRemove(ts[..n], i, f);
      var rest := ts[..n][..i] + ts[..n][i + 1..];
      assert ts[..i] + ts[i + 1..] == rest + [ts[n]];
      BagStep(rest, ts[n], f);
    }
  }

  lemma {:induction false} BagPermutation<K>(xs: seq<Record>, ys: seq<Record>, f: Record -> multiset<K>)
    requires multiset(xs) == multiset(ys)
    ensures Bag(xs, f) == Bag(ys, f)
    decreases |xs|
  {
    if xs == [] {
      assert |multiset(ys)| == 0;
    } else {
      var n := |xs| - 1;
      assert xs == xs[..n] + [xs[n]];
      var i, rest := TakeOne(xs[..n], xs[n], ys);
      BagPermutation(xs[..n], rest, f);
      BagRemove(ys, i, f);
    }
  }

  /** The counts of a histogram add up to everything that was counted. */
  lemma {:induction false} HistogramTotal<K>(keys: set<K>, bag: multiset<K>, f: K -> int)
    requires forall k :: k in bag ==> k in keys
    requires forall k :: f(k) == bag[k]
    ensures SumOver(keys, f) == |bag|
  {
    if keys == {} {
      assert bag == multiset{};
    } else {
      var k :| k in keys;
      SumOverTake(keys, k, f);
      var g := j => if j == k then 0 else f(j);
      SumOverAgree(keys - {k}, f, g);
      HistogramTotal(keys - {k}, bag[k := 0], g);
    }
  }

  function StatusLabel(t: Record): multiset<Status> {
    multiset{t.status}
  }

  function AgentLabel(t: Record): multiset<string> {
    if t.agentShortVersion != "" then multiset{t.agentShortVersion} else multiset{}
  }

  function MarketLabels(t: Record): multiset<string> {
    Once(t, MARKET_1_0_1) + Once(t, MARKET_1_1_0) + Once(t, MARKET_1_1_1) + Once(t, MARKET_1_2_0)
  }

  function Once(t: Record, protocol: string): multiset<string> {
    if protocol in t.protocols then multiset{protocol} else multiset{}
  }

  function TransportLabels(t: Record): multiset<string> {
    if t.transports.Some? then multiset(Names(t.transports.value)) else multiset{}
  }

  function Names(ps: seq<Transport>): seq<string> {
    seq(|ps|, i requires 0 <= i < |ps| => ps[i].name)
  }

  /* ----- The summary of a list of targets, field by field ----- */

  datatype Participants = Participants(
    addressable: int, withDeal: int, known: int,
    knownDeals: int64, knownDealsWithinDay: int64, knownDealsWithinWeek: int64)

  datatype Powers = Powers(minPower: int, boost: int, boostQualityAdjPower: int, boostRawPower: int)

  datatype Labels = Labels(
    byStatus: map<Status, nat>, byAgent: map<string, nat>, byMarket: map<string, nat>, byTransport: map<string, nat>)

  datatype Summary = Summary(participants: Participants, powers: Powers, labels: Labels)

  function CountWhere(ts: seq<Record>, p: Record -> bool): int {
    Sum(ts, Indicator(p))
  }

  function SumWhere(ts: seq<Record>, p: Record -> bool, f: Record -> int): int {
    Sum(ts, Where(p, f))
  }

  function ParticipantsOf(ts: seq<Record>): Participants {
    Participants(
      CountWhere(ts, Addressable), CountWhere(ts, WithDeal), CountWhere(ts, Known),
      Wrap(SumWhere(ts, Known, DealsAllTime)),
      Wrap(SumWhere(ts, Known, DealsWithinDay)),
      Wrap(SumWhere(ts, Known, DealsWithinWeek)))
  }

  function PowersOf(ts: seq<Record>): Powers {
    Powers(CountWhere(ts, MinPowered), CountWhere(ts, Boost),
           SumWhere(ts, Boost, QualityAdjPower), SumWhere(ts, Boost, RawBytePower))
  }

  function LabelsOf(ts: seq<Record>): Labels {
    Labels(Histogram(Bag(ts, StatusLabel)), Histogram(Bag(ts, AgentLabel)),
           Histogram(Bag(ts, MarketLabels)), Histogram(Bag(ts, TransportLabels)))
  }

  function SummaryOf(ts: seq<Record>): Summary {
    Summary(ParticipantsOf(ts), PowersOf(ts), LabelsOf(ts))
  }

  /** The snapshot does not depend on the order in which Go walks the map. */
  lemma OrderDoesNotMatter(xs: seq<Record>, ys: seq<Record>)
    requires multiset(xs) == multiset(ys)
    ensures SummaryOf(xs) == SummaryOf(ys)
  {
    SumPermutation(xs, ys, Indicator(Addressable));
    SumPermutation(xs, ys, Indicator(WithDeal));
    SumPermutation(xs, ys, Indicator(Known));
    SumPermutation(xs, ys, Where(Known, DealsAllTime));
    SumPermutation(xs, ys, Where(Known, DealsWithinDay));
    SumPermutation(xs, ys, Where(Known, DealsWithinWeek));
    SumPermutation(xs, ys, Indicator(MinPowered));
    SumPermutation(xs, ys, Indicator(Boost));
    SumPermutation(xs, ys, Where(Boost, QualityAdjPower));
    SumPermutation(xs, ys, Where(Boost, RawBytePower));
    BagPermutation(xs, ys, StatusLabel);
    BagPermutation(xs, ys, AgentLabel);
    BagPermutation(xs, ys, MarketLabels);
    BagPermutation(xs, ys, TransportLabels);
  }

  /** The participants known to the indexer are among those with deals, and so on outwards; every
      target has one status. */
  lemma SummaryLaws(ts: seq<Record>)
    ensures
      var s := SummaryOf(ts);
      && 0 <= s.participants.known <= s.participants.withDeal <= s.participants.addressable <= |ts|
      && 0 <= s.powers.boost <= s.powers.minPower <= |ts|
      && SumOver(s.labels.byStatus.Keys, k => if k in s.labels.byStatus then s.labels.byStatus[k] else 0) == |ts|
  {
    CountsNest(ts, Known, WithDeal);
    CountsNest(ts, WithDeal, Addressable);
    CountsNest(ts, Boost, MinPowered);
    SumBound(ts, Indicator(Addressable), 1);
    SumBound(ts, Indicator(MinPowered), 1);
    SumBound(ts, Indicator(Known), 1);
    SumBound(ts, Indicator(Boost), 1);
    var s := SummaryOf(ts);
    HistogramTotal(s.labels.byStatus.Keys, Bag(ts, StatusLabel), k => if k in s.labels.byStatus then s.labels.byStatus[k] else 0);
    OneStatusEach(ts);
  }

  lemma CountsNest(ts: seq<Record>, p: Record -> bool, q: Record -> bool)
    requires forall t :: p(t) ==> q(t)
    ensures CountWhere(ts, p) <= CountWhere(ts, q)
  {
    SumMonotone(ts, Indicator(p), Indicator(q));
  }

  lemma {:induction false} OneStatusEach(ts: seq<Record>)
    ensures |Bag(ts, StatusLabel)| == |ts|
  {
    if ts != [] {
      OneStatusEach(ts[..|ts| - 1]);
    }
  }

  /* ----- Unindexed targets, kept across snapshots ----- */

  function MergeUnindexed(m: map<string, Record>, ts: seq<Record>): map<string, Record> {
    if ts == [] then m
    else
      var before := MergeUnindexed(m, ts[..|ts| - 1]);
      var t := ts[|ts| - 1];
      if t.status == StatusUnindexed then before[t.id := t] else before
  }

  /** Every target is kept under its own identifier. */
  predicate KeyedById(targets: map<string, Record>) {
    forall id :: id in targets ==> targets[id].id == id
  }

  function Unindexed(targets: map<string, Record>): map<string, Record> {
    map id | id in targets && targets[id].status == StatusUnindexed :: targets[id]
  }

  /** An order in which to walk the map. */
  ghost predicate Enumerates(order: seq<string>, targets: map<string, Record>) {
    NoDuplicates(order) && forall id :: id in order <==> id in targets
  }

  function Values(order: seq<string>, targets: map<string, Record>): seq<Record>
    requires forall id :: id in order ==> id in targets
  {
    seq(|order|, i requires 0 <= i < |order| => targets[order[i]])
  }

  lemma {:induction false} ValuesPermutation(xs: seq<string>, ys: seq<string>, targets: map<string, Record>)
    requires multiset(xs) == multiset(ys)
    requires (forall id :: id in xs ==> id in targets) && (forall id :: id in ys ==> id in targets)
    ensures multiset(Values(xs, targets)) == multiset(Values(ys, targets))
    decreases |xs|
  {
    if xs == [] {
      assert |multiset(ys)| == 0;
    } else {
      var n := |xs| - 1;
      assert xs == xs[..n] + [xs[n]];
      var i, rest := TakeOne(xs[..n], xs[n], ys);
      ValuesPermutation(xs[..n], rest, targets);
      var a, b := Values(ys[..i], targets), Values(ys[i + 1..], targets);
      assert Values(xs, targets) == Values(xs[..n], targets) + [targets[xs[n]]];
      assert Values(ys, targets) == a + [targets[xs[n]]] + b;
      assert Values(rest, targets) == a + b;
    }
  }

  /** Any two walks over the same targets give one summary. */
  lemma AnyWalk(xs: seq<string>, ys: seq<string>, targets: map<string, Record>)
    requires Enumerates(xs, targets) && Enumerates(ys, targets)
    ensures SummaryOf(Values(xs, targets)) == SummaryOf(Values(ys, targets))
    ensures |xs| == |targets|
  {
    OrdersArePermutations(xs, ys);
    ValuesPermutation(xs, ys, targets);
    OrderDoesNotMatter(Values(xs, targets), Values(ys, targets));
    WalkLength(xs, targets.Keys);
  }

  lemma {:induction false} WalkLength(xs: seq<string>, keys: set<string>)
    requires NoDuplicates(xs) && forall k :: k in xs <==> k in keys
    ensures |xs| == |keys|
  {
    if xs == [] {
      assert keys == {};
    } else {
      var n := |xs| - 1;
      assert xs[n] in xs;
      forall k
        ensures k in xs[..n] <==> k in keys - {xs[n]}
      {
      }
      WalkLength(xs[..n], keys - {xs[n]});
    }
  }

  /** One snapshot puts exactly the currently unindexed targets over what was kept before. */
  lemma {:induction false} MergeIsUnion(m: map<string, Record>, order: seq<string>, targets: map<string, Record>)
    requires KeyedById(targets) && forall id :: id in order ==> id in targets
    ensures forall id :: At(MergeUnindexed(m, Values(order, targets)), id) ==
                         if id in order && id in Unindexed(targets) then Some(targets[id]) else At(m, id)
  {
    if order != [] {
      var n := |order| - 1;
      MergeIsUnion(m, order[..n], targets);
      assert Values(order, targets)[..n] == Values(order[..n], targets);
      assert forall id :: id in order <==> id in order[..n] || id == order[n];
    }
  }

  function At(m: map<string, Record>, id: string): Option<Record> {
    if id in m then Some(m[id]) else None
  }

  lemma SnapshotKeeps(m: map<string, Record>, order: seq<string>, targets: map<string, Record>)
    requires KeyedById(targets) && Enumerates(order, targets)
    ensures MergeUnindexed(m, Values(order, targets)) == m + Unindexed(targets)
  {
    MergeIsUnion(m, order, targets);
    var a, b := MergeUnindexed(m, Values(order, targets)), m + Unindexed(targets);
    forall id
      ensures At(a, id) == At(b, id)
    {
    }
    SameAt(a, b);
  }

  lemma SameAt(a: map<string, Record>, b: map<string, Record>)
    requires forall id :: At(a, id) == At(b, id)
    ensures a == b
  {
    assert forall id :: id in a <==> At(a, id).Some?;
    assert forall id :: id in b <==> At(b, id).Some?;
    assert forall id :: id in a ==> At(a, id) == Some(a[id]);
  }

  /** What is kept after a run of snapshots. */
  function KeptAfter(run: seq<map<string, Record>>): map<string, Record> {
    if run == [] then map[] else KeptAfter(run[..|run| - 1]) + Unindexed(run[|run| - 1])
  }

  predicate UnindexedIn(targets: map<string, Record>, id: string) {
    id in targets && targets[id].status == StatusUnindexed
  }

  /** It was unindexed at the k-th snapshot of the run, and at none behind it. */
  ghost predicate LastUnindexed(run: seq<map<string, Record>>, id: string, k: nat) {
    && k < |run| && UnindexedIn(run[k], id)
    && forall j :: k < j < |run| ==> !UnindexedIn(run[j], id)
  }

  /** Exactly the targets unindexed at some snapshot are kept, each as it was at the last such one;
      later changes of status never remove them. */
  lemma KeptMeaning(run: seq<map<string, Record>>, id: string)
    ensures id in KeptAfter(run) <==> exists k :: 0 <= k < |run| && id in run[k] && run[k][id].status == StatusUnindexed
    ensures forall k: nat :: LastUnindexed(run, id, k) ==> id in KeptAfter(run) && KeptAfter(run)[id] == run[k][id]
  {
    KeptIds(run, id);
    forall k: nat | LastUnindexed(run, id, k)
      ensures id in KeptAfter(run) && KeptAfter(run)[id] == run[k][id]
    {
      KeptLast(run, id, k);
    }
  }

  lemma {:induction false} KeptIds(run: seq<map<string, Record>>, id: string)
    ensures id in KeptAfter(run) <==> exists k :: 0 <= k < |run| && UnindexedIn(run[k], id)
  {
    if run != [] {
      var n := |run| - 1;
      KeptIds(run[..n], id);
      KeptStep(run, id);
      hide KeptAfter, UnindexedIn;
      assert forall k :: 0 <= k < n ==> run[..n][k] == run[k];
    }
  }

  lemma {:induction false} KeptLast(run: seq<map<string, Record>>, id: string, k: nat)
    requires LastUnindexed(run, id, k)
    ensures id in KeptAfter(run) && KeptAfter(run)[id] == run[k][id]
  {
    var n := |run| - 1;
    KeptStep(run, id);
    hide KeptAfter, UnindexedIn;
    if k < n {
      assert !UnindexedIn(run[n], id);
      assert run[..n][k] == run[k];
      KeptLast(run[..n], id, k);
    }
  }

  lemma KeptStep(run: seq<map<string, Record>>, id: string)
    requires run != []
    ensures
      var n := |run| - 1;
      if UnindexedIn(run[n], id) then id in KeptAfter(run) && KeptAfter(run)[id] == run[n][id]
      else (id in KeptAfter(run) <==> id in KeptAfter(run[..n])) &&
           (id in KeptAfter(run) ==> KeptAfter(run)[id] == KeptAfter(run[..n])[id])
  {
  }

  /* ----- The snapshot's loop ----- */

  const EMPTY: Summary := Summary(Participants(0, 0, 0, 0, 0, 0), Powers(0, 0, 0, 0), Labels(map[], map[], map[], map[]))

  ghost function Merge<K>(m: map<K, nat>, bag: multiset<K>): map<K, nat> {
    map k | k in m.Keys + (set j | j in bag) :: (if k in m then m[k] else 0) + bag[k]
  }

  lemma MergeHistogram<K>(a: multiset<K>, b: multiset<K>)
    ensures Merge(Histogram(a), b) == Histogram(a + b)
  {
  }

  lemma MergeNothing<K>(m: map<K, nat>)
    ensures Merge(m, multiset{}) == m
  {
  }

  /** Counting a label is merging it in; counting one label after others merges them all. */
  lemma MergeBump<K>(m: map<K, nat>, bag: multiset<K>, k: K)
    ensures Bump(Merge(m, bag), k) == Merge(m, bag + multiset{k})
  {
  }

  lemma CountStep(ts: seq<Record>, t: Record, p: Record -> bool)
    ensures CountWhere(ts + [t], p) == CountWhere(ts, p) + if p(t) then 1 else 0
  {
    SumStep(ts, t, Indicator(p));
  }

  lemma SumWhereStep(ts: seq<Record>, t: Record, p: Record -> bool, f: Record -> int)
    ensures SumWhere(ts + [t], p, f) == SumWhere(ts, p, f) + if p(t) then f(t) else 0
    ensures Wrap(SumWhere(ts + [t], p, f)) == Wrap(Wrap(SumWhere(ts, p, f)) + if p(t) then f(t) else 0)
  {
    SumStep(ts, t, Where(p, f));
    WrapAdd(SumWhere(ts, p, f), if p(t) then f(t) else 0);
  }

  lemma LabelsStep<K>(ts: seq<Record>, t: Record, f: Record -> multiset<K>)
    ensures Histogram(Bag(ts + [t], f)) == Merge(Histogram(Bag(ts, f)), f(t))
  {
    BagStep(ts, t, f);
    MergeHistogram(Bag(ts, f), f(t));
  }

  /** Status aside, what one more target changes in the counts of participants. */
  method CountParticipant(s: Participants, t: Record, ghost ts: seq<Record>) returns (r: Participants)
    requires s == ParticipantsOf(ts)
    ensures r == ParticipantsOf(ts + [t])
  {
    CountStep(ts, t, Addressable);
    CountStep(ts, t, WithDeal);
    CountStep(ts, t, Known);
    SumWhereStep(ts, t, Known, DealsAllTime);
    SumWhereStep(ts, t, Known, DealsWithinDay);
    SumWhereStep(ts, t, Known, DealsWithinWeek);
    hide CountWhere, SumWhere, Wrap;
    r := s;
    if t.addrInfo != None && t.addrInfo.value.peerId != "" && |t.addrInfo.value.addrs| > 0 {
      if t.dealCount > 0 {
        if t.knownByIndexer {
          r := r.(known := r.known + 1);
          r := r.(knownDeals := Wrap(r.knownDeals + t.dealCount));
          r := r.(knownDealsWithinDay := Wrap(r.knownDealsWithinDay + t.dealCountWithinDay));
          r := r.(knownDealsWithinWeek := Wrap(r.knownDealsWithinWeek + t.dealCountWithinWeek));
        }
        r := r.(withDeal := r.withDeal + 1);
      }
      r := r.(addressable := r.addressable + 1);
    }
  }

  /** Minimum power, and the powers of those that run Boost. */
  method CountPower(s: Powers, t: Record, ghost ts: seq<Record>) returns (r: Powers)
    requires s == PowersOf(ts)
    ensures r == PowersOf(ts + [t])
  {
    CountStep(ts, t, MinPowered);
    CountStep(ts, t, Boost);
    SumWhereStep(ts, t, Boost, QualityAdjPower);
    SumWhereStep(ts, t, Boost, RawBytePower);
    hide CountWhere, SumWhere, Wrap, ParseDecimal;
    r := s;
    if t.power != None && t.power.value.hasMinPower {
      r := r.(minPower := r.minPower + 1);
      var boost := SupportsProtocolID(t.protocols, MARKET_1_2_0);
      if boost {
        r := r.(boost := r.boost + 1);
        var qap := ParseDecimal(t.power.value.qualityAdjPower);
        if qap.Some? {
          r := r.(boostQualityAdjPower := r.boostQualityAdjPower + qap.value);
        }
        var rbp := ParseDecimal(t.power.value.rawBytePower);
        if rbp.Some? {
          r := r.(boostRawPower := r.boostRawPower + rbp.value);
        }
      }
    }
  }

  method CountMarket(m: map<string, nat>, t: Record, protocol: string, ghost m0: map<string, nat>, ghost bag: multiset<string>)
      returns (r: map<string, nat>)
    requires m == Merge(m0, bag)
    ensures r == Merge(m0, bag + Once(t, protocol))
  {
    r := m;
    var supported := SupportsProtocolID(t.protocols, protocol);
    if supported {
      MergeBump(m0, bag, protocol);
      r := Bump(r, protocol);
    } else {
      assert bag + multiset{} == bag;
    }
  }

  method CountMarkets(m: map<string, nat>, t: Record) returns (r: map<string, nat>)
    ensures r == Merge(m, MarketLabels(t))
  {
    MergeNothing(m);
    r := CountMarket(m, t, MARKET_1_0_1, m, multiset{});
    assert multiset{} + Once(t, MARKET_1_0_1) == Once(t, MARKET_1_0_1);
    r := CountMarket(r, t, MARKET_1_1_0, m, Once(t, MARKET_1_0_1));
    r := CountMarket(r, t, MARKET_1_1_1, m, Once(t, MARKET_1_0_1) + Once(t, MARKET_1_1_0));
    r := CountMarket(r, t, MARKET_1_2_0, m, Once(t, MARKET_1_0_1) + Once(t, MARKET_1_1_0) + Once(t, MARKET_1_1_1));
  }

  method CountTransports(m: map<string, nat>, t: Record) returns (r: map<string, nat>)
    ensures r == Merge(m, TransportLabels(t))
  {
    MergeNothing(m);
    r := m;
    if t.transports != None {
      var ps := t.transports.value;
      for i := 0 to |ps|
        invariant r == Merge(m, multiset(Names(ps)[..i]))
      {
        MergeBump(m, multiset(Names(ps)[..i]), ps[i].name);
        assert Names(ps)[..i + 1] == Names(ps)[..i] + [ps[i].name];
        r := Bump(r, ps[i].name);
      }
      assert Names(ps)[..|ps|] == Names(ps);
    }
  }

  /** Status, agent version, market protocols and transports. */
  method CountLabels(s: Labels, t: Record, ghost ts: seq<Record>) returns (r: Labels)
    requires s == LabelsOf(ts)
    ensures r == LabelsOf(ts + [t])
  {
    LabelsStep(ts, t, StatusLabel);
    LabelsStep(ts, t, AgentLabel);
    LabelsStep(ts, t, MarketLabels);
    LabelsStep(ts, t, TransportLabels);
    hide Bag, Histogram, MarketLabels, TransportLabels, Merge, Bump;
    MergeNothing(s.byStatus);
    MergeBump(s.byStatus, multiset{}, t.status);
    assert multiset{} + multiset{t.status} == multiset{t.status};
    r := s.(byStatus := Bump(s.byStatus, t.status));
    MergeNothing(s.byAgent);
    if t.agentShortVersion != "" {
      MergeBump(s.byAgent, multiset{}, t.agentShortVersion);
      assert multiset{} + multiset{t.agentShortVersion} == multiset{t.agentShortVersion};
      r := r.(byAgent := Bump(r.byAgent, t.agentShortVersion));
    }
    var market := CountMarkets(r.byMarket, t);
    r := r.(byMarket := market);
    var transport := CountTransports(r.byTransport, t);
    r := r.(byTransport := transport);
  }

  lemma MergeStep(m: map<string, Record>, ts: seq<Record>, t: Record)
    ensures MergeUnindexed(m, ts + [t]) ==
              if t.status == StatusUnindexed then MergeUnindexed(m, ts)[t.id := t] else MergeUnindexed(m, ts)
  {
    assert (ts + [t])[..|ts|] == ts;
  }

  lemma EmptySummary()
    ensures SummaryOf([]) == EMPTY
    ensures forall m :: MergeUnindexed(m, []) == m
  {
  }

  /** The quotients that a report gives, in exact arithmetic. */
  function Coverage(part: int, whole: int): real {
    if whole > 0 then part as real / whole as real else 0.0
  }

  /** A quotient lies between nought and one exactly when its whole, if there is one, holds its part. */
  lemma CoverageAtMostOne(part: int, whole: int)
    ensures if whole > 0 then Coverage(part, whole) * whole as real == part as real else Coverage(part, whole) == 0.0
    ensures 0.0 <= Coverage(part, whole) <= 1.0 <==> (whole > 0 ==> 0 <= part <= whole)
  {
    if whole > 0 {
      var q := Coverage(part, whole);
      assert q * whole as real == part as real;
      if 0.0 <= q <= 1.0 {
        assert 0.0 <= q * whole as real <= whole as real;
      } else if q < 0.0 {
        assert q * whole as real < 0.0;
      } else {
        assert (q - 1.0) * whole as real > 0.0;
      }
    }
  }

  /** Everything that a report observes. The powers come narrowed to int64. */
  datatype Report = Report(
    byStatus: map<Status, nat>, byAgent: map<string, nat>, byMarket: map<string, nat>, byTransport: map<string, nat>,
    participants: int64, knownParticipants: int, addressable: int, withDeal: int,
    deals: int64, knownDeals: int64,
    dealsWithinDay: int64, knownDealsWithinDay: int64,
    dealsWithinWeek: int64, knownDealsWithinWeek: int64,
    dealsCoverage: real, participantsCoverage: real,
    unindexed: map<string, (int64, int64, int64)>,
    boost: int, boostQualityAdjPower: int64, boostRawPower: int64, minPower: int)

  class Metrics {
    var countsByStatus: map<Status, nat>
    var countsByAgentShortVersion: map<string, nat>
    var countsByMarketProtocol: map<string, nat>
    var countsByTransportProtocol: map<string, nat>
    var totalParticipantCount: int64
    var totalDealCount: int64
    var totalDealCountWithinDay: int64
    var totalDealCountWithinWeek: int64
    var totalAddressableParticipants: int
    var totalAddressableParticipantsWithNonZeroDeals: int
    var totalParticipantsKnownByIndexer: int
    var totalDealCountByParticipantsKnownToIndexer: int64
    var totalDealCountWithinDayByParticipantsKnownToIndexer: int64
    var totalDealCountWithinWeekByParticipantsKnownToIndexer: int64
    var totalBoostParticipants: int
    var totalParticipantsWithMinPower: int
    var totalBoostQualityAdjustedPower: int
    var totalBoostRawPower: int
    var unindexedTargets: map<string, Record>

    constructor ()
      ensures Published() == EMPTY && unindexedTargets == map[]
      ensures totalDealCount == totalDealCountWithinDay == totalDealCountWithinWeek == totalParticipantCount == 0
    {
      countsByStatus, countsByAgentShortVersion := map[], map[];
      countsByMarketProtocol, countsByTransportProtocol := map[], map[];
      totalParticipantCount, totalDealCount, totalDealCountWithinDay, totalDealCountWithinWeek := 0, 0, 0, 0;
      totalAddressableParticipants, totalAddressableParticipantsWithNonZeroDeals := 0, 0;
      totalParticipantsKnownByIndexer, totalDealCountByParticipantsKnownToIndexer := 0, 0;
      totalDealCountWithinDayByParticipantsKnownToIndexer, totalDealCountWithinWeekByParticipantsKnownToIndexer := 0, 0;
      totalBoostParticipants, totalParticipantsWithMinPower := 0, 0;
      totalBoostQualityAdjustedPower, totalBoostRawPower := 0, 0;
      unindexedTargets := map[];
    }

    /** The snapshot as it stands in the fields. */
    function Published(): Summary
      reads this
    {
      Summary(
        Participants(
          totalAddressableParticipants, totalAddressableParticipantsWithNonZeroDeals, totalParticipantsKnownByIndexer,
          totalDealCountByParticipantsKnownToIndexer, totalDealCountWithinDayByParticipantsKnownToIndexer,
          totalDealCountWithinWeekByParticipantsKnownToIndexer),
        Powers(
          totalParticipantsWithMinPower, totalBoostParticipants, totalBoostQualityAdjustedPower, totalBoostRawPower),
        Labels(countsByStatus, countsByAgentShortVersion, countsByMarketProtocol, countsByTransportProtocol))
    }

    /** metrics.snapshot, walking the map in the given order. */
    method Snapshot(targets: map<string, Record>, order: seq<string>)
      requires Enumerates(order, targets)
      modifies this`countsByStatus, this`countsByAgentShortVersion, this`countsByMarketProtocol, this`countsByTransportProtocol,
        this`totalAddressableParticipants, this`totalAddressableParticipantsWithNonZeroDeals,
        this`totalParticipantsKnownByIndexer, this`totalDealCountByParticipantsKnownToIndexer,
        this`totalDealCountWithinDayByParticipantsKnownToIndexer, this`totalDealCountWithinWeekByParticipantsKnownToIndexer,
        this`totalBoostParticipants, this`totalParticipantsWithMinPower,
        this`totalBoostQualityAdjustedPower, this`totalBoostRawPower,
        this`unindexedTargets
      ensures Published() == SummaryOf(Values(order, targets))
      ensures unindexedTargets == MergeUnindexed(old(unindexedTargets), Values(order, targets))
    {
      assert forall i :: 0 <= i < |order| ==> order[i] in order;
      hide SummaryOf, MergeUnindexed, Values;
      var s := Tally(targets, order);
      Publish(s);
    }

    /** The stores at the end of snapshot. */
    method Publish(s: Summary)
      modifies this`countsByStatus, this`countsByAgentShortVersion, this`countsByMarketProtocol, this`countsByTransportProtocol,
        this`totalAddressableParticipants, this`totalAddressableParticipantsWithNonZeroDeals,
        this`totalParticipantsKnownByIndexer, this`totalDealCountByParticipantsKnownToIndexer,
        this`totalDealCountWithinDayByParticipantsKnownToIndexer, this`totalDealCountWithinWeekByParticipantsKnownToIndexer,
        this`totalBoostParticipants, this`totalParticipantsWithMinPower,
        this`totalBoostQualityAdjustedPower, this`totalBoostRawPower
      ensures Published() == s
    {
      PublishLabels(s.labels);
      PublishParticipants(s.participants);
      totalBoostParticipants := s.powers.boost;
      totalParticipantsWithMinPower := s.powers.minPower;
      totalBoostQualityAdjustedPower := s.powers.boostQualityAdjPower;
      totalBoostRawPower := s.powers.boostRawPower;
    }

    method PublishLabels(l: Labels)
      modifies this`countsByStatus, this`countsByAgentShortVersion, this`countsByMarketProtocol, this`countsByTransportProtocol
      ensures Labels(countsByStatus, countsByAgentShortVersion, countsByMarketProtocol, countsByTransportProtocol) == l
    {
      countsByStatus := l.byStatus;
      countsByAgentShortVersion := l.byAgent;
      countsByMarketProtocol := l.byMarket;
      countsByTransportProtocol := l.byTransport;
    }

    method PublishParticipants(p: Participants)
      modifies this`totalAddressableParticipants, this`totalAddressableParticipantsWithNonZeroDeals,
        this`totalParticipantsKnownByIndexer, this`totalDealCountByParticipantsKnownToIndexer,
        this`totalDealCountWithinDayByParticipantsKnownToIndexer, this`totalDealCountWithinWeekByParticipantsKnownToIndexer
      ensures Published().participants == p
    {
      totalAddressableParticipants := p.addressable;
      totalAddressableParticipantsWithNonZeroDeals := p.withDeal;
      totalParticipantsKnownByIndexer := p.known;
      totalDealCountByParticipantsKnownToIndexer := p.knownDeals;
      totalDealCountWithinDayByParticipantsKnownToIndexer := p.knownDealsWithinDay;
      totalDealCountWithinWeekByParticipantsKnownToIndexer := p.knownDealsWithinWeek;
    }

    /** The loop of snapshot: everything is counted in local variables, but unindexed targets are
        kept at once. */
    method Tally(targets: map<string, Record>, order: seq<string>) returns (s: Summary)
      requires forall i :: 0 <= i < |order| ==> order[i] in targets
      modifies this`unindexedTargets
      ensures s == SummaryOf(Values(order, targets))
      ensures unindexedTargets == MergeUnindexed(old(unindexedTargets), Values(order, targets))
    {
      EmptySummary();
      ghost var ts := Values(order, targets);
      assert |ts| == |order| && forall i :: 0 <= i < |order| ==> ts[i] == targets[order[i]];
      ghost var kept := unindexedTargets;
      hide ParticipantsOf, PowersOf, LabelsOf, MergeUnindexed, Values;
      var participants, powers, labels := EMPTY.participants, EMPTY.powers, EMPTY.labels;
      for i := 0 to |order|
        invariant participants == ParticipantsOf(ts[..i])
        invariant powers == PowersOf(ts[..i])
        invariant labels == LabelsOf(ts[..i])
        invariant unindexedTargets == MergeUnindexed(kept, ts[..i])
      {
        var t := targets[order[i]];
        PrefixStep(ts, i);
        MergeStep(kept, ts[..i], t);
        participants := CountParticipant(participants, t, ts[..i]);
        if t.status == StatusUnindexed {
          unindexedTargets := unindexedTargets[t.id := t];
        }
        powers := CountPower(powers, t, ts[..i]);
        labels := CountLabels(labels, t, ts[..i]);
      }
      assert ts[..|order|] == ts;
      s := Summary(participants, powers, labels);
    }

    /** reportAsyncMetrics, when no snapshot or refresh runs meanwhile: the histograms, the totals that a
        refresh or a listing notified, the ratios of the two, and the deals of every unindexed target
        kept. The powers are narrowed to int64, and come out right exactly when they fit. */
    method ReportAsyncMetrics() returns (r: Report)
      ensures
        var s := Published();
        && Labels(r.byStatus, r.byAgent, r.byMarket, r.byTransport) == s.labels
        && Participants(
             r.addressable, r.withDeal, r.knownParticipants, r.knownDeals, r.knownDealsWithinDay, r.knownDealsWithinWeek)
           == s.participants
        && r.boost == s.powers.boost && r.minPower == s.powers.minPower
        && (r.boostQualityAdjPower == s.powers.boostQualityAdjPower <==> Fits(s.powers.boostQualityAdjPower))
        && (r.boostRawPower == s.powers.boostRawPower <==> Fits(s.powers.boostRawPower))
        && r.dealsCoverage == Coverage(s.participants.knownDeals, totalDealCount)
        && r.participantsCoverage == Coverage(s.participants.known, s.participants.withDeal)
      ensures r.participants == totalParticipantCount && r.deals == totalDealCount
      ensures r.dealsWithinDay == totalDealCountWithinDay && r.dealsWithinWeek == totalDealCountWithinWeek
      ensures r.unindexed.Keys == unindexedTargets.Keys
      ensures forall id :: id in unindexedTargets ==>
                var t := unindexedTargets[id];
                r.unindexed[id] == (t.dealCount, t.dealCountWithinDay, t.dealCountWithinWeek)
    {
      var dc := 0.0;
      if totalDealCount > 0 {
        dc := totalDealCountByParticipantsKnownToIndexer as real / totalDealCount as real;
      }
      var pc := 0.0;
      if totalAddressableParticipantsWithNonZeroDeals > 0 {
        pc := totalParticipantsKnownByIndexer as real / totalAddressableParticipantsWithNonZeroDeals as real;
      }
      r := Report(
        countsByStatus, countsByAgentShortVersion, countsByMarketProtocol, countsByTransportProtocol,
        totalParticipantCount, totalParticipantsKnownByIndexer,
        totalAddressableParticipants, totalAddressableParticipantsWithNonZeroDeals,
        totalDealCount, totalDealCountByParticipantsKnownToIndexer,
        totalDealCountWithinDay, totalDealCountWithinDayByParticipantsKnownToIndexer,
        totalDealCountWithinWeek, totalDealCountWithinWeekByParticipantsKnownToIndexer,
        dc, pc,
        map id | id in unindexedTargets ::
          var t := unindexedTargets[id];
          (t.dealCount, t.dealCountWithinDay, t.dealCountWithinWeek),
        totalBoostParticipants, Wrap(totalBoostQualityAdjustedPower), Wrap(totalBoostRawPower),
        totalParticipantsWithMinPower);
    }

    method NotifyParticipantCount(c: int64)
      modifies this`totalParticipantCount
      ensures totalParticipantCount == c
    {
      totalParticipantCount := c;
    }

    method NotifyDealCount(c: int64)
      modifies this`totalDealCount
      ensures totalDealCount == c
    {
      totalDealCount := c;
    }

    method NotifyDealCountWithinWeek(c: int64)
      modifies this`totalDealCountWithinWeek
      ensures totalDealCountWithinWeek == c
    {
      totalDealCountWithinWeek := c;
    }

    method NotifyDealCountWithinDay(c: int64)
      modifies this`totalDealCountWithinDay
      ensures totalDealCountWithinDay == c
    {
      totalDealCountWithinDay := c;
    }
  }
}
