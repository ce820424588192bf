/** What each target adds to a snapshot's summary, in terms of the record's own fields. A summary of
    nothing is empty, and each target more changes it as said here. */
module MetricsAccount {
  import opened Wrappers
  import opened Int64
  import opened Folds
  import opened Targets
  import opened Metrics

  function One(counted: bool): int {
    if counted then 1 else 0
  }

  lemma NothingFromNothing()
    ensures SummaryOf([]) == Summary(Participants(0, 0, 0, 0, 0, 0), Powers(0, 0, 0, 0), Labels(map[], map[], map[], map[]))
  {
    EmptySummary();
  }

  /** Participants: those with an identifier and an address; with a deal besides; known to the indexer
      besides, whose deals are added up in 64 bits. */
  lemma ParticipantAdds(ts: seq<Record>, t: Record)
    ensures
      var (before, after) := (SummaryOf(ts).participants, SummaryOf(ts + [t]).participants);
      var addressable := t.addrInfo.Some? && t.addrInfo.value.peerId != "" && |t.addrInfo.value.addrs| > 0;
      var known := addressable && t.dealCount > 0 && t.knownByIndexer;
      && after.addressable == before.addressable + One(addressable)
      && after.withDeal == before.withDeal + One(addressable && t.dealCount > 0)
      && after.known == before.known + One(known)
      && after.knownDeals == (if known then Wrap(before.knownDeals + t.dealCount) else before.knownDeals)
      && after.knownDealsWithinDay ==
         (if known then Wrap(before.knownDealsWithinDay + t.dealCountWithinDay) else before.knownDealsWithinDay)
      && after.knownDealsWithinWeek ==
         (if known then Wrap(before.knownDealsWithinWeek + t.dealCountWithinWeek) else before.knownDealsWithinWeek)
  {
    ParticipantCounts(ts, t);
    ParticipantDeals(ts, t);
  }

  lemma ParticipantCounts(ts: seq<Record>, t: Record)
    ensures
      var (before, after) := (SummaryOf(ts).participants, SummaryOf(ts + [t]).participants);
      var addressable := t.addrInfo.Some? && t.addrInfo.value.peerId != "" && |t.addrInfo.value.addrs| > 0;
      && after.addressable == before.addressable + One(addressable)
      && after.withDeal == before.withDeal + One(addressable && t.dealCount > 0)
      && after.known == before.known + One(addressable && t.dealCount > 0 && t.knownByIndexer)
  {
    CountStep(ts, t, Addressable);
    CountStep(ts, t, WithDeal);
    CountStep(ts, t, Known);
    hide CountWhere, SumWhere, Wrap, PowersOf, LabelsOf;
  }

  lemma ParticipantDeals(ts: seq<Record>, t: Record)
    ensures
      var (before, after) := (SummaryOf(ts).participants, SummaryOf(ts + [t]).participants);
      var addressable := t.addrInfo.Some? && t.addrInfo.value.peerId != "" && |t.addrInfo.value.addrs| > 0;
      var known := addressable && t.dealCount > 0 && t.knownByIndexer;
      && after.knownDeals == (if known then Wrap(before.knownDeals + t.dealCount) else before.knownDeals)
      && after.knownDealsWithinDay ==
         (if known then Wrap(before.knownDealsWithinDay + t.dealCountWithinDay) else before.knownDealsWithinDay)
      && after.knownDealsWithinWeek ==
         (if known then Wrap(before.knownDealsWithinWeek + t.dealCountWithinWeek) else before.knownDealsWithinWeek)
  {
    SumWhereStep(ts, t, Known, DealsAllTime);
    SumWhereStep(ts, t, Known, DealsWithinDay);
    SumWhereStep(ts, t, Known, DealsWithinWeek);
    hide CountWhere, SumWhere, Wrap, PowersOf, LabelsOf;
  }

  /** Powers: those with minimum power; with Boost's protocol besides, whose decimal powers are added up. */
  lemma PowerAdds(ts: seq<Record>, t: Record)
    ensures
      var (before, after) := (SummaryOf(ts).powers, SummaryOf(ts + [t]).powers);
      var minPower := t.power.Some? && t.power.value.hasMinPower;
      var boost := minPower && "/fil/storage/mk/1.2.0" in t.protocols;
      && after.minPower == before.minPower + One(minPower)
      && after.boost == before.boost + One(boost)
      && after.boostQualityAdjPower ==
         before.boostQualityAdjPower + (if boost then ParseDecimal(t.power.value.qualityAdjPower).GetOr(0) else 0)
      && after.boostRawPower ==
         before.boostRawPower + (if boost then ParseDecimal(t.power.value.rawBytePower).GetOr(0) else 0)
  {
    CountStep(ts, t, MinPowered);
    CountStep(ts, t, Boost);
    SumWhereStep(ts, t, Boost, QualityAdjPower);
    SumWhereStep(ts, t, Boost, RawBytePower);
    hide CountWhere, SumWhere, ParseDecimal;
  }

  /** How often a histogram has the label. */
  function At<K>(m: map<K, nat>, k: K): nat {
    if k in m then m[k] else 0
  }

  /** A histogram has no label that it never counted. */
  ghost predicate Tight<K(!new)>(m: map<K, nat>) {
    forall k :: k in m ==> m[k] > 0
  }

  /** How many of the transports have the name. */
  function Named(ps: seq<Transport>, name: string): set<nat> {
    set i: nat | i < |ps| && ps[i].name == name
  }

  /** Labels: one for the status; one for the short agent version unless it is empty; one for each of the
      four market protocols that is supported; one for the name of each transport. */
  lemma LabelsAdd(ts: seq<Record>, t: Record, status: Status, name: string)
    ensures
      var (before, after) := (SummaryOf(ts).labels, SummaryOf(ts + [t]).labels);
      && At(after.byStatus, status) == At(before.byStatus, status) + One(t.status == status)
      && At(after.byAgent, name) == At(before.byAgent, name) + One(name != "" && t.agentShortVersion == name)
      && At(after.byMarket, name) == At(before.byMarket, name) +
           One(name in t.protocols &&
               name in {"/fil/storage/mk/1.0.1", "/fil/storage/mk/1.1.0", "/fil/storage/mk/1.1.1", "/fil/storage/mk/1.2.0"})
      && At(after.byTransport, name) == At(before.byTransport, name) +
           (if t.transports.Some? then |Named(t.transports.value, name)| else 0)
      && Tight(after.byStatus) && Tight(after.byAgent) && Tight(after.byMarket) && Tight(after.byTransport)
  {
    LabelAdds(ts, t, StatusLabel, status);
    LabelAdds(ts, t, AgentLabel, name);
    LabelAdds(ts, t, MarketLabels, name);
    LabelAdds(ts, t, TransportLabels, name);
    MarketsOnce(t, name);
    if t.transports.Some? {
      NamesCounted(t.transports.value, name);
    }
    hide Histogram, Bag, MarketLabels, Named, Names;
  }

  lemma LabelAdds<K(!new)>(ts: seq<Record>, t: Record, f: Record -> multiset<K>, k: K)
    ensures
      var (before, after) := (Histogram(Bag(ts, f)), Histogram(Bag(ts + [t], f)));
      At(after, k) == At(before, k) + f(t)[k] && Tight(after)
  {
    BagStep(ts, t, f);
    hide Bag;
  }

  lemma MarketsOnce(t: Record, name: string)
    ensures MarketLabels(t)[name] ==
              One(name in t.protocols &&
                  name in {"/fil/storage/mk/1.0.1", "/fil/storage/mk/1.1.0", "/fil/storage/mk/1.1.1", "/fil/storage/mk/1.2.0"})
  {
    assert MARKET_1_0_1[18] == '0' && MARKET_1_1_0[18] == '1' && MARKET_1_1_1[18] == '1' && MARKET_1_2_0[18] == '2';
    assert MARKET_1_0_1[20] == '1' && MARKET_1_1_0[20] == '0' && MARKET_1_1_1[20] == '1' && MARKET_1_2_0[20] == '0';
    assert Once(t, MARKET_1_0_1)[name] == One(name == MARKET_1_0_1 && name in t.protocols);
    assert Once(t, MARKET_1_1_0)[name] == One(name == MARKET_1_1_0 && name in t.protocols);
    assert Once(t, MARKET_1_1_1)[name] == One(name == MARKET_1_1_1 && name in t.protocols);
    assert Once(t, MARKET_1_2_0)[name] == One(name == MARKET_1_2_0 && name in t.protocols);
  }

  lemma {:induction false} NamesCounted(ps: seq<Transport>, name: string)
    ensures multiset(Names(ps))[name] == |Named(ps, name)|
  {
    if ps != [] {
      var n := |ps| - 1;
      NamesCounted(ps[..n], name);
      assert Names(ps) == Names(ps[..n]) + [ps[n].name];
      var last := Named(ps, name) - Named(ps[..n], name);
      assert Named(ps, name) == Named(ps[..n], name) + last;
      assert last == if ps[n].name == name then {n} else {};
    } else {
      assert Named(ps, name) == {};
    }
  }

  /* ----- Powers as texts ----- */

  predicate Digit(c: char) {
    '0' <= c <= '9'
  }

  /** An optional sign and at least one digit, and nothing else. */
  predicate IsDecimal(s: string) {
    var digits := if s != "" && (s[0] == '-' || s[0] == '+') then s[1..] else s;
    digits != "" && forall c :: c in digits ==> Digit(c)
  }

  lemma {:induction false} DigitsParse(s: string)
    ensures ParseDigits(s).Some? <==> s != "" && forall c :: c in s ==> Digit(c)
    ensures ParseDigits(s).Some? ==> ParseDigits(s).value >= 0
  {
    if s != [] {
      var n := |s| - 1;
      if n > 0 {
        DigitsParse(s[..n]);
      }
      assert forall c :: c in s <==> c in s[..n] || c == s[n];
      assert (forall c :: c in s ==> Digit(c)) <==> (forall c :: c in s[..n] ==> Digit(c)) && Digit(s[n]);
    }
  }

  /** A power counts exactly when its text is such a decimal. */
  lemma DecimalExactly(s: string)
    ensures ParseDecimal(s).Some? <==> IsDecimal(s)
  {
    DigitsParse(s);
    if s != "" {
      DigitsParse(s[1..]);
      hide ParseDigits;
      assert s[0] in s;
    }
  }

  lemma {:induction false} LeadingZeros(k: nat, s: string)
    requires ParseDigits(s).Some?
    ensures ParseDigits(seq(k, i => '0') + s) == ParseDigits(s)
    decreases |s|
  {
    var zeros: string := seq(k, i => '0');
    var n := |s| - 1;
    assert (zeros + s)[..|zeros + s| - 1] == zeros + s[..n];
    if n > 0 {
      LeadingZeros(k, s[..n]);
    } else {
      assert zeros + s[..n] == zeros;
      if k > 0 {
        OnlyZeros(k);
      }
    }
  }

  lemma {:induction false} OnlyZeros(k: nat)
    requires k > 0
    ensures ParseDigits(seq(k, i => '0')) == Some(0)
  {
    if k > 1 {
      OnlyZeros(k - 1);
      assert seq(k, i => '0')[..k - 1] == seq(k - 1, i => '0');
    }
  }

  /** And it counts as the number that it writes: the plain form of n, also behind zeros, a plus or a minus. */
  lemma DecimalValue(n: nat, zeros: nat)
    ensures
      var (text, m: int) := (seq(zeros, i => '0') + FormatDigits(n), n);
      ParseDecimal(text) == Some(m) && ParseDecimal("+" + text) == Some(m) && ParseDecimal("-" + text) == Some(-m)
  {
    var text := seq(zeros, i => '0') + FormatDigits(n);
    ParseFormatted(n);
    LeadingZeros(zeros, FormatDigits(n));
    assert ("+" + text)[1..] == text && ("-" + text)[1..] == text;
    hide ParseDigits;
  }

  /* ----- Whole snapshots ----- */

  /** With no target known to the indexer nothing is counted as known. */
  lemma {:induction false} NoneKnown(ts: seq<Record>)
    requires forall t :: t in ts ==> !t.knownByIndexer
    ensures
      var p := SummaryOf(ts).participants;
      p.known == p.knownDeals == p.knownDealsWithinDay == p.knownDealsWithinWeek == 0
  {
    if ts == [] {
      NothingFromNothing();
    } else {
      var n := |ts| - 1;
      assert ts == ts[..n] + [ts[n]];
      NoneKnown(ts[..n]);
      ParticipantAdds(ts[..n], ts[n]);
      hide SummaryOf;
    }
  }

  /** With all targets known, exactly those with an address and a deal are counted as known, with all of
      their deals. */
  lemma {:induction false} AllKnown(ts: seq<Record>)
    requires forall t :: t in ts ==> t.knownByIndexer
    ensures
      var p := SummaryOf(ts).participants;
      p.known == p.withDeal && p.knownDeals == Wrap(Sum(ts, DealsOfAddressable))
  {
    if ts == [] {
      NothingFromNothing();
    } else {
      var n := |ts| - 1;
      assert ts == ts[..n] + [ts[n]];
      AllKnown(ts[..n]);
      hide *;
      OneMoreKnown(ts[..n], ts[n]);
    }
  }

  lemma OneMoreKnown(ts: seq<Record>, t: Record)
    requires t.knownByIndexer
    requires
      var p := SummaryOf(ts).participants;
      p.known == p.withDeal && p.knownDeals == Wrap(Sum(ts, DealsOfAddressable))
    ensures
      var p := SummaryOf(ts + [t]).participants;
      p.known == p.withDeal && p.knownDeals == Wrap(Sum(ts + [t], DealsOfAddressable))
  {
    SumStep(ts, t, DealsOfAddressable);
    ParticipantAdds(ts, t);
    hide SummaryOf, Wrap, Sum;
    DealsAdded(SummaryOf(ts).participants.knownDeals, Sum(ts, DealsOfAddressable), DealsOfAddressable(t));
  }

  lemma DealsAdded(before: int64, deals: int, more: int)
    requires before == Wrap(deals)
    ensures Wrap(before + more) == Wrap(deals + more)
    ensures more == 0 ==> before == Wrap(deals + more)
  {
    WrapAdd(deals, more);
  }

  function DealsOfAddressable(t: Record): int {
    if t.addrInfo.Some? && t.addrInfo.value.peerId != "" && |t.addrInfo.value.addrs| > 0 && t.dealCount > 0 then t.dealCount
    else 0
  }
}
