# heyfil, verified

heyfil crawls the storage providers of Filecoin. It folds a stream of market deals into statistics per
provider, checks every provider through a pipeline of goroutines, keeps the results in memory and on disk,
reports metrics over them, and announces the heads of index providers. This project models that logic in
Dafny and proves what it keeps over every stream, every interleaving and every run. `dafny verify
dfyconfig.toml` checks all of it.

Answers from outside (the Filecoin node, hosts, the indexer, the file system's success or failure, the choice
of a `select`, the order in which Go walks a map) are arbitrary parameters. int64 arithmetic wraps explicitly
(`Int64.dfy`).

| files | what they model |
|---|---|
| `Deals`, `DealAccount`, `DealLaws`, `DealStats` | the statistics that `refresh` publishes: declaratively, deal by deal, their laws, and the loop itself |
| `JsonStream`, `JsonGrammar`, `SnapshotParser`, `Documents` | the streaming decoder, JSON values and their texts, the producer, and whole documents |
| `PagedLister`, `PagedProducer`, `PagedRefresh` | the paginated producer, whose messages point to one shared loop variable: its interleavings, its steps on real references, and the refresh that it feeds |
| `Targets`, `Statuses` | `Target.check`, a chain of nine stages, and what its results mean in the answers alone |
| `Pipeline`, `Capacity`, `Ordering`, `Overtaking`, `Rounds`, `Crawler` | dispatcher, checkers and handler as a step relation; how much they hold and how they stop; the order of results, kept and lost; a round under constant counts; the goroutines on shared fields |
| `Store`, `Recovery` | files of targets and recent pieces, restarts and crashes |
| `Metrics`, `MetricsAccount`, `SplitAtomics` | the snapshot's loop; what each target adds to it; the interleaving of its stores with a report's loads |
| `EndToEnd` | parser, refresh, checks and snapshot composed, up to a whole round from refresh to report |
| `Cbor`, `Announce`, `HeadPattern` | the announcement's bytes; the head protocol's pattern |
| `Folds`, `Int64`, `Wrappers` | sums, wrapping, `Option` and `Result` |

## Where the code does not do what it looks like

Each of these is proved, with the exact condition.

- A snapshot that ends right after an empty key (or after the separator behind it) is taken for complete: the
  test at `fil_client.go:303-308` asks the decoder for one more token, and `encoding/json` answers `io.EOF`
  at the end of the input however deep the nesting is. An array of alternating keys and deals that ends so
  passes too, because line 292 accepts any delimiter. `SnapshotParser.Acceptance` gives the accepted inputs,
  `AcceptanceExact` the condition, `TruncatedInputAccepted` two inputs. No proper prefix of a document with
  non-empty keys passes (`ProperPrefixFails`).
- Under Go 1.20 (`go.mod:3`) the pointer at `fil_client.go:218` leads to the range loop's one variable, so a
  consumer can see a deal up to two behind its key (`PagedLister.SlipBound`, `SlipReached`, `SlipExact`).
- With two checkers or more, rounds begun one after another from a drained state keep memory at the newest
  records on every schedule exactly when they list no miner twice between them (`Overtaking.OrderExactly`;
  `OneRoundExactly` and `TwoRoundsExactly` are the cases of one round and of two that may overlap).
- Elapsed epochs that leave int64 put an old deal into the day and the week, or a future one out of them
  (`DealLaws.PublishedExactly` says by how much the published entry is off, `NoOverflow` when it is not),
  and can bring a deal back into a window as the chain grows (`DealLaws.WindowNotAntitone`, with the exact
  condition in `WindowAntitone` and, for streams, `HeightAntitoneExactly`).
- The recent piece of a provider depends on the order of the stream exactly when its newest deals disagree
  about it (`DealLaws.LatestPermutation`).
- A torn read of the gauges can report a participant coverage above one unless the denominators of later
  snapshots hold every earlier numerator (`SplitAtomics.CoverageExact`).
- The optional slash of the head pattern eats the first of two slashes of a topic
  (`HeadPattern.TopicRecovered`).
- The repository's own README lists no status for providers without address information or peer identifier;
  the code has one for each, and the model follows the code.

## Model

| member | source | states |
|---|---|---|
| DealStats.DealStats.Refresh | fil_deal_stats.go:49-129 | The outcome is the first thing that stops the loop; only a clean end of the channel publishes, and then counts, totals, recent pieces and their file are the declarative ones of all deals received; on any error, cancellation or unfinished stream nothing changes |
| DealStats.DealStats.CountDeal | fil_deal_stats.go:96-117 | One more deal takes counts and totals from those of the stream so far to those of the stream with it, int64 wrapping included |
| DealStats.DealStats.NoteLatest | fil_deal_stats.go:118-126 | One more deal, counted or not, keeps the index of first newest pieces |
| DealStats.DealStats.Publish | fil_deal_stats.go:79-89 | Publication replaces the counts, stores the pieces and sets the three totals |
| DealStats.DealStats.GetDealCounts | fil_deal_stats.go:131-135 | Whatever refreshes went before, the filtered sums of the participant's own active deals in the last stream that was published; zeros if it has none |
| DealStats.DealsBefore | fil_deal_stats.go:73-96 | The deals received before the first select that gives something else |
| DealStats.EndExactly | fil_deal_stats.go:73-96 | How the loop ends by the first select that gives no deal, for each kind of select; the deals received are those of the selects before |
| DealAccount.ExcludedDealAddsNothing | fil_deal_stats.go:98-101 | A deal whose sector did not start, that was slashed or that has ended changes neither counts nor totals |
| DealAccount.CountedDealAdds | fil_deal_stats.go:102-116 | Every other deal adds one to the total, to the day's when fewer than 2880 epochs have elapsed in 64 bits, to the week's when fewer than 20160 |
| DealAccount.CountedDealEnters | fil_deal_stats.go:102-117 | And one to its provider's entry and its size to the bytes, by the same windows; no other entry changes |
| DealAccount.TotalsArePlaces | fil_deal_stats.go:98-102 | The total is the number of places in the stream with a deal that started, was not slashed and has not ended; a provider's count is that of its own |
| DealAccount.AllCounted | fil_deal_stats.go:98-102 | The total is the stream's length exactly when no deal of it is excluded |
| DealAccount.PieceOfFirstNewest | fil_deal_stats.go:118-126 | A provider's piece is that of the deal that starts later than all of its before and not earlier than any behind |
| Deals.LookupMeaning | fil_deal_stats.go:131-135 | A lookup in the published map is the filter-and-sum of the provider's active deals, present in the map or not |
| Deals.LatestIndex | fil_deal_stats.go:118-126 | The index of the provider's first deal with its greatest start, over all its deals |
| DealLaws.Conservation | fil_deal_stats.go:99-116 | The providers' counts add up to the published total, in every window: modulo 2^64 always, exactly while int64 can count the stream |
| DealLaws.WindowsNest | fil_deal_stats.go:102-116 | Day within week within all time, for the sums and for the published entry: counts while int64 can count the stream, bytes of non-negative pieces while their sum fits |
| DealLaws.PublishedExactly | fil_deal_stats.go:100-115 | For every stream and height the published entry is the mathematical sum, windows in unbounded integers, plus what int64 counts wrongly in and less what it counts wrongly out, modulo 2^64 |
| DealLaws.NoOverflow | fil_deal_stats.go:100-115 | At heights from zero, while stream length times largest piece fits, the entry is the mathematical one in deals exactly when no active deal of the provider has more elapsed epochs than int64 can count, and then in bytes; so always for starts from zero |
| DealLaws.PermutationInvariance | fil_deal_stats.go:67-117 | The published map and totals are the same for every order of the stream |
| DealLaws.LatestPermutation | fil_deal_stats.go:118-126 | Newest starts do not depend on the order; the pieces of every order agree exactly when each provider's newest deals share one |
| DealLaws.LatestPiece | fil_deal_stats.go:79-82 | The published pieces are those of first newest deals, one for every provider seen, a superset of the counted ones |
| DealLaws.WindowAntitone | fil_deal_stats.go:105-116 | For all heights, an active deal cannot enter a window as the chain grows exactly unless its elapsed epochs turn over int64; all time has no exception |
| DealLaws.WindowNotAntitone | fil_deal_stats.go:105-116 | An active deal that enters the day as the chain grows |
| DealLaws.HeightAntitone | fil_deal_stats.go:96-117 | Counts, totals, and bytes of non-negative pieces never grow with the height, in all time always and in a window when no active deal's elapsed epochs turn over at that window's limit |
| DealLaws.HeightAntitoneExactly | fil_deal_stats.go:96-117 | Of every part of a stream the law holds, window by window, exactly when that condition is met |
| JsonStream.ValueTokens | fil_client.go:259-285 | Wherever a value may stand, reading it token by token takes the same lexemes as decoding it whole, and leaves the decoder in the same state |
| JsonStream.ReadValueLocal | fil_client.go:278-285 | Reading a value depends on nothing behind the value |
| JsonGrammar.TextIsRead | fil_client.go:278-285 | The text of every JSON value, a text, a scalar, an array or an object of values, is read whole, whatever follows it |
| JsonGrammar.ValuesAreTexts | fil_client.go:278-285 | What counts as one value is exactly the text of some JSON value |
| Documents.DocumentAccepted | fil_client.go:287-316 | Over the text of any object of deals under non-empty keys the producer sends each deal under its key, in order, and no failure |
| SnapshotParser.StateMarketDealsViaS3Snapshot | fil_client.go:259-316 | The producer's loop sends exactly the stream of results that the laws below are about |
| SnapshotParser.KeyAtHead | fil_client.go:260-276 | Where the loop looks for a key it finds the text behind the due separator, or a closing brace of an object, and nothing else is one |
| SnapshotParser.Parses | fil_client.go:287-316 | Every run sends the results of good entries in order and at most one failure, last; a run without a failure is over a complete document or a text cut at an empty key |
| SnapshotParser.RunExactly | fil_client.go:287-316 | Every message over every input: the results of all good entries at the front of the text, then nothing at a proper end, else one failure under the key ahead; one failure alone over an input without a bracket in front |
| SnapshotParser.Accepts | fil_client.go:296-316 | Every complete document, and every such cut text, yields all its entries in order without a failure |
| SnapshotParser.Acceptance | fil_client.go:287-316 | The inputs accepted without an error are exactly those two kinds |
| SnapshotParser.AcceptanceExact | fil_client.go:303-308 | An accepted input is a complete document if and only if it does not end in an empty string |
| SnapshotParser.TruncatedInputAccepted | fil_client.go:292-308 | An array and a truncated object that are accepted |
| SnapshotParser.ProperPrefixFails | fil_client.go:287-316 | No proper prefix of a complete document is accepted, whether the reader ends or breaks |
| SnapshotParser.SilentEnd | fil_client.go:296-309 | The loop ends in silence exactly at a closing brace, or an empty key, with nothing behind |
| SnapshotParser.StreamEntries | fil_client.go:296-316 | Over the text of good entries the loop sends their results and goes on behind them |
| SnapshotParser.StreamParses | fil_client.go:296-316 | Whatever the loop sends was read off good entries at the front of its input |
| PagedLister.SlipBound | fil_client.go:215-220 | In every interleaving a read through the pointer of a page's i-th key sees the deal at some j of that page with i <= j <= min(i + 2, last) |
| PagedLister.SlipReached | fil_client.go:215-220 | Each such j is seen in some interleaving |
| PagedLister.SlipExact | fil_client.go:215-220 | Every read sees the key's own deal exactly when the next two deals of the page equal it |
| PagedLister.CopyIsExact | fil_client.go:215-220 | With a variable for each deal every read is exact |
| PagedLister.ListingComplete | fil_client.go:172-224 | Once the channel is closed and empty, the consumer has received every deal of every page before the first empty or failed one, each exactly once and in order, and one error behind them if that page failed |
| PagedLister.BeforeMeaning | fil_client.go:213-222 | The messages in front of a place of the listing are those of exactly the deals in front of it, each once |
| PagedLister.RunDelivers | fil_client.go:172-224 | In every reachable state what was received and what is on its way are together what was listed so far, in order |
| PagedProducer.Session.RequestPage | fil_client.go:185-213 | The request's step: an error, the end, or the page's loop |
| PagedProducer.Session.AssignVariable | fil_client.go:215 | The loop assigns its one cell, a new one for a new page, which every earlier message of the page points to |
| PagedProducer.Session.SetVariable | fil_client.go:215 | The assignment writes the one cell of the page, or a new one in the first turn, and leaves every other cell alone |
| PagedProducer.Session.SendDeal | fil_client.go:216-221 | The message carries the key and a reference to the loop's cell |
| PagedProducer.Session.ReceiveResult | fil_deal_stats.go:77 | The consumer's receive |
| PagedProducer.Session.ReadDeal | fil_deal_stats.go:96-124 | A read through the reference gives the deal at some j of the key's page with i <= j <= min(i + 2, last) |
| PagedRefresh.CountReadings | fil_deal_stats.go:96-117 | However torn the reads of the deals are, totals and counts are those of the deals put together from the reads, and the providers' counts add up to the totals in every window |
| PagedRefresh.TornConservation | fil_deal_stats.go:99-116 | Counts that agree with those of some stream in all but windowed bytes add up to that stream's total |
| PagedRefresh.PublishesWholeListings | fil_client.go:172-224 | A refresh over a listing publishes only when every page up to an empty one was to be had, and then over one deal for each one listed; a failed listing is never published |
| PagedLister.Invariant | fil_client.go:172-224 | Messages are consecutive, keys go with the pointers taken for them, and variables hold what the loop last assigned, in every reachable state |
| PagedLister.ReachDeal | fil_client.go:176-222 | Every deal behind non-empty pages gets its turn |
| Targets.Target.constructor | heyfil.go:142-144 | A new target has its identifier and zeros |
| Targets.Target.Check | target.go:60-192 | Every field of the record after a check: the verdict of the first stage to object, each answer asked for before it, nothing of later stages; the heads announced |
| Targets.Target.Resolve | target.go:70-123 | Deals, power and address, and the statuses that end the check there |
| Targets.Target.Contact | target.go:125-159 | Indexer, connection, protocols, agent and transports |
| Targets.Target.AnnounceHead | target.go:161-191 | Head protocol, topic, head and announcement |
| Targets.Target.FindTopic | target.go:161-168 | The loop stops at the first protocol that carries a topic |
| Targets.SupportsProtocolID | target.go:212-219 | True exactly when the protocol is listed |
| Targets.Passed | target.go:84-191 | The number of stages before the first to object |
| Targets.FirstHeadProtocol | target.go:161-168 | The first protocol that carries a topic, or none does |
| Targets.VerdictLaws | target.go:60-192 | The status is never unknown; there is an error exactly for the seven error statuses; OK exactly when a defined head was announced without error |
| Targets.ZeroBehindTheDecider | target.go:60-192 | Topic, head protocol and head stay zero when an earlier stage decides |
| Targets.FirstTopicSettles | target.go:161-176 | Topic and head protocol are those of the first match, even if a later protocol has the expected topic |
| Statuses.StatusExactly | target.go:84-191 | For each of the fifteen statuses and the error it comes with, the exact answers that give it |
| Statuses.FieldsExactly | target.go:60-176 | Every other field of the record, in terms of the answers: what was answered, if the check came to ask, and zero otherwise |
| Statuses.AnnouncedExactly | target.go:178-190 | Exactly the head that the host gave is announced, if it is defined |
| Pipeline.Conservation | heyfil.go:83-157 | In every reachable state the dispatched targets are those queued, held, offered, committed and, after a cancellation, dropped; at most 100 + N + 100 are in flight |
| Capacity.BoundIsExact | heyfil.go:46-51 | No more than 100 targets are queued, 100 offered and N held in any reachable state, and some reachable state has all of these |
| Capacity.BlocksAtHundred | heyfil.go:92-97 | The dispatcher blocks exactly at 100 queued targets, a checker with a result exactly at 100 offered ones |
| Capacity.CanShutDown | heyfil.go:93-95 | From every cancelled state dispatcher, handler and all checkers that hold a target can return, losing at most what is pending and held |
| Pipeline.NoDeadlock | heyfil.go:76-79 | With a checker and no cancellation work is possible exactly while there is any; without checkers it stops at a full queue |
| Pipeline.WorkCounts | heyfil.go:83-157 | Every step of work takes exactly one off the weighted measure |
| Pipeline.WorkLength | heyfil.go:83-157 | So does every run, which loses no listing and stays reachable |
| Pipeline.RoundDrains | heyfil.go:83-137 | A round of m miners is through after exactly 5 m steps in whatever order, with everything ever listed committed |
| Pipeline.DrainedIsCommitted | heyfil.go:112-132 | When nothing is under way, all that was listed is committed |
| Ordering.OneCheckerKeepsOrder | heyfil.go:146-156 | With one checker, in every reachable state, cancelled or not: committed, offered, held or dropped, and queued targets are the dispatched ones in order; results are committed in the order of finishing; memory shows the newest committed record; what was dispatched or is pending is listed in that order, with nothing missing before a cancellation |
| Ordering.DistinctMinersKeepOrder | heyfil.go:112-132 | With any number of checkers, from any drained state on, whatever the overlap of rounds, the schedule and the cancellations, memory keeps showing the newest committed records when the rounds list no miner twice |
| Ordering.DrainedRoundsKeepOrder | heyfil.go:112-132 | So it does for ever when rounds drain before the next begins and list no miner twice, cancelled or not |
| Overtaking.OrderExactly | heyfil.go:100-132 | With at least two checkers, rounds begun one after another from a drained state, overlapping or not, keep order on every schedule exactly when they together list no miner twice |
| Overtaking.OneRoundExactly | heyfil.go:92-98 | For one round: exactly when it lists no miner twice |
| Overtaking.TwoRoundsExactly | heyfil.go:100-109 | For two, the second begun at any point: exactly when they list no miner twice between them |
| Overtaking.OverlapLosesOrder | heyfil.go:100-109 | With at least two checkers any two rounds that share a miner can leave an older record in memory |
| Overtaking.DuplicateLosesOrder | heyfil.go:92-98 | So can any round that lists a miner twice |
| Crawler.Crawler.NothingLost | heyfil.go:83-157 | At any time the dispatched targets are those queued, held, offered, committed or dropped, and no more are in flight than channels and checkers hold |
| Crawler.Crawler.OneCheckerInOrder | heyfil.go:146-156 | At any time, with one checker, memory shows the newest committed records |
| Crawler.Crawler.RestartFinds | heyfil.go:58-60 | At any time while the stores succeed, a restart finds exactly the targets in memory |
| Crawler.Crawler.Drain | heyfil.go:83-157 | The goroutines run in any order until nothing is under way: after exactly as many steps as there was work, with everything listed committed, and everything finished meanwhile checked with the counts then published |
| Crawler.NewTargets | heyfil.go:92-98 | One target for each miner listed, in order |
| Crawler.Crawler.Finish | heyfil.go:149-153 | A check, run on a new target before the select, puts the record that the stages' verdict determines on offer |
| Crawler.Crawler.Commit | heyfil.go:126-132 | Memory and disk after the handler's commit; they stay in agreement while the stores go through |
| Rounds.QuietRoundRenewsAll | heyfil.go:83-137 | A round that lists every miner in memory and is drained while the published counts stay the same leaves every target in memory checked with them, on any schedule |
| Store.HeyFil.StoreTarget | store.go:11-22 | The directory after a store, for every way its calls can turn out, and whether it succeeded |
| Store.HeyFil.Commit | heyfil.go:126-132 | Memory follows whatever becomes of the store |
| Store.HeyFil.LoadTargets | store.go:23-56 | Memory after a walk in any order: readable records under their own identifiers |
| Store.HeyFil.StoreRecentPieces | store.go:60-77 | Memory follows only when everything is on disk |
| Store.HeyFil.LoadRecentPieces | store.go:79-103 | The pieces on disk when the file is there, opens and can be read; otherwise those in memory stay |
| Store.PiecesSurvive | store.go:60-103 | Recent pieces stored without error are found by a restart, whatever commits come between |
| Store.VisitLoads | store.go:33-55 | What each visit of the walk loads: the record of a `.json` file that opens and decodes, under its own identifier; nothing else |
| Store.CommitAgrees | heyfil.go:126-132 | A commit with a successful store keeps disk and memory in agreement |
| Store.PiecesAgree | store.go:60-77 | The recent pieces' file never disturbs that of a target |
| Store.RunAgrees | heyfil.go:121-136 | Agreement after any run of commits and recent pieces |
| Store.ReloadAgrees | store.go:23-56 | A restart rebuilds the targets of an agreeing directory, in whatever order it walks, and agrees again |
| Store.CrashConfined | store.go:11-22 | A crash inside a store leaves that target absent or new, and the others as they were |
| Store.LoadedKeyedById | store.go:42-51 | Loaded targets are kept under their own identifiers |
| Recovery.RestartFindsMemory | heyfil.go:58-60 | After any run of the pipeline whose stores succeeded, with any stores of recent pieces between its commits, a restart finds what was in memory |
| Recovery.RestartFindsPieces | store.go:60-103 | After any run the recent pieces last stored without error are on disk, through all commits behind |
| Metrics.Metrics.Snapshot | metrics.go:297-380 | Every gauge and histogram is the declarative count of the targets, and unindexed targets are merged into those kept |
| Metrics.Metrics.Tally | metrics.go:312-361 | The loop over the targets, for any order |
| Metrics.CountParticipant | metrics.go:313-325 | One more target in the counts of participants and of their deals |
| Metrics.CountPower | metrics.go:329-340 | One more target in the counts and sums of powers |
| Metrics.CountLabels | metrics.go:341-360 | One more target in the four histograms |
| Metrics.Metrics.ReportAsyncMetrics | metrics.go:231-294 | Every value observed: histograms and totals as last stored, the two ratios, the deals of each unindexed target kept; the narrowed powers are right exactly when the sums fit int64 |
| Metrics.Metrics.constructor | metrics.go:93-108 | All gauges at zero |
| Metrics.AnyWalk | metrics.go:312-361 | Any two walks over the same targets give one summary |
| Metrics.SummaryLaws | metrics.go:312-361 | Known <= with deals <= addressable <= all, Boost <= minimum power, and the statuses add up to the number of targets |
| MetricsAccount.ParticipantAdds | metrics.go:314-325 | What each target adds, by its own fields, to the counts of addressable participants, of those with deals, and of those known to the indexer and their deals |
| MetricsAccount.PowerAdds | metrics.go:329-340 | Likewise to the participants with minimum power, to those with Boost's protocol, and to their powers |
| MetricsAccount.LabelsAdd | metrics.go:313-360 | Likewise to each label of the four histograms |
| MetricsAccount.NoneKnown | metrics.go:314-325 | With no target known to the indexer nothing is counted as known |
| MetricsAccount.AllKnown | metrics.go:314-325 | With all known, those with an address and a deal are, with all of their deals |
| MetricsAccount.DecimalExactly | metrics.go:333-338 | A power counts exactly when it is an optional sign and at least one digit |
| MetricsAccount.DecimalValue | metrics.go:333-338 | And counts as the number it writes, also behind zeros or a sign |
| Metrics.SnapshotKeeps | metrics.go:326-328 | A snapshot puts exactly the currently unindexed targets over those kept |
| Metrics.KeptMeaning | metrics.go:326-328 | After any run of snapshots exactly the targets unindexed at some of them are kept, each as at the last such one |
| Metrics.DecimalRoundTrip | metrics.go:333-338 | Every decimal text of an integer is read back as that integer |
| Metrics.CoverageAtMostOne | metrics.go:271-281 | A ratio is that of part to positive whole and else nought, and within nought and one exactly when its whole, if positive, holds its part |
| SplitAtomics.LaterLoadIsNotOlder | metrics.go:248-250 | In every interleaving a gauge stored earlier and loaded later is from no older snapshot |
| SplitAtomics.CoverageHolds | metrics.go:277-281 | Participant coverage is at most one while denominators do not fall |
| SplitAtomics.AnyPairIsLoaded | metrics.go:370-372 | A report can pair the numerator of any snapshot with the denominator of any later one |
| SplitAtomics.CoverageExact | metrics.go:277-281 | Coverage is at most one in every interleaving exactly when every denominator holds all numerators up to it |
| EndToEnd.PublishesCleanRuns | fil_deal_stats.go:73-95 | Refresh publishes exactly over all of a clean run and its close |
| EndToEnd.PrefixIsNotPublished | fil_client.go:287-316 | No scheduling of refresh over a truncated document publishes |
| EndToEnd.PublishedIsParsed | fil_client.go:287-316 | What is published is over all entries of an accepted input |
| EndToEnd.RefreshThenRestart | fil_deal_stats.go:79-86 | After a refresh that published and stored, a restart finds the pieces of the deals received |
| EndToEnd.KnownDealsWithinTotal | metrics.go:312-325 | The known participants' deals are at most all deals, in every window, when all targets took their counts from the refresh that published the totals |
| EndToEnd.DealCoverageAtMostOne | metrics.go:271-275 | So the deal coverage is within nought and one |
| EndToEnd.RunRound | heyfil.go:83-137 | A round from drained to drained on the real objects: all of memory is checked with the published counts, and order is kept when no miner is listed twice |
| EndToEnd.QuietRoundReport | metrics.go:262-275 | Refresh, round, snapshot and report in turn: what is then reported of the known participants' deals is at most all deals, in every window, and the coverage at most one |
| Announcements.MarshalCBOR | announce.go:21-34 | The appending loops build the encoding of link, addresses and extra data |
| Announcements.AnnouncementRoundTrip | announce.go:21-34 | Every announcement comes back from its bytes, whatever follows them |
| Announcements.AnnouncementExact | announce.go:21-34 | Bytes that come back as an announcement are its bytes |
| Announcements.Layout | announce.go:21-34 | The fixed bytes: three items, tag 42 with a leading zero, one zero byte of extra data |
| Announcements.BytesExactly | announce.go:21-34 | Every byte of an announcement: heads by section 3 of RFC 8949 in each of their five widths, link, addresses and extra data |
| Cbor.RoundTrip | announce.go:33 | Every item of the subset decodes to itself, whatever follows it |
| Cbor.DecodeExact | announce.go:33 | Whatever decodes is the one encoding of what it decodes to |
| Cbor.HeadShortest | announce.go:33 | No head with room for the argument is shorter (section 4.2.1 of RFC 8949) |
| HeadPattern.MatchIsGreediest | options.go:66 | The backtracking matcher finds the lexicographically greediest parse, and fails only when there is none |
| HeadPattern.Find | fil_client.go:321-327 | The match found is the leftmost |
| HeadPattern.HeadParse | options.go:66 | Any parse of the pattern has the optional slash, the group's slash and a run without newline where it should |
| HeadPattern.HeadTexts | options.go:66 | And the fixed texts before and behind, with any character but a newline at the version's two dots |
| HeadPattern.HeadTextParses | options.go:66 | Conversely whatever reads so is a parse of the pattern |
| HeadPattern.TopicRecovered | fil_client.go:321-327 | A topic is read back from its protocol, whatever stands at the version's dots, exactly when it begins with a slash, has something behind it, no newline, and no second slash with more behind it, and no newline stands at the dots |

## Left out

- The network, JSON-RPC, libp2p, zstd, OpenTelemetry and logging: their results are parameters.
- Lexing of JSON text: the parser starts at lexemes, of which one may be junk; the decoder's limit on nesting depth is not modelled.
- The JSON encoding of targets: that a record survives its encoding, and that a cut encoding decodes to nothing or to the whole, is the explicit predicate `Store.Durable`.
- Identifiers with a slash, which name files elsewhere than in the store's own directory; the laws of `Store` and `Recovery` are about the others.
- PagedLister: the channel of `PagedLister` and `PagedProducer` is a sequence, and the goroutines' turns are taken by whoever calls the steps. What torn reads do to bytes of the day and the week and to recent pieces is not stated.
- Pipeline: the channels and goroutines are a step relation over values; `Crawler` has the bodies as methods on shared fields, each proved to be one step of it. The plain sends and receives (`Dispatch`, `Take`, `Put`, `Drop`, `Tick`) state just that.
- SplitAtomics: the gauges are a step relation over the numbers of the snapshots that stored them.
- Time: ticks may come at any point, and a check's time stamp is a counter.
- After a cancellation safety is stated, and that the goroutines can return; a checker that waits on an empty channel never does.
- The counters of a snapshot that are bounded by the number of targets in memory are mathematical integers; its sums of deals wrap. The ratios are exact reals.
- The shortening of agent versions, and the peer, address and CID syntaxes, are opaque.
- The API server, option setters, `hasPeerID` and the goroutine that repeats `refresh` would add only easy members.
