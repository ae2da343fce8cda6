# Baseline fleet: a verified model

A fleet of workers shares one queue of metric hashes (`forecast.retrain`), one table of fitted models
(`baselines.snapshots`), one heartbeat table and one migration ledger. Every worker scans a Druid datasource, decides which
hashes it owns, trains what is due, and publishes one forecast point per owned hash and minute. This project models that
logic in Dafny 4.11 and proves what it keeps over every run. `dafny verify dfyconfig.toml` checks all of it.

| file | what it models |
| --- | --- |
| `RetrainTable.dfy` | the queue's rows, each SQL statement as a function on them and as a method of a store |
| `LeaseProtocol.dfy`, `LeaseInvariant.dfy`, `LeaseTheorems.dfy` | any number of workers on the queue: claims, extensions, finishes, releases, retirements, crashes, lost answers, failed writes, operator edits; the invariant; what follows for every run |
| `RetrainWorker.dfy` | one worker's tick over the queue, its held claims, and the shutdown release |
| `LeaseRuns.dfy`, `TickRefinement.dfy`, `ReleaseRefinement.dfy` | that tick, and that release, as stretches of runs of the protocol |
| `RowHistory.dfy` | which rows the queue has after any run, and whose their fields are |
| `LostClaims.dfy` | a run in which a lost answer of a claim makes a release miscount |
| `PairHash.dfy`, `Rendezvous.dfy`, `Membership.dfy` | the 64-bit score, ownership under equal and differing views, the peer list, its fallback, the heartbeat table |
| `DruidWindows.dfy` | slicing a query into windows, and the stitched answers against the unsliced query |
| `SnapshotCache.dfy`, `PublishHorizon.dfy`, `Publisher.dfy` | the cached fits beside a store that others write, the point a tick publishes, the publish marks, and the tick's publishing as a class |
| `Liveness.dfy` | the scan cache, the ready set, retirement, and the configuration bounds both rest on |
| `MigrationProtocol.dfy`, `MigrationEngine.dfy`, `MigrationRefinement.dfy` | interleaved migrators under one lock, one call of the engine as a class, and that call as a stretch of a run |
| `Backoff.dfy`, `WorkLease.dfy` | doubling delays and the derived lease on wrapping 64-bit durations |
| `Names.dfy`, `Basics.dfy` | byte strings under Go's order, small shared types |

Time is an integer number of nanoseconds (of database ticks in the protocol); durations whose overflow matters are 64-bit
words that wrap. A statement sent to a database is acknowledged, takes effect with its answer lost, or fails without effect.
Where the code works step by step the model is a class or a loop, proved against a function; what the code promises is then
proved of the function, for every input or every run. The fencing token, the history of a run and the positions of a
timeline are bookkeeping of the proofs: no modelled operation reads them.

Where the documentation says more than the code does:

* `docs/ARCHITECTURE.md:279` says that a hash is stranded only by a peer that is in every view and not running. That is
  exact when all workers share one list (`StrandedUnderSharedList`, `StrandedIffListedGhost`). When their lists differ it
  is not: `StrandedByOneView` is a fleet where the peer is in one view only, and `StrandedNeedsGhost` what such a fleet
  always has.
* `store_postgres.go:461-466` says that a stale finisher cannot overwrite a newer claim. That holds of every finish and
  extension. A shutdown release can do so, and put an older count back, exactly when the newer claim is the same worker's
  own and its answer was lost (`WritesAreFenced`, `AttemptsAreFailures`); `StaleReleaseMiscounts` is a run in which it does.
* `config.go:333-346` says that a window of `HASH_SCAN_TTL + INTERVAL` never retires a metric that still reports. The scan
  bounds are cut down to milliseconds, so that holds except in the last fraction of a millisecond: `NeverDroppedExactly`
  gives the exact guard, `BoundsReach` what the bounds buy, and `GapIsReachable` and `LookbackGapIsReachable` instances.
  The `SCAN_RANGE` bound is checked only when the value is set: `DefaultScanRangeExactly` says when the default meets it.
* `config.go:437-444` says that the derived lease covers the work. For durations near the limit of 64 bits its sum wraps:
  `LeaseCoversRequests` says exactly when it is long enough, and `LeaseCanFallShort` shows one that is not.

## Model

| member | source | states |
|---|---|---|
| `RetrainTable.RetrainStore.Schedule` | store_postgres.go:362-383 | each key has a row, a new one enabled, due now and never run; every row that was there is as it was, schedule and all; no answer is an error |
| `RetrainTable.RetrainStore.SelectBatch` | store_postgres.go:417-429 | the batch is within the limit, of due unlocked fleet rows only, earliest first, and a due unlocked row is passed over only by a full batch of rows no later |
| `RetrainTable.RetrainStore.Claim` | store_postgres.go:412-449 | exactly the batch is leased to the owner, and the claims answered are those rows, each once, in whatever order, with their counts |
| `RetrainTable.LeaseLeaves` | store_postgres.go:430-434 | of the claimed rows only who claims them, and until when, is new, other rows are as they were, and each claim carries its row's schedule and count |
| `RetrainTable.RetrainStore.Extend` | store_postgres.go:495-508 | no row but the addressed one changes, and that only under its owner, whose lease then ends a lease from now; the caller learns whether it was the owner |
| `RetrainTable.RetrainStore.Done` | store_postgres.go:467-484 | no row but the addressed one changes, and that only under its owner: the whole row, its next and last run, its status, its count and no claim, the rest as it was; a lost claim is no error |
| `RetrainTable.RetrainStore.Retire` | store_postgres.go:292-319 | no fleet row of the keys is left, claimed or not, and every other row is as it was; the count is of rows that went, and none without an answer, which is an error |
| `RowHistory.RetireRemoves` | store_postgres.go:308-311 | over the steps of the fleet: an effective retirement leaves no fleet row of its keys and every other row equal |
| `RowHistory.ScheduleAdds` | store_postgres.go:356-383 | an effective insert leaves every existing row equal and adds a fresh one for each key without |
| `RowHistory.PresentExactly` | store_postgres.go:292-383 | in every run a row is in the table if and only if the last event that created or removed it created it |
| `RowHistory.OperatorOwnsSchedule` | store_postgres.go:356-361 | in every run no claim, extension, finish, release or insert changes a row's cron, time zone or switches |
| `LeaseProtocol.GuardIsFence` | store_postgres.go:471-507 | the owner string lets a claim write exactly when it is the row's open one, or when that one is the same worker's own with a lost answer; the second never happens to a claim that waits or runs |
| `LeaseInvariant.StepKeeps` | publisher.go:324-506 | every statement, with its answer or without, every crash, pool break and operator edit keeps the table's claims equal to its history, and every worker's memory equal to its answered claims |
| `LeaseInvariant.RunKeeps` | publisher.go:324-506 | the invariant in every state of every run |
| `LeaseTheorems.OpenClaimIff` | store_postgres.go:461-466 | the open claim is a claim of the row that nothing has closed or replaced since |
| `LeaseTheorems.WritesAreFenced` | store_postgres.go:461-508 | in every run a statement that changes anything was sent under the row's newest claim, if and only if it is not a release while the same worker's newer claim of the row went unanswered; no other row changes |
| `LeaseTheorems.StaleIsNoOp` | store_postgres.go:461-466 | a claim that was finished, replaced, or whose row was retired or re-created, writes nothing, if and only if it is not that exception |
| `LeaseTheorems.ExceptionNeedsLostClaim` | store_postgres.go:416-448 | the exception needs an earlier claim step of the same worker that took the row and lost its answer |
| `LeaseTheorems.CurrentIsHonoured` | store_postgres.go:467-508 | in every run a current claim is never turned away: its extension or outcome, with the right count, reaches the row |
| `LeaseTheorems.HeldCoverage` | publisher.go:349-378 | in every run a row under a live worker's name is in its held map with that very claim, if and only if this process made the claim and its answer arrived; the count is then the row's |
| `LeaseTheorems.NothingHeldNothingClaimed` | publisher.go:447-475 | a row under the name of a worker that holds nothing is from before its last start, or its claim went unanswered |
| `LeaseTheorems.ReleasedRowIsDue` | publisher.go:453-475 | a released row is unclaimed with the count of the claim, which is its own but for the exception, and due exactly when enabled, not superseded and the worker's clock is not ahead |
| `LeaseTheorems.ClaimCoverageExactly` | store_postgres.go:416-448 | after a claim statement its worker knows all its open claims if and only if it did not take rows and lose the answer, and knew those of the rows left alone |
| `LeaseTheorems.FailuresAreCounted` | store_postgres.go:456-459 | the running count of a history is the number of failed finishes since the last success or creation |
| `LeaseTheorems.CountKept` | publisher.go:404-418 | every step keeps a right count right, if and only if it is not a release that miscounts |
| `LeaseTheorems.AttemptsAreFailures` | publisher.go:404-418 | in every run a row's attempts have always been its failed finishes since its last success or creation, if and only if no release so far wrote an older count over an unanswered claim |
| `LostClaims.StaleReleaseMiscounts` | publisher.go:453-475 | a run from the start, for any two workers and any row, in which a release writes under a replaced claim and leaves a count of 0 with one failure standing |
| `LeaseTheorems.StepLeavesRow` | store_postgres.go:412-508 | only a step that acts on a row changes when it is due or who claims it |
| `LeaseTheorems.ClaimedRowIsPastDue` | store_postgres.go:416-435 | in every run a claimed row has a lease end and was due |
| `LeaseTheorems.NeverStranded` | store_postgres.go:402-435 | whoever crashed and whatever answers were lost, a claimed row nobody acts on is claimable exactly from the end of its lease, if enabled and not superseded |
| `LeaseTheorems.UnclaimedBecomesClaimable` | store_postgres.go:416-425 | an unclaimed fleet row is claimable exactly from the time it is due, if enabled and not superseded |
| `LeaseTheorems.ClaimReachesRow` | store_postgres.go:417-429 | an unlocked claimable row is taken whenever fewer such rows than the limit are due no later |
| `LeaseTheorems.CrashedRowIsReached` | store_postgres.go:402-435 | in every run, once the lease of a row nobody acted on has run out, any worker's claim takes it over unless it is locked or a full batch is due no later |
| `LeaseTheorems.ExclusiveTraining` | publisher.go:388-403 | under an extended lease the row carries that very claim if and only if it was not retired or deleted meanwhile |
| `LeaseTheorems.AtMostOneTrainer` | publisher.go:382-403 | two workers never train one hash under unexpired leases unless the row was removed under one of them |
| `RetrainWorker.RetrainWorker.TrainHash` | publisher.go:388-420 | a lost claim changes nothing; otherwise the row has its schedule's next run, success and no failure, or its first error, one failure more and the delay, and nothing else of it or of another row changes; the claim is forgotten only when the outcome was acknowledged |
| `RetrainWorker.TrainOneIs` | publisher.go:388-420 | the same of the function the pool and the tick are proved against |
| `RetrainWorker.RecordedRowWaits` | publisher.go:404-418 | a recorded row is due exactly from its next run: a trained one not before its schedule says, a failed one not before the smaller of base * 2^attempts and the cap has passed |
| `RetrainWorker.RetrainWorker.TrainClaims` | publisher.go:356-378 | the pool trains exactly the claims before the first refused slot |
| `RetrainWorker.RetrainWorker.Retrain` | publisher.go:336-380 | a tick claims a batch, holds all of it and trains what gets a slot; claims stay covered unless the claim's answer was lost |
| `RetrainWorker.RetrainWorker.ReleaseHeld` | publisher.go:453-475 | for any held claims and any rows: exactly the rows of held claims that are still owned are handed back, the whole row given, with the claims' counts; exactly the claims without an acknowledgement stay held; other rows are as they were |
| `RetrainWorker.Granted` | publisher.go:356-362 | the slots before the first refusal |
| `RetrainWorker.TrainFirstCovers` | publisher.go:344-378 | training any prefix of the claims, with any answers, keeps the worker's rows covered |
| `RetrainWorker.TrainFirstFrame` | publisher.go:388-420 | rows and held claims of other keys are left alone |
| `RetrainWorker.TrainedRowIs` | publisher.go:404-419 | each trained claim's row ends with its own outcome whatever the other claims did |
| `RetrainWorker.TickCovers` | publisher.go:336-380 | a whole tick keeps every row under the worker's name held with its count |
| `RetrainWorker.HoldAllHolds` | publisher.go:349-355 | holding a batch before any slot is taken covers every row it leased |
| `RetrainWorker.AllReleased` | publisher.go:453-475 | which rows are still under the name after a release, whether or not all of them were held; none but by a failed write when they were |
| `RetrainWorker.TickNames` | publisher.go:349-380 | whatever the answers, a tick holds claims of fleet rows under their own keys: what a release needs |
| `TickRefinement.TickIsARun` | publisher.go:336-380 | from any state of the fleet and for any order of the answer, the table and the held claims a worker's tick computes are those that a stretch of protocol steps leads to, so what holds of every run holds of the code |
| `TickRefinement.TrainOneRuns` | publisher.go:388-420 | training one claim is an extension and, unless the claim moved on, a finish with the right outcome, next run and count |
| `LeaseRuns.Extends` | publisher.go:324-380 | such a stretch continues any run of the protocol |
| `ReleaseRefinement.ReleaseIsARun` | publisher.go:453-475 | so is the release at shutdown, in any order of the held claims |
| `ReleaseRefinement.ShutdownHandsBack` | publisher.go:447-475 | after any run a shutdown hands back each held row under the name, due by the worker's clock, with its own count unless its newest claim went unanswered; with every answer, a row still under the name is from an earlier life or went unanswered |
| `TickRefinement.TakenIsHeld` | publisher.go:353-355 | holding each claim of a batch in turn is taking its rows at once |
| `PairHash.PairHash` | shard.go:41-46 | the streamed score is the mixed FNV-1a of the joined string |
| `PairHash.Fnv1a` | shard.go:29-35 | the loop computes the recursive FNV-1a from any state |
| `PairHash.StreamedIsJoined` | shard.go:37-46 | hashing the three parts in turn is hashing `hash\|peer` |
| `PairHash.FnvStepBijective` | shard.go:30-33 | each FNV-1a step has an inverse on both sides |
| `PairHash.MixBijective` | shard.go:49-56 | the finalizer has an inverse on both sides |
| `PairHash.FnvInjectiveInState` | shard.go:29-35 | equal suffixes keep different states apart |
| `PairHash.OneByteApartNeverTies` | shard.go:37-46 | equal-length peers that differ in one byte never tie, for any hash |
| `Rendezvous.Owner` | shard.go:59-72 | the loop finds the running best of the list |
| `Rendezvous.OwnerIsTop` | shard.go:58-72 | that is the one peer that outranks every other |
| `Rendezvous.OwnerIsHighest` | shard.go:58-72 | the owner has the highest score and is the bytewise first of those that share it |
| `Rendezvous.SinglePeerOwnsAll` | shard.go:74-80 | with one peer or none a worker owns everything, and otherwise what the owner rule gives it |
| `Rendezvous.OwnsIff` | shard.go:75-80 | a worker in its own view owns a hash exactly when it outranks everyone else there |
| `Rendezvous.MinimalMovement` | shard.go:59-72 | an owner over a set stays the owner over every part that keeps it |
| `Rendezvous.OwnerDependsOnSet` | shard.go:59-72 | order and repetition of the list do not matter |
| `Rendezvous.AddingMovesOnlyToNew` | shard.go:59-72 | adding a peer moves hashes only onto it |
| `Rendezvous.CoverageUnderDisagreement` | shard.go:74-80 | with views of running peers only, the best running worker publishes, however the views differ |
| `Rendezvous.EqualViewsExclusive` | shard.go:74-80 | equal views never give two publishers |
| `Rendezvous.ExactlyOnePublisher` | shard.go:74-104 | when every view is the running set, a worker publishes exactly if it is the best |
| `Rendezvous.StrandedNeedsGhost` | shard.go:16-21 | a stranded hash means that the best running worker's view has a peer that is not running and outranks it |
| `Rendezvous.StrandedUnderSharedList` | docs/ARCHITECTURE.md:279 | with one shared list a hash is stranded if and only if the best of the listed and the running is not running, and then that peer is in every view and owns the hash in each |
| `Rendezvous.StrandedIffListedGhost` | docs/ARCHITECTURE.md:279 | with one shared list the documented condition is exact: a peer in every view that is not running and outranks every running worker |
| `Rendezvous.StrandedExactly` | shard.go:59-80 | for any views, a hash is stranded exactly when every running worker is outranked in its own view |
| `Rendezvous.StrandedByOneView` | docs/ARCHITECTURE.md:279 | when the lists differ the documented condition is not needed: a fleet stranded by a peer in one view only |
| `Membership.NormalizePeers` | shard.go:84-104 | the loop collects each trimmed non-empty peer once, and this worker, and sorts |
| `Membership.NormalizedPeersAre` | shard.go:82-104 | the list is ascending, free of repetition, and holds exactly the listed peers and this worker |
| `Membership.TrimIs` | shard.go:88 | white space goes at both ends and nowhere else |
| `Membership.PeerSource.Peers` | membership.go:70-99 | in every mode the answer is determined by the configuration and the last good lookup, or is this worker alone; the warning follows the latest lookup |
| `Membership.PeerSource.Keep` | membership.go:104-122 | a failed lookup, or an empty DNS answer, keeps the last good set |
| `Membership.PeersAre` | membership.go:70-99 | a fixed list is used, name by name, with this worker; a worker that runs alone has only itself |
| `Membership.PeersAfterLookup` | membership.go:84-122 | one lookup more: an answer replaces the peers, but for an empty one from DNS; a failure leaves them |
| `Membership.PeersFollowLatestGood` | membership.go:88-122 | the peers are those of the latest good lookup with this worker, and exactly this worker before the first |
| `Membership.EqualSetsEqualLists` | shard.go:82-104 | workers with equal peer sets have equal lists |
| `Membership.PeersAlwaysUsable` | membership.go:69-122 | over any history of lookups the peers are ascending and contain this worker |
| `Membership.HeartbeatTable.Heartbeat` | store_postgres.go:321-334 | one row per worker carries its latest beat |
| `Membership.HeartbeatTable.Peers` | store_postgres.go:336-354 | exactly the workers seen within the time to live, each once |
| `Membership.ListedIffBeating` | store_postgres.go:336-354 | a worker is listed exactly while some beat of it is young enough |
| `Membership.HeartbeatTakeover` | membership.go:84-95 | when the beats tell the live from the stopped, each worker's own read gives the same list, of exactly the live set, and each hash has exactly one live owner |
| `DruidWindows.Windows` | druid.go:113-133 | the slices tile the range, each non-empty, at most the maximum long, all but the last full; too many are refused |
| `DruidWindows.CountIsExact` | druid.go:86-102 | the announced count is the number of slices while the span does not saturate |
| `DruidWindows.RefusedExactly` | druid.go:109-122 | a query is refused exactly when its span, as far as a duration reaches, is longer than the allowed number of windows |
| `DruidWindows.QuerySplits` | druid.go:104-108 | adjacent windows return each row of the range once, in order |
| `DruidWindows.Series` | druid.go:139-191 | the stitched series, or its refusal, is that of one request for the whole range |
| `DruidWindows.SeriesIs` | druid.go:139-191 | in time order, a point for every readable row between the millisecond bounds, missing values included, and no other; refused exactly when two of those rows have one time |
| `DruidWindows.GroupByUnique` | druid.go:206-209 | a GROUP BY reply is determined up to order |
| `DruidWindows.MergeReply` | druid.go:215-243 | one reply folds into the spans so far through the index, unusable rows skipped |
| `DruidWindows.WindowMerges` | druid.go:204-243 | folding in a window's reply extends every hash's span and the index to the window's end |
| `DruidWindows.Hashes` | druid.go:193-249 | the merged spans are one GROUP BY over the whole range, each hash once with its true minimum and maximum |
| `DruidWindows.ReplyIsGroupBy` | druid.go:215-230 | the rows that are kept of a reply are the usable ones, one for each hash of its window |
| `DruidWindows.GroupByIs` | druid.go:193-209 | in the sightings alone: a span for each named hash sighted between the millisecond bounds, with its first and its last sighting |
| `SnapshotCache.SkipIsExact` | publisher.go:719-721 | a key is skipped only when its cached content is the store's at the freshness query |
| `SnapshotCache.CurrentExactly` | store_postgres.go:125-136 | the store has the last write of a key that nothing followed |
| `SnapshotCache.RefreshKeysLeave` | publisher.go:713-739 | an answered freshness query drops what the store does not have, and keeps what is not asked for, has the store's label, or cannot be read |
| `SnapshotCache.RefreshLeaves` | publisher.go:697-733 | a query that fails or is not due changes nothing; one that is answered starts the period anew |
| `SnapshotCache.FitSurvivesOutage` | publisher.go:690-711 | over any run a fit of a hash that stays ready survives any number of failed queries unchanged |
| `SnapshotCache.RefreshKeySettles` | publisher.go:713-739 | one turn of the loop makes its key current unless its read fails, and spoils no other |
| `SnapshotCache.RefreshSettles` | publisher.go:713-739 | a refresh leaves every key whose read works as the store had it at one moment of the refresh |
| `SnapshotCache.NeverOlderThanLabel` | publisher.go:697-771 | over any run of ticks, with writes and deletions between the two reads and failures of either, no cached content is older than its label |
| `SnapshotCache.RefreshIsCurrent` | publisher.go:697-740 | after any run a refresh leaves no stale and no deleted fit under a key whose read works |
| `SnapshotCache.QuietRefreshIsExact` | publisher.go:697-740 | with no write to a key during the refresh the cache has exactly the store's row |
| `SnapshotCache.NewKeyWaits` | publisher.go:704-706 | a key that becomes ready inside the refresh period is not loaded |
| `PublishHorizon.RangeIsGrid` | publisher.go:592-598 | the range forecast has exactly the grid points of the closed range |
| `PublishHorizon.HorizonIs` | publisher.go:553 | the horizon is the minute the tick is in and the configured minutes on |
| `PublishHorizon.LastOfIs` | publisher.go:736 | a snapshot's last point is its stored millisecond |
| `PublishHorizon.PublishesExactly` | publisher.go:586-629 | a point goes to publish exactly when the horizon is a step past the last point and the value is a number; it is the greatest grid point not after the horizon |
| `PublishHorizon.MinuteByMinute` | publisher.go:547-629 | ticks a minute apart on one snapshot publish points a minute apart |
| `PublishHorizon.MarkedExactly` | publisher.go:676-688 | over every history a point is turned away for its mark if and only if an accepted point of the hash, at least as new, has been followed by no tick that dropped the hash |
| `PublishHorizon.AcceptedIncrease` | publisher.go:676-688 | points of a hash that the sink accepted strictly increase while it stays ready, across refits |
| `PublishHorizon.RefusedCanRetry` | publisher.go:682-687 | a point the sink refused leaves no mark |
| `PublishHorizon.PrunedCanRepeat` | publisher.go:766-770 | after any history a tick that drops a hash lets every point of it go out again |
| `Publisher.Publisher.PruneFits` | publisher.go:748-771 | exactly the fits and the marks of the ready hashes stay, as they were |
| `Publisher.Publisher.RefreshSnapshots` | publisher.go:697-740 | the loop computes the refresh the cache theorems are about; a query that fails or is not due leaves fits and period as they were |
| `Publisher.Publisher.EmitSnapshot` | publisher.go:586-629 | one attempt at the chosen point, or none; true exactly if the sink took a newer point |
| `Publisher.Publisher.Publish` | publisher.go:676-688 | accepted exactly if newer than the mark and taken by the sink; the mark moves then and only then |
| `Publisher.Publisher.PublishReady` | publisher.go:552-580 | the attempts are those of the owned, alive hashes up to the cancellation, and the count is of accepted points |
| `Publisher.Publisher.Emit` | publisher.go:547-581 | prune, refresh, publish: the cache, the marks and the count after a tick |
| `Publisher.AcceptedSinceIs` | publisher.go:576-578 | the count of a tick is the number of its accepted attempts |
| `Publisher.TriesAreReady` | publisher.go:552-580 | a tick tries only owned, alive hashes, each at the greatest grid point not after the horizon |
| `Publisher.ReadyIsMarked` | publisher.go:552-580 | with a working sink every hash that may publish is marked at its point or a newer one |
| `Liveness.OwnedSpans` | publisher.go:828-834 | one ownership decision per span, equal to `Owns` |
| `Liveness.ReadyKeys` | publisher.go:855-863 | exactly the owned and alive hashes |
| `Liveness.RetiredAre` | publisher.go:865-884 | a row is retired exactly if its hash is not alive in the scan |
| `Liveness.RetiredKeys` | publisher.go:871-884 | the two loops compute that list, in table order |
| `Liveness.RetiredInOrder` | publisher.go:868-870 | retired keys keep the order of the table |
| `Liveness.ReadyIsNotRetired` | publisher.go:193-207 | no key is scheduled or published and retired in one tick |
| `Liveness.ReadySetsPartition` | publisher.go:828-863 | workers that share scan, configuration, clock and peers: an alive hash is ready at exactly the best of them, another hash at none |
| `Liveness.ReportingIsAlive` | config.go:274-283 | a metric with a point in every interval is alive at every tick in reach of its scan |
| `Liveness.NeverDroppedExactly` | config.go:333-346 | for every validated configuration, scan and tick: every reporting metric is alive if and only if the tick is in reach, a condition on the bounds and the two clocks |
| `Liveness.BoundsReach` | config.go:333-346 | what the validated bounds buy: in reach up to a millisecond before `HASH_SCAN_TTL`, and up to it for whole-millisecond scans, if the scan clock or the lookback is a whole number of milliseconds |
| `Liveness.GapIsReachable` | config.go:333-346 | a valid configuration and a tick inside `HASH_SCAN_TTL` that is out of reach |
| `Liveness.LookbackGapIsReachable` | config.go:274-283 | a valid configuration, with a fraction of a millisecond in its lookback, that is out of reach at once |
| `Liveness.DefaultScanRangeExactly` | config.go:389-392 | the default scan range meets the bound exactly when two intervals fit beside the lookback |
| `Liveness.DefaultScanRangeCanFail` | config.go:274-283 | a configuration that passes the check and then violates the bound |
| `Liveness.Scanner.Scan` | publisher.go:215-231 | a fresh scan is reused, a good answer replaces it, a failed one keeps it |
| `Liveness.YoungScanIsReused` | publisher.go:216-218 | a good scan younger than its time to live is left alone |
| `Liveness.OldScanIsReplaced` | publisher.go:219-230 | an older one, or none, is replaced by an answer and by nothing else |
| `Liveness.GoodScanSurvives` | publisher.go:221-227 | a good scan survives any number of failed refreshes |
| `Liveness.Scanner.Retire` | publisher.go:257-281 | a key is handed to the store if and only if retirement is on, the scan is good, not empty and young, the key was read from the table, and the scan has no live span of it |
| `Liveness.RunRetiresExactly` | publisher.go:257-281 | over any run, whatever was answered: an empty, missing or expired scan retires nothing, another one exactly the rows without a live span |
| `Liveness.EmptyScanRetiresNothing` | publisher.go:250-263 | after an empty answer nothing is retired until another answer comes |
| `Liveness.CacheIsSomeScan` | publisher.go:211-231 | over any run the cached spans are the whole answer of one scan |
| `Liveness.ReportingIsNeverRetired` | publisher.go:215-281 | over any run of ticks, failed refreshes included, a metric that keeps reporting is not retired in reach of a scan |
| `MigrationProtocol.StepKeeps` | migrations.go:145-244 | every step of every migrator keeps the ledger exact, each version committed once, in order, and each migrator's list its own acknowledged commits |
| `MigrationProtocol.CommittedOnce` | migrations.go:211-244 | over any interleaving no version is committed twice, and the ledger is what it began with and what was committed |
| `MigrationProtocol.LedgerStaysPrefix` | migrations.go:137-144 | a ledger that began as a prefix of the known versions stays one, through every failure |
| `MigrationProtocol.NewIsReportedOnce` | migrations.go:172-185 | each new version is on exactly one list of applied versions, or on none after a lost commit answer; nothing else is on one |
| `MigrationProtocol.LostCommitFails` | migrations.go:239-243 | a lost commit answer ends its migrator |
| `MigrationProtocol.FinishedIsComplete` | migrations.go:176-186 | a run without an error leaves every known version in the ledger |
| `MigrationProtocol.CheckedStaysMissing` | migrations.go:209-231 | what the re-check under the lock found missing is missing until that migrator commits it |
| `MigrationEngine.Database.ApplyOne` | migrations.go:211-244 | committed if missing at the lock, skipped if there, untouched on failure |
| `MigrationEngine.Database.ApplyPending` | migrations.go:176-186 | applied is exactly what nobody else had committed at its turn, in order, up to the first error |
| `MigrationEngine.Database.Survey` | migrations.go:150-170 | unknown, pending and already partition what the ledger and the binary know |
| `MigrationEngine.Database.ApplyMigrations` | migrations.go:145-187 | the whole result and the ledger after it, dry run, failed read and partial run included, with all versions in bytewise order; no error means every version is in |
| `Names.LessIff` | migrations.go:151 | the order is bytewise: two versions agree up to a place at which one ends or has the smaller byte |
| `Names.AscendingIff` | migrations.go:151 | a sorted list is one in that order |
| `MigrationEngine.AllThrough` | migrations.go:176-186 | with every transaction through, everything pending is in the ledger, whoever put it there |
| `MigrationRefinement.TxIsSteps` | migrations.go:211-244 | one transaction, whatever comes of it, is taking the lock, the re-check, and a commit or a roll-back |
| `MigrationRefinement.CallIsARun` | migrations.go:145-187 | any call, between any steps of other migrators, is a run of the protocol in which the ledger and the list of applied versions are those the engine computes |
| `Backoff.RetryDelay` | config.go:467-482 | on wrapping words the loop gives min(base * 2^(n-1), max) for every attempt |
| `Backoff.RetryBackoff` | druid.go:328-334 | the shift gives min(250ms * 2^(n-1), 2s) for every attempt, however far it shifts |
| `Backoff.ShiftNeverSlipsThrough` | druid.go:329-330 | past the cap a shifted word is never a short positive delay |
| `Backoff.CappedMonotone` | config.go:461-466 | delays grow with the attempt, stay positive and stay within the cap |
| `WorkLease.SlotsAreSlices` | config.go:445-452 | the derived count is the number of requests the lookback is sliced into, if and only if its sum fits in 64 bits or one request is enough; otherwise it is one |
| `WorkLease.LeaseCoversRequests` | config.go:437-459 | the derived lease covers a full timeout per request and a minute, if and only if that is a duration and the count is exact or the retry base is long enough; it always covers the retry base |
| `WorkLease.LeaseCanFallShort` | config.go:448 | durations near the limit of 64 bits for which the lease is a minute too short |

## Left out

- RetrainWorker.RetrainWorker.Retrain: runs the pool's goroutines one after the other and with the database clock standing
  still; their interleavings with each other and with other workers are steps of `LeaseProtocol`. The schedule insert that
  precedes the claim is `RetrainStore.Schedule`.
- LeaseTheorems.ExclusiveTraining: a snapshot write has no guard of its own, and the fit's deadline starts after the
  extension returns, so it may trail the lease; the statement is about the time the lease runs.
- RetrainTable.RetrainStore.Retire: the models deleted in the same transaction are deletions of the `SnapshotCache`
  timeline; the two tables are not one state.
- Membership.NormalizePeers: spaces are the ASCII ones, not the Unicode ones.
- DruidWindows.Series: the datasource does not change between the requests of one query; so for `Hashes`.
- Publisher.Publisher.RefreshSnapshots: the flags that keep a warning to once per streak are not modelled; they only
  decide whether a line is logged.
- Publisher.Publisher.PruneFits: nor is their pruning.
- Publisher.Publisher.PublishReady: publishing without a store (`fitForecast`) is not modelled.
- Publisher.Publisher.Emit: takes the ready keys and the ownership decisions as `Liveness.ReadyKeys` and
  `Liveness.OwnedSpans` compute them, and does not compute them itself; without a store, as above.
- PublishHorizon.RangeIsGrid: the forecasting library is its grid, its values and the library's closed range; fitting and
  restoring are not part of this model.
- Liveness.DefaultScanRangeExactly: sums and doubles of configured durations do not wrap.
- Liveness.ReportingIsAlive: the datasource keeps whole milliseconds, as its bounds are sent.
- Rows that the plugin or an operator writes are limited to inserting a fresh row, editing cron, timezone, enabled and
  superseded, and deleting; edits of claims or of the next run are not admitted.
- Worker identities are distinct, trimmed and not empty, and the ticks of one worker do not overlap.
- The snapshot sweep and its TTL checks, the rest of `Validate`, and the cron library.
- Choosing the membership mode, the DNS mode without a name, and the fallback identity of a worker.
- HTTP, JSON, gzip, Kafka, connection handling, the semaphore and the rate limiter, and the text of errors: each is an
  outcome that succeeds or fails.
- Parsing of migration file names and of the ledger read; the SQL of a migration is one commit or one rollback.
