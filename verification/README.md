# Osmosis publisher: a verified model of the indexer

The publisher's indexer keeps an in-memory, write-through index of pool states and token prices, and computes
the dollar volume that a pool traded over look-back windows of 1, 4, 12 and 24 hours. This project models
that core in Dafny and proves what it promises. `dafny verify dfyconfig.toml` checks everything.

| file | what it models |
|---|---|
| `MachineInts.dfy`, `Types.dfy`, `Sorting.dfy` | Go's fixed-width integers, the shared values, and what a library sort is relied on for |
| `BlockClock.dfy` | height, block time and block rate; estimated block times; look-back height deltas |
| `PriceArrays.dfy`, `PriceEstimate.dfy`, `PriceIndex.dfy`, `PriceRestarts.dfy` | the price index: binary search, upsert, nearest neighbours, the shape of the estimate, reloading, and what a restart finds after a run of writes and prunes |
| `VolumeSweep.dfy`, `VolumePipeline.dfy`, `WindowSums.dfy`, `CoinValues.dfy` | the relative-volume pipeline: fetch, sort, sweep, and what comes out; the dollar values of coins |
| `Horizons.dfy`, `PoolsOfInterest.dfy`, `WorkedExample.dfy` | assembling the look-back snapshots, the published numbers end to end, and two worked instances |
| `PoolCache.dfy`, `SharedCache.dfy`, `Syncing.dfy`, `AtomicMax.dfy` | the pool cache, sequential and with concurrent readers, the producer/consumer/prune machine that fills it, and the compare-and-swap maximum |
| `EventBuffer.dfy`, `MempoolWatch.dfy` | the lossy event buffers with their shared counters, and the mempool watcher |

Objects whose methods update fields are classes, and each method is proved against a function of the old
state; the properties are then proved about those functions. Concurrent code is a state machine whose
steps are one atomic operation each, and its properties hold for every interleaving. `float64` is `real`,
`big.Int` is `int`, times and durations are `int` nanoseconds, and 64-bit wrap-around is written out
wherever the code converts or subtracts.

Where the code and its comments disagree the model follows the code:

- The sweep weights each volume difference with the mean of two prices, not with one price as the comment at
  `internal/indexer/volume.go:147` says.
- The estimate interpolates linearly between two prices; the comment at `internal/indexer/prices.go:89` calls
  it an average.
- The two price-error tests differ: the fetch loop compares the signed error, the valuation its absolute value.
  `TestsDisagree` says for exactly which times the outcomes differ.

Six expectations turned out false of the code, each with its exact condition, and with a witness where the
condition alone does not show one:

- Height 0 is taken for the current height wherever it is asked for, so nothing is ever cached under it
  (`HeightZeroIsNeverCached`, for every run), and a pass that drains without failures leaves its window
  complete if and only if the window does not start at 0 (`WindowCompleteIff`; `HeightZeroExample` is an
  instance).
- A prune bound leaves the window of the last pass alone if and only if the chain has at least one and a half
  windows of blocks and has advanced by at most half a window (`PruneSparesWindowIff`); on a shorter chain the
  bound wraps and empties the cache (`PruneWrapsOnShortChain`).
- A restart brings back the part of a token's prices that it asks for if and only if every entry of it was saved
  last as it was written last, and no successful price prune since has reached past it (`ReloadIsWindowIff`). A
  failed save is only logged; and the prune counts back at the running block rate, a restart always at the
  default 720, so over a run the prunes spare what the restart asks for if and only if each does at its own rate
  (`RunIsSparedIff`), as they do at moderate rates (`ModerateRunIsSpared`). `RestartLosesPrice` is a run from
  start-up that saves a price and comes up without it. It also takes that the token is priced in one base
  currency (`TwoBasesMayDiffer`).
- The price prune divides by the block rate without a guard, and a rate update yields 0 if and only if blocks
  took more than an hour on average (`ZeroRateIff`); the prune then panics (`PricePrunePanics`).
- The wrapping comparator is right for exactly the height differences that fit a signed 64-bit integer
  (`WrappedSignIff`, `WrappedSignFails`).
- The five snapshot heights strictly decrease if and only if the block counts of the horizons grow, which a
  block rate that falls between two fetches can break (`HeightsDecreaseIff`, `SlowingMayReverse`).

The look-back arithmetic, by contrast, is exact wherever it matters: `LookBackRoundTrip` gives the exact condition,
`LookBackIsExact` derives it for every look-back of two hours or more and for one hour at up to 1897366 blocks
an hour, and `LookBackOvershoots` is an input just above.

## Model

| member | source | states |
|---|---|---|
| PoolsOfInterest.HorizonsHoldWindowSums | internal/osmosis/subscriptions.pools.go:66-91 | For an assembly without failures, whose lookups the cache still holds and whose five heights are distinct and priced, one snapshot for each height comes out, newest first; the one for horizon n has its height, the volume found there, the dollar values of that volume, and the window sum from its height up to the requested one, at whatever rates the fetches saw |
| PoolsOfInterest.HorizonsInOrder | internal/osmosis/subscriptions.pools.go:66-91 | If the block counts grow from horizon to horizon, the n-th snapshot that comes out is horizon n's, field by field, and the first holds 0 |
| PoolsOfInterest.LookupsFillCache | internal/indexer/pool.go:160-192 | The cache does hold the lookups: each went through `getPool`, and no restart or prune came between |
| PoolsOfInterest.LookupIsAnswer | internal/indexer/pool.go:160-192 | What such a lookup returned are the chain's own liquidity and volume |
| PoolsOfInterest.HorizonIsHoursBack | internal/indexer/volume.go:217-234 | At the clock's own rate horizon n is dated at least its hours before the current block, and exactly that if and only if its hours times the hour's remainder by the rate are below the average block time |
| PoolsOfInterest.PublishedInOrder | internal/osmosis/subscriptions.pools.go:66-91 | What the whole method returns for a pool, if nothing failed and the block counts grow, is the status of the pool asked for, with the liquidity found at the requested height and the horizons' snapshots in their order, field by field |
| PoolsOfInterest.GetPoolsOfInterestStatuses | internal/osmosis/subscriptions.pools.go:66-91 | The assembly, failures notwithstanding, and then every pool's snapshots valued and swept; success exactly if no pool failed anywhere |
| PoolsOfInterest.CalculateVolumes | internal/indexer/volume.go:16-24 | Every pool of the list is valued and swept by itself, and nothing else of its status changes |
| WorkedExample.SteadyPublished | internal/osmosis/subscriptions.pools.go:66-91 | A worked instance that meets all premises: 720 blocks an hour, one unit of volume a block, price 2; the five published snapshots with their heights, volumes, dollar values and the sums 0, 1440, 5760, 17280 and 34560 |
| PoolsOfInterest.SumsInPlace | internal/indexer/volume.go:85-127 | Snapshots that go in newest first come out in the same places, each with its window sum and otherwise unchanged |
| WindowSums.SnapshotsHoldWindowSums | internal/indexer/volume.go:85-171 | After fetch, sort and sweep, snapshots with distinct cached and priced heights are newest first and each holds the trapezoid sum of its window, whatever the unstable sort does |
| WorkedExample.RisingPublished | internal/indexer/volume.go:85-171 | A worked instance: volumes 60 and 100 at heights 3 and 5, price 0.25 rising to 0.75, give the newer snapshot 0 and the older 20, in that order |
| WindowSums.OwnRecord | internal/indexer/volume.go:179-212 | A cached and priced height finds its own record in the sorted list, and the prefix sum there is the window sum, which is defined without lists or indices |
| WindowSums.SortedRecords | internal/indexer/volume.go:112-115 | Any sort of the fetched records gives the records of the window newest first |
| WindowSums.LastIsWindowSum | internal/indexer/volume.go:149-164 | Prefix sums over the sorted records are window sums over heights |
| WindowSums.TrapezoidRule | internal/indexer/volume.go:149-164 | In plain arithmetic: a height with a record below another adds the difference of their volumes times the mean of their prices, any other height nothing |
| WindowSums.DistinctCoinPoints | internal/indexer/volume.go:189-208 | With distinct denominations a pool state yields the record of the one coin that has the denomination if its estimate is accepted, and nothing otherwise |
| WindowSums.RelativeVolumesGrow | internal/indexer/volume.go:85-171 | With volume growing in height and non-negative prices: whenever the pipeline gives a snapshot a relative volume, whatever is missing from the cache, every snapshot before it in the list is at least as new and was given one that is no larger |
| WindowSums.RelativeVolumeIsWindowSum | internal/indexer/volume.go:85-171 | Whatever is missing from the cache, a relative volume the pipeline writes is the window sum from the newest snapshot down to the record that serves the snapshot |
| WindowSums.WrittenIff | internal/indexer/volume.go:149-168 | Exactly the first snapshot and those whose predecessor found a record of its own are given a relative volume, if there are records at all, and nothing else of any snapshot changes |
| WindowSums.NothingFetchedNothingChanges | internal/indexer/volume.go:103-110 | Without priced records of the base denomination the snapshots stay as they are, in their order |
| WindowSums.PrefixIsWindowSum | internal/indexer/volume.go:149-164 | The prefix sum at any sorted record is the window sum down to that record's height |
| WindowSums.RelativeVolumeBounds | internal/indexer/volume.go:85-171 | Every relative volume the pipeline writes, cached or not, lies between the lowest and the highest stored price times the volume between the newest record and the record that serves the snapshot; without records none is written |
| WindowSums.WindowSumBounds | internal/indexer/volume.go:131-171 | Any window sum lies between the lowest and the highest stored price times the volume traded between the window's oldest and newest record, and is zero without records |
| WindowSums.WindowSumGrows | internal/indexer/volume.go:131-171 | With non-negative prices a window sum never shrinks as the window reaches further back |
| WindowSums.DistinctDenomsGiveUniqueBase | internal/indexer/volume.go:189-208 | Cached states with distinct denominations give at most one record of the base denomination a height |
| WindowSums.RecordPriceWithin | internal/indexer/volume.go:194-206 | The price of every record lies within the stored prices of the base denomination |
| VolumeSweep.CalculateCumulatively | internal/indexer/volume.go:131-171 | On any input the sweep gives snapshot r the prefix sum at its greedy match; when records run out exactly the next snapshot gets the total and later ones are untouched |
| VolumeSweep.MatchesAreGreedy | internal/indexer/volume.go:149-168 | The matching the sweep computes meets the declarative one: after the previous match, the first record at or below the snapshot's height |
| VolumeSweep.MatchingIsUnique | internal/indexer/volume.go:149-168 | The declarative matching has one solution |
| VolumeSweep.MatchIsMax | internal/indexer/volume.go:155-158 | On descending records a match is the later of the record after the previous match and the first record at or below the height |
| VolumeSweep.MatchClosedForm | internal/indexer/volume.go:155-158 | Closed form of the match: the largest demand of this and all earlier snapshots |
| VolumeSweep.OwnRecordsIff | internal/indexer/volume.go:155-158 | Every snapshot is served by the first record at or below its height if and only if those records exist and strictly advance |
| VolumeSweep.MatchesAdvance | internal/indexer/volume.go:155-158 | No record serves two snapshots |
| VolumeSweep.SumBounds | internal/indexer/volume.go:149-164 | A prefix sum lies between lowest and highest price times the telescoped volume difference, and grows towards older records |
| VolumeSweep.SumsGrow | internal/indexer/volume.go:149-164 | With non-negative prices prefix sums never shrink along the records |
| VolumePipeline.Calculator.FetchVolumeValuesPerBlockRange | internal/indexer/volume.go:179-212 | For every denomination the map holds the priced records of the range in order, from the cache, the price index and the clock |
| VolumePipeline.Calculator.CalculateRelativeVolumeValue | internal/indexer/volume.go:85-127 | Nothing changes without snapshots or records; otherwise the snapshots are a sort of the old ones swept over a sort of the fetched records |
| VolumePipeline.Calculator.CalculateVolumeValueAt | internal/indexer/volume.go:47-68 | Every coin is valued at the estimate for the block's time, or at zero if the absolute error exceeds a day |
| CoinValues.ValuesAreValues | internal/indexer/volume.go:47-68 | In plain arithmetic, at every time: the amount times the stored price at a stored time, times the line between two prices at most a day apart, times the nearest price up to a day outside the stored range, and 0 otherwise |
| CoinValues.ValuesAreWithin | internal/indexer/volume.go:47-68 | A value that is not rejected lies between the amount times the lowest and times the highest stored price |
| VolumePipeline.Calculator.CalculatePoolVolumes | internal/indexer/volume.go:28-43 | Every snapshot is valued, then the relative volumes are computed on the valued snapshots |
| VolumePipeline.WrappedSignIff | internal/indexer/volume.go:113-119 | The sign of the wrapped difference is right for exactly the differences that fit a signed 64-bit integer |
| VolumePipeline.OldestIs | internal/indexer/volume.go:86-97 | The lower end of the range is exactly the lowest snapshot's height, but at most ten above the current one |
| VolumePipeline.WrappedSignFails | internal/indexer/volume.go:113-115 | Heights 2^63 apart compare the wrong way round |
| VolumePipeline.WrappingOrderAgrees | internal/indexer/volume.go:113-119 | Below 2^63 both comparators agree with descending height |
| PoolCache.PoolMap.Set | internal/indexer/pool.go:17-27 | The new table is the old one with this pool under its height and id |
| PoolCache.PoolMap.Has | internal/indexer/pool.go:29-41 | True exactly if the table has an entry for the height and id |
| PoolCache.PoolMap.Get | internal/indexer/pool.go:43-54 | The entry of the table, or none |
| PoolCache.PoolMap.Prune | internal/indexer/pool.go:56-67 | Removes exactly the heights below the bound, keeps the rest as they are, and reports how many it removed |
| PoolCache.Indexer.GetPool | internal/indexer/pool.go:160-192 | Result and new state for every outcome of the three foreign calls, among them memory written although the save fails |
| PoolCache.Indexer.PoolsPrune | internal/indexer/pool.go:109-113 | Memory loses exactly the heights below the bound, and so does the database unless its deletion fails, which is ignored |
| PoolCache.Indexer.PreHeatPools | internal/indexer/pool.go:83-107 | The rows of the range query enter the table, and the height follows the highest row |
| PoolCache.RunIsTransparent | internal/indexer/pool.go:160-192 | Over any run of lookups, failures, blocks, prunes and restarts every memory and database entry is what the chain answers |
| PoolCache.DatabaseRow | internal/indexer/pool.go:109-113 | After any run the database has exactly the rows that were saved, or there from the start, and that every prune since has spared |
| PoolCache.LookupIsTransparent | internal/indexer/pool.go:160-192 | After any run a lookup returns the chain's liquidity and volume for its height, the current one for 0; it succeeds if and only if the entry is in memory or its own three calls succeed, and otherwise says which failed |
| PoolCache.SuccessIsCached | internal/indexer/pool.go:160-192 | A successful lookup leaves its pool in memory, where it is still found after any steps that neither restart nor prune its height |
| PoolCache.OneFetchPerStay | internal/indexer/pool.go:160-192 | Fetches plus reloads plus initial presence equal evictions plus final presence, so there is at most one successful fetch per stay in memory |
| SharedCache.RunIsTransparent | internal/indexer/pool.go:160-192 | With any number of concurrent readers, and memory and database pruned by steps of their own, every entry in every reachable state is what the chain answers, and every reader that has succeeded holds what an uncached fetch would have returned |
| SharedCache.ReadersHoldAnswers | internal/indexer/pool.go:160-192 | From a cache that agrees with the chain every reader that has succeeded holds the chain's own liquidity and volume |
| SharedCache.UndisturbedIsSequential | internal/indexer/pool.go:160-192 | Run without interruption a reader's steps give the result and the cache of the sequential function, and change nothing else |
| SharedCache.BothMayFetch | internal/indexer/pool.go:164-185 | Two readers that both miss the cache before either has stored both fetch the same entry |
| PoolCache.PreheatKeepsHeight | internal/indexer/pool.go:83-107 | Preheating cannot move the current height |
| PoolCache.PreheatHeight | internal/indexer/pool.go:95-104 | Preheating raises the height to that of the highest row |
| AtomicMax.CompleteRunIsAtomicMax | internal/indexer/pool.go:69-80 | Linearizability: under every schedule there is an order with each thread once in which every returned value is the maximum before it, and the final value is the maximum of all |
| AtomicMax.RunInv | internal/indexer/pool.go:69-80 | The value never falls and the history stays linearizable in every reachable state |
| AtomicMax.RunKeepsArgs | internal/indexer/pool.go:69-80 | The order of effects only grows, so it respects real time |
| AtomicMax.FailuresAreOthersWins | internal/indexer/pool.go:76-78 | A thread has failed at most as often as other threads have succeeded |
| AtomicMax.StepUsesPotential | internal/indexer/pool.go:69-80 | Every step of every thread lowers a potential, whoever wins |
| AtomicMax.EveryRunEnds | internal/indexer/pool.go:69-80 | n threads take at most n(2n + 2) steps under every schedule |
| Syncing.StepKeepsInv | internal/indexer/syncing.go:12-95 | Every step keeps: the queue is strictly ascending and within capacity, and every scanned height of the pass is complete, queued, in flight, failed or pruned away |
| Syncing.RunKeepsInv | internal/indexer/syncing.go:12-95 | The same in every reachable state, with passes repeating while a height is in flight |
| Syncing.WorkIsPossible | internal/indexer/syncing.go:12-83 | Producer and consumer never block each other: until the pass is over and the queue is empty one of them can move |
| Syncing.StepUsesWork | internal/indexer/syncing.go:12-95 | Every step of the producer or the consumer other than starting a pass lowers a potential |
| Syncing.NoWorkIffAtRest | internal/indexer/syncing.go:12-95 | The potential is a natural number, and it is 0 exactly when the producer is idle, the queue empty and the consumer waiting |
| Syncing.PassEnds | internal/indexer/syncing.go:12-95 | Within a pass, whatever blocks arrive and other readers do, producer and consumer take no more steps than the work left |
| Syncing.WorkOfPass | internal/indexer/syncing.go:55-95 | A pass over a window of b heights for n pools takes at most b(3n + 4) + 2n + 5 further steps once its window is loaded, syncs included |
| Syncing.SettledHeight | internal/indexer/syncing.go:12-95 | Over every interleaving: with the queue empty and the consumer waiting, every scanned height above 0 whose sync did not fail is complete for every monitored pool or has been pruned away, whatever failed elsewhere and however short the chain |
| Syncing.SettledHeightIff | internal/indexer/pool.go:115-118 | Such a height, height 0 included, that no prune has reached is complete if and only if it is not 0 or no pool is monitored |
| Syncing.WindowCompleteIff | internal/indexer/syncing.go:55-83 | A pass that drained without failures, and into which no prune has reached, leaves its whole window complete if and only if the window does not start at height 0, that is, unless its size equals the chain's height at the start of the pass |
| Syncing.PassConverges | internal/indexer/syncing.go:12-95 | A pass in which producer and consumer have taken as many steps as there was work left is at rest, each height of its window above 0 that did not fail is complete or pruned away, and without failures and prunes the whole window is complete unless it starts at height 0 |
| Syncing.DrainedWindowIsComplete | internal/indexer/syncing.go:12-95 | Once a pass is drained without failures every height of its window above 0 is complete or pruned away, and complete if the chain is at least one and a half windows long and has advanced by at most half a window |
| Syncing.HeightZeroIsNeverCached | internal/indexer/pool.go:115-118 | In no reachable state is any pool cached at height 0, whoever looks it up: the height is complete if and only if no pool is monitored |
| Syncing.HeightZeroExample | internal/indexer/syncing.go:55-83 | An instance: a window down to height 0 is queued, synced and drained without failures, and height 0 is still missing |
| Syncing.QueueMissingHeights | internal/indexer/syncing.go:55-83 | One pass alone queues exactly the window heights that lack some monitored pool, each once, ascending, and nothing while others are queued |
| Syncing.RunKeepsBounds | internal/indexer/syncing.go:34-51 | In every reachable state each prune bound is at least one and a half windows below the chain's height |
| Syncing.PruneSparesWindowIff | internal/indexer/syncing.go:41-60 | A prune bound spares a pass's window if and only if the chain is at least one and a half windows long and has advanced by at most half the window since |
| Syncing.PruneRemovesExactly | internal/indexer/syncing.go:41-41 | On a chain of at least one and a half windows a prune removes exactly the heights below the height at which its bound was loaded less one and a half windows |
| Syncing.PruneWrapsOnShortChain | internal/indexer/syncing.go:41-42 | With fewer than one and a half windows of blocks the bound wraps and the prune empties the cache |
| PriceRestarts.PriceCutoffIsBehind | internal/indexer/prices.go:159-166 | Whether or not the height bound wrapped, the price cut-off lies before the anchor time by at least one and a half windows at the running rate |
| PriceRestarts.ReloadIsSparedIff | internal/indexer/prices.go:134-166 | One price prune leaves everything a restart at time now asks for if and only if the window at the default rate is no longer than the time since the anchor plus the pruned span at the running rate |
| PriceRestarts.RunIsSparedIff | internal/indexer/prices.go:134-166 | Over a whole run the largest successful cut-off spares that if and only if every successful prune does at its own rate |
| PriceRestarts.ModerateRunIsSpared | internal/indexer/prices.go:134-166 | They do if the run prunes at rates up to the default only, or up to 1080 for an even window |
| PriceRestarts.RestartFindsWindow | internal/indexer/prices.go:134-166 | If every save succeeded and every successful prune of the run spared what the restart asks for, the restart gives a token exactly the part of its array since then |
| PriceRestarts.RestartLosesEntry | internal/indexer/prices.go:134-166 | If a successful prune reached past an entry the restart asks for, and the entry was not saved again, the restart gives something else |
| PriceRestarts.RestartLosesPrice | internal/indexer/prices.go:134-166 | A run from start-up to rate 2000 in which a saved price at the time the restart asks from is gone after the restart |
| PriceRestarts.ReloadIsSpared | internal/indexer/prices.go:134-166 | That holds at every rate up to the default one, and for an even window up to 1080 blocks an hour |
| PriceRestarts.ReloadMissesPruned | internal/indexer/prices.go:134-166 | A run from start-up to rate 2000 with a window of 20000 blocks in which the prune has removed more than twelve hours of what a restart asks for |
| PriceRestarts.PricePrunePanics | internal/indexer/prices.go:159-163 | Every run in which 720 blocks take more than 720 hours makes the rate 0, and the price prune then divides by zero |
| Syncing.StepSupplies | internal/indexer/pool.go:185-186 | The number of missing pairs of a fixed window never rises, and drops by exactly one with each step that supplies a missing pair |
| Syncing.FetchedIsCached | internal/indexer/pool.go:185-189 | A fetched entry is in memory whether or not its save succeeds, and a failed save is reported |
| Syncing.SuppliedIsConserved | internal/indexer/syncing.go:12-95 | Over whole runs missing at the end plus supplied on the way equals missing at the start |
| PriceArrays.BinarySearch | internal/indexer/prices.go:42-46 | Finds the first entry at or after the target's time, and whether it has the same time |
| PriceArrays.UpsertIsMapUpdate | internal/indexer/prices.go:32-55 | Setting a price keeps the array strictly sorted and is an update of the map from time stamps to prices |
| PriceArrays.ViewIsCanonical | internal/indexer/prices.go:19-24 | A strictly sorted array is determined by the map it stands for |
| PriceArrays.NearestMeetsSpec | internal/indexer/prices.go:57-85 | The lookup returns the exact entry, the neighbours on both sides, or the closest end |
| PriceArrays.NearestIsUnique | internal/indexer/prices.go:57-85 | That linear specification has one answer |
| PriceArrays.SuffixLookup | internal/indexer/prices.go:57-85 | Dropping a time prefix leaves a lookup unchanged for exactly the times at or after the first kept entry |
| PriceEstimate.HitsStoredPoints | internal/indexer/prices.go:91-107 | The estimate hits every stored point with no error |
| PriceEstimate.OnSegment | internal/indexer/prices.go:98-106 | Between adjacent entries the estimate is the line through them |
| PriceEstimate.OutsideRange | internal/indexer/prices.go:96-97 | Outside the stored range the estimate is constant |
| PriceEstimate.StaysInRange | internal/indexer/prices.go:91-107 | The estimate never leaves the range of the stored values |
| PriceEstimate.SlopeBound | internal/indexer/prices.go:91-107 | A bound on all adjacent slopes bounds the estimate between any two times, across segments and extrapolations |
| PriceEstimate.LipschitzIffAdjacent | internal/indexer/prices.go:91-107 | The estimate is Lipschitz with a constant if and only if no adjacent slope exceeds it |
| PriceEstimate.MonotoneIffStored | internal/indexer/prices.go:91-107 | The estimate is non-decreasing in time if and only if the stored values are |
| PriceEstimate.TestsDisagree | internal/indexer/volume.go:60-63 | The signed and the absolute error test disagree for exactly the times more than a day before the first stored price |
| PriceEstimate.ErrorOutside | internal/indexer/prices.go:96-97 | Up to the first price and from the last one on the error is the signed distance to it |
| PriceEstimate.ErrorInside | internal/indexer/prices.go:98-105 | Strictly between two prices the error is the gap between them |
| PriceEstimate.ErrorWithoutPrices | internal/indexer/prices.go:94-95 | Without prices the estimate is 0 with an error of two days |
| PriceEstimate.AcceptedSignedIff | internal/indexer/volume.go:194-198 | The fetch accepts exactly the times up to a day after the last price, except inside gaps of more than a day |
| PriceEstimate.AcceptedAbsoluteIff | internal/indexer/volume.go:59-63 | The valuation accepts of these exactly the times from a day before the first price |
| PriceIndex.PriceMap.Set | internal/indexer/prices.go:32-55 | The index keeps sorted arrays with matching names and gains this price; no sort is ever needed |
| PriceIndex.PriceMap.Nearest | internal/indexer/prices.go:57-85 | Meets the linear specification of the nearest entries |
| PriceIndex.PriceMap.Estimate | internal/indexer/prices.go:91-107 | Price and time error of the token's array at that time |
| PriceIndex.PriceMap.SortToken | internal/indexer/prices.go:123-132 | Sorting a token's array changes nothing, whichever sort the library uses |
| PriceIndex.PriceMap.Sort | internal/indexer/prices.go:117-121 | Sorting the index changes nothing |
| PriceIndex.PriceMap.PreHeat | internal/indexer/prices.go:134-157 | Loading rows writes them one after the other |
| PriceIndex.LastWriteWins | internal/indexer/prices.go:32-55 | After any writes every entry is the last write under its name and time, or what was there before |
| PriceIndex.SameIndexIffSameLastWrites | internal/indexer/prices.go:32-55 | Two write histories build the same arrays if and only if they agree on every last write |
| PriceIndex.OrderOfArrivalIsIrrelevant | internal/indexer/prices.go:32-55 | Distinct prices build the same arrays in every order of arrival |
| PriceIndex.ReloadIsWindowIff | internal/indexer/prices.go:134-205 | Over any history of writes and prunes, failed ones included, and with one base currency, a restart gives a token exactly the part of its array in the queried range if and only if every entry there was saved last as it was written last and spared by every successful prune since |
| PriceIndex.ReloadAgreesIff | internal/indexer/prices.go:134-157 | Against any table: that is so if and only if memory and table agree on every last write of the range |
| PriceIndex.TableEntry | internal/indexer/prices.go:159-205 | After any history the table's entry is the last save, if every successful prune since has spared it |
| PriceIndex.MemoryEntry | internal/indexer/prices.go:177-205 | After any history memory's entry is the last write, whatever was saved or pruned |
| PriceIndex.AllKept | internal/indexer/prices.go:159-205 | The condition holds if every save in the range succeeded and no successful prune reached into it |
| PriceIndex.TwoBasesMayDiffer | internal/indexer/prices.go:134-157 | With two base currencies the table keeps two rows for one entry of memory, and a row order brings back the overwritten one |
| PriceIndex.RestartKeepsNeighbours | internal/indexer/prices.go:134-157 | After a restart from a table that has lost nothing of the range the neighbours are the same for exactly the times at or after the first reloaded price, or all times if nothing was dropped |
| PriceIndex.RestartKeepsEstimates | internal/indexer/prices.go:134-157 | Such a restart leaves every estimate in the reloaded window unchanged |
| BlockClock.BlockTracker.SetLatestBlockHeight | internal/indexer/indexer.go:118-138 | A call at or below the current height changes nothing; one above it sets height and time, sets a missing anchor, and recomputes the rate exactly when the block count since the anchor reaches the current rate |
| BlockClock.HeightIsRunningMax | internal/indexer/indexer.go:118-125 | Over any run the height is the running maximum, paired with the block time of the first call that reached it |
| BlockClock.RateOfNextBlock | internal/indexer/indexer.go:118-138 | After any run, one more block above the current height: the rate stays as it is while fewer blocks than it have come since the anchor, and is otherwise the average since then |
| BlockClock.DefaultRateAtFirst | internal/indexer/indexer.go:118-138 | From start-up on the rate is 720 as long as fewer than 720 blocks have come since the anchor |
| BlockClock.OldBlockIsIgnored | internal/indexer/indexer.go:119-123 | A block at or below the current height changes nothing |
| BlockClock.WarmForever | internal/indexer/indexer.go:127-137 | Once the rate is an average over at least an hour every later new maximum recomputes it, and the anchor never moves |
| BlockClock.WarmAfterFirstHour | internal/indexer/indexer.go:118-138 | From start-up: after the first rate update an hour or more past the anchor, the rate is the exact average since the anchor as of the last new maximum, whatever follows |
| BlockClock.WarmInstance | internal/indexer/indexer.go:118-138 | An instance of it: 899 blocks in the hour after the first one |
| BlockClock.FirstUpdate | internal/indexer/indexer.go:118-138 | The first 720 blocks after the anchor set the rate to 720 hours over the time they took |
| BlockClock.ZeroRateIff | internal/indexer/indexer.go:134-137 | A rate update yields 0 if and only if on average a block took more than an hour |
| BlockClock.ProductFits | internal/indexer/volume.go:227-233 | The 64-bit product of blocks and an hour is exact for exactly up to 2562047 blocks |
| BlockClock.ZeroRateIsDefault | internal/indexer/indexer.go:140-147 | Rate 0 stands for 720 in both conversions |
| BlockClock.TimestampsIncrease | internal/indexer/volume.go:217-234 | Estimated block times never go backwards with height, and are distinct while a block takes a nanosecond or more |
| BlockClock.TornRead | internal/indexer/volume.go:225-233 | A reader that pairs one block's height with another's time is off by exactly the difference of the two block times |
| BlockClock.LookBackForm | internal/osmosis/subscriptions.pools.go:45-46 | The height delta of k hours is k hours of blocks plus the exact excess from rounding the average block time |
| BlockClock.LookBackRoundTrip | internal/osmosis/subscriptions.pools.go:45-46 | Height delta and estimated block time never look back less than k hours, and exactly k hours if and only if k times the hour's remainder by the rate is below the average block time |
| BlockClock.LookBackIsExact | internal/osmosis/subscriptions.pools.go:45-46 | Within the exact range every look-back of two hours or more lands exactly, and one of a single hour does at up to 1897366 blocks an hour |
| BlockClock.LookBackOvershoots | internal/osmosis/subscriptions.pools.go:45-46 | At 1898605 blocks an hour a look-back of one hour lands further back |
| BlockClock.LookBackExactForSmallRates | internal/indexer/indexer.go:140-147 | Whenever k(rate - 1) is below the average block time, the delta is exactly k hours of blocks and the round trip lands exactly k hours back |
| Horizons.PoolStatusesAt | internal/indexer/pool.go:115-158 | One status per pool, the zero status for a failed one, and success exactly if all were found; height 0 is the current one |
| Horizons.CombinePoolStatusesAt | internal/osmosis/subscriptions.pools.go:37-62 | In place: every pool gains the snapshots of the horizon where its id was last seen, or none does if any pool fails |
| Horizons.AssembleStatuses | internal/osmosis/subscriptions.pools.go:66-79 | The first fetch and then the four horizons one after the other, errors notwithstanding; success exactly if no pool failed anywhere |
| Horizons.AllOrNone | internal/osmosis/subscriptions.pools.go:37-62 | After a successful first fetch of distinct pools each later horizon is appended to all pools or to none |
| Horizons.EarlierGainsNothing | internal/osmosis/subscriptions.pools.go:37-62 | If an id is asked for more than once only its last position gains snapshots |
| Horizons.LastGainsAll | internal/osmosis/subscriptions.pools.go:55-59 | The last position of an id gains the snapshots of every status of the id |
| Horizons.FirstFailureBlocksHorizons | internal/osmosis/subscriptions.pools.go:66-79 | If any pool fails in the first fetch, no horizon is appended to any pool while no pool 0 exists |
| Horizons.FiveSnapshots | internal/osmosis/subscriptions.pools.go:66-91 | With distinct ids, no errors and enough chain height every pool has exactly five snapshots of its own id, at the requested height and at the four horizons, each at the rate its fetch saw and with the volume found there, and the liquidity of the first fetch |
| Horizons.TargetWraps | internal/osmosis/subscriptions.pools.go:45-48 | A horizon below height 0 is looked up at its 64-bit wrap-around |
| Horizons.HeightsDecreaseIff | internal/osmosis/subscriptions.pools.go:45-46 | The five heights strictly decrease if and only if each horizon holds more whole block times than the one before it |
| Horizons.NeverSlowerGrows | internal/osmosis/subscriptions.pools.go:45-46 | At a steady or rising block rate they do |
| Horizons.SlowingMayReverse | internal/osmosis/subscriptions.pools.go:45-46 | A run of the clock from the default rate to 36 blocks an hour between two fetches puts an older horizon above a newer one |
| EventBuffer.NothingIsLost | internal/osmosis/rpc.go:402-460 | For any number of subscriptions sharing the counters, in every reachable state: per subscription, delivered followed by queued is received without the dropped events, in order; over all, received equals delivered plus queued plus skipped plus in hand, and published totals plus the live counter account for every counted event; the largest queue length measured so far is the live maximum, the one telemetry holds or the largest published one, and the longest any queue has been is that or one more |
| EventBuffer.StepKeepsInv | internal/osmosis/rpc.go:402-460 | Every channel and atomic operation of every forwarding loop, consumer and telemetry keeps that accounting |
| EventBuffer.DropsIffFull | internal/osmosis/rpc.go:437-442 | An event is dropped exactly when the send finds the channel full |
| MempoolWatch.Watcher.Mempool | internal/osmosis/rpc.go:277-323 | Emitted hashes and new seen set for every outcome of a poll; a failed or an empty one changes nothing |
| MempoolWatch.SeenIsLastPoll | internal/osmosis/rpc.go:292-316 | The seen set is the last non-empty successful poll |
| MempoolWatch.EmittedOnce | internal/osmosis/rpc.go:296-308 | A poll emits each new hash once, duplicates included, and no seen one |
| MempoolWatch.EmissionsAreRisingEdges | internal/osmosis/rpc.go:277-323 | Over any polls each hash is emitted exactly as often as it goes from absent to present between consecutive non-empty successful polls |

## Left out

- Floating-point rounding: `float64` and `big.Float` are exact reals, so overflow, NaN and infinities do not occur; converting an infinite rate (a rate update with no time elapsed) is the parameter `onZero`.
- `time.Time.Sub` saturation at 292 years and the time zone of a time value.
- BlockClock.LookBackRoundTrip: holds for deltas up to the chain's height and up to 2562047 blocks (about four months at 720 blocks an hour), because beyond them the code's 64-bit product wraps (`ProductFits`).
- BlockClock.TimestampsIncrease: for heights within 2562047 blocks of the current one, for the same reason.
- BlockClock.WarmForever: one caller at a time and a wall clock that does not run backwards, as the code assumes; concurrent callers are covered for the height alone (`AtomicMax`). Reads between the stores of height and time, and of the rate, are off by what `TornRead` says, and are otherwise left out.
- PoolsOfInterest.HorizonsHoldWindowSums: that the cached states have distinct denominations and that the base denomination has a usable price at the five heights is assumed; both can be checked before the call.
- WindowSums.RelativeVolumesGrow: for snapshots that start without a relative volume, as the indexer builds them, and for cumulative volumes that never fall with height.
- VolumePipeline.Calculator.CalculateRelativeVolumeValue: one goroutine; blocks, prices and pools do not change between the fetch and the sweep. Heights are below 2^63.
- Sorting.SortFunc: an insertion sort stands for the library sort; callers use only that the result is ordered and has the same elements.
- PriceIndex.PriceMap.PreHeat: rows are any sequence; that they are those of the range query over the table is a precondition of `ReloadIsWindowIff` and its followers. A failed range query, after which nothing is loaded, is left out.
- PriceIndex.ReloadIsWindowIff: a history starts with nothing in memory or table, so prices that start-up loads count as saved writes, and older rows of the table, which no later restart asks for, are not in it; for tokens priced in one base currency, as by the only caller (internal/osmosis/subscriptions.price.go:33); `TwoBasesMayDiffer` shows why.
- PoolCache.PoolMap.Set: the inner maps are values, so sharing an inner map between heights (which the code never does) cannot be expressed.
- PoolCache.Indexer.GetPool: one lookup at a time; `SharedCache` has concurrent ones. Empty RPC replies, on which the code would index out of range, do not occur.
- Syncing.SettledHeight: a height is also complete if another reader filled it; the database does not take part in the machine, and cancelling the context, which stops both loops, is not a step.
- Syncing.WindowCompleteIff: from a chain height above 0 and a cache with nothing at height 0, as the chain and the database give it, and for heights below 2^63.
- PriceRestarts.PriceCutoffIsBehind: for positive rates; only the database loses prices; the in-memory price prune of the code (`internal/indexer/prices.go:109-115`) removes nothing. Heights span at most 2562047 blocks.
- Syncing.PassEnds: that each of the two loops gets to move is the scheduler's business, and a foreign call that never returns is left out.
- PoolsOfInterest.GetPoolsOfInterestStatuses: lookups succeed only at heights below 2^63, and cache, prices and clock stand still during the calculation.
- EventBuffer.NothingIsLost: all subscriptions are open from the start, and closing the channels is not a step. Telemetry runs on one goroutine.
- MempoolWatch.Watcher.Mempool: a transaction is its hash, and the reported count is the number of hashes; translation of the transaction is not part of this model.
- SQL and GORM: the database is a map with upsert and prune, for pools by height and for prices by time, each of which may fail; `PoolsRange` and `TokenPricesRange` (internal/repository/query.go:150-208) are contracts. `NearestTokenPrice` is not used by the indexer.
- `SetLatestPrice` and the unit conversion by the token table, pool-id extraction, denom-trace caching and status strings: wrappers around what is modelled.
- gRPC, Tendermint, NATS, Prometheus and the command line: foreign calls are oracles that may fail, subscriptions are event streams.
