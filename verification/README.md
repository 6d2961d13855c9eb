# Verified model of the host monitor

The repository's host monitor samples a machine every five seconds, keeps the samples in a
SQLite store with one-minute rollups and bounded retention, and serves them through
budgeted, paginated queries.  Beside it stand the collector's control protocol, a bounded
disk walk, the retention plan of an append-only backup copy and the reassembly of a split
recovery archive.  This project models those parts in Dafny and proves what they promise,
for all inputs, all runs and all outcomes of the parts of the world they do not control.

`dafny verify dfyconfig.toml` checks the whole project.

## Layout

| file | models |
|---|---|
| `Common.dfy` | shared helpers |
| `Samples.dfy`, `Rollups.dfy` | rows, SQL selection and order; the rollup fold and its closed form |
| `StoreMachine.dfy`, `StoreView.dfy`, `StoreRuns.dfy`, `StoreRetention.dfy` | the store as operations on a pure state, and theorems over whole runs |
| `Store.dfy` | the store object itself, method by method, tied to the machine by its operation log |
| `StoreCalls.dfy` | sequences of calls on it, and a sequence that breaks the view |
| `Series.dfy`, `StoreSeries.dfy` | raw and rollup time series, and what the latter says about the committed history |
| `Packing.dfy`, `Paging.dfy`, `Export.dfy` | byte-budgeted pages, cursors, and the two-table replay |
| `ProcessTree.dfy`, `Rates.dfy` | process-tree ordering with cycles; counter rates |
| `Control.dfy`, `Capture.dfy` | admission of control connections; leases, pressure trigger, GPU schedule |
| `DiskWalk.dfy`, `Retention.dfy`, `Reassembly.dfy` | disk walk, backup retention, archive reassembly |

## How the store is modelled

A transaction, a checkpoint attempt and a restart are single operations on a state of two
tables and the writer's memory.  The class `MonitorStore.Store` has the source's fields and
methods; its invariant says that its fields are the outcome of the operations in its log, so
a theorem about every log is a theorem about every reachable object.  What the source reads
from the outside (headroom, elapsed time, busy checkpoints, event writes) is an arbitrary
function from question to answer, passed in as a `World`.

The rollup table is stated to be a view of every baseline ever committed, not only of the
raw rows still present. That promise is false without a timely prune:
`LatePruneLosesAMinute` gives a run, and `ViewThroughoutIff` the exact condition, in terms
of which raw rows are present when a minute is rebuilt; `ViewThroughoutIffCounted` states
it by the counts the store holds before each step and the instant of the newest age batch,
except that a minute whose rollup has expired while raw rows of it remain has no count to
go by. `ViewUnderRetention` derives the view from conditions on clocks alone, and
`RunCalls` gives it for sequences of calls. Likewise the exporter can pass over a sample
with the largest row id (`LargestIdIsLost`, and exactly when: `ReplayAll`), the
cursor-less packer can drop its coverage for want of one byte (`OneByteShort`, exactly
when: `PackShared`), and a backup run that fails while forgetting can later alarm on its
own deletions (`FailedRunCanAlarm`, exactly when: `AlarmIff`). A busy checkpoint defers
removal only within one process: a restart forgets it, so `RunCalls` counts a restart as a
release. The design document (`docs/research/system-monitor/storage-contract.md`) says
that a failed service triggers detail immediately; the code then reads the pressure in the
same pass, and on a quiet host that reading clears the trigger before anything is captured
(`QuietHostMissesFailure`, exactly when: `Capture.Runtime.Pass`).

The monitor's own README names 1 KiB pages for new databases while the code sets 512 bytes;
page size is not part of this model.

## Model

| member | source | states |
|---|---|---|
| Rollups.AbsorbIsSummarise | host-monitor/src/store.rs:633-640 | one incremental step (mean re-weighted by the count so far, extremes and last replaced) turns the count, minimum, maximum, arithmetic mean and last of any list of numbers into those of the list with one more number |
| Rollups.AbsorbRow | host-monitor/src/store.rs:617-646 | the pass over one row's fields, in whatever order the object lists them, updates exactly that row's tracked fields and leaves every other accumulator alone |
| Rollups.NextRow | host-monitor/src/store.rs:617-646 | that pass turns the closed-form fields of some rows into the closed-form fields of the rows plus one |
| Rollups.Rebuild | host-monitor/src/store.rs:598-657 | the whole accumulating loop computes the closed form: per key the summary of all finite readings and the number of rows carrying the key without one, for exactly the keys of the rows but for the seven bookkeeping names, the number of rows, and as gaps the number of rows of another boot than their predecessor's or whose monotonic clock did not advance or advanced by more than ten seconds |
| Samples.TimeOrderMeans | host-monitor/src/store.rs:604-605 | the rows are listed by time, rows of one instant by id |
| StoreMachine.BatchFacts | host-monitor/src/store.rs:461-464 | a batch removes only rows its filter selects, as many as exist up to 16, and every row it removes precedes, in (time, id) order, every selected row it leaves |
| StoreMachine.SmallestFacts | host-monitor/src/store.rs:465-468 | the expired rollups of one transaction are as many as there are up to the given number, and all earlier than those left behind |
| StoreView.RebuiltIff | host-monitor/src/store.rs:598-667 | a minute that was just rebuilt from raw rows agrees with the history if and only if all its raw rows were still there, or none was and its rollup had aged out |
| StoreView.CommitIff | host-monitor/src/store.rs:259-284 | a commit (rollover rebuild of the old minute, rebuild of the own minute at the third pending row) keeps the view if and only if every minute it rebuilds is faithful |
| StoreView.FlushIff | host-monitor/src/store.rs:291-303 | the same for the rebuild of the pending minute on a clean stop |
| StoreView.ReopenIff | host-monitor/src/store.rs:187-206 | the same for the backfill at open, which in addition must not forget a lagging minute |
| StoreView.StepIff | host-monitor/src/store.rs:187-523 | every operation of the store keeps the rollup table a view of the baseline history if and only if it is safe in that sense |
| StoreView.SoundStep | host-monitor/src/store.rs:239-523 | every operation keeps raw baselines a subset of the committed history, both in commit order |
| StoreView.LatestIs | host-monitor/src/store.rs:187-194 | while the newest minute's raw rows are all present, the row the backfill query finds is the newest committed baseline |
| StoreRuns.ViewThroughoutIff | host-monitor/src/store.rs:187-523 | over every run of commits, batches, checkpoints, flushes and restarts, the view holds after every step if and only if every step was safe when it ran |
| StoreRuns.ViewWithoutPruning | host-monitor/src/store.rs:187-303 | with no age or pressure batch the view holds in every run, under any clock, with crashes and restarts anywhere |
| StoreRuns.ViewUnderRetention | host-monitor/src/store.rs:187-523 | with a clock that does not step back and prunes within 59 minutes of the newest baseline, the view holds in every run: each retained rollup is the fold of all baselines ever committed to its minute, also after the raw rows are gone, except that the pending minute lags by exactly the pending count, which is at most 2 |
| StoreRuns.ReopenIsExact | host-monitor/src/store.rs:187-206 | after such a run, reopening leaves no minute lagging, whatever a crash interrupted |
| StoreRuns.FlushIsExactIff | host-monitor/src/store.rs:291-303 | flushing an unexpired lagging minute keeps the view if and only if the raw rows present number the rollup's own sample count plus the pending commits |
| StoreRuns.CountedStepIff | host-monitor/src/store.rs:187-523 | the same condition by counts, for every operation: each minute to be rebuilt has as many raw rows as its rollup's own count plus the pending commits (or none left and its rollup was to expire at the newest age batch), a minute revived from raw rows after its rollup expired has its whole history, and no lagging minute is forgotten |
| StoreRuns.LatestStands | host-monitor/src/store.rs:465-468 | a minute has been past expiry at some age batch if and only if it is at the newest one |
| StoreRuns.ViewThroughoutIffCounted | host-monitor/src/store.rs:187-523 | over every run the view holds after every step if and only if the counts were right at every step |
| StoreCalls.LatePruneLosesAMinute | host-monitor/src/store.rs:250-284 | three writes on a fresh store: two baselines in one minute, and a third two hours later that finds no headroom; its prune removes both rows and its rollover rebuild then finds none, so the minute has no rollup although two baselines were committed to it: without timely prunes the view property is false |
| StoreSeries.RollupSeriesTellsHistory | backend/monitor_reader/reader.py:826-866 | after any steady run the rollup series over a settled window of whole minutes reports, bucket by bucket, the minimum, maximum, mean, last value and counts of every baseline ever committed there, raw rows pruned or not |
| StoreRuns.SoundRun | host-monitor/src/store.rs:239-523 | in every run the raw baselines are a subset of the committed ones and ids follow commit order |
| StoreRetention.DetailStaysInReserve | host-monitor/src/store.rs:239-287 | in every run from a fresh store the detail blobs together never exceed 192 MiB |
| StoreRetention.DetailKeepsItsBaseline | host-monitor/src/store.rs:455-523 | in every run of paired writes, a detail row that no age cutoff has reached still has its baseline with the same instant, host and services, whatever quota and pressure eviction removed |
| StoreRetention.FlagIsReplayed | host-monitor/src/store.rs:394-400 | the store's blocked flag is, over every run, the outcome of the last checkpoint since the last restart |
| StoreRetention.GuardCompose | host-monitor/src/store.rs:311-433 | calls that each remove nothing before a release, given the flag they find, remove nothing before a release together |
| StoreCalls.Perform | host-monitor/src/store.rs:210-552 | each public or internal call of the store, a pair of writes and a restart included, does what it is for (the commits due, the flush, the restart, nothing aged left after an unhindered prune), keeps a blocked store from removing anything, keeps the run steady if it comes in time and paired if details come in pairs |
| StoreCalls.RunCalls | host-monitor/src/store.rs:210-552 | for every sequence of writes, paired writes, prunes, evictions, flushes and restarts on any store: if the store was blocked, nothing is removed until a checkpoint succeeds (or the process restarts, which forgets the busy one); if every call came in time, the rollup table is a view of the history; if details were only written in pairs, none has lost its baseline; the quota counter is exact and within the reserve |
| MonitorStore.Store.DeleteAged | host-monitor/src/store.rs:460-473 | one age transaction takes exactly the oldest rows past 48 hours, up to 16, each before every such row left, and the earliest rollups past 14 days, up to 16, and leaves all other rows and rollups as they were |
| MonitorStore.Store.DeleteDetails | host-monitor/src/store.rs:504 | takes exactly the oldest detail rows, up to 16, each before every detail row left, and nothing else |
| MonitorStore.Store.DeleteOldBaselines | host-monitor/src/store.rs:513 | only when no detail is left: takes exactly the oldest baselines past an hour, up to 16, each before every such baseline left, and nothing else |
| MonitorStore.Store.AgePass | host-monitor/src/store.rs:455-484 | removes a prefix in each mode, only rows older than 48 hours, at most 16 a batch and 2048 in all; exactly the 2048 oldest or all of them when neither time nor a busy checkpoint interferes, so that of up to 2048 rows none older than 48 hours and of fewer than 2048 rollups none older than 14 days is left; stops only when the time is spent, a checkpoint is busy, 128 batches have run or a batch found nothing in any of the three tables |
| MonitorStore.Store.PressureBatch | host-monitor/src/store.rs:504-518 | one batch removes up to 16 details, or, when there was none, up to 16 baselines older than an hour, and keeps the quota counter exact |
| MonitorStore.Store.PressurePass | host-monitor/src/store.rs:490-523 | details go 16 at a time and then old baselines, with each mode counted; no batch runs unless there is no headroom or the baselines exceed 256 MiB; the pass stops only when a checkpoint is busy, the time is spent, 128 batches have run, only baselines of the last hour are left, or there is headroom and the baselines fit 256 MiB; unhindered, up to 2016 rows end in one of the last two |
| MonitorStore.Store.OpenPrune | host-monitor/src/store.rs:420-454 | the prune goes on unless the first checkpoint was due and busy; a store that was blocked only goes on after a successful checkpoint; under pressure it tries exactly as many checkpoints as the reclamation rounds need |
| MonitorStore.Store.Prune | host-monitor/src/store.rs:417-552 | for every outcome of headroom, time and checkpoints: what goes is a prefix in (time, id) order in each mode, never a baseline from the last 60 minutes, never a baseline younger than 48 hours while a detail row remains; rows before equal rows after plus the three counts, each count being of its own kind of row; at most 4096 rows; nothing before a checkpoint succeeds if the store was blocked; success if and only if there is headroom at the end; unhindered under lasting pressure, a store of at most 2016 rows is left with only the baselines of the last hour; unhindered under any pressure, such a store is left with those or with baselines within 256 MiB, up to 2048 rows with none older than 48 hours; a due and busy first checkpoint leaves everything as it was |
| MonitorStore.Store.EvictDetail | host-monitor/src/store.rs:308-346 | removes only the oldest details, at most 16 a round, each batch only while the incoming blob did not fit; does nothing when it fits or there is no headroom; stops at a busy checkpoint; on success the blob fits or no detail is left and no checkpoint is blocked; succeeds whenever there is headroom and no busy checkpoint; keeps the quota counter exact |
| MonitorStore.Store.EvictRound | host-monitor/src/store.rs:312-331 | one round: a due checkpoint, up to 16 of the oldest details, and the checkpoint after them |
| MonitorStore.Store.CommitRow | host-monitor/src/store.rs:259-289 | the insert transaction and the in-memory pending state become exactly the machine's commit, with the quota counter exact |
| MonitorStore.Store.MakeRoom | host-monitor/src/store.rs:238-258 | a baseline gets room if and only if there is headroom at once, or a successful prune leaves some; a detail only within its reserve and with headroom before and after the eviction; nothing goes when a baseline has headroom at once |
| MonitorStore.Store.Write | host-monitor/src/store.rs:214-289 | an oversized sample changes nothing; a success ends in exactly one commit of the sample, a failure in none; a baseline succeeds if and only if there is headroom, at once or after a successful prune; details never trigger age or baseline eviction; a sample of at most 1 MiB is always committed when there is headroom and no busy checkpoint |
| MonitorStore.Store.FlushRollups | host-monitor/src/store.rs:297-303 | brings exactly the pending minute up to date |
| MonitorStore.Store.Reopen | host-monitor/src/store.rs:182-206 | memory is rebuilt from the tables: exact quota counter, nothing pending, newest raw minute rebuilt |
| MonitorStore.PruneBatch | host-monitor/src/store.rs:460-518 | one more batch of any of the three kinds extends the removed prefix and keeps all three protections |
| MonitorStore.RebuildMinute | host-monitor/src/store.rs:598-667 | replaces a minute's rollup by the fold of its raw rows in time order, or deletes it when there are none |
| StoreCalls.PersistPair | host-monitor/src/main.rs:900-923 | baseline first, then the detail of the same observation: the baseline is committed if and only if it weighs at most 1 MiB and there is headroom at once or after a successful prune; a committed baseline without a detail is a success, and with one of at most 1 MiB and nothing in its way both are committed; a failed detail write leaves the baseline committed, a failed baseline write commits nothing; details stay paired |
| StoreCalls.SteadyPrune | host-monitor/src/store.rs:417-552 | a prune at most 59 minutes after the newest baseline keeps the run steady and the history unchanged |
| StoreCalls.SteadyWrite | host-monitor/src/store.rs:250-258 | so does a baseline write whose clock does not step back, if the prune it ran first, if any, came within 59 minutes of the newest baseline |
| StoreCalls.WriteIsSteady | host-monitor/src/store.rs:214-289 | every write keeps the run steady, a detail at any time, a baseline with headroom whenever its clock does not step back, and one that must prune also within 59 minutes of the newest baseline, whether it succeeds or not |
| StoreCalls.SteadyQuiet | host-monitor/src/store.rs:182-332 | evictions, flushes, restarts and detail commits keep the run steady at any time |
| StoreCalls.ReachableStore | host-monitor/src/store.rs:44-52 | of every store object between calls: the quota counter is the summed length of the detail blobs and within the reserve; the view and the pairing hold whenever the run was steady and paired |
| Series.FoldRows | backend/monitor_reader/reader.py:492-524 | the raw bucket loop computes the summary and counts of the bucket's rows |
| Series.FoldRollups | backend/monitor_reader/reader.py:833-866 | the rollup bucket loop computes the running totals of the bucket's rollups, means weighted back by their counts |
| Series.TotalsStand | backend/monitor_reader/reader.py:834-851 | the totals of consecutive minutes' rollups have the count, sum, minimum, maximum and last value of all rows of those minutes together |
| Series.Group | backend/monitor_reader/reader.py:484-489 | grouping by index gives every bucket exactly its rows, in order |
| Series.GroupIsQuery | backend/monitor_reader/reader.py:476-489 | a bucket's share of the page's rows is what a query for the bucket alone would list |
| Series.RawSeries | backend/monitor_reader/reader.py:464-525 | every bucket of a page over raw rows is the bucket of its own time range; refuses exactly above 20000 rows |
| Series.LastIndexIs | backend/monitor_reader/reader.py:492 | a page looks at exactly the buckets that begin before the end of the window, up to one more than its limit |
| Series.MissingIs | backend/monitor_reader/reader.py:510-511 | with one sample due every five seconds begun, exactly the samples short of that are missing |
| Series.ClampedIndex | backend/monitor_reader/reader.py:828 | the bucket index of a minute is its quotient, or zero if that is negative |
| Series.RollupSeries | backend/monitor_reader/reader.py:813-867 | every bucket of a page is the fold of the rollups whose minute falls in it (minutes before the window counting towards the first); refuses exactly above 20200 rollups |
| Series.RollupItemIsBucket | backend/monitor_reader/reader.py:826-866 | on windows of whole minutes with rollups in sync, the rollup path reports the same minimum, maximum, mean, last, valid, observed and missing as the raw path's bucket |
| Series.JoinIsQuery | host-monitor/src/store.rs:604-606 | the rows behind a bucket's minute rollups, minute after minute, are the bucket's raw rows in time order |
| Packing.Admitted | backend/monitor_reader/reader.py:317-326 | the admitted count is maximal: the envelope with it fits, and with one more it would not |
| Packing.Admit | backend/monitor_observe/common.py:62-69 | the admission loop admits exactly that many |
| Packing.PackReader | backend/monitor_reader/reader.py:313-340 | the items are the longest prefix whose envelope fits with a cursor and `true` reserved; once one is admitted the envelope is whole, fits the budget and has a cursor exactly if something was left out; with none it keeps its coverage exactly if it fits with the budget error; it fails exactly if even the bare envelope is over budget |
| Packing.PackShared | backend/monitor_observe/common.py:57-82 | the same with or without cursors, in terms of the sizes of its parts; without cursors the complete envelope survives if and only if something was left out or one byte of slack remained |
| Packing.OneByteShort | backend/monitor_observe/common.py:70-81 | a concrete response within the accepted budgets that lists everything and still loses its coverage for one byte |
| Paging.QueryResumes | backend/monitor_reader/reader.py:1160-1167 | the query with a row's cursor lists exactly the rows after it |
| Paging.EventsPage | backend/monitor_reader/reader.py:1137-1177 | a page is the longest admitted prefix of the rows after the cursor, although only one row more than the limit is read |
| Paging.ReadAllEvents | backend/monitor_reader/reader.py:1137-1177 | if every row fits on its own, following cursors until null lists every matching event exactly once in descending (time, id) order, for any page size and budget |
| Paging.BucketPage | backend/monitor_reader/reader.py:464-530 | a page of a series is the longest admitted run of bucket indices from the resume index |
| Paging.ReadAllBuckets | backend/monitor_reader/reader.py:464-530 | following cursors lists every bucket index exactly once, in order |
| Export.MergeDescending | backend/monitor_extended/export.py:160-162 | merging the two tables' descending rows gives a strictly descending list |
| Export.DescendingUnique | backend/monitor_extended/export.py:162 | a descending list is determined by its entries, so sorting the concatenation and merging agree |
| Export.TakeMerge | backend/monitor_extended/export.py:153-167 | reading each table n deep is enough for the first n of the merged list |
| Export.PassesIff | backend/monitor_extended/export.py:147-152 | the resume condition admits exactly the entries below the cursor, except a sample whose row id is the largest possible one and whose instant is that of the event at the cursor |
| Export.ResumesIff | backend/monitor_extended/export.py:144-162 | querying both tables with the cursor after k entries and merging gives the whole list from entry k on if and only if the cursor is not an event that shares its instant with a sample of the largest possible row id |
| Export.LargestIdIsLost | backend/monitor_extended/export.py:147-152 | a concrete pair of rows of which the second is never listed after the first |
| Export.AnnotateConcat | backend/monitor_extended/export.py:165-175 | gap annotations and cursors of a list continue across any split when the newest-sample state is carried over |
| Export.AnnotationIs | backend/monitor_extended/export.py:165-175 | an event has no gap; a sample has the distance to the nearest newer sample of the list, or to the one the cursor carries if there is none, exactly when it exceeds ten seconds |
| Export.ExportPage | backend/monitor_extended/export.py:124-185 | a page is the longest admitted prefix of the rest of the merged list, each entry with exactly that gap, and with the list's own cursors |
| Export.ReplayAll | backend/monitor_extended/export.py:124-185 | if every entry fits on its own, following cursors replays the merged window of both tables exactly once in descending order, with the gap annotations of a single unbounded page, if and only if none of the list's pages ends with an event that hides a sample; in particular whenever no event shares its instant with a sample of the largest row id |
| ProcessTree.Resolve | backend/monitor_reader/reader.py:1034-1059 | a linked parent is the only captured row with that pid, is selected, did not start later and was observed at the same instant |
| ProcessTree.LinkIff | backend/monitor_reader/reader.py:1034-1059 | exactly when each of root, unavailable, ambiguous, mismatch, filtered out and linked is reported, by the number of captured rows with the parent pid |
| ProcessTree.BuildGraph | backend/monitor_reader/reader.py:1024-1061 | the link pass records for every selected row exactly its resolution, and parents stay within the selected rows |
| ProcessTree.VisitFrom | backend/monitor_reader/reader.py:1066-1076 | the explicit-stack loop terminates on every graph and emits exactly the recursive depth-first order of what was not visited yet |
| ProcessTree.DfsConcat | backend/monitor_reader/reader.py:1066-1076 | the traversal of two lists of starts is the traversal of the first followed by that of the second with the first's rows visited |
| ProcessTree.DfsOnce | backend/monitor_reader/reader.py:1066-1085 | a traversal repeats no row, revisits none and misses no start, cycles or not |
| ProcessTree.ParentsFirst | backend/monitor_reader/reader.py:1066-1076 | every row listed is a start or comes after its parent, one level deeper |
| ProcessTree.ForestPreorder | backend/monitor_reader/reader.py:1066-1080 | on rows whose parent chains end, the traversal with its visited set equals plain recursive preorder without one |
| ProcessTree.VisitRoots | backend/monitor_reader/reader.py:1078-1080 | the first pass lists the trees under all rows without a linked parent |
| ProcessTree.RootsPreorder | backend/monitor_reader/reader.py:1078-1080 | and lists them in plain recursive preorder |
| ProcessTree.ReachedIff | backend/monitor_reader/reader.py:1066-1076 | a traversal reaches exactly the rows that descend from one of its starts, cycles or not |
| ProcessTree.RootedIff | backend/monitor_reader/reader.py:1078-1080 | the rows under the rows without a linked parent are exactly those whose parent chain ends |
| ProcessTree.UnseenIff | backend/monitor_reader/reader.py:1082-1085 | the second pass finds a row unseen exactly when its parent chain does not end and no row before it in the selection is on that chain |
| ProcessTree.OrderTree | backend/monitor_reader/reader.py:1062-1086 | for any parent links, every selected row is listed exactly once; a row finally marked linked follows its parent with depth one greater; the rows whose parent chain ends, and only they, come first in recursive preorder; invalid_cycle replaces the link of exactly the rows whose chain does not end and has no earlier selected row on it |
| ProcessTree.TreeView | backend/monitor_reader/reader.py:1008-1086 | sorting, linking and ordering together: the selected rows sorted by (pid, start), links exactly as the captured rows resolve, every row once, linked rows below their resolved parents, siblings by pid and then start, absent ones first, trees in preorder, cycles marked exactly |
| ProcessTree.SiblingsInPidOrder | backend/monitor_reader/reader.py:1008-1013 | the children of a row are listed in (pid, start) order |
| Rates.SumMembers | backend/monitor_reader/reader.py:743-746 | the member sum does not depend on the order of the members |
| Rates.SumDeltas | backend/monitor_reader/reader.py:759-760 | the summed per-member growth is the growth of the member total |
| Rates.HostRates | backend/monitor_reader/reader.py:719-764 | a row gets an entry exactly if it is a usable observation, and its rate depends only on its direct predecessor |
| Rates.RateOf | backend/monitor_reader/reader.py:749-761 | a rate exists exactly for the same members on the same boot and provider, all counters grown, at most 15 seconds apart |
| Rates.RateIff | backend/monitor_reader/reader.py:743-761 | a row has a rate if and only if its direct predecessor is usable, of the same boot and provider, at most fifteen seconds before it, and has the same members by name and token, none of whose counters has fallen since |
| Rates.RateIsNonNegative | backend/monitor_reader/reader.py:750-761 | every rate is non-negative |
| Rates.RatesTelescope | backend/monitor_reader/reader.py:719-764 | over any stretch of consecutive rates, rate times interval sums to the last counter minus the first |
| Rates.CutKeepsRateIff | backend/monitor_reader/reader.py:474-483 | listing only part of the rows changes a row's rate if and only if it is the first row left and had a rate across the cut |
| Rates.PageRatesAreWindowRates | backend/monitor_reader/reader.py:464-483 | if wall gaps over 60 seconds come with a new boot or a monotonic gap over 15 seconds, the rates of a page, read from its lookback to its end, are those of the whole window for every row the page reports |
| Capture.Runtime.Detail | host-monitor/src/main.rs:547-550 | drops exactly the expired leases and keeps the others as they were, which changes nothing about when capture is on later; capture is off once the last grant is 300 seconds old and the last trigger 60 seconds |
| Capture.Runtime.Dispatch | host-monitor/src/main.rs:568-620 | a start is granted exactly when fewer than 16 leases run, a renewal exactly when its lease runs, an end removes exactly its lease; afterwards at most 16 leases run, each ending after now and within 300 seconds; a refusal names its reason and a report says whether capture is on and how many leases run |
| Capture.Runtime.ServiceTransition | host-monitor/src/main.rs:1182-1183 | a failed service sets the trigger so that, if nothing else happened, capture would be on at every instant of the next 60 seconds, and after them exactly while a lease runs |
| Capture.Runtime.Pass | host-monitor/src/main.rs:1163-1227 | one pass of the collector, service states and then the pressure reading of the same instant: a failed service gets its 60 seconds of capture if and only if the reading does not complete three lows in a row while no lease is held; otherwise capture is off from that instant on |
| Capture.QuietHostMissesFailure | host-monitor/src/main.rs:1182-1221 | a concrete run of three passes in which a service fails on a quiet host and no detail is captured |
| Capture.Runtime.Pressure | host-monitor/src/main.rs:1197-1224 | for every sequence of readings the start events number the maximal high runs of at least three readings, unavailable ones ignored, saturation included; the trigger is renewed exactly from the third high on and cleared exactly from the third low on while no lease is held |
| Capture.OneMore | host-monitor/src/main.rs:1199-1218 | a reading opens a new long high run exactly when it is the third of its run |
| Capture.TrailingIsLastRun | host-monitor/src/main.rs:1199-1218 | the trailing run is the last of the maximal runs |
| Capture.Clamp | host-monitor/src/main.rs:589 | a lease lasts between 1 and 300 seconds, 30 by default, as asked in between |
| Capture.NextPoll | host-monitor/src/main.rs:259-264 | the next poll is strictly after now, at most 15 seconds ahead, at least one period later and on the fifteen-second grid (unless the stall exceeds 2^32 - 1 periods) |
| Capture.GpuSchedule.PollDue | host-monitor/src/main.rs:255-266 | a poll happens exactly when due and none is pending; for every timing of calls any k polls span more than 15 (k - 2) seconds, so a stall causes no burst |
| Control.CountedStep | host-monitor/src/main.rs:813-886 | every atomic action of every thread keeps `clients` equal to the live handlers and at most 8, `active` equal to the running helpers and at most 2, and at most 32 queued mutations |
| Control.CountersMeasureThreads | host-monitor/src/main.rs:813-886 | so does every interleaving of actions |
| Control.FromIdle | host-monitor/src/main.rs:857-858 | from the idle pool, every reachable pool has exact and bounded counters |
| Control.RefusedIff | host-monitor/src/main.rs:816-874 | a connection is refused exactly while 8 handlers live, a helper exactly while 2 run, a mutation exactly while 32 are queued |
| DiskWalk.Walker.Look | backend/monitor_extended/disk.py:113-153 | one entry is counted never above its true size, and exactly when nothing in it was denied, skipped, capped or interrupted; an entry the walk does not look behind counts as denied, as skipped or as the depth cap as its kind says |
| DiskWalk.Walker.Walk | backend/monitor_extended/disk.py:102-156 | the same for a directory: exact if and only if everything below was seen |
| DiskWalk.QueryDiskSpace | backend/monitor_extended/disk.py:169-187 | `bytes_observed` never exceeds the true total of regular-file sizes and equals it when complete; complete if and only if nothing below the target was denied, failing, foreign, special or too deep, the entries fit the cap and no check was cancelled or late; `entries_scanned` never exceeds the cap; no entry is looked at once the caller has cancelled or the deadline has passed, and the stop reason is the true one; a complete walk lists every child with its total and whether it is a directory |
| Retention.SurvivorsCompose | scripts/pve-restic-append/restic-append-maintain.py:78-86 | on one source's list, pruning at an earlier cutoff first changes nothing about pruning at a later one |
| Retention.SurvivesIff | scripts/pve-restic-append/restic-append-maintain.py:80-84 | a point survives if and only if it is among the newest three, inside the window, or the newest full-history point |
| Retention.BuildGroups | scripts/pve-restic-append/restic-append-maintain.py:66-77 | the first loop groups the points by source and finds each source's newest full-history point |
| Retention.Removals | scripts/pve-restic-append/restic-append-maintain.py:84 | one source's removals are exactly the points past the newest three, older than the cutoff and not the newest full-history point |
| Retention.CondemnedIff | scripts/pve-restic-append/restic-append-maintain.py:80-84 | by position, cutoff and identity of the newest full point, exactly the non-survivors are condemned |
| Retention.PlanRetention | scripts/pve-restic-append/restic-append-maintain.py:61-87 | the plan deletes exactly the snapshots that are not kept; snapshots without exactly one source are always kept |
| Retention.RetentionComposes | scripts/pve-restic-append/restic-append-maintain.py:61-87 | for an unchanged policy and t1 <= t2, planning and applying at t1 and then at t2 leaves exactly what applying at t2 alone leaves |
| Retention.AlwaysKept | scripts/pve-restic-append/restic-append-maintain.py:61-87 | every source keeps its newest three and its newest full-history point under every plan |
| Retention.PlanIff | scripts/pve-restic-append/restic-append-maintain.py:61-87 | a point is deleted if and only if it has exactly one source, at least three later points of that source, is older than the source's days (as configured, at least seven), and is not the source's latest full-history point |
| Retention.Maintain | scripts/pve-restic-append/restic-append-maintain.py:90-171 | deletes only snapshots the plan condemns, and never more than ten that are also more than half; a working run that does not alarm and whose plan is within that deletes exactly the plan and records what is left; the alarm is raised exactly when more than ten and more than a tenth of the recorded count are missing; a refused run or a failed listing changes nothing, a failed one keeps the recorded count |
| Retention.AlarmIff | scripts/pve-restic-append/restic-append-maintain.py:99-156 | over every sequence of arrivals and runs, with failures anywhere: the next run alarms if and only if a count is recorded and the drift (what failed runs have forgotten since the last completed run, less what has arrived since) is more than ten and more than a tenth of it |
| Retention.NoFailureNoAlarm | scripts/pve-restic-append/restic-append-maintain.py:99-156 | so without a failure while forgetting, maintenance never alarms on its own deletions |
| Retention.RunCopy | scripts/pve-restic-append/restic-append-maintain.py:90-171 | running any sequence of arrivals and maintenance gives exactly those alarms, and none without a failure while forgetting |
| Retention.FailedRunAlarmsIff | scripts/pve-restic-append/restic-append-maintain.py:99-105 | after a run that failed while forgetting and any number of arrivals, the next run alarms if and only if a count was recorded and what is then missing from it is more than ten and more than a tenth of it |
| Retention.FailedRunCanAlarm | scripts/pve-restic-append/restic-append-maintain.py:99-156 | a concrete copy of 22 snapshots on which a failed run's own deletions raise the alarm |
| Retention.RotationCoversAll | scripts/pve-restic-append/restic-append-maintain.py:161-165 | twelve verified checks in a row read every one of the twelve data subsets |
| Reassembly.PartNameIs | scripts/recovery-bootstrap.py:163 | a part's name ends in its index in decimal, with at least six digits and no more leading zeros than that takes |
| Reassembly.Validate | scripts/recovery-bootstrap.py:125-177 | accepts exactly the manifests with the expected keys, version, format, safe archive name, matching file names and checksums, whose parts carry exactly their keys and the names of their positions, have positive sizes and add up to the declared size; and returns what they say |
| Reassembly.CopyPart | scripts/recovery-bootstrap.py:210-241 | a part is accepted if and only if it has the manifest's size before, while and after reading and its checksum matches, whatever the chunking; then exactly its bytes are appended and fed to the archive digest |
| Reassembly.CopyAll | scripts/recovery-bootstrap.py:209-249 | all parts and the whole are verified, and the temporary is the concatenation of the parts in index order |
| Reassembly.Assemble | scripts/recovery-bootstrap.py:180-260 | succeeds if and only if no output exists, its parent is a real directory, the manifest is accepted, every part and the whole verify and the link succeeds; then the published file is the concatenation of the parts in index order with the manifest's size and checksum; otherwise nothing is published; the temporary is always removed |

## Left out

- MonitorStore.Store.Prune: the events table is not a table of the model; whether an age transaction also removed event rows, and whether the retention event is written, are answers of the world.
- MonitorStore.Store.Write: gzip and JSON encoding are lengths given with the sample; SQL statements do not fail inside a method, so a write fails only for size, headroom or a busy checkpoint.
- MonitorStore.Store.CommitRow: row ids are commit numbers; SQLite may hand out the id of a deleted newest row again, and only the order among present rows is used.
- Rollups.Rebuild: floating point is modelled by real numbers, so rounding of means is not captured; `host_json` that is not an object is not modelled.
- StoreRuns.CountedStepIff: for a minute whose rollup has expired while raw rows of it remain the condition compares rows with the history, since no count of it is left.
- Series.RollupItemIsBucket: the `unavailable` breakdown is not compared, since the two paths count an absent key differently by design.
- Series.RawSeries: host gauge metrics only; rate metrics enter through Rates, service and GPU series are left out.
- Packing.PackReader: JSON is modelled by the sizes of its parts: envelope, items with separators, cursor, flag.
- Paging.ReadAllEvents: a cursor is its position; its text form, the digest binding it to a filter and the refusal of foreign cursors are left out.
- ProcessTree.OrderTree: the metadata's child count and parent identity, and the scores of the non-tree view, are left out.
- Capture.Runtime.Dispatch: the status report's timing statistics are left out; instants are integers, without the wrap-around of machine integers, as everywhere in this project.
- Control.CountersMeasureThreads: a handler thread that panics, which would leave its counter raised, is not modelled.
- DiskWalk.QueryDiskSpace: resolving the requested path to an open directory and sorting the listed entries are left out; the tree does not change during the walk.
- Retention.Maintain: snapshot ids are numbers instead of strings and times integers; a failing restic prune is a failure after all ids were forgotten; the data check does not change the copy.
- Reassembly.Validate: reading the manifest file, its size limit and JSON parsing are left out; the manifest is a parsed object.
- Reassembly.Assemble: the checksum is an arbitrary function; an I/O error inside a read or write is not modelled apart from a missing part and a failing link; the check of the Python version is left out.
- SQLite pragmas, file modes, ownership, the maintenance lock, page reclamation and migration: no bearing on the properties.
- Reading procfs, sysfs, `nvidia-smi` and systemd: readings are arbitrary values.
- Service rates, GPU series, mounts and status queries, access control, HTTP, command line, frontend and extensions: plumbing around the parts modelled here.
