/** The store itself: one object whose methods update its fields, proved to perform
    only operations of the machine and, call by call, what retention may remove. */
module MonitorStore {
  import opened Common
  import opened Samples
  import opened Rollups
  import opened StoreMachine
  import opened StoreView
  import opened StoreRuns
  import opened StoreRetention

  datatype Outcome = Ok | Err(reason: string)

  /** By time, then by id. */
  ghost predicate Earlier(a: Row, b: Row) {
    a.at < b.at || (a.at == b.at && a.id < b.id)
  }

  /** The result of one prune so far: `gone` are the ids removed from `before`. */
  ghost predicate PruneEffect(before: seq<Row>, after: seq<Row>, gone: set<nat>, now: int) {
    && gone <= Ids(before) && after == Without(before, gone)
    && (forall d, k :: (d in before && d.id in gone && k in after && d.mode == k.mode) ==> Earlier(d, k))
    && (forall d :: d in before && d.id in gone && d.mode.Baseline? ==> d.at < now - RECENT_BASELINE_NS)
    && (forall d :: (d in before && d.id in gone && d.mode.Baseline? && d.at >= now - RAW_AGE_NS) ==> !HasDetail(after))
  }

  ghost predicate PruneFilter(f: Filter, rows: seq<Row>, now: int) {
    || f == Aged(now - RAW_AGE_NS)
    || f == Details
    || (f == OldBaseline(now - RECENT_BASELINE_NS) && !HasDetail(rows))
  }

  lemma NothingPruned(rows: seq<Row>, now: int)
    ensures PruneEffect(rows, rows, {}, now)
  {
    WithoutNothing(rows, {});
  }

  /** One more batch extends the removed prefix. */
  lemma PruneBatch(before: seq<Row>, mid: seq<Row>, gone: set<nat>, now: int, f: Filter)
    requires Numbered(before) && PruneEffect(before, mid, gone, now) && PruneFilter(f, mid, now)
    ensures PruneEffect(before, Without(mid, BatchIds(f, mid)), gone + BatchIds(f, mid), now)
    ensures |gone + BatchIds(f, mid)| == |gone| + |mid| - |Without(mid, BatchIds(f, mid))|
    ensures |mid| - |Without(mid, BatchIds(f, mid))| == Min(RETENTION_BATCH_ROWS, |Select(f, mid)|)
  {
    hide BatchIds, Without, Select, Numbered, Earlier, Before, HasDetail;
    var batch := BatchIds(f, mid);
    WithoutKeepsNumbering(before, gone);
    WithoutMembers(before, gone);
    BatchFacts(f, mid);
    WithoutMembers(mid, batch);
    WithoutTwice(before, gone, batch);
    WithoutLength(mid, batch);
    BatchIsNew(before, mid, gone, batch);
    PruneBatchOrder(before, mid, gone, now, f, batch);
  }

  lemma BatchIsNew(before: seq<Row>, mid: seq<Row>, gone: set<nat>, batch: set<nat>)
    requires mid == Without(before, gone) && gone <= Ids(before) && batch <= Ids(mid)
    ensures gone !! batch && gone + batch <= Ids(before) && |gone + batch| == |gone| + |batch|
  {
    WithoutMembers(before, gone);
  }

  lemma PruneBatchOrder(before: seq<Row>, mid: seq<Row>, gone: set<nat>, now: int, f: Filter, batch: set<nat>)
    requires Numbered(before) && PruneEffect(before, mid, gone, now) && PruneFilter(f, mid, now)
    requires batch <= Ids(mid)
    requires forall r :: r in mid && r.id in batch ==> Matches(f, r)
    requires forall d, k :: (d in mid && d.id in batch && k in mid && k.id !in batch && Matches(f, k)) ==> Before(d, k)
    ensures var after := Without(mid, batch);
            && (forall d, k :: (d in before && d.id in gone + batch && k in after && d.mode == k.mode) ==> Earlier(d, k))
            && (forall d :: d in before && d.id in gone + batch && d.mode.Baseline? ==> d.at < now - RECENT_BASELINE_NS)
            && (forall d :: (d in before && d.id in gone + batch && d.mode.Baseline? && d.at >= now - RAW_AGE_NS) ==> !HasDetail(after))
  {
    hide Without, Ids, Numbered;
    WithoutMembers(before, gone);
    WithoutMembers(mid, batch);
    var after := Without(mid, batch);
    forall d, k | d in before && d.id in gone + batch && k in after && d.mode == k.mode
      ensures Earlier(d, k)
    {
      if d.id !in gone {
        assert d in mid && Matches(f, d);
        if !Matches(f, k) {
          assert d.at < k.at;
        }
      }
    }
    forall d | d in before && d.id in gone + batch && d.mode.Baseline?
      ensures d.at < now - RECENT_BASELINE_NS
      ensures d.at >= now - RAW_AGE_NS ==> !HasDetail(after)
    {
      if d.id in gone {
        assert HasDetail(after) ==> HasDetail(mid);
      } else {
        assert d in mid && Matches(f, d);
      }
    }
  }

  lemma GuardedExtend(blocked: bool, ops: seq<Op>, op: Op)
    requires Guarded(blocked, ops)
    requires blocked && Removes(op) ==> Checkpoint(true) in ops
    ensures Guarded(blocked, ops + [op])
  {
    if blocked {
      assert !Removes(op) ==> AllReleased([op]);
      assert Releases(Checkpoint(true));
      ReleasedConcat(ops, [op]);
    }
  }

  /** The oldest rows a filter selects are gone, as many as there are up to one batch, and
      nothing else is. */
  ghost predicate TookOldest(f: Filter, before: seq<Row>, after: seq<Row>, removed: nat) {
    && removed == Min(RETENTION_BATCH_ROWS, |Select(f, before)|) && |after| + removed == |before|
    && (forall r :: r in after ==> r in before)
    && (forall r :: r in before && r !in after ==> Matches(f, r))
    && (forall d, k :: (d in before && d !in after && k in after && Matches(f, k)) ==> Earlier(d, k))
  }

  lemma BatchTakesOldest(f: Filter, rows: seq<Row>)
    requires Numbered(rows)
    ensures var after := Without(rows, BatchIds(f, rows));
            |after| <= |rows| && TookOldest(f, rows, after, |rows| - |after|)
  {
    hide BatchIds, Without, Select, Numbered, Matches;
    BatchFacts(f, rows);
    WithoutMembers(rows, BatchIds(f, rows));
    WithoutLength(rows, BatchIds(f, rows));
  }

  /** The earliest rollups before the cutoff are gone, up to one batch; the others are unchanged. */
  ghost predicate TookEarliest(before: map<Minute, Rollup>, after: map<Minute, Rollup>, cutoff: int, removed: nat) {
    && |after| + removed == |before| && removed <= RETENTION_BATCH_ROWS
    && (forall m :: m in after ==> m in before && after[m] == before[m])
    && (forall m :: m in before && m !in after ==> Start(m) < cutoff)
    && (removed < RETENTION_BATCH_ROWS ==> forall m :: m in after ==> Start(m) >= cutoff)
    && (forall d, k :: (d in before && d !in after && k in after) ==> d.index < k.index)
  }

  lemma ExpiryTakesEarliest(rollups: map<Minute, Rollup>, cutoff: int)
    ensures var gone := ExpiredBuckets(rollups, cutoff); TookEarliest(rollups, rollups - gone, cutoff, |gone|)
  {
    hide Smallest, TookEarliest;
    var due := set b | b in rollups && Start(b) < cutoff;
    SmallestFacts(due, RETENTION_BATCH_ROWS);
    EarliestOf(rollups, cutoff, due, Smallest(due, RETENTION_BATCH_ROWS));
  }

  lemma StartOrder(a: Minute, b: Minute)
    ensures Start(a) < Start(b) ==> a.index < b.index
  {
  }

  lemma EarliestOf(rollups: map<Minute, Rollup>, cutoff: int, due: set<Minute>, gone: set<Minute>)
    requires forall m :: m in due <==> m in rollups && Start(m) < cutoff
    requires gone <= due && |gone| == Min(RETENTION_BATCH_ROWS, |due|)
    requires forall d, k :: d in gone && k in due - gone ==> d.index < k.index
    ensures TookEarliest(rollups, rollups - gone, cutoff, |gone|)
  {
    hide Start;
    MapMinus(rollups, gone);
    if |gone| < RETENTION_BATCH_ROWS {
      WholeSubset(gone, due);
    }
    forall d, k | d in gone && k in rollups && k !in gone ensures d.index < k.index {
      if Start(k) < cutoff {
        assert k in due - gone;
      } else {
        StartOrder(d, k);
      }
    }
  }

  lemma MapMinus(rollups: map<Minute, Rollup>, gone: set<Minute>)
    requires gone <= rollups.Keys
    ensures |rollups - gone| + |gone| == |rollups|
  {
    assert (rollups - gone).Keys == rollups.Keys - gone;
    assert rollups.Keys == (rollups.Keys - gone) + gone;
  }

  lemma WholeSubset(a: set<Minute>, b: set<Minute>)
    requires a <= b && |a| == |b|
    ensures a == b
  {
    assert b == a + (b - a);
  }

  /** Only baselines of the last hour are left. */
  ghost predicate OnlyRecent(rows: seq<Row>, now: int) {
    forall r :: r in rows ==> r.mode.Baseline? && r.at >= now - RECENT_BASELINE_NS
  }

  /** So few rows that 128 batches take all details and then all old baselines. */
  const DRAINABLE_ROWS: nat := 126 * RETENTION_BATCH_ROWS

  lemma {:induction false} ModesApart(rows: seq<Row>, cutoff: int)
    ensures |Select(Details, rows)| + |Select(OldBaseline(cutoff), rows)| <= |rows|
  {
    if rows != [] {
      ModesApart(rows[..|rows| - 1], cutoff);
    }
  }

  lemma CountsDrain(rows: seq<Row>, now: int, detail: nat, baseline: nat)
    requires PressureCounts(rows, now, MAX_RETENTION_BATCHES, detail, baseline) && |rows| <= DRAINABLE_ROWS
    ensures detail == |Select(Details, rows)| && baseline == |Select(OldBaseline(now - RECENT_BASELINE_NS), rows)|
  {
    hide Select;
    ModesApart(rows, now - RECENT_BASELINE_NS);
  }

  lemma NothingSelected(f: Filter, rows: seq<Row>)
    requires |Select(f, rows)| == 0
    ensures forall r :: r in rows ==> !Matches(f, r)
  {
    SelectMembers(f, rows);
    assert forall r :: r in rows && Matches(f, r) ==> r in Select(f, rows);
  }

  /** Once all details and all old baselines are gone, only recent baselines are left. */
  lemma NothingOldLeft(before: seq<Row>, entry: seq<Row>, rows: seq<Row>, now: int,
                       gone0: set<nat>, details: set<nat>, baselines: set<nat>, detail: nat, baseline: nat)
    requires PressureState(before, entry, rows, now, gone0, details, baselines, detail, baseline)
    requires detail == |Select(Details, entry)| && baseline == |Select(OldBaseline(now - RECENT_BASELINE_NS), entry)|
    ensures OnlyRecent(rows, now)
  {
    hide Select, PruneEffect, EvictedOf;
    NothingSelected(Details, rows);
    NothingSelected(OldBaseline(now - RECENT_BASELINE_NS), rows);
  }

  lemma CountsSaturate(rows: seq<Row>, now: int, n: nat, m: nat, detail: nat, baseline: nat)
    requires PressureCounts(rows, now, n, detail, baseline) && n <= m
    requires detail == |Select(Details, rows)| && baseline == |Select(OldBaseline(now - RECENT_BASELINE_NS), rows)|
    ensures PressureCounts(rows, now, m, detail, baseline)
  {
    hide Select;
  }

  lemma BaselineBytesAppend(rows: seq<Row>, row: Row)
    ensures BaselineBytes([]) == 0
    ensures BaselineBytes(rows + [row]) == BaselineBytes(rows) + if row.mode.Baseline? then row.blobBytes + row.textChars else 0
  {
    assert (rows + [row])[..|rows|] == rows;
  }

  // Each pressure batch is warranted when it runs.

  ghost function BatchesIn(ops: seq<Op>): nat {
    if ops == [] then 0 else BatchesIn(Front(ops)) + if Final(ops).DetailBatch? then 1 else 0
  }

  /** There was no headroom, or the baselines outgrew 256 MiB. */
  ghost predicate WarrantedAt(log: seq<Op>, ops: seq<Op>, j: nat, w: World)
    requires j < |ops|
  {
    w.full(BatchesIn(ops[..j])) || BaselineBytes(Replay(log + ops[..j]).samples) > 268_435_456
  }

  ghost predicate Warranted(log: seq<Op>, ops: seq<Op>, w: World) {
    forall j: nat :: j < |ops| && ops[j].DetailBatch? ==> WarrantedAt(log, ops, j, w)
  }

  lemma NothingWarranted(log: seq<Op>, w: World)
    ensures Warranted(log, [], w) && BatchesIn([]) == 0
  {
  }

  lemma WarrantMore(log: seq<Op>, ops: seq<Op>, op: Op, w: World)
    requires Warranted(log, ops, w)
    requires op.DetailBatch? ==> w.full(BatchesIn(ops)) || BaselineBytes(Replay(log + ops).samples) > 268_435_456
    ensures Warranted(log, ops + [op], w)
    ensures BatchesIn(ops + [op]) == BatchesIn(ops) + if op.DetailBatch? then 1 else 0
  {
    hide Replay, BaselineBytes;
    var ops' := ops + [op];
    assert Front(ops') == ops && Final(ops') == op;
    forall j: nat | j < |ops'| && ops'[j].DetailBatch? ensures WarrantedAt(log, ops', j, w) {
      if j < |ops| {
        assert WarrantedAt(log, ops, j, w);
        assert ops'[..j] == ops[..j];
      } else {
        assert ops'[..j] == ops;
      }
    }
  }

  lemma StepWarranted(log: seq<Op>, ops: seq<Op>, step: seq<Op>, now: int, w: World)
    requires Warranted(log, ops, w) && (step == [DetailBatch] || step == [DetailBatch, BaselineBatch(now)])
    requires w.full(BatchesIn(ops)) || BaselineBytes(Replay(log + ops).samples) > 268_435_456
    ensures Warranted(log, ops + step, w) && BatchesIn(ops + step) == BatchesIn(ops) + 1
  {
    hide Warranted, BatchesIn, Replay, BaselineBytes;
    WarrantMore(log, ops, DetailBatch, w);
    if |step| == 2 {
      WarrantMore(log, ops + [DetailBatch], BaselineBatch(now), w);
      assert ops + [DetailBatch] + [BaselineBatch(now)] == ops + step;
    }
  }

  /** The reclamation rounds of a prune under pressure, from round i on. */
  ghost function Rounds(w: World, i: nat): nat
    decreases 128 - i
  {
    if i >= 128 || w.late(i) || w.events(i) then 0
    else if w.busy(i + 1) || !w.full(i + 1) then 1
    else 1 + Rounds(w, i + 1)
  }

  ghost predicate NoneOlder(rows: seq<Row>, cutoff: int) {
    forall r :: r in rows ==> r.at >= cutoff
  }

  ghost predicate NoRollupBefore(rollups: map<Minute, Rollup>, cutoff: int) {
    forall m :: m in rollups ==> Start(m) >= cutoff
  }

  /** How a round of the age loop ends: it found nothing, it may go on, or its checkpoint was busy. */
  datatype AgeRound = Idle | Going | Halted

  ghost predicate AgeOps(ops: seq<Op>, now: int) {
    forall op :: op in ops ==> op == AgedBatch(now) || op.Checkpoint?
  }

  lemma NoAgeOps(now: int)
    ensures AgeOps([], now)
  {
  }

  lemma MoreAgeOps(a: seq<Op>, b: seq<Op>, now: int)
    requires AgeOps(a, now) && AgeOps(b, now)
    ensures AgeOps(a + b, now)
  {
  }

  lemma ExpiryLeaves(before: map<Minute, Rollup>, after: map<Minute, Rollup>, cutoff: int, removed: nat)
    requires TookEarliest(before, after, cutoff, removed)
    ensures |after| + removed == |before| && removed <= 16
    ensures removed < 16 || NoRollupBefore(before, cutoff) ==> NoRollupBefore(after, cutoff)
  {
  }

  lemma NothingDue(before: seq<Row>, rows: seq<Row>, gone: set<nat>, now: int, aged: nat)
    requires AgeState(before, rows, gone, now, aged) && aged == |Select(Aged(now - RAW_AGE_NS), before)|
    ensures NoneOlder(rows, now - 172_800_000_000_000)
  {
    hide Select, PruneEffect, AgedOut;
    NothingSelected(Aged(now - RAW_AGE_NS), rows);
  }

  /** Lasting pressure on few enough rows leaves only recent baselines. */
  lemma PressureDrains(before: seq<Row>, entry: seq<Row>, rows: seq<Row>, now: int,
                       gone0: set<nat>, details: set<nat>, baselines: set<nat>, detail: nat, baseline: nat)
    requires PressureState(before, entry, rows, now, gone0, details, baselines, detail, baseline)
    requires PressureCounts(entry, now, MAX_RETENTION_BATCHES, detail, baseline) && |entry| <= DRAINABLE_ROWS
    ensures OnlyRecent(rows, now)
  {
    hide Select, PruneEffect, EvictedOf, PressureCounts;
    CountsDrain(entry, now, detail, baseline);
    NothingSelected(Details, rows);
    NothingSelected(OldBaseline(now - RECENT_BASELINE_NS), rows);
  }

  /** What the outside world answers during one phase of a call, question by question:
      is there no headroom, is the time budget spent, is the checkpoint busy, and did the
      events table change (age pass) or refuse the retention event (eviction). */
  datatype World = World(full: nat -> bool, late: nat -> bool, busy: nat -> bool, events: nat -> bool)

  datatype PruneWorld = PruneWorld(opening: World, age: World, pressure: World, closing: World)

  datatype WriteWorld = WriteWorld(direct: World, evict: World, prune: PruneWorld)

  /** Neither time nor checkpoints get in the way. */
  ghost predicate Unhindered(w: World) {
    forall i :: !w.late(i) && !w.busy(i)
  }

  ghost predicate UnhinderedPrune(w: PruneWorld) {
    Unhindered(w.opening) && Unhindered(w.age) && Unhindered(w.pressure)
  }

  ghost predicate AlwaysFull(w: World) {
    forall i :: w.full(i)
  }

  /** There is always room and no reader pins the log. */
  ghost predicate Clear(w: World) {
    forall i :: !w.full(i) && !w.busy(i) && !w.events(i)
  }

  /** A baseline write that finds no headroom and prunes unhindered under lasting pressure. */
  ghost predicate Drains(sample: Row, w: WriteWorld) {
    sample.mode.Baseline? && w.direct.full(0) && UnhinderedPrune(w.prune) && AlwaysFull(w.prune.pressure)
  }

  /** The ids a phase counted: that many rows, all of one mode. */
  ghost predicate EvictedOf(before: seq<Row>, part: set<nat>, mode: Mode, n: nat) {
    |part| == n && forall r :: r in before && r.id in part ==> r.mode == mode
  }

  ghost predicate AgedOut(before: seq<Row>, part: set<nat>, now: int, n: nat) {
    |part| == n && forall r :: r in before && r.id in part ==> r.at < now - RAW_AGE_NS
  }

  /** `gone` are the oldest detail rows of `before`, and nothing else is missing. */
  ghost predicate DetailPrefix(before: seq<Row>, after: seq<Row>, gone: set<nat>) {
    && gone <= Ids(before) && after == Without(before, gone)
    && (forall d :: d in before && d.id in gone ==> d.mode.Detail?)
    && (forall d, k :: (d in before && d.id in gone && k in after && k.mode.Detail?) ==> Earlier(d, k))
  }

  /** When the batch at position i ran, the incoming blob did not fit. */
  ghost predicate NeededAt(log: seq<Op>, ops: seq<Op>, i: nat, incoming: nat, quota: nat)
    requires i < |ops|
  {
    DetailBytes(Replay(log + ops[..i]).samples) + incoming > quota
  }

  ghost predicate AllNeeded(log: seq<Op>, ops: seq<Op>, incoming: nat, quota: nat) {
    forall i :: 0 <= i < |ops| && ops[i] == DetailBatch ==> NeededAt(log, ops, i, incoming, quota)
  }

  lemma NothingNeeded(log: seq<Op>, incoming: nat, quota: nat)
    ensures AllNeeded(log, [], incoming, quota)
  {
  }

  lemma NotABatch(log: seq<Op>, ops: seq<Op>, op: Op, incoming: nat, quota: nat)
    requires AllNeeded(log, ops, incoming, quota) && op != DetailBatch
    ensures AllNeeded(log, ops + [op], incoming, quota)
  {
    hide Replay, DetailBytes;
    var ops' := ops + [op];
    forall i | 0 <= i < |ops'| && ops'[i] == DetailBatch
      ensures NeededAt(log, ops', i, incoming, quota)
    {
      assert NeededAt(log, ops, i, incoming, quota);
      assert ops'[..i] == ops[..i];
    }
  }

  /** How a round of eviction ends: the checkpoint before it was busy, no detail was left, a
      batch went, or a batch went and the checkpoint after it was busy. */
  datatype Round = Pinned | Empty | Dropped | Stalled

  /** What an eviction has done so far. */
  ghost predicate EvictTrace(log0: seq<Op>, blocked: bool, log: seq<Op>, ops: seq<Op>, incoming: nat, quota: nat) {
    && log == log0 + ops && Guarded(blocked, ops) && AllNeeded(log0, ops, incoming, quota)
    && forall op :: op in ops ==> op == DetailBatch || op.Checkpoint?
  }

  lemma TraceBegins(log: seq<Op>, blocked: bool, incoming: nat, quota: nat)
    ensures EvictTrace(log, blocked, log, [], incoming, quota)
  {
    NothingYet(blocked);
    NothingNeeded(log, incoming, quota);
    assert log + [] == log;
  }

  lemma TraceFacts(log0: seq<Op>, blocked: bool, log: seq<Op>, ops: seq<Op>, incoming: nat, quota: nat)
    requires EvictTrace(log0, blocked, log, ops, incoming, quota)
    ensures log == log0 + ops && Guarded(blocked, ops) && AllNeeded(log0, ops, incoming, quota)
    ensures forall op :: op in ops ==> op == DetailBatch || op.Checkpoint?
  {
  }

  lemma TraceCheckpoint(log0: seq<Op>, blocked: bool, log: seq<Op>, ops: seq<Op>, incoming: nat, quota: nat, ok: bool)
    requires EvictTrace(log0, blocked, log, ops, incoming, quota)
    ensures EvictTrace(log0, blocked, log + [Checkpoint(ok)], ops + [Checkpoint(ok)], incoming, quota)
  {
    hide AllNeeded, Guarded;
    CheckpointKeepsGuard(blocked, ops, ok);
    NotABatch(log0, ops, Checkpoint(ok), incoming, quota);
    assert log0 + ops + [Checkpoint(ok)] == log0 + (ops + [Checkpoint(ok)]);
  }

  lemma NothingDropped(rows: seq<Row>)
    ensures DetailPrefix(rows, rows, {})
  {
    WithoutNothing(rows, {});
  }

  lemma DetailBatchFacts(rows: seq<Row>)
    requires Numbered(rows)
    ensures var batch := BatchIds(Details, rows);
            && batch <= Ids(rows) && |batch| <= 16
            && (forall r :: r in rows && r.id in batch ==> r.mode.Detail?)
            && (forall d, k :: (d in rows && d.id in batch && k in rows && k.id !in batch && k.mode.Detail?) ==> Earlier(d, k))
  {
    hide BatchIds, Select, Numbered;
    BatchFacts(Details, rows);
  }

  /** One more batch extends the removed prefix of detail rows. */
  lemma DropPrefix(before: seq<Row>, mid: seq<Row>, gone: set<nat>)
    requires Numbered(before) && Numbered(mid) && DetailPrefix(before, mid, gone)
    ensures var batch := BatchIds(Details, mid);
            && DetailPrefix(before, Without(mid, batch), gone + batch)
            && |gone + batch| == |gone| + |mid| - |Without(mid, batch)| && |mid| - |Without(mid, batch)| <= 16
  {
    hide BatchIds, Without, Select, Numbered, Earlier, Before;
    var batch := BatchIds(Details, mid);
    WithoutMembers(before, gone);
    DetailBatchFacts(mid);
    WithoutMembers(mid, batch);
    WithoutTwice(before, gone, batch);
    WithoutLength(mid, batch);
    BatchIsNew(before, mid, gone, batch);
  }

  /** What n unhindered batches under lasting pressure remove: details 16 at a time, and
      once none is left, baselines older than an hour. */
  ghost predicate PressureCounts(rows: seq<Row>, now: int, n: nat, detail: nat, baseline: nat) {
    var d, o := |Select(Details, rows)|, |Select(OldBaseline(now - RECENT_BASELINE_NS), rows)|;
    var detailBatches := (d + 15) / 16;
    && detail == Min(16 * n, d)
    && baseline == if n <= detailBatches then 0 else Min(16 * (n - detailBatches), o)
  }

  lemma NoPressure(rows: seq<Row>, now: int)
    ensures PressureCounts(rows, now, 0, 0, 0)
  {
    hide Select;
  }

  lemma OnePressureBatch(rows: seq<Row>, now: int, n: nat, detail: nat, baseline: nat, removed: nat, removedOld: nat)
    requires detail <= |Select(Details, rows)| && baseline <= |Select(OldBaseline(now - RECENT_BASELINE_NS), rows)|
    requires removed == Min(16, |Select(Details, rows)| - detail)
    requires if removed > 0 then removedOld == 0
             else removedOld == Min(16, |Select(OldBaseline(now - RECENT_BASELINE_NS), rows)| - baseline)
    ensures PressureCounts(rows, now, n, detail, baseline) ==> PressureCounts(rows, now, n + 1, detail + removed, baseline + removedOld)
    ensures PressureCounts(rows, now, n, detail, baseline) && removed + removedOld == 0 ==>
              forall k :: k >= n ==> PressureCounts(rows, now, k, detail, baseline)
  {
    hide Select;
  }

  /** The pressure pass so far, from `entry`, after `gone0` had been removed from `before`. */
  ghost predicate PressureState(before: seq<Row>, entry: seq<Row>, rows: seq<Row>, now: int,
                                gone0: set<nat>, details: set<nat>, baselines: set<nat>, detail: nat, baseline: nat)
  {
    && PruneEffect(before, rows, gone0 + details + baselines, now)
    && |gone0 + details + baselines| == |gone0| + detail + baseline
    && EvictedOf(before, details, Detail, detail) && EvictedOf(before, baselines, Baseline, baseline)
    && |rows| + detail + baseline == |entry|
    && |Select(Details, rows)| + detail == |Select(Details, entry)|
    && |Select(OldBaseline(now - RECENT_BASELINE_NS), rows)| + baseline == |Select(OldBaseline(now - RECENT_BASELINE_NS), entry)|
  }

  lemma PressureBegins(before: seq<Row>, rows: seq<Row>, gone0: set<nat>, now: int)
    requires PruneEffect(before, rows, gone0, now)
    ensures PressureState(before, rows, rows, now, gone0, {}, {}, 0, 0)
  {
    hide PruneEffect;
    assert gone0 + {} + {} == gone0;
  }

  lemma PressureBounds(before: seq<Row>, entry: seq<Row>, rows: seq<Row>, now: int,
                       gone0: set<nat>, details: set<nat>, baselines: set<nat>, detail: nat, baseline: nat)
    requires PressureState(before, entry, rows, now, gone0, details, baselines, detail, baseline)
    ensures detail <= |Select(Details, entry)| && baseline <= |Select(OldBaseline(now - RECENT_BASELINE_NS), entry)|
  {
  }

  lemma PressureEnds(before: seq<Row>, entry: seq<Row>, rows: seq<Row>, now: int,
                     gone0: set<nat>, details: set<nat>, baselines: set<nat>, detail: nat, baseline: nat)
    requires PressureState(before, entry, rows, now, gone0, details, baselines, detail, baseline)
    ensures PruneEffect(before, rows, gone0 + details + baselines, now)
    ensures EvictedOf(before, details, Detail, detail) && EvictedOf(before, baselines, Baseline, baseline)
    ensures |rows| + detail + baseline == |entry|
  {
  }

  /** The batch of detail rows extends the state. */
  lemma DetailStep(before: seq<Row>, entry: seq<Row>, mid: seq<Row>, now: int,
                   gone0: set<nat>, details: set<nat>, baselines: set<nat>, detail: nat, baseline: nat)
    requires Numbered(before) && Numbered(mid)
    requires PressureState(before, entry, mid, now, gone0, details, baselines, detail, baseline)
    ensures var batch := BatchIds(Details, mid);
            && |batch| == |mid| - |Without(mid, batch)| == Min(RETENTION_BATCH_ROWS, |Select(Details, entry)| - detail)
            && PressureState(before, entry, Without(mid, batch), now, gone0, details + batch, baselines, detail + |batch|, baseline)
  {
    hide Numbered, PruneEffect, BatchIds, Select, Without, EvictedOf;
    var gone, batch := gone0 + details + baselines, BatchIds(Details, mid);
    PruneBatch(before, mid, gone, now, Details);
    ModeBatchCounts(before, mid, gone, now, Details);
    assert gone + batch == gone0 + (details + batch) + baselines;
    assert details + (gone0 + baselines) == gone;
    MoreEvicted(before, details, batch, Detail, detail, |batch|, gone0 + baselines);
  }

  /** So does the batch of old baselines, once no detail is left. */
  lemma BaselineStep(before: seq<Row>, entry: seq<Row>, mid: seq<Row>, now: int,
                     gone0: set<nat>, details: set<nat>, baselines: set<nat>, detail: nat, baseline: nat)
    requires Numbered(before) && Numbered(mid) && !HasDetail(mid)
    requires PressureState(before, entry, mid, now, gone0, details, baselines, detail, baseline)
    ensures var batch := BatchIds(OldBaseline(now - RECENT_BASELINE_NS), mid);
            && |batch| == |mid| - |Without(mid, batch)|
            && |batch| == Min(RETENTION_BATCH_ROWS, |Select(OldBaseline(now - RECENT_BASELINE_NS), entry)| - baseline)
            && PressureState(before, entry, Without(mid, batch), now, gone0, details, baselines + batch, detail, baseline + |batch|)
  {
    hide Numbered, PruneEffect, BatchIds, Select, Without, EvictedOf, HasDetail;
    var f := OldBaseline(now - RECENT_BASELINE_NS);
    var gone, batch := gone0 + details + baselines, BatchIds(f, mid);
    PruneBatch(before, mid, gone, now, f);
    ModeBatchCounts(before, mid, gone, now, f);
    assert gone + batch == gone0 + details + (baselines + batch);
    assert baselines + (gone0 + details) == gone;
    MoreEvicted(before, baselines, batch, Baseline, baseline, |batch|, gone0 + details);
  }

  lemma NobodyEvicted(rows: seq<Row>)
    ensures EvictedOf(rows, {}, Detail, 0) && EvictedOf(rows, {}, Baseline, 0)
  {
  }

  lemma NobodyAged(rows: seq<Row>, now: int)
    ensures AgedOut(rows, {}, now, 0)
  {
  }

  lemma AfterEffect(before: seq<Row>, after: seq<Row>, gone: set<nat>, now: int)
    requires PruneEffect(before, after, gone, now)
    ensures after == Without(before, gone)
  {
  }

  lemma Disjoint(a: set<nat>, b: set<nat>)
    requires |a + b| == |a| + |b|
    ensures a !! b
  {
    assert a + b == a + (b - a);
    assert b == (b - a) + a * b;
  }

  lemma MoreEvicted(before: seq<Row>, part: set<nat>, ids: set<nat>, mode: Mode, n: nat, m: nat, rest: set<nat>)
    requires EvictedOf(before, part, mode, n) && EvictedOf(before, ids, mode, m)
    requires |part + rest + ids| == |part + rest| + |ids|
    ensures EvictedOf(before, part + ids, mode, n + m)
  {
    Disjoint(part + rest, ids);
    assert part !! ids;
  }

  /** Deleting matching rows shrinks the selection by as many. */
  lemma {:induction false} SelectShrinks(f: Filter, rows: seq<Row>, gone: set<nat>)
    requires Numbered(rows) && gone <= Ids(rows)
    requires forall r :: r in rows && r.id in gone ==> Matches(f, r)
    ensures |Select(f, Without(rows, gone))| + |gone| == |Select(f, rows)|
  {
    hide Numbered, Matches;
    if rows == [] {
      assert gone == {};
    } else {
      var init, last := rows[..|rows| - 1], rows[|rows| - 1];
      LastIsNew(rows);
      assert last in rows && forall r :: r in init ==> r in rows;
      if last.id in gone {
        SelectShrinks(f, init, gone - {last.id});
        WithoutIrrelevant(init, gone, last.id);
      } else {
        SelectShrinks(f, init, gone);
        SelectAppend(f, Without(init, gone), last);
      }
    }
  }

  lemma StillNoneOlder(before: seq<Row>, mid: seq<Row>, after: seq<Row>, gone: set<nat>, more: set<nat>, now: int, cutoff: int)
    requires PruneEffect(before, mid, gone, now) && PruneEffect(before, after, more, now) && gone <= more
    ensures NoneOlder(mid, cutoff) ==> NoneOlder(after, cutoff)
  {
    hide Ids, HasDetail;
    WithoutMembers(before, gone);
    WithoutMembers(before, more);
  }

  lemma CountsBound(rows: seq<Row>, now: int, n: nat, detail: nat, baseline: nat)
    requires PressureCounts(rows, now, n, detail, baseline)
    ensures detail + baseline <= 16 * n
  {
    hide Select;
  }

  /** The age pass so far: `aged` rows of `before`, the ids in `gone`, have been removed. */
  ghost predicate AgeState(before: seq<Row>, rows: seq<Row>, gone: set<nat>, now: int, aged: nat) {
    && PruneEffect(before, rows, gone, now) && AgedOut(before, gone, now, aged)
    && |rows| + aged == |before|
    && |Select(Aged(now - RAW_AGE_NS), rows)| + aged == |Select(Aged(now - RAW_AGE_NS), before)|
  }

  lemma AgeBegins(rows: seq<Row>, now: int)
    ensures AgeState(rows, rows, {}, now, 0)
  {
    NothingPruned(rows, now);
  }

  lemma AgeEnds(before: seq<Row>, rows: seq<Row>, gone: set<nat>, now: int, aged: nat)
    requires AgeState(before, rows, gone, now, aged)
    ensures PruneEffect(before, rows, gone, now) && AgedOut(before, gone, now, aged) && |rows| + aged == |before|
  {
  }

  lemma AgeStep(before: seq<Row>, mid: seq<Row>, gone: set<nat>, now: int, aged: nat)
    requires Numbered(before) && Numbered(mid) && AgeState(before, mid, gone, now, aged)
    ensures var f := Aged(now - RAW_AGE_NS);
            var batch := BatchIds(f, mid);
            && |batch| == Min(RETENTION_BATCH_ROWS, |Select(f, before)| - aged)
            && |batch| == |mid| - |Without(mid, batch)|
            && AgeState(before, Without(mid, batch), gone + batch, now, aged + |batch|)
  {
    hide BatchIds, Without, Select, Numbered, PruneEffect;
    var f := Aged(now - RAW_AGE_NS);
    var batch := BatchIds(f, mid);
    PruneBatch(before, mid, gone, now, f);
    BatchFacts(f, mid);
    WithoutLength(mid, batch);
    SelectShrinks(f, mid, batch);
    AgedMore(before, mid, gone, now, aged);
  }

  lemma AgedMore(before: seq<Row>, mid: seq<Row>, gone: set<nat>, now: int, n: nat)
    requires Numbered(mid) && PruneEffect(before, mid, gone, now) && AgedOut(before, gone, now, n)
    ensures var batch := BatchIds(Aged(now - RAW_AGE_NS), mid); AgedOut(before, gone + batch, now, n + |batch|)
  {
    hide BatchIds, Without, Select, Numbered;
    var batch := BatchIds(Aged(now - RAW_AGE_NS), mid);
    BatchFacts(Aged(now - RAW_AGE_NS), mid);
    WithoutMembers(before, gone);
    BatchIsNew(before, mid, gone, batch);
    forall r | r in before && r.id in gone + batch ensures r.at < now - RAW_AGE_NS {
      if r.id !in gone {
        assert r in mid;
      }
    }
  }

  predicate PressureFilter(f: Filter, now: int) {
    f == Details || f == OldBaseline(now - RECENT_BASELINE_NS)
  }

  function ModeOf(f: Filter): Mode {
    if f == Details then Detail else Baseline
  }

  lemma ModeBatchCounts(before: seq<Row>, mid: seq<Row>, gone: set<nat>, now: int, f: Filter)
    requires Numbered(before) && Numbered(mid) && PruneEffect(before, mid, gone, now) && PressureFilter(f, now)
    ensures var batch := BatchIds(f, mid);
            var other := if f == Details then OldBaseline(now - RECENT_BASELINE_NS) else Details;
            && EvictedOf(before, batch, ModeOf(f), |batch|) && |batch| == |mid| - |Without(mid, batch)|
            && |mid| - |Without(mid, batch)| == Min(RETENTION_BATCH_ROWS, |Select(f, mid)|)
            && |Select(f, Without(mid, batch))| + |mid| - |Without(mid, batch)| == |Select(f, mid)|
            && Select(other, Without(mid, batch)) == Select(other, mid)
            && gone !! batch && |gone + batch| == |gone| + |batch|
  {
    hide BatchIds, Without, Select, Numbered;
    var batch := BatchIds(f, mid);
    var other := if f == Details then OldBaseline(now - RECENT_BASELINE_NS) else Details;
    BatchFacts(f, mid);
    WithoutMembers(before, gone);
    WithoutLength(mid, batch);
    BatchIsNew(before, mid, gone, batch);
    SelectShrinks(f, mid, batch);
    SelectWithout(other, mid, batch);
    forall r | r in before && r.id in batch ensures r.mode == ModeOf(f) {
      assert r in mid;
    }
  }

  const MAX_PASS_ROWS: nat := MAX_RETENTION_BATCHES * RETENTION_BATCH_ROWS

  class Store {
    var samples: seq<Row>
    var rollups: map<Minute, Rollup>
    var nextId: nat
    var detailBytes: nat
    var checkpointBlocked: bool
    var pendingBucket: Option<Minute>
    var pendingCount: nat
    ghost var log: seq<Op>

    ghost function Abs(): State
      reads this`samples, this`rollups, this`nextId, this`checkpointBlocked, this`pendingBucket, this`pendingCount
    {
      State(samples, rollups, nextId, checkpointBlocked,
            if pendingBucket.None? then Nothing else Pending(pendingBucket.value, pendingCount))
    }

    /** The fields are the outcome of the operations performed since the store was created. */
    ghost predicate Linked()
      reads this`samples, this`rollups, this`nextId, this`checkpointBlocked, this`pendingBucket, this`pendingCount, this`log
    {
      Performed(log) && Replay(log) == Abs() && (pendingBucket.None? ==> pendingCount == 0)
    }

    /** Between calls the quota counter is exact as well. */
    ghost predicate Valid()
      reads this
    {
      Linked() && detailBytes == DetailBytes(samples)
    }

    constructor ()
      ensures Valid() && log == [] && nextId == 0
    {
      samples, rollups, nextId, detailBytes := [], map[], 0, 0;
      checkpointBlocked, pendingBucket, pendingCount, log := false, None, 0, [];
    }

    // ------------------------------------------------- single statements

    /** One transaction of the age loop. */
    method DeleteAged(now: int) returns (removed: nat, expired: nat)
      requires Linked()
      modifies this`samples, this`rollups, this`log
      ensures Linked() && Abs() == Apply(old(Abs()), AgedBatch(now)) && log == old(log) + [AgedBatch(now)]
      ensures samples == Without(old(samples), BatchIds(Aged(now - RAW_AGE_NS), old(samples)))
      ensures TookOldest(Aged(now - RAW_AGE_NS), old(samples), samples, removed) && |samples| + removed == old(|samples|)
      ensures TookEarliest(old(rollups), rollups, now - ROLLUP_AGE_NS, expired)
    {
      hide BatchIds, Without, ExpiredBuckets, Replay, Performed, AfterCommit, AfterFlush, AfterReopen, Numbered, Select, TookOldest, TookEarliest;
      LinkedRowsAreNumbered();
      BatchTakesOldest(Aged(now - RAW_AGE_NS), samples);
      ExpiryTakesEarliest(rollups, now - ROLLUP_AGE_NS);
      var gone := BatchIds(Aged(now - RAW_AGE_NS), samples);
      var buckets := ExpiredBuckets(rollups, now - ROLLUP_AGE_NS);
      WithoutShorter(samples, gone);
      removed, expired := |samples| - |Without(samples, gone)|, |buckets|;
      samples, rollups := Without(samples, gone), rollups - buckets;
      ReplayAppend(log, AgedBatch(now));
      log := log + [AgedBatch(now)];
    }

    method DeleteDetails() returns (removed: nat)
      requires Linked()
      modifies this`samples, this`log
      ensures Linked() && Abs() == Apply(old(Abs()), DetailBatch) && log == old(log) + [DetailBatch]
      ensures samples == Without(old(samples), BatchIds(Details, old(samples)))
      ensures TookOldest(Details, old(samples), samples, removed)
    {
      hide BatchIds, Without, ExpiredBuckets, Replay, Performed, AfterCommit, AfterFlush, AfterReopen, Numbered, Select, TookOldest, TookEarliest;
      LinkedRowsAreNumbered();
      BatchTakesOldest(Details, samples);
      var gone := BatchIds(Details, samples);
      WithoutShorter(samples, gone);
      removed := |samples| - |Without(samples, gone)|;
      samples := Without(samples, gone);
      ReplayAppend(log, DetailBatch);
      log := log + [DetailBatch];
    }

    method DeleteOldBaselines(now: int) returns (removed: nat)
      requires Linked() && !HasDetail(samples)
      modifies this`samples, this`log
      ensures Linked() && Abs() == Apply(old(Abs()), BaselineBatch(now)) && log == old(log) + [BaselineBatch(now)]
      ensures samples == Without(old(samples), BatchIds(OldBaseline(now - RECENT_BASELINE_NS), old(samples)))
      ensures TookOldest(OldBaseline(now - RECENT_BASELINE_NS), old(samples), samples, removed)
    {
      hide BatchIds, Without, ExpiredBuckets, Replay, Performed, AfterCommit, AfterFlush, AfterReopen, Numbered, Select, TookOldest, TookEarliest;
      LinkedRowsAreNumbered();
      BatchTakesOldest(OldBaseline(now - RECENT_BASELINE_NS), samples);
      var gone := BatchIds(OldBaseline(now - RECENT_BASELINE_NS), samples);
      WithoutShorter(samples, gone);
      removed := |samples| - |Without(samples, gone)|;
      samples := Without(samples, gone);
      ReplayAppend(log, BaselineBatch(now));
      log := log + [BaselineBatch(now)];
    }

    method TruncateCheckpoint(busy: bool) returns (ok: bool)
      requires Linked()
      modifies this`checkpointBlocked, this`log
      ensures Linked() && ok == !busy == !checkpointBlocked && log == old(log) + [Checkpoint(ok)]
    {
      hide BatchIds, Without, ExpiredBuckets, Replay, Performed, AfterCommit, AfterFlush, AfterReopen;
      ReplayAppend(log, Checkpoint(!busy));
      checkpointBlocked := busy;
      ok := !busy;
      log := log + [Checkpoint(ok)];
    }

    lemma LinkedRowsAreNumbered()
      requires Linked()
      ensures Numbered(samples)
    {
      hide Sound, Replay, Performed, Numbered;
      SoundRun(log);
      NumberedRun(Abs(), History(log));
    }

    // ------------------------------------------------------------- prune

    /** Age eviction: at most 128 transactions of 16 rows, and that many whenever so many
        rows are due and nothing interferes. */
    method AgePass(now: int, w: World) returns (aged: nat, ghost gone: set<nat>, ghost batches: nat, ghost ops: seq<Op>)
      requires Linked()
      modifies this`samples, this`rollups, this`checkpointBlocked, this`log
      ensures Linked() && log == old(log) + ops
      ensures AgeOps(ops, now)
      ensures PruneEffect(old(samples), samples, gone, now) && AgedOut(old(samples), gone, now, aged)
      ensures |samples| + aged == old(|samples|) && aged <= MAX_PASS_ROWS
      ensures Unhindered(w) ==> aged == Min(MAX_PASS_ROWS, |Select(Aged(now - RAW_AGE_NS), old(samples))|)
      ensures Unhindered(w) && !old(checkpointBlocked) ==> !checkpointBlocked
      ensures Unhindered(w) && |old(samples)| <= 2048 ==> NoneOlder(samples, now - 172_800_000_000_000)
      ensures Unhindered(w) && |old(rollups)| < 2048 ==> NoRollupBefore(rollups, now - 1_209_600_000_000_000)
      ensures forall i: nat :: w.late(i) ==> aged <= 16 * i
      ensures forall i: nat :: w.full(i) && w.busy(i) ==> aged <= 16 * i + 16
      ensures batches <= |ops| && batches <= 128
      ensures || batches == 128 || w.late(batches) || !w.events(batches)
              || (batches > 0 && w.full(batches - 1) && w.busy(batches - 1))
    {
      hide Numbered, Linked, AgeState, BatchIds, Select, Without, NoneOlder, NoRollupBefore, PruneEffect, AgedOut, AgeOps;
      aged, gone, batches, ops := 0, {}, 0, [];
      ghost var before, due := samples, |Select(Aged(now - RAW_AGE_NS), samples)|;
      ghost var table := rollups;
      LinkedRowsAreNumbered();
      AgeBegins(samples, now);
      NoAgeOps(now);
      assert log == old(log) + ops;
      for i := 0 to MAX_RETENTION_BATCHES
        invariant Linked() && log == old(log) + ops && AgeOps(ops, now)
        invariant AgeState(before, samples, gone, now, aged) && aged <= i * RETENTION_BATCH_ROWS
        invariant Unhindered(w) ==> aged == Min(i * RETENTION_BATCH_ROWS, due)
        invariant Unhindered(w) && !old(checkpointBlocked) ==> !checkpointBlocked
        invariant NoRollupBefore(rollups, now - ROLLUP_AGE_NS) || |rollups| + 16 * i <= |table|
        invariant forall j: nat :: j < i ==> !w.late(j) && !(w.full(j) && w.busy(j))
        invariant batches == i <= |ops|
      {
        if w.late(i) {
          break;
        }
        var round, removed;
        ghost var step: seq<Op>;
        round, removed, gone, step := AgeRound(now, w, i, before, gone, aged);
        MoreAgeOps(ops, step, now);
        ops := ops + step;
        if round.Idle? {
          break;
        }
        aged, batches := aged + removed, i + 1;
        if round.Halted? {
          break;
        }
      }
      AgeEnds(before, samples, gone, now, aged);
      if Unhindered(w) && |before| <= 2048 {
        NothingDue(before, samples, gone, now, aged);
      }
    }

    /** One round of the age loop: a transaction, and under pressure a checkpoint. */
    method AgeRound(now: int, w: World, i: nat, ghost before: seq<Row>, ghost gone0: set<nat>, ghost aged: nat)
      returns (round: AgeRound, removed: nat, ghost gone: set<nat>, ghost step: seq<Op>)
      requires Linked() && Numbered(before) && AgeState(before, samples, gone0, now, aged)
      modifies this`samples, this`rollups, this`checkpointBlocked, this`log
      ensures Linked() && log == old(log) + step && AgeOps(step, now) && |step| >= 1
      ensures AgeState(before, samples, gone, now, aged + removed)
      ensures removed == Min(RETENTION_BATCH_ROWS, |Select(Aged(now - RAW_AGE_NS), before)| - aged)
      ensures NoRollupBefore(rollups, now - ROLLUP_AGE_NS) || |rollups| + 16 == |old(rollups)|
      ensures NoRollupBefore(old(rollups), now - ROLLUP_AGE_NS) ==> NoRollupBefore(rollups, now - ROLLUP_AGE_NS)
      ensures round.Idle? ==> removed == 0 && !w.events(i) && NoRollupBefore(rollups, now - ROLLUP_AGE_NS)
      ensures round.Halted? <==> !round.Idle? && w.full(i) && w.busy(i)
      ensures checkpointBlocked == if !round.Idle? && w.full(i) then w.busy(i) else old(checkpointBlocked)
    {
      hide Numbered, Linked, AgeState, BatchIds, Select, Without, NoRollupBefore;
      var expired;
      removed, expired, gone := AgeBatch(now, before, gone0, aged);
      step := [AgedBatch(now)];
      if removed + expired == 0 && !w.events(i) {
        round := Idle;
        return;
      }
      round := Going;
      if w.full(i) {
        var ok := TruncateCheckpoint(w.busy(i));
        step := step + [Checkpoint(ok)];
        round := if ok then Going else Halted;
      }
    }

    method AgeBatch(now: int, ghost before: seq<Row>, ghost gone0: set<nat>, ghost aged: nat)
      returns (removed: nat, expired: nat, ghost gone: set<nat>)
      requires Linked() && Numbered(before) && AgeState(before, samples, gone0, now, aged)
      modifies this`samples, this`rollups, this`log
      ensures Linked() && log == old(log) + [AgedBatch(now)]
      ensures AgeState(before, samples, gone, now, aged + removed)
      ensures removed == Min(RETENTION_BATCH_ROWS, |Select(Aged(now - RAW_AGE_NS), before)| - aged)
      ensures |rollups| + expired == |old(rollups)| && expired <= 16
      ensures expired < 16 || NoRollupBefore(old(rollups), now - ROLLUP_AGE_NS) ==> NoRollupBefore(rollups, now - ROLLUP_AGE_NS)
    {
      hide Numbered, Linked, AgeState, BatchIds, Select, Without, Apply, TookOldest, TookEarliest, NoRollupBefore;
      LinkedRowsAreNumbered();
      AgeStep(before, samples, gone0, now, aged);
      gone := gone0 + BatchIds(Aged(now - RAW_AGE_NS), samples);
      ghost var table := rollups;
      removed, expired := DeleteAged(now);
      ExpiryLeaves(table, rollups, now - ROLLUP_AGE_NS, expired);
    }

    /** One pressure batch: detail rows while there are any, else baselines older than an hour. */
    method PressureBatch(now: int, ghost before: seq<Row>, ghost entry: seq<Row>, ghost gone0: set<nat>,
                         ghost details0: set<nat>, ghost baselines0: set<nat>, ghost detail0: nat, ghost baseline0: nat)
      returns (detail: nat, baseline: nat, ghost details: set<nat>, ghost baselines: set<nat>, ghost ops: seq<Op>)
      requires Valid() && Numbered(before)
      requires PressureState(before, entry, samples, now, gone0, details0, baselines0, detail0, baseline0)
      modifies this`samples, this`detailBytes, this`log
      ensures Valid() && log == old(log) + ops
      ensures ops == [DetailBatch] || ops == [DetailBatch, BaselineBatch(now)]
      ensures PressureState(before, entry, samples, now, gone0, details, baselines, detail0 + detail, baseline0 + baseline)
      ensures detail == Min(RETENTION_BATCH_ROWS, |Select(Details, entry)| - detail0)
      ensures detail > 0 ==> baseline == 0
      ensures detail == 0 ==>
                baseline == Min(RETENTION_BATCH_ROWS, |Select(OldBaseline(now - RECENT_BASELINE_NS), entry)| - baseline0)
    {
      hide Numbered, PressureState, Linked, Apply, BatchIds, Select, Without, DetailBytes, HasDetail;
      ghost var mid := samples;
      LinkedRowsAreNumbered();
      EmptyBatch(mid);
      DetailStep(before, entry, mid, now, gone0, details0, baselines0, detail0, baseline0);
      details, baselines, baseline := details0 + BatchIds(Details, mid), baselines0, 0;
      detail := DeleteDetails();
      ops := [DetailBatch];
      if detail > 0 {
        detailBytes := DetailBytes(samples);
      } else {
        mid := samples;
        BaselineStep(before, entry, mid, now, gone0, details, baselines, detail0, baseline0);
        NoDetailBytes(mid, BatchIds(OldBaseline(now - RECENT_BASELINE_NS), mid));
        baseline := DeleteOldBaselines(now);
        baselines := baselines + BatchIds(OldBaseline(now - RECENT_BASELINE_NS), mid);
        ops := [DetailBatch, BaselineBatch(now)];
      }
    }

    /** Pressure eviction: batches until there is headroom and the baselines fit their
        reserve.  Details go first, 16 at a time, and the remaining of the 128 batches take
        old baselines.  It stops only for one of five reasons, and no batch runs without need. */
    method PressurePass(now: int, w: World, ghost before: seq<Row>, ghost gone0: set<nat>)
      returns (detail: nat, baseline: nat, ghost details: set<nat>, ghost baselines: set<nat>, ghost batches: nat, ghost ops: seq<Op>)
      requires Valid() && Numbered(before) && PruneEffect(before, samples, gone0, now)
      modifies this`samples, this`detailBytes, this`checkpointBlocked, this`log
      ensures Valid() && log == old(log) + ops
      ensures forall op :: op in ops ==> PruneOp(op, now)
      ensures PruneEffect(before, samples, gone0 + details + baselines, now)
      ensures |samples| + detail + baseline == old(|samples|)
      ensures EvictedOf(before, details, Detail, detail) && EvictedOf(before, baselines, Baseline, baseline)
      ensures batches <= 128 && PressureCounts(old(samples), now, batches, detail, baseline)
      ensures || checkpointBlocked || w.late(batches) || batches == 128 || OnlyRecent(samples, now)
              || (!w.full(batches) && BaselineBytes(samples) <= 268_435_456)
      ensures (forall j: nat :: j < batches ==> !w.late(j)) && (forall j: nat :: j + 1 < batches ==> !w.busy(j))
      ensures checkpointBlocked == if batches == 0 then old(checkpointBlocked) else w.busy(batches - 1)
      ensures old(checkpointBlocked) ==> batches == 0
      ensures Warranted(old(log), ops, w)
      ensures Unhindered(w) && AlwaysFull(w) && !old(checkpointBlocked) ==> PressureCounts(old(samples), now, 128, detail, baseline)
      ensures Unhindered(w) && !old(checkpointBlocked) && |old(samples)| <= DRAINABLE_ROWS ==>
                OnlyRecent(samples, now) || (BaselineBytes(samples) <= 268_435_456 && !AlwaysFull(w))
    {
      hide Numbered, PruneEffect, Valid, BaselineBytes, PressureState, PressureCounts, Select, OnlyRecent, Warranted, BatchesIn, Replay;
      detail, baseline, details, baselines, batches, ops := 0, 0, {}, {}, 0, [];
      assert log == old(log) + ops;
      PressureBegins(before, samples, gone0, now);
      NoPressure(samples, now);
      NothingWarranted(log, w);
      ghost var entry := samples;
      ghost var drained := false;
      for i := 0 to MAX_RETENTION_BATCHES
        invariant Valid() && log == old(log) + ops && batches == i && !drained
        invariant forall op :: op in ops ==> PruneOp(op, now)
        invariant PressureState(before, entry, samples, now, gone0, details, baselines, detail, baseline)
        invariant Warranted(old(log), ops, w) && BatchesIn(ops) == i
        invariant forall j: nat :: j < i ==> !w.late(j) && !w.busy(j)
        invariant checkpointBlocked == if i == 0 then old(checkpointBlocked) else false
        invariant i > 0 ==> !old(checkpointBlocked)
        invariant PressureCounts(entry, now, i, detail, baseline)
      {
        if checkpointBlocked || w.late(i) {
          break;
        }
        if !w.full(i) && BaselineBytes(samples) <= BASELINE_RESERVE_BYTES {
          break;
        }
        PressureBounds(before, entry, samples, now, gone0, details, baselines, detail, baseline);
        RowsReplayed();
        var removed, removedOld;
        ghost var step: seq<Op>;
        removed, removedOld, details, baselines, step :=
          PressureBatch(now, before, entry, gone0, details, baselines, detail, baseline);
        StepWarranted(old(log), ops, step, now, w);
        ops := ops + step;
        OnePressureBatch(entry, now, i, detail, baseline, removed, removedOld);
        detail, baseline := detail + removed, baseline + removedOld;
        if removed + removedOld == 0 {
          drained := true;
          break;
        }
        batches := i + 1;
        var ok := TryCheckpoint(w.busy(i));
        WarrantMore(old(log), ops, Checkpoint(ok), w);
        ops := ops + [Checkpoint(ok)];
        if !ok {
          break;
        }
      }
      PressureEnds(before, entry, samples, now, gone0, details, baselines, detail, baseline);
      if drained {
        NothingOldLeft(before, entry, samples, now, gone0, details, baselines, detail, baseline);
        CountsSaturate(entry, now, batches, 128, detail, baseline);
      }
      if batches == 128 && |entry| <= DRAINABLE_ROWS {
        PressureDrains(before, entry, samples, now, gone0, details, baselines, detail, baseline);
      }
    }

    lemma RowsReplayed()
      requires Valid()
      ensures Replay(log).samples == samples
    {
    }

    /** A checkpoint between calls or batches. */
    method TryCheckpoint(busy: bool) returns (ok: bool)
      requires Valid()
      modifies this`checkpointBlocked, this`log
      ensures Valid() && ok == !busy == !checkpointBlocked && log == old(log) + [Checkpoint(ok)]
    {
      hide Linked, DetailBytes;
      ok := TruncateCheckpoint(busy);
    }

    /** The checkpoint a prune tries first, and the freelist reclamation under pressure.
        A busy first checkpoint ends the prune; a later one only ends the reclamation. */
    method OpenPrune(w: World) returns (proceed: bool, ghost ops: seq<Op>)
      requires Valid()
      modifies this`checkpointBlocked, this`log
      ensures Valid() && log == old(log) + ops
      ensures forall op :: op in ops ==> op.Checkpoint?
      ensures proceed <==> !((old(checkpointBlocked) || w.full(0)) && w.busy(0))
      ensures |ops| == (if old(checkpointBlocked) || w.full(0) then 1 else 0) + (if proceed && w.full(0) then Rounds(w, 0) else 0)
      ensures proceed && old(checkpointBlocked) ==> Checkpoint(true) in ops
      ensures !proceed ==> checkpointBlocked
      ensures Unhindered(w) ==> !checkpointBlocked
    {
      hide Valid;
      ops := [];
      var pressured := w.full(0);
      assert log == old(log) + ops;
      if checkpointBlocked || pressured {
        var ok := TryCheckpoint(w.busy(0));
        ops := ops + [Checkpoint(ok)];
        if !ok {
          proceed := false;
          return;
        }
      }
      proceed := true;
      if pressured {
        ghost var left := Rounds(w, 0);
        for i := 0 to MAX_RETENTION_BATCHES
          invariant Valid() && log == old(log) + ops
          invariant forall op :: op in ops ==> op.Checkpoint?
          invariant Checkpoint(true) in ops
          invariant Unhindered(w) ==> !checkpointBlocked
          invariant left == Rounds(w, i) && |ops| + left == 1 + Rounds(w, 0)
        {
          var emptyFreelist := w.events(i);
          if w.late(i) || emptyFreelist {
            break;
          }
          var ok := TryCheckpoint(w.busy(i + 1));
          ops := ops + [Checkpoint(ok)];
          left := left - 1;
          if !ok || !w.full(i + 1) {
            break;
          }
        }
      }
    }

    /** Both passes and the closing checkpoint. */
    method RunPasses(now: int, w: PruneWorld)
      returns (aged: nat, detail: nat, baseline: nat,
               ghost agedOut: set<nat>, ghost details: set<nat>, ghost baselines: set<nat>, ghost ops: seq<Op>)
      requires Valid()
      modifies this`samples, this`rollups, this`detailBytes, this`checkpointBlocked, this`log
      ensures Valid() && log == old(log) + ops
      ensures forall op :: op in ops ==> PruneOp(op, now)
      ensures PruneEffect(old(samples), samples, agedOut + details + baselines, now)
      ensures AgedOut(old(samples), agedOut, now, aged)
      ensures EvictedOf(old(samples), details, Detail, detail) && EvictedOf(old(samples), baselines, Baseline, baseline)
      ensures old(|samples|) == |samples| + aged + detail + baseline
      ensures aged + detail + baseline <= 2 * MAX_PASS_ROWS
      ensures Unhindered(w.age) ==> aged == Min(MAX_PASS_ROWS, |Select(Aged(now - RAW_AGE_NS), old(samples))|)
      ensures (Unhindered(w.age) && Unhindered(w.pressure) && AlwaysFull(w.pressure) && !old(checkpointBlocked)) ==>
                PressureCounts(Without(old(samples), agedOut), now, MAX_RETENTION_BATCHES, detail, baseline)
      ensures (Unhindered(w.age) && Unhindered(w.pressure) && !old(checkpointBlocked) && |old(samples)| <= DRAINABLE_ROWS) ==>
                OnlyRecent(samples, now) || (BaselineBytes(samples) <= 268_435_456 && !AlwaysFull(w.pressure))
      ensures Unhindered(w.age) && |old(samples)| <= 2048 ==> NoneOlder(samples, now - 172_800_000_000_000)
      ensures Unhindered(w.age) && |old(rollups)| < 2048 ==> NoRollupBefore(rollups, now - 1_209_600_000_000_000)
      ensures (forall i: nat :: w.age.late(i) ==> aged <= 16 * i) && (forall i: nat :: w.pressure.late(i) ==> detail + baseline <= 16 * i)
      ensures (Unhindered(w.age) && Unhindered(w.pressure) && !old(checkpointBlocked)) ==>
                checkpointBlocked == (w.closing.full(0) && w.closing.busy(0))
    {
      hide Numbered, PruneEffect, Linked, Apply, BatchIds, Select, Without, DetailBytes, BaselineBytes, EvictedOf, AgedOut, PressureCounts, AlwaysFull, OnlyRecent, NoneOlder, NoRollupBefore, Warranted;
      ghost var before := samples;
      LinkedRowsAreNumbered();
      ghost var first: seq<Op>;
      ghost var second: seq<Op>;
      ghost var last: seq<Op> := [];
      ghost var rounds;
      aged, agedOut, rounds, first := AgePass(now, w.age);
      AfterEffect(before, samples, agedOut, now);
      detailBytes := DetailBytes(samples);
      ghost var mid, batches := samples, 0;
      detail, baseline, details, baselines, batches, second := PressurePass(now, w.pressure, before, agedOut);
      StillNoneOlder(before, mid, samples, agedOut, agedOut + details + baselines, now, now - 172_800_000_000_000);
      CountsBound(mid, now, batches, detail, baseline);
      if w.closing.full(0) && !checkpointBlocked {
        var ok := TryCheckpoint(w.closing.busy(0));
        last := [Checkpoint(ok)];
      }
      ops := first + second + last;
    }

    /** One retention run.  `aged`, `detail` and `baseline` are the counts its
        `retention_gap` event reports, of the rows in the three ghost sets. */
    method Prune(now: int, w: PruneWorld)
      returns (r: Outcome, aged: nat, detail: nat, baseline: nat,
               ghost agedOut: set<nat>, ghost details: set<nat>, ghost baselines: set<nat>, ghost ops: seq<Op>)
      requires Valid()
      modifies this`samples, this`rollups, this`detailBytes, this`checkpointBlocked, this`log
      ensures Valid() && log == old(log) + ops
      ensures Guarded(old(checkpointBlocked), ops)
      ensures forall op :: op in ops ==> PruneOp(op, now)
      ensures PruneEffect(old(samples), samples, agedOut + details + baselines, now)
      ensures AgedOut(old(samples), agedOut, now, aged)
      ensures EvictedOf(old(samples), details, Detail, detail) && EvictedOf(old(samples), baselines, Baseline, baseline)
      ensures old(|samples|) == |samples| + aged + detail + baseline
      ensures aged + detail + baseline <= 2 * MAX_PASS_ROWS == 4096
      ensures r.Ok? <==> !w.closing.full(1)
      ensures UnhinderedPrune(w) ==> aged == Min(MAX_PASS_ROWS, |Select(Aged(now - RAW_AGE_NS), old(samples))|)
      ensures UnhinderedPrune(w) && AlwaysFull(w.pressure) ==>
                PressureCounts(Without(old(samples), agedOut), now, MAX_RETENTION_BATCHES, detail, baseline)
      ensures UnhinderedPrune(w) && |old(samples)| <= DRAINABLE_ROWS ==>
                OnlyRecent(samples, now) || (BaselineBytes(samples) <= 268_435_456 && !AlwaysFull(w.pressure))
      ensures UnhinderedPrune(w) && |old(samples)| <= 2048 ==> NoneOlder(samples, now - 172_800_000_000_000)
      ensures UnhinderedPrune(w) && |old(rollups)| < 2048 ==> NoRollupBefore(rollups, now - 1_209_600_000_000_000)
      ensures (forall i: nat :: w.age.late(i) ==> aged <= 16 * i) && (forall i: nat :: w.pressure.late(i) ==> detail + baseline <= 16 * i)
      ensures UnhinderedPrune(w) ==> checkpointBlocked == (w.closing.full(0) && w.closing.busy(0))
      ensures (old(checkpointBlocked) || w.opening.full(0)) && w.opening.busy(0) ==>
                samples == old(samples) && rollups == old(rollups) && checkpointBlocked
    {
      hide Numbered, PruneEffect, Valid, Select, Without, Guarded, EvictedOf, AgedOut, PressureCounts, AlwaysFull, OnlyRecent, BaselineBytes, NoneOlder, NoRollupBefore, Rounds;
      aged, detail, baseline, agedOut, details, baselines := 0, 0, 0, {}, {}, {};
      NothingPruned(samples, now);
      NobodyEvicted(samples);
      NobodyAged(samples, now);
      assert agedOut + details + baselines == {};
      var proceed: bool;
      ghost var opening: seq<Op>;
      proceed, opening := OpenPrune(w.opening);
      if !proceed {
        ops := opening;
        SettleGuard(old(checkpointBlocked), ops);
        r := if !w.closing.full(1) then Ok else Err("retention could not restore storage headroom: WAL checkpoint busy");
        return;
      }
      ghost var rest: seq<Op>;
      aged, detail, baseline, agedOut, details, baselines, rest := RunPasses(now, w);
      ops := opening + rest;
      GuardAfterOpening(old(checkpointBlocked), opening, rest);
      r := if !w.closing.full(1) then Ok else Err("retention could not restore storage headroom");
    }

    // ------------------------------------------------------------- writing

    method DropDetails(ghost before: seq<Row>, ghost gone0: set<nat>) returns (removed: nat, ghost gone: set<nat>)
      requires Valid() && Numbered(before) && DetailPrefix(before, samples, gone0)
      modifies this`samples, this`detailBytes, this`log
      ensures Valid() && log == old(log) + [DetailBatch]
      ensures DetailPrefix(before, samples, gone) && |gone| == |gone0| + removed && removed <= 16
      ensures |samples| + removed == old(|samples|)
      ensures removed == 0 ==> !HasDetail(samples)
    {
      hide Linked, BatchIds, Without, DetailBytes, HasDetail, Select, Apply, DetailPrefix, Numbered;
      LinkedRowsAreNumbered();
      EmptyBatch(samples);
      DropPrefix(before, samples, gone0);
      gone := gone0 + BatchIds(Details, samples);
      removed := DeleteDetails();
      detailBytes := DetailBytes(samples);
    }

    /** Makes room for a detail blob by dropping the oldest detail rows, a batch at a time
        and only while the quota is exceeded. */
    method EvictDetail(incoming: nat, quota: nat, w: World) returns (r: Outcome, ghost gone: set<nat>, ghost ops: seq<Op>)
      requires Valid()
      modifies this`samples, this`detailBytes, this`checkpointBlocked, this`log
      ensures Valid() && log == old(log) + ops
      ensures Guarded(old(checkpointBlocked), ops)
      ensures forall op :: op in ops ==> op == DetailBatch || op.Checkpoint?
      ensures DetailPrefix(old(samples), samples, gone)
      ensures AllNeeded(old(log), ops, incoming, quota)
      ensures r.Ok? ==> detailBytes + incoming <= quota || !HasDetail(samples)
      ensures Clear(w) ==> r.Ok?
      ensures old(detailBytes) + incoming <= quota ==> r.Ok? && ops == []
      ensures old(detailBytes) + incoming > quota && w.full(0) ==> r.Err? && ops == []
      ensures (old(detailBytes) + incoming > quota && !w.full(0) && old(checkpointBlocked) && w.busy(0)) ==>
                r.Err? && ops == [Checkpoint(false)]
      ensures r.Ok? && ops != [] ==> !checkpointBlocked
      ensures r.Ok? && gone != {} ==> !w.events(0)
      ensures forall k: nat :: w.full(k) ==> |gone| <= 16 * k
      ensures forall k: nat :: w.busy(2 * k + 1) ==> |gone| <= 16 * k + 16
    {
      hide Valid, DetailPrefix, Numbered, HasDetail, EvictTrace;
      ops, gone := [], {};
      var i, evicted := 0, 0;
      ghost var before, blocked := samples, checkpointBlocked;
      ValidRowsAreNumbered();
      NothingDropped(samples);
      TraceBegins(log, blocked, incoming, quota);
      while detailBytes + incoming > quota
        invariant Valid() && EvictTrace(old(log), blocked, log, ops, incoming, quota)
        invariant blocked ==> checkpointBlocked || Checkpoint(true) in ops
        invariant DetailPrefix(before, samples, gone) && |gone| == evicted <= 16 * i
        invariant forall k: nat :: k < i ==> !w.full(k) && !w.busy(2 * k + 1)
        invariant if i == 0 then ops == [] && checkpointBlocked == old(checkpointBlocked) && detailBytes == old(detailBytes)
                  else ops != [] && !checkpointBlocked && old(detailBytes) + incoming > quota
        invariant i > 0 ==> !(old(checkpointBlocked) && w.busy(0))
        decreases |samples|
      {
        if w.full(i) {
          TraceFacts(old(log), blocked, log, ops, incoming, quota);
          r := Err("detail skipped: storage headroom");
          return;
        }
        var round, n;
        round, n, gone, ops := EvictRound(incoming, quota, w.busy(2 * i), w.busy(2 * i + 1), old(log), blocked, ops, before, gone);
        evicted := evicted + n;
        if round.Empty? {
          break;
        }
        if !round.Dropped? {
          TraceFacts(old(log), blocked, log, ops, incoming, quota);
          r := Err("detail skipped: WAL checkpoint busy");
          return;
        }
        i := i + 1;
      }
      TraceFacts(old(log), blocked, log, ops, incoming, quota);
      var refused := evicted > 0 && w.events(0);
      r := if refused then Err("event skipped: storage headroom") else Ok;
    }

    /** One round of eviction: a due checkpoint, one batch, and the checkpoint after it. */
    method EvictRound(incoming: nat, quota: nat, busyBefore: bool, busyAfter: bool,
                      ghost log0: seq<Op>, ghost blocked: bool, ghost ops0: seq<Op>, ghost before: seq<Row>, ghost gone0: set<nat>)
      returns (round: Round, n: nat, ghost gone: set<nat>, ghost ops: seq<Op>)
      requires Valid() && Numbered(before) && EvictTrace(log0, blocked, log, ops0, incoming, quota)
      requires DetailPrefix(before, samples, gone0) && detailBytes + incoming > quota
      requires blocked ==> checkpointBlocked || Checkpoint(true) in ops0
      modifies this`samples, this`detailBytes, this`checkpointBlocked, this`log
      ensures Valid() && EvictTrace(log0, blocked, log, ops, incoming, quota) && ops != []
      ensures blocked ==> checkpointBlocked || Checkpoint(true) in ops
      ensures DetailPrefix(before, samples, gone) && |gone| == |gone0| + n && n <= 16 && |samples| + n == old(|samples|)
      ensures round.Pinned? <==> old(checkpointBlocked) && busyBefore
      ensures round.Pinned? ==> n == 0 && checkpointBlocked && ops == ops0 + [Checkpoint(false)]
      ensures round.Empty? ==> n == 0 && !checkpointBlocked && !HasDetail(samples)
      ensures round.Dropped? || round.Stalled? ==> n > 0 && checkpointBlocked == busyAfter == round.Stalled?
    {
      hide Valid, DetailPrefix, Numbered, HasDetail, EvictTrace;
      ops, gone, n := ops0, gone0, 0;
      if checkpointBlocked {
        TraceCheckpoint(log0, blocked, log, ops, incoming, quota, !busyBefore);
        var ok := TryCheckpoint(busyBefore);
        ops := ops + [Checkpoint(ok)];
        if !ok {
          return Pinned, n, gone, ops;
        }
      }
      TraceBatch(log0, blocked, ops, incoming, quota);
      n, gone := DropDetails(before, gone);
      ops := ops + [DetailBatch];
      if n == 0 {
        return Empty, n, gone, ops;
      }
      TraceCheckpoint(log0, blocked, log, ops, incoming, quota, !busyAfter);
      var ok := TryCheckpoint(busyAfter);
      ops := ops + [Checkpoint(ok)];
      round := if ok then Dropped else Stalled;
    }

    lemma TraceBatch(log0: seq<Op>, blocked: bool, ops: seq<Op>, incoming: nat, quota: nat)
      requires Valid() && EvictTrace(log0, blocked, log, ops, incoming, quota)
      requires detailBytes + incoming > quota && (blocked ==> Checkpoint(true) in ops)
      ensures EvictTrace(log0, blocked, log + [DetailBatch], ops + [DetailBatch], incoming, quota)
    {
      hide Valid, AllNeeded, Guarded;
      BatchNeeded(log0, ops, incoming, quota);
      GuardedExtend(blocked, ops, DetailBatch);
      assert log0 + ops + [DetailBatch] == log0 + (ops + [DetailBatch]);
    }

    lemma ValidRowsAreNumbered()
      requires Valid()
      ensures Numbered(samples)
    {
      hide Linked, Numbered;
      LinkedRowsAreNumbered();
    }

    lemma BatchNeeded(log0: seq<Op>, ops: seq<Op>, incoming: nat, quota: nat)
      requires Valid() && log == log0 + ops && AllNeeded(log0, ops, incoming, quota)
      requires detailBytes + incoming > quota
      ensures AllNeeded(log0, ops + [DetailBatch], incoming, quota)
    {
      hide Replay, Performed, DetailBytes;
      var ops' := ops + [DetailBatch];
      forall i | 0 <= i < |ops'| && ops'[i] == DetailBatch
        ensures NeededAt(log0, ops', i, incoming, quota)
      {
        if i < |ops| {
          assert NeededAt(log0, ops, i, incoming, quota);
          assert ops'[..i] == ops[..i];
        } else {
          assert ops'[..i] == ops;
        }
      }
    }

    /** The transaction of a write: the row and whatever rollups it completes. */
    method CommitRow(row: Row)
      requires Valid() && Enabled(Abs(), Commit(row))
      modifies this
      ensures Valid() && log == old(log) + [Commit(row)]
      ensures Abs() == AfterCommit(old(Abs()), row) && nextId == old(nextId) + 1 && samples == old(samples) + [row]
    {
      hide Replay, Performed, Rebuilt, DetailBytes;
      ReplayAppend(log, Commit(row));
      DetailBytesAppend(samples, row);
      var rows := samples + [row];
      if row.mode.Baseline? {
        var bucket := Bucket(row.at);
        var table := rollups;
        var changed := pendingBucket.Some? && pendingBucket.value != bucket;
        if changed && pendingCount > 0 {
          table := RebuildMinute(table, rows, pendingBucket.value);
        }
        var next := if changed || pendingBucket.None? then 1 else pendingCount + 1;
        if next >= 3 {
          table := RebuildMinute(table, rows, bucket);
          next := 0;
        }
        rollups, pendingBucket, pendingCount := table, Some(bucket), next;
      } else {
        detailBytes := detailBytes + row.blobBytes;
      }
      samples, nextId, log := rows, nextId + 1, log + [Commit(row)];
    }

    /** The headroom checks of a write, with the eviction or prune they may need.  On success
        the row may be committed. */
    method MakeRoom(sample: Row, w: WriteWorld) returns (r: Outcome, ghost ops: seq<Op>)
      requires Valid() && sample.blobBytes + sample.textBytes <= MAX_SAMPLE_BYTES
      modifies this`samples, this`rollups, this`detailBytes, this`checkpointBlocked, this`log
      ensures Valid() && log == old(log) + ops
      ensures Guarded(old(checkpointBlocked), ops) && NoCommit(ops)
      ensures r.Ok? && sample.mode.Detail? ==> DetailBytes(samples) + sample.blobBytes <= DETAIL_RESERVE_BYTES
      ensures WriteOps(sample, ops)
      ensures sample.mode.Baseline? && !w.direct.full(0) ==> ops == []
      ensures sample.mode.Baseline? ==>
                (r.Ok? <==> !w.direct.full(0) || (!w.prune.closing.full(1) && !w.direct.full(1)))
      ensures sample.mode.Detail? && r.Ok? ==> !w.direct.full(0) && !w.direct.full(1)
      ensures Clear(w.direct) && Clear(w.evict) ==> r.Ok?
      ensures Drains(sample, w) && |old(samples)| <= DRAINABLE_ROWS ==> OnlyRecent(samples, sample.at)
    {
      hide Linked, Select, Without, Guarded, PruneEffect, DetailBytes, HasDetail, DetailPrefix, AllNeeded, AgedOut, EvictedOf, PressureCounts, OnlyRecent;
      r, ops := Ok, [];
      NothingYet(checkpointBlocked);
      if sample.mode.Detail? {
        if w.direct.full(0) {
          r := Err("detail skipped: storage headroom");
          return;
        }
        ghost var gone;
        r, gone, ops := EvictDetail(sample.blobBytes, DETAIL_RESERVE_BYTES, w.evict);
        if r.Err? {
          return;
        }
        NoDetailNoBytes(samples);
        if detailBytes + sample.blobBytes > DETAIL_RESERVE_BYTES || w.direct.full(1) {
          r := Err("detail skipped: storage headroom");
        }
      } else if w.direct.full(0) {
        var aged, detail, baseline;
        ghost var agedOut, details, baselines;
        r, aged, detail, baseline, agedOut, details, baselines, ops := Prune(sample.at, w.prune);
        if r.Ok? && w.direct.full(1) {
          r := Err("baseline skipped: storage headroom");
        }
      }
    }

    lemma MayCommit(row: Row)
      requires row.id == nextId && row.blobBytes + row.textBytes <= MAX_SAMPLE_BYTES
      requires row.mode.Detail? ==> DetailBytes(samples) + row.blobBytes <= DETAIL_RESERVE_BYTES
      ensures Enabled(Abs(), Commit(row))
    {
    }

    /** `write_with_limits`; the row's id is assigned here.  A sample of at most 1 MiB is
        always committed when there is room and no reader pins the log. */
    method Write(sample: Row, w: WriteWorld) returns (r: Outcome, ghost ops: seq<Op>)
      requires Valid()
      modifies this
      ensures Valid() && log == old(log) + ops
      ensures Guarded(old(checkpointBlocked), ops)
      ensures sample.blobBytes + sample.textBytes > MAX_SAMPLE_BYTES ==> r.Err? && ops == []
      ensures r.Ok? ==> ops != [] && Final(ops) == Commit(sample.(id := old(nextId))) && NoCommit(Front(ops))
      ensures r.Err? ==> NoCommit(ops)
      ensures nextId == old(nextId) + if r.Ok? then 1 else 0
      ensures WriteOps(sample, ops)
      ensures sample.mode.Baseline? && !w.direct.full(0) ==> |ops| <= 1
      ensures sample.mode.Baseline? && sample.blobBytes + sample.textBytes <= MAX_SAMPLE_BYTES ==>
                (r.Ok? <==> !w.direct.full(0) || (!w.prune.closing.full(1) && !w.direct.full(1)))
      ensures sample.mode.Detail? && r.Ok? ==> !w.direct.full(0) && !w.direct.full(1)
      ensures sample.blobBytes + sample.textBytes <= MAX_SAMPLE_BYTES && Clear(w.direct) && Clear(w.evict) ==> r.Ok?
      ensures r.Ok? ==> samples != [] && Last(samples) == sample.(id := old(nextId))
      ensures r.Ok? && Drains(sample, w) && |old(samples)| <= DRAINABLE_ROWS ==>
                OnlyRecent(samples[..|samples| - 1], sample.at)
    {
      hide Valid, Apply, AfterCommit, Guarded, DetailBytes, HasDetail, Clear, WriteOps, NoCommit, Enabled, Front, Final, Drains, OnlyRecent;
      ops := [];
      NothingWritten(sample);
      NothingYet(checkpointBlocked);
      if sample.blobBytes + sample.textBytes > MAX_SAMPLE_BYTES {
        assert log == old(log) + ops;
        r := Err("sample too large");
        return;
      }
      r, ops := MakeRoom(sample, w);
      if r.Err? {
        return;
      }
      ghost var mid := log;
      var row := sample.(id := nextId);
      MayCommit(row);
      ghost var room := samples;
      CommitRow(row);
      assert samples[..|samples| - 1] == room;
      CommitKeepsGuard(old(checkpointBlocked), ops, row);
      CommitIsAllowed(sample, ops, row);
      LastOp(ops, Commit(row));
      ops := ops + [Commit(row)];
      assert log == mid + [Commit(row)];
    }

    /** Brings the pending minute up to date, as a clean stop does. */
    method FlushRollups()
      requires Valid()
      modifies this
      ensures Valid() && log == old(log) + [Flush] && Abs() == AfterFlush(old(Abs()))
    {
      hide Replay, Performed, Rebuilt, DetailBytes;
      ReplayAppend(log, Flush);
      if pendingCount > 0 {
        rollups := RebuildMinute(rollups, samples, pendingBucket.value);
        pendingCount := 0;
      }
      log := log + [Flush];
    }

    /** A new process opens the same tables, after a clean stop or a crash. */
    method Reopen()
      requires Valid()
      modifies this
      ensures Valid() && log == old(log) + [StoreMachine.Reopen] && Abs() == AfterReopen(old(Abs()))
    {
      hide Replay, Performed, Rebuilt, DetailBytes;
      ReplayAppend(log, StoreMachine.Reopen);
      detailBytes := DetailBytes(samples);
      var latest := LatestBaseline(samples);
      checkpointBlocked, pendingBucket, pendingCount := false, None, 0;
      if latest.Some? {
        rollups := RebuildMinute(rollups, samples, Bucket(latest.value.at));
      }
      log := log + [StoreMachine.Reopen];
    }
  }

  /** `rebuild_rollup`: the minute's raw rows, listed by time, are folded and stored. */
  method RebuildMinute(rollups: map<Minute, Rollup>, samples: seq<Row>, m: Minute) returns (table: map<Minute, Rollup>)
    ensures table == Rebuilt(rollups, samples, m)
  {
    var rows := Select(MinuteOf(m), samples);
    var rollup := Rebuild(TimeOrder(rows));
    table := if rows == [] then rollups - {m} else rollups[m := rollup];
  }

  /** What a write may do to the tables: a detail never triggers age or baseline eviction,
      a baseline only the prune of its own instant. */
  predicate WriteOps(sample: Row, ops: seq<Op>) {
    forall op :: op in ops ==>
      if sample.mode.Detail? then Unpruned(op) && !op.Reopen? else op.Commit? || PruneOp(op, sample.at)
  }

  lemma NothingWritten(sample: Row)
    ensures WriteOps(sample, []) && NoCommit([])
  {
  }

  lemma LastOp(ops: seq<Op>, op: Op)
    ensures Front(ops + [op]) == ops && Final(ops + [op]) == op
  {
  }

  lemma CommitIsAllowed(sample: Row, ops: seq<Op>, row: Row)
    requires WriteOps(sample, ops)
    ensures WriteOps(sample, ops + [Commit(row)])
  {
  }

  predicate NoCommit(ops: seq<Op>) {
    forall op :: op in ops ==> !op.Commit?
  }

  lemma CheckpointKeepsGuard(blocked: bool, ops: seq<Op>, ok: bool)
    requires Guarded(blocked, ops)
    ensures Guarded(blocked, ops + [Checkpoint(ok)])
  {
    GuardedExtend(blocked, ops, Checkpoint(ok));
  }

  lemma CommitKeepsGuard(blocked: bool, ops: seq<Op>, row: Row)
    requires Guarded(blocked, ops)
    ensures Guarded(blocked, ops + [Commit(row)])
  {
    GuardedExtend(blocked, ops, Commit(row));
  }

  // ------------------------------------------------------------ small lemmas

  predicate PruneOp(op: Op, now: int) {
    op == AgedBatch(now) || op == DetailBatch || op == BaselineBatch(now) || op.Checkpoint?
  }

  predicate NoRemoval(ops: seq<Op>) {
    forall op :: op in ops ==> !Removes(op)
  }

  lemma NothingYet(blocked: bool)
    ensures Guarded(blocked, [])
  {
  }

  lemma SettleGuard(blocked: bool, ops: seq<Op>)
    requires NoRemoval(ops)
    ensures Guarded(blocked, ops)
  {
    forall i: nat | i < |ops| ensures !Removes(ops[i]) {
      assert ops[i] in ops;
    }
  }

  /** A call that opens with a successful checkpoint may remove what it likes after it. */
  lemma GuardAfterOpening(blocked: bool, opening: seq<Op>, rest: seq<Op>)
    requires blocked ==> Checkpoint(true) in opening && NoRemoval(opening)
    ensures Guarded(blocked, opening + rest)
  {
    if blocked {
      SettleGuard(true, opening);
      assert Releases(Checkpoint(true));
      ReleasedConcat(opening, rest);
    }
  }

  lemma EmptyBatch(rows: seq<Row>)
    requires Numbered(rows)
    ensures |Without(rows, BatchIds(Details, rows))| == |rows| ==>
              !HasDetail(rows) && Without(rows, BatchIds(Details, rows)) == rows
  {
    hide BatchIds, Without, Select;
    var batch := BatchIds(Details, rows);
    BatchFacts(Details, rows);
    WithoutLength(rows, batch);
    SelectMembers(Details, rows);
    if |batch| == 0 {
      WithoutNothing(rows, batch);
      assert forall r :: r in rows && r.mode.Detail? ==> r in Select(Details, rows);
    }
  }

  lemma {:induction false} NoDetailBytes(rows: seq<Row>, gone: set<nat>)
    requires !HasDetail(rows)
    ensures DetailBytes(rows) == 0 && DetailBytes(Without(rows, gone)) == 0
  {
    if rows != [] {
      assert rows[|rows| - 1] in rows && forall r :: r in rows[..|rows| - 1] ==> r in rows;
      NoDetailBytes(rows[..|rows| - 1], gone);
      DetailBytesAppend(Without(rows[..|rows| - 1], gone), rows[|rows| - 1]);
    }
  }

  lemma NoDetailNoBytes(rows: seq<Row>)
    ensures !HasDetail(rows) ==> DetailBytes(rows) == 0
  {
    hide HasDetail, DetailBytes;
    if !HasDetail(rows) {
      NoDetailBytes(rows, {});
    }
  }

  lemma {:induction false} WithoutShorter(rows: seq<Row>, gone: set<nat>)
    ensures |Without(rows, gone)| <= |rows|
  {
    if rows != [] {
      WithoutShorter(rows[..|rows| - 1], gone);
    }
  }
}
