/** Sequences of calls on a store object: what they keep, whatever the world answers. */
module StoreCalls {
  import opened Common
  import opened Samples
  import opened Rollups
  import opened StoreMachine
  import opened StoreView
  import opened StoreRuns
  import opened StoreRetention
  import opened MonitorStore

  // ------------------------------------------------------- paired runs

  lemma {:induction false} PairedExtend(log: seq<Op>, ops: seq<Op>)
    requires PairedRun(log) && NoCommit(ops)
    ensures PairedRun(log + ops)
    ensures (forall op :: op in ops ==> Unpruned(op)) ==> JustCommitted(log + ops) == JustCommitted(log)
  {
    if ops == [] {
      assert log + ops == log;
    } else {
      assert Front(log + ops) == log + Front(ops);
      assert Final(ops) in ops && forall op :: op in Front(ops) ==> op in ops;
      PairedExtend(log, Front(ops));
    }
  }

  /** A write that ends in a commit keeps the pairing if its row may follow. */
  lemma PairedWrite(log: seq<Op>, ops: seq<Op>, row: Row)
    requires PairedRun(log) && ops != [] && NoCommit(Front(ops)) && Final(ops) == Commit(row)
    requires row.mode.Detail? ==> JustCommitted(log).Some? && Twins(row, JustCommitted(log).value)
    requires row.mode.Detail? ==> forall op :: op in ops ==> Unpruned(op)
    ensures PairedRun(log + ops)
    ensures row.mode.Baseline? ==> JustCommitted(log + ops) == Some(row)
  {
    PairedExtend(log, Front(ops));
    assert Front(log + ops) == log + Front(ops) && Final(log + ops) == Commit(row);
    assert forall op :: op in Front(ops) ==> op in ops;
  }

  // --------------------------------------------------------- steady runs

  /** The instant is not more than 59 minutes past the newest committed baseline. */
  ghost predicate Timely(log: seq<Op>, now: int) {
    History(log) != [] ==> now <= Last(History(log)).at + PRUNE_LEEWAY_NS
  }

  /** A prune at a timely instant keeps the run steady. */
  lemma {:induction false} SteadyPrune(log: seq<Op>, ops: seq<Op>, now: int)
    requires SteadyRun(log) && (ops != [] ==> Timely(log, now)) && forall op :: op in ops ==> PruneOp(op, now)
    ensures SteadyRun(log + ops) && History(log + ops) == History(log)
  {
    if ops == [] {
      assert log + ops == log;
    } else {
      assert Front(log + ops) == log + Front(ops);
      assert Final(ops) in ops && forall op :: op in Front(ops) ==> op in ops;
      SteadyPrune(log, Front(ops), now);
    }
  }

  /** So does a baseline write whose clock does not step back, if the prune it may have run
      first came in time. */
  lemma SteadyWrite(log: seq<Op>, ops: seq<Op>, row: Row)
    requires SteadyRun(log) && row.mode.Baseline?
    requires History(log) != [] ==> row.at >= Last(History(log)).at
    requires ops != [] && (Front(ops) != [] ==> Timely(log, row.at))
    requires Final(ops) == Commit(row) && forall op :: op in Front(ops) ==> PruneOp(op, row.at)
    ensures SteadyRun(log + ops) && History(log + ops) == History(log) + [row]
  {
    SteadyPrune(log, Front(ops), row.at);
    assert Front(log + ops) == log + Front(ops) && Final(log + ops) == Commit(row);
  }

  /** Operations that neither prune by age or pressure nor commit a baseline. */
  predicate Quiet(op: Op) {
    Unpruned(op) && !(op.Commit? && op.row.mode.Baseline?)
  }

  lemma {:induction false} SteadyQuiet(log: seq<Op>, ops: seq<Op>)
    requires SteadyRun(log) && forall op :: op in ops ==> Quiet(op)
    ensures SteadyRun(log + ops) && History(log + ops) == History(log)
  {
    hide Last;
    if ops == [] {
      assert log + ops == log;
    } else {
      assert Front(log + ops) == log + Front(ops);
      assert Final(ops) in ops && forall op :: op in Front(ops) ==> op in ops;
      SteadyQuiet(log, Front(ops));
    }
  }

  // ------------------------------------------------------------ single writes

  /** What a write of the sample performed: on success it ends in the commit of the row.
      `pressed` says that it found no headroom; a baseline prunes only then. */
  ghost predicate IsWrite(sample: Row, ops: seq<Op>, row: Row, ok: bool, pressed: bool) {
    && WriteOps(sample, ops) && row == sample.(id := row.id)
    && (if ok then ops != [] && Final(ops) == Commit(row) && NoCommit(Front(ops)) else NoCommit(ops))
    && (sample.mode.Baseline? && !pressed ==> if ok then Front(ops) == [] else ops == [])
  }

  /** The baseline's clock has not stepped back, nor, if it has to prune, more than 59
      minutes forward. */
  ghost predicate OnTime(log: seq<Op>, at: int, pressed: bool) {
    (pressed ==> Timely(log, at)) && (History(log) != [] ==> at >= Last(History(log)).at)
  }

  lemma BaselineWriteIsSteady(log: seq<Op>, sample: Row, ops: seq<Op>, row: Row, ok: bool, pressed: bool)
    requires IsWrite(sample, ops, row, ok, pressed) && sample.mode.Baseline? && SteadyRun(log) && OnTime(log, sample.at, pressed)
    ensures SteadyRun(log + ops)
  {
    hide SteadyRun, Timely, PruneOp;
    if ok {
      assert forall op :: op in Front(ops) ==> op in ops;
      SteadyWrite(log, ops, row);
    } else {
      SteadyPrune(log, ops, sample.at);
    }
  }

  lemma DetailWriteIsQuiet(sample: Row, ops: seq<Op>, row: Row, ok: bool, pressed: bool)
    requires IsWrite(sample, ops, row, ok, pressed) && sample.mode.Detail?
    ensures forall op :: op in ops ==> Quiet(op)
  {
    if ok {
      assert ops == Front(ops) + [Commit(row)];
    }
  }

  lemma WriteIsSteady(log: seq<Op>, sample: Row, ops: seq<Op>, row: Row, ok: bool, pressed: bool)
    requires IsWrite(sample, ops, row, ok, pressed) && SteadyRun(log) && (sample.mode.Baseline? ==> OnTime(log, sample.at, pressed))
    ensures SteadyRun(log + ops)
  {
    hide SteadyRun, OnTime, IsWrite, Quiet;
    if sample.mode.Baseline? {
      BaselineWriteIsSteady(log, sample, ops, row, ok, pressed);
    } else {
      DetailWriteIsQuiet(sample, ops, row, ok, pressed);
      SteadyQuiet(log, ops);
    }
  }

  /** A write may follow in a paired run if it is a baseline, or the twin of the one just committed. */
  ghost predicate MayFollow(log: seq<Op>, sample: Row) {
    sample.mode.Detail? ==> JustCommitted(log).Some? && Twins(sample, JustCommitted(log).value)
  }

  lemma WriteIsPaired(log: seq<Op>, sample: Row, ops: seq<Op>, row: Row, ok: bool, pressed: bool)
    requires IsWrite(sample, ops, row, ok, pressed) && PairedRun(log) && MayFollow(log, sample)
    ensures PairedRun(log + ops)
    ensures ok && sample.mode.Baseline? ==> JustCommitted(log + ops) == Some(row)
  {
    hide PairedRun, JustCommitted, PruneOp;
    if ok {
      PairedWrite(log, ops, row);
    } else {
      PairedExtend(log, ops);
    }
  }

  lemma WritesNoReopen(sample: Row, ops: seq<Op>)
    requires WriteOps(sample, ops)
    ensures Reopen !in ops
  {
  }

  lemma SingleFront(ops: seq<Op>)
    ensures |ops| == 1 ==> Front(ops) == []
  {
  }

  /** A baseline is committed if it weighs at most 1 MiB and there is headroom at once, or
      after a prune that ended with some. */
  ghost predicate Accepted(baseline: Row, w: WriteWorld) {
    && baseline.blobBytes + baseline.textBytes <= 1_048_576
    && (!w.direct.full(0) || (!w.prune.closing.full(1) && !w.direct.full(1)))
  }

  /** Nothing stands in the way of a sample of at most 1 MiB. */
  ghost predicate Welcome(sample: Row, w: WriteWorld) {
    sample.blobBytes + sample.textBytes <= 1_048_576 && Clear(w.direct) && Clear(w.evict)
  }

  /** `Write` with what it means for the run. */
  method WriteOnce(store: Store, sample: Row, w: WriteWorld) returns (r: Outcome, ghost ops: seq<Op>)
    requires store.Valid()
    modifies store
    ensures store.Valid() && store.log == old(store.log) + ops && Reopen !in ops
    ensures Guarded(old(store.checkpointBlocked), ops)
    ensures IsWrite(sample, ops, sample.(id := old(store.nextId)), r.Ok?, w.direct.full(0))
    ensures store.nextId == old(store.nextId) + if r.Ok? then 1 else 0
    ensures sample.mode.Baseline? ==> (r.Ok? <==> Accepted(sample, w))
    ensures Welcome(sample, w) ==> r.Ok?
    ensures SteadyRun(old(store.log)) && (sample.mode.Baseline? ==> OnTime(old(store.log), sample.at, w.direct.full(0))) ==> SteadyRun(store.log)
    ensures PairedRun(old(store.log)) && MayFollow(old(store.log), sample) ==> PairedRun(store.log)
    ensures PairedRun(old(store.log)) && r.Ok? && sample.mode.Baseline? ==>
              JustCommitted(store.log) == Some(sample.(id := old(store.nextId)))
  {
    hide Guarded, WriteOps, SteadyRun, OnTime, PairedRun, JustCommitted, MonitorStore.Store.Valid, Clear, Drains, OnlyRecent, NoCommit;
    ghost var log, row := store.log, sample.(id := store.nextId);
    r, ops := store.Write(sample, w);
    WritesNoReopen(sample, ops);
    ghost var pressed := w.direct.full(0);
    SingleFront(ops);
    assert IsWrite(sample, ops, row, r.Ok?, pressed);
    if SteadyRun(log) && (sample.mode.Baseline? ==> OnTime(log, sample.at, pressed)) {
      WriteIsSteady(log, sample, ops, row, r.Ok?, pressed);
    }
    if PairedRun(log) && MayFollow(log, sample) {
      WriteIsPaired(log, sample, ops, row, r.Ok?, pressed);
    }
  }

  lemma CommitsIn(ops: seq<Op>, sample: Row, row: Row, ok: bool, pressed: bool)
    requires IsWrite(sample, ops, row, ok, pressed)
    ensures ok ==> Commit(row) in ops && forall op :: op in ops && op.Commit? ==> op.row == row
    ensures !ok ==> NoCommit(ops) && forall op :: op in ops ==> !op.Commit?
  {
    if ok {
      assert ops == Front(ops) + [Final(ops)];
    }
  }

  /** The flag a store shows is the one its log replays to. */
  lemma FlagOf(store: Store)
    requires store.Valid()
    ensures Replay(store.log).blocked == store.checkpointBlocked
  {
  }

  /** Baseline first, then the detail row of the same observation; a failed detail
      write leaves the baseline committed. */
  method PersistPair(store: Store, baseline: Row, detail: Option<Row>, first: WriteWorld, second: WriteWorld)
    returns (committed: bool, r: Outcome, ghost ops: seq<Op>)
    requires store.Valid()
    requires baseline.mode.Baseline? && (detail.Some? ==> Twins(detail.value, baseline))
    modifies store
    ensures store.Valid() && store.log == old(store.log) + ops && Reopen !in ops
    ensures Guarded(old(store.checkpointBlocked), ops)
    ensures PairedRun(old(store.log)) ==> PairedRun(store.log)
    ensures SteadyRun(old(store.log)) && OnTime(old(store.log), baseline.at, first.direct.full(0)) ==> SteadyRun(store.log)
    ensures committed <==> Accepted(baseline, first)
    ensures committed ==> Commit(baseline.(id := old(store.nextId))) in ops
    ensures !committed ==> r.Err? && NoCommit(ops)
    ensures committed && detail.None? ==> r.Ok?
    ensures committed && detail.Some? && Welcome(detail.value, second) ==> r.Ok?
    ensures r.Ok? && detail.Some? ==> Commit(detail.value.(id := old(store.nextId) + 1)) in ops
    ensures r.Err? ==> forall op :: op in ops && op.Commit? ==> committed && op.row == baseline.(id := old(store.nextId))
    ensures store.nextId == old(store.nextId) + (if committed then 1 else 0) + (if r.Ok? && detail.Some? then 1 else 0)
  {
    hide PairedRun, JustCommitted, Guarded, SteadyRun, OnTime, IsWrite, NoCommit, MonitorStore.Store.Valid, Twins, MayFollow, Replay, Accepted, Welcome;
    ghost var start, id := store.log, store.nextId;
    BaselineMayFollow(start, baseline);
    FlagOf(store);
    r, ops := WriteOnce(store, baseline, first);
    CommitsIn(ops, baseline, baseline.(id := id), r.Ok?, first.direct.full(0));
    committed := r.Ok?;
    if committed && detail.Some? {
      ghost var more: seq<Op>;
      FlagOf(store);
      TwinMayFollow(store.log, baseline, id, detail.value);
      r, more := WriteOnce(store, detail.value, second);
      CommitsIn(more, detail.value, detail.value.(id := id + 1), r.Ok?, second.direct.full(0));
      GuardCompose(start, ops, more);
      assert start + ops + more == start + (ops + more);
      BothLists(ops, more);
      ops := ops + more;
    }
  }

  lemma BaselineMayFollow(log: seq<Op>, baseline: Row)
    requires baseline.mode.Baseline?
    ensures MayFollow(log, baseline)
  {
  }

  lemma TwinMayFollow(log: seq<Op>, baseline: Row, id: nat, detail: Row)
    requires Twins(detail, baseline)
    ensures detail.mode.Detail? && (JustCommitted(log) == Some(baseline.(id := id)) ==> MayFollow(log, detail))
  {
  }

  lemma BothLists(a: seq<Op>, b: seq<Op>)
    ensures forall op :: op in a + b <==> op in a || op in b
  {
  }

  // --------------------------------------------------------- sequences of calls

  datatype Call =
    | WriteCall(sample: Row, write: WriteWorld)
    | PersistCall(baseline: Row, detail: Option<Row>, first: WriteWorld, second: WriteWorld)
    | PruneCall(now: int, prune: PruneWorld)
    | EvictCall(incoming: nat, quota: nat, evict: World)
    | FlushCall
    | RestartCall

  /** A pair is one observation. */
  predicate Proper(call: Call) {
    call.PersistCall? ==>
      call.baseline.mode.Baseline? && (call.detail.Some? ==> Twins(call.detail.value, call.baseline))
  }

  /** Baseline clocks do not step back, and nothing prunes more than 59 minutes late; a
      write with headroom does not prune. */
  ghost predicate TimelyCall(log: seq<Op>, call: Call) {
    match call
    case WriteCall(sample, w) => sample.mode.Baseline? ==> OnTime(log, sample.at, w.direct.full(0))
    case PersistCall(baseline, _, first, _) => OnTime(log, baseline.at, first.direct.full(0))
    case PruneCall(now, _) => Timely(log, now)
    case _ => true
  }

  /** Details are only written in pairs. */
  predicate PairedCall(call: Call) {
    call.WriteCall? ==> call.sample.mode.Baseline?
  }

  /** What one call promises about the run it extends. */
  ghost predicate CallKeeps(log: seq<Op>, call: Call, ops: seq<Op>, blocked: bool) {
    && Guarded(blocked, ops)
    && (!call.RestartCall? ==> Reopen !in ops)
    && (SteadyRun(log) && TimelyCall(log, call) ==> SteadyRun(log + ops))
    && (PairedRun(log) && PairedCall(call) ==> PairedRun(log + ops))
  }

  lemma QuietCall(log: seq<Op>, call: Call, ops: seq<Op>, blocked: bool)
    requires Guarded(blocked, ops) && (!call.RestartCall? ==> Reopen !in ops)
    requires NoCommit(ops) && forall op :: op in ops ==> Quiet(op)
    ensures CallKeeps(log, call, ops, blocked)
  {
    hide Guarded, SteadyRun, PairedRun, Quiet, TimelyCall;
    if SteadyRun(log) {
      SteadyQuiet(log, ops);
    }
    if PairedRun(log) {
      PairedExtend(log, ops);
    }
  }

  lemma PruneKeeps(log: seq<Op>, call: Call, ops: seq<Op>, blocked: bool)
    requires call.PruneCall? && Guarded(blocked, ops) && forall op :: op in ops ==> PruneOp(op, call.now)
    ensures CallKeeps(log, call, ops, blocked)
  {
    hide Guarded, SteadyRun, PairedRun, Timely;
    if SteadyRun(log) && Timely(log, call.now) {
      SteadyPrune(log, ops, call.now);
    }
    if PairedRun(log) {
      PairedExtend(log, ops);
    }
  }

  lemma EvictKeeps(log: seq<Op>, call: Call, ops: seq<Op>, blocked: bool)
    requires call.EvictCall? && Guarded(blocked, ops) && forall op :: op in ops ==> op == DetailBatch || op.Checkpoint?
    ensures CallKeeps(log, call, ops, blocked)
  {
    QuietCall(log, call, ops, blocked);
  }

  lemma SingleKeeps(log: seq<Op>, call: Call, op: Op, blocked: bool)
    requires (call.FlushCall? && op == Flush) || (call.RestartCall? && op == Reopen)
    ensures CallKeeps(log, call, [op], blocked)
  {
    SettleGuard(blocked, [op]);
    QuietCall(log, call, [op], blocked);
  }

  /** What one call has done. */
  ghost predicate Does(call: Call, id: nat, ops: seq<Op>) {
    match call
    case WriteCall(sample, w) =>
      && (sample.mode.Baseline? ==> (Commit(sample.(id := id)) in ops <==> Accepted(sample, w)))
      && (Welcome(sample, w) ==> Commit(sample.(id := id)) in ops)
    case PersistCall(baseline, detail, first, second) =>
      && (Commit(baseline.(id := id)) in ops <==> Accepted(baseline, first))
      && (Accepted(baseline, first) && detail.Some? && Welcome(detail.value, second) ==> Commit(detail.value.(id := id + 1)) in ops)
    case PruneCall(_, _) => true
    case EvictCall(_, _, _) => true
    case FlushCall => ops == [Flush]
    case RestartCall => ops == [Reopen]
  }

  method Perform(store: Store, call: Call) returns (ghost ops: seq<Op>)
    requires store.Valid() && Proper(call)
    modifies store
    ensures store.Valid() && store.log == old(store.log) + ops
    ensures CallKeeps(old(store.log), call, ops, old(store.checkpointBlocked))
    ensures Does(call, old(store.nextId), ops)
    ensures call.PruneCall? && UnhinderedPrune(call.prune) && |old(store.samples)| <= 2048 ==>
              NoneOlder(store.samples, call.now - 172_800_000_000_000)
    ensures call.EvictCall? && Clear(call.evict) ==>
              store.detailBytes + call.incoming <= call.quota || !HasDetail(store.samples)
  {
    hide Guarded, SteadyRun, PairedRun, JustCommitted, Timely, OnTime, IsWrite, NoCommit, MonitorStore.Store.Valid,
      PruneEffect, AgedOut, EvictedOf, PressureCounts, OnlyRecent, DetailPrefix, AllNeeded, HasDetail, Clear, Select, Without,
      AfterFlush, AfterReopen, AlwaysFull, UnhinderedPrune, Accepted, Welcome, NoneOlder, NoRollupBefore, BaselineBytes;
    ghost var log, blocked := store.log, store.checkpointBlocked;
    match call {
      case WriteCall(sample, w) =>
        var r;
        ghost var id := store.nextId;
        r, ops := WriteOnce(store, sample, w);
        CommitsIn(ops, sample, sample.(id := id), r.Ok?, w.direct.full(0));
      case PersistCall(baseline, detail, first, second) =>
        var committed, r;
        committed, r, ops := PersistPair(store, baseline, detail, first, second);
        assert committed || forall op :: op in ops ==> !op.Commit? by { NoCommits(ops); }
      case PruneCall(now, w) =>
        var r, aged, detail, baseline;
        ghost var agedOut, details, baselines;
        r, aged, detail, baseline, agedOut, details, baselines, ops := store.Prune(now, w);
        PruneKeeps(log, call, ops, blocked);
      case EvictCall(incoming, quota, w) =>
        var r;
        ghost var gone;
        r, gone, ops := store.EvictDetail(incoming, quota, w);
        EvictKeeps(log, call, ops, blocked);
      case FlushCall =>
        store.FlushRollups();
        ops := [Flush];
        SingleKeeps(log, call, Flush, blocked);
      case RestartCall =>
        store.Reopen();
        ops := [Reopen];
        SingleKeeps(log, call, Reopen, blocked);
    }
  }

  lemma NoCommits(ops: seq<Op>)
    ensures NoCommit(ops) ==> forall op :: op in ops ==> !op.Commit?
  {
  }

  lemma NothingCalled(log: seq<Op>, blocked: bool)
    ensures Guarded(blocked, []) && log + [] == log
  {
  }

  /** The call took the log from one state to the other. */
  ghost predicate Did(call: Call, log: seq<Op>, log': seq<Op>) {
    log <= log' && Does(call, Replay(log).nextId, log'[|log|..])
  }

  lemma NowDone(call: Call, log: seq<Op>, ops: seq<Op>)
    requires Does(call, Replay(log).nextId, ops)
    ensures Did(call, log, log + ops)
  {
    hide Does, Replay;
    assert (log + ops)[|log|..] == ops;
  }

  lemma IdOf(store: Store)
    requires store.Valid()
    ensures Replay(store.log).nextId == store.nextId
  {
  }

  /** Any sequence of calls, from any state.  If the store was blocked, nothing is removed
      until a checkpoint succeeds or the process restarts.  If each call came in time, the
      rollup table is still a view of the history; if details were only written in pairs,
      none has lost its baseline.  `logs[k]` is the log call k found. */
  method RunCalls(store: Store, calls: seq<Call>) returns (ghost ops: seq<Op>, ghost logs: seq<seq<Op>>)
    requires store.Valid() && forall c :: c in calls ==> Proper(c)
    modifies store
    ensures store.Valid() && store.log == old(store.log) + ops
    ensures old(store.checkpointBlocked) ==> AllReleased(ops)
    ensures (forall c :: c in calls ==> !c.RestartCall?) ==> Reopen !in ops
    ensures |logs| == |calls| + 1 && logs[0] == old(store.log) && logs[|calls|] == store.log
    ensures forall k :: 0 <= k < |calls| ==> Did(calls[k], logs[k], logs[k + 1])
    ensures (SteadyRun(old(store.log)) && forall k :: 0 <= k < |calls| ==> TimelyCall(logs[k], calls[k])) ==>
              View(store.Abs(), History(store.log), AgeInstants(store.log))
    ensures (PairedRun(old(store.log)) && forall c :: c in calls ==> PairedCall(c)) ==>
              PairsKept(store.samples, AgeInstants(store.log), JustCommitted(store.log))
    ensures store.detailBytes == DetailBytes(store.samples) <= DETAIL_RESERVE_BYTES
  {
    hide Guarded, SteadyRun, PairedRun, JustCommitted, TimelyCall, MonitorStore.Store.Valid, View, PairsKept, DetailBytes, Replay, PairedCall, Did, Does, UnhinderedPrune, NoneOlder, Clear, HasDetail;
    ops, logs := [], [store.log];
    ghost var start, blocked := store.log, store.checkpointBlocked;
    FlagOf(store);
    NothingCalled(store.log, blocked);
    for i := 0 to |calls|
      invariant store.Valid() && store.log == start + ops && Guarded(blocked, ops)
      invariant (forall c :: c in calls ==> !c.RestartCall?) ==> Reopen !in ops
      invariant |logs| == i + 1 && logs[0] == start && logs[i] == store.log
      invariant forall k :: 0 <= k < i ==> Did(calls[k], logs[k], logs[k + 1])
      invariant (SteadyRun(start) && forall k :: 0 <= k < i ==> TimelyCall(logs[k], calls[k])) ==> SteadyRun(store.log)
      invariant (PairedRun(start) && forall c :: c in calls ==> PairedCall(c)) ==> PairedRun(store.log)
    {
      assert calls[i] in calls;
      FlagOf(store);
      IdOf(store);
      ghost var more := Perform(store, calls[i]);
      NowDone(calls[i], logs[i], more);
      GuardCompose(start, ops, more);
      assert start + ops + more == start + (ops + more);
      ops, logs := ops + more, logs + [store.log];
    }
    GuardMeans(blocked, ops);
    ReachableStore(store);
  }

  lemma GuardMeans(blocked: bool, ops: seq<Op>)
    requires Guarded(blocked, ops)
    ensures blocked ==> AllReleased(ops)
  {
  }

  /** What holds of any store object between calls, however it got there. */
  lemma ReachableStore(store: Store)
    requires store.Valid()
    ensures store.detailBytes == DetailBytes(store.samples) <= DETAIL_RESERVE_BYTES
    ensures SteadyRun(store.log) ==> View(store.Abs(), History(store.log), AgeInstants(store.log))
    ensures PairedRun(store.log) ==>
              PairsKept(store.samples, AgeInstants(store.log), JustCommitted(store.log))
  {
    hide DetailBytes, View, PairsKept, SteadyRun, PairedRun, Replay, Performed;
    DetailStaysInReserve(store.log);
    if SteadyRun(store.log) {
      ViewUnderRetention(store.log);
    }
    if PairedRun(store.log) {
      DetailKeepsItsBaseline(store.log);
    }
  }

  // ------------------------------------------------------ the view can be broken

  function PlainRow(id: nat, at: int): Row {
    Row(id, at, at, "boot", Baseline, map[], "{}", 22, 6, 6)
  }

  const CALM: World := World(_ => false, _ => false, _ => false, _ => false)
  const PRESSED: World := World(_ => true, _ => false, _ => false, _ => false)

  /** Headroom throughout. */
  const ROOMY: WriteWorld := WriteWorld(CALM, CALM, PruneWorld(CALM, CALM, CALM, CALM))

  const BRIEFLY_PRESSED: World := World(i => i == 0, _ => false, _ => false, _ => false)

  /** No headroom until the prune has run its last batch. */
  const TIGHT: WriteWorld :=
    WriteWorld(BRIEFLY_PRESSED, CALM, PruneWorld(PRESSED, PRESSED, PRESSED, BRIEFLY_PRESSED))

  lemma {:induction false} PruneKeepsPending(log: seq<Op>, ops: seq<Op>, now: int)
    requires forall op :: op in ops ==> PruneOp(op, now)
    ensures Replay(log + ops).pending == Replay(log).pending && History(log + ops) == History(log)
    ensures AgeInstants(log + ops) <= AgeInstants(log) + {now}
  {
    hide Select, Without, BatchIds, ExpiredBuckets;
    if ops == [] {
      assert log + ops == log;
    } else {
      assert Front(log + ops) == log + Front(ops);
      assert Final(ops) in ops && forall op :: op in Front(ops) ==> op in ops;
      PruneKeepsPending(log, Front(ops), now);
    }
  }

  lemma TwoCommits(a: Row, b: Row)
    requires a == PlainRow(0, 0) && b == PlainRow(1, 5 * SECOND_NS)
    ensures var log := [Commit(a)] + [Commit(b)];
            && Replay(log).pending == Pending(Minute(0), 2) && |Replay(log).samples| == 2
            && History(log) == [a, b] && AgeInstants(log) == {}
  {
    hide Select, Rebuilt;
    ReplayAppend([], Commit(a));
    assert [] + [Commit(a)] == [Commit(a)];
    ReplayAppend([Commit(a)], Commit(b));
    assert ([Commit(a)] + [Commit(b)])[..1] == [Commit(a)] && [Commit(a)][..0] == [];
    assert History([]) == [] && History([Commit(a)]) == [a];
  }

  /** The rollover rebuild of a minute without raw rows deletes its rollup. */
  lemma LateRollover(t: State, c: Row)
    requires t.pending == Pending(Minute(0), 2) && c == PlainRow(c.id, 120 * MINUTE_NS)
    requires MinuteRows(t.samples + [c], Minute(0)) == []
    ensures Minute(0) !in AfterCommit(t, c).rollups && Lag(AfterCommit(t, c), Minute(0)) == 0
  {
    hide Select, Rebuilt;
    CommitRollups(t, c, Minute(0));
    assert AfterCommit(t, c).samples == t.samples + [c];
  }

  lemma NoMinuteRows(rows: seq<Row>)
    requires rows != [] && Last(rows).at == 120 * MINUTE_NS && OnlyRecent(rows[..|rows| - 1], 120 * MINUTE_NS)
    ensures MinuteRows(rows, Minute(0)) == []
  {
    hide Select;
    assert rows == rows[..|rows| - 1] + [Last(rows)];
    SelectMembers(MinuteOf(Minute(0)), rows);
    SomeMember(MinuteRows(rows, Minute(0)));
  }

  lemma LateMinute(a: Row, b: Row, c: Row)
    requires a == PlainRow(0, 0) && b == PlainRow(1, 5 * SECOND_NS) && c == PlainRow(2, 120 * MINUTE_NS)
    ensures MinuteRows([a, b] + [c], Minute(0)) == [a, b]
  {
    hide Select;
    assert MinuteRows([], Minute(0)) == [] by { SomeMember(MinuteRows([], Minute(0))); SelectMembers(MinuteOf(Minute(0)), []); }
    MinuteRowsAppend([], a, Minute(0));
    MinuteRowsAppend([a], b, Minute(0));
    MinuteRowsAppend([a, b], c, Minute(0));
    assert [] + [a] == [a] && [a] + [b] == [a, b];
  }

  lemma NotAView(s: State, history: seq<Row>, aged: set<int>)
    requires |MinuteRows(history, Minute(0))| == 2 && Lag(s, Minute(0)) == 0 && Minute(0) !in s.rollups
    requires aged <= {120 * MINUTE_NS}
    ensures !View(s, history, aged)
  {
    hide MinuteRollup, Select;
    assert !ViewAt(s, history, aged, Minute(0));
  }

  lemma AbsOf(store: Store)
    requires store.Valid()
    ensures Replay(store.log) == store.Abs()
  {
  }

  /** What the third write leaves, given the log it found. */
  lemma LateWrite(log: seq<Op>, ops: seq<Op>, rows: seq<Row>, a: Row, b: Row, c: Row)
    requires a == PlainRow(0, 0) && b == PlainRow(1, 5 * SECOND_NS) && c == PlainRow(2, 120 * MINUTE_NS)
    requires log == [Commit(a)] + [Commit(b)] && (forall op :: op in ops ==> PruneOp(op, c.at))
    requires var s := Replay(log + ops + [Commit(c)]); s.samples == rows && MinuteRows(rows, Minute(0)) == []
    ensures var log' := log + ops + [Commit(c)];
            var s, history := Replay(log'), History(log');
            && Minute(0) !in s.rollups && MinuteRows(history, Minute(0)) == [a, b]
            && !View(s, history, AgeInstants(log'))
  {
    hide Select, Replay, View, Rebuilt, LatestBaseline;
    TwoCommits(a, b);
    PruneKeepsPending(log, ops, c.at);
    var t, log' := Replay(log + ops), log + ops + [Commit(c)];
    ReplayAppend(log + ops, Commit(c));
    assert AfterCommit(t, c).samples == t.samples + [c];
    LateRollover(t, c);
    assert log'[..|log'| - 1] == log + ops;
    LateMinute(a, b, c);
    assert AgeInstants(log') == AgeInstants(log + ops);
    NotAView(Replay(log'), History(log'), AgeInstants(log'));
  }

  lemma SoleOp(ops: seq<Op>, op: Op)
    requires ops != [] && Final(ops) == op
    ensures ops == Front(ops) + [op] && (|ops| == 1 ==> ops == [op])
  {
  }

  /** A baseline write with headroom is a single commit. */
  method WriteWithRoom(store: Store, sample: Row)
    requires store.Valid() && sample.mode.Baseline? && sample.blobBytes + sample.textBytes <= MAX_SAMPLE_BYTES
    requires sample.id == store.nextId
    modifies store
    ensures store.Valid() && store.log == old(store.log) + [Commit(sample)] && store.nextId == old(store.nextId) + 1
  {
    hide MonitorStore.Store.Valid, Guarded, OnlyRecent, NoCommit, Clear, Drains, WriteOps, Front, Final;
    var r;
    ghost var ops: seq<Op>;
    r, ops := store.Write(sample, ROOMY);
    SoleOp(ops, Commit(sample));
  }

  /** A baseline write without headroom prunes first; what it leaves is recent. */
  method WriteAfterDraining(store: Store, sample: Row) returns (ghost ops: seq<Op>)
    requires store.Valid() && sample.mode.Baseline? && sample.blobBytes + sample.textBytes <= MAX_SAMPLE_BYTES
    requires sample.id == store.nextId && |store.samples| <= DRAINABLE_ROWS
    modifies store
    ensures store.Valid() && store.log == old(store.log) + ops + [Commit(sample)]
    ensures forall op :: op in ops ==> PruneOp(op, sample.at)
    ensures store.samples != [] && Last(store.samples) == sample
    ensures OnlyRecent(store.samples[..|store.samples| - 1], sample.at)
  {
    hide MonitorStore.Store.Valid, Guarded, OnlyRecent, NoCommit, Clear, WriteOps, Front, Final, PruneOp;
    var r;
    ghost var all: seq<Op>;
    assert Drains(sample, TIGHT);
    r, all := store.Write(sample, TIGHT);
    SoleOp(all, Commit(sample));
    OnlyPrunes(sample, all);
    ops := Front(all);
  }

  /** Two baselines in one minute, then nothing for two hours.  The next write finds no
      headroom; its prune removes both, and its rollover rebuild then deletes the rollup of
      a minute with two committed baselines. */
  method LatePruneLosesAMinute() returns (store: Store)
    ensures store.Valid() && Minute(0) !in store.rollups
    ensures MinuteRows(History(store.log), Minute(0)) == [PlainRow(0, 0), PlainRow(1, 5 * SECOND_NS)]
    ensures !View(store.Abs(), History(store.log), AgeInstants(store.log))
  {
    hide Select, Replay, Performed, View, MonitorStore.Store.Valid, OnlyRecent, PruneOp, History;
    var a, b, c := PlainRow(0, 0), PlainRow(1, 5 * SECOND_NS), PlainRow(2, 120 * MINUTE_NS);
    store := new Store();
    WriteWithRoom(store, a);
    assert store.log == [Commit(a)];
    WriteWithRoom(store, b);
    ghost var log := store.log;
    TwoCommits(a, b);
    AbsOf(store);
    ghost var ops := WriteAfterDraining(store, c);
    AbsOf(store);
    NoMinuteRows(store.samples);
    LateWrite(log, ops, store.samples, a, b, c);
  }

  lemma OnlyPrunes(sample: Row, ops: seq<Op>)
    requires sample.mode.Baseline? && ops != [] && WriteOps(sample, ops) && NoCommit(Front(ops))
    ensures forall op :: op in Front(ops) ==> PruneOp(op, sample.at)
  {
    assert forall op :: op in Front(ops) ==> op in ops;
  }
}
