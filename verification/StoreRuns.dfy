/** Whole-run theorems about the store: lists of operations of any length, with
    crashes and restarts anywhere. */
module StoreRuns {
  import opened Common
  import opened Samples
  import opened Rollups
  import opened StoreMachine
  import opened StoreView

  function Front(log: seq<Op>): seq<Op>
    requires log != []
  {
    log[..|log| - 1]
  }

  function Final(log: seq<Op>): Op
    requires log != []
  {
    log[|log| - 1]
  }

  lemma AgedAppend(log: seq<Op>)
    requires log != []
    ensures AgeInstants(log) == NextAged(AgeInstants(Front(log)), Final(log))
    ensures History(log) == NextHistory(History(Front(log)), Final(log))
  {
    assert log == Front(log) + [Final(log)];
  }

  lemma {:induction false} SoundRun(log: seq<Op>)
    requires Performed(log)
    ensures Sound(Replay(log), History(log))
  {
    hide Apply, Sound, NextHistory, Enabled;
    if log == [] {
      SoundFresh();
    } else {
      SoundRun(Front(log));
      AgedAppend(log);
      SoundStep(Replay(Front(log)), History(Front(log)), Final(log));
    }
  }

  lemma SoundFresh()
    ensures Sound(FRESH, [])
  {
  }

  // ------------------------------------------------- the rollup table is a view

  /** The ids an age or pressure batch removes. */
  function Pruned(s: State, op: Op): set<nat> {
    match op
    case AgedBatch(now) => BatchIds(Aged(now - RAW_AGE_NS), s.samples)
    case BaselineBatch(now) => BatchIds(OldBaseline(now - RECENT_BASELINE_NS), s.samples)
    case _ => {}
  }

  /** The operation neither prunes a raw row of the newest minute nor commits a
      baseline to a minute that has already lost raw rows. */
  ghost predicate Gentle(s: State, history: seq<Row>, op: Op) {
    && (op.Commit? && op.row.mode.Baseline? ==> Intact(s, history, Bucket(op.row.at)))
    && (history != [] ==>
          forall r :: r in MinuteRows(s.samples, Bucket(Last(history).at)) ==> r.id !in Pruned(s, op))
  }

  ghost predicate GentleRun(log: seq<Op>) {
    log == [] || (GentleRun(Front(log)) && Gentle(Replay(Front(log)), History(Front(log)), Final(log)))
  }

  lemma IntactWithout(s: State, history: seq<Row>, m: Minute, gone: set<nat>)
    requires Intact(s, history, m)
    requires forall r :: r in MinuteRows(s.samples, m) ==> r.id !in gone
    ensures Intact(s.(samples := Without(s.samples, gone)), history, m)
  {
    SelectMembers(MinuteOf(m), s.samples);
    SelectWithout(MinuteOf(m), s.samples, gone);
  }

  lemma DetailsAreNotMinuteRows(s: State, m: Minute)
    requires Numbered(s.samples)
    ensures forall r :: r in MinuteRows(s.samples, m) ==> r.id !in BatchIds(Details, s.samples)
  {
    SelectMembers(MinuteOf(m), s.samples);
    BatchFacts(Details, s.samples);
  }

  lemma LastIntactStep(s: State, history: seq<Row>, op: Op)
    requires Sound(s, history) && LastIntact(s, history) && Gentle(s, history, op)
    ensures LastIntact(Apply(s, op), NextHistory(history, op))
  {
    hide Select, Rebuilt, Without, BatchIds, MinuteRollup, ExpiredBuckets;
    match op
    case Commit(row) =>
      var history' := NextHistory(history, op);
      if history' != [] {
        var m := Bucket(Last(history').at);
        MinuteRowsAppend(history, row, m);
        MinuteRowsAppend(s.samples, row, m);
      }
    case AgedBatch(now) =>
      if history != [] { IntactWithout(s, history, Bucket(Last(history).at), Pruned(s, op)); }
    case DetailBatch =>
      if history != [] {
        DetailsAreNotMinuteRows(s, Bucket(Last(history).at));
        IntactWithout(s, history, Bucket(Last(history).at), BatchIds(Details, s.samples));
      }
    case BaselineBatch(now) =>
      if history != [] { IntactWithout(s, history, Bucket(Last(history).at), Pruned(s, op)); }
    case Checkpoint(_) =>
    case Flush =>
    case Reopen =>
  }

  /** What holds at the end of every run that never prunes the newest minute. */
  ghost predicate Kept(log: seq<Op>) {
    && Sound(Replay(log), History(log))
    && LastIntact(Replay(log), History(log))
    && View(Replay(log), History(log), AgeInstants(log))
  }

  lemma {:induction false} GentleRunsKeepTheView(log: seq<Op>)
    requires Performed(log) && GentleRun(log)
    ensures Kept(log)
  {
    hide Apply, NextAged, NextHistory, View, LastIntact, Sound, Gentle, Enabled;
    if log == [] {
      FreshIsAView();
    } else {
      var s, history, op := Replay(Front(log)), History(Front(log)), Final(log);
      GentleRunsKeepTheView(Front(log));
      AgedAppend(log);
      SoundStep(s, history, op);
      LastIntactStep(s, history, op);
      ViewStep(s, history, AgeInstants(Front(log)), op);
    }
  }

  lemma FreshIsAView()
    ensures Kept([])
  {
    forall m ensures ViewAt(FRESH, [], {}, m) {
      assert MinuteRows([], m) == [];
    }
    assert AgeInstants([]) == {};
  }

  // With no pruning, any clock will do.

  predicate Unpruned(op: Op) {
    !op.AgedBatch? && !op.BaselineBatch?
  }

  ghost predicate AllIntact(s: State, history: seq<Row>) {
    forall m :: Intact(s, history, m)
  }

  lemma AllIntactStep(s: State, history: seq<Row>, op: Op)
    requires Sound(s, history) && AllIntact(s, history) && Unpruned(op)
    ensures AllIntact(Apply(s, op), NextHistory(history, op))
  {
    hide Select, Rebuilt, Without, BatchIds, MinuteRollup;
    forall m ensures Intact(Apply(s, op), NextHistory(history, op), m) {
      assert Intact(s, history, m);
      match op
      case Commit(row) =>
        MinuteRowsAppend(history, row, m);
        MinuteRowsAppend(s.samples, row, m);
      case DetailBatch =>
        DetailsAreNotMinuteRows(s, m);
        IntactWithout(s, history, m, BatchIds(Details, s.samples));
      case Checkpoint(_) =>
      case Flush =>
      case Reopen =>
    }
  }

  lemma {:induction false} UnprunedRunsAreGentle(log: seq<Op>)
    requires Performed(log) && forall op :: op in log ==> Unpruned(op)
    ensures GentleRun(log) && AllIntact(Replay(log), History(log))
  {
    if log == [] {
      assert forall m :: MinuteRows([], m) == [];
      assert AllIntact(FRESH, []);
    } else {
      hide Apply, Sound, View, Intact;
      UnprunedRunsAreGentle(Front(log));
      GentleRunsKeepTheView(Front(log));
      AgedAppend(log);
      AllIntactStep(Replay(Front(log)), History(Front(log)), Final(log));
      assert Pruned(Replay(Front(log)), Final(log)) == {};
    }
  }

  /** Without age or pressure batches the view holds under any clock. */
  lemma ViewWithoutPruning(log: seq<Op>)
    requires Performed(log) && forall op :: op in log ==> Unpruned(op)
    ensures View(Replay(log), History(log), AgeInstants(log))
  {
    UnprunedRunsAreGentle(log);
    GentleRunsKeepTheView(log);
  }

  // With pruning, a clock that does not step back and timely prunes suffice.

  const PRUNE_LEEWAY_NS: int := 59 * MINUTE_NS

  /** Baselines carry a non-decreasing clock; a prune comes within 59 minutes of the newest one. */
  ghost predicate Steady(history: seq<Row>, op: Op) {
    && (op.Commit? && op.row.mode.Baseline? && history != [] ==> op.row.at >= Last(history).at)
    && (op.AgedBatch? && history != [] ==> op.now <= Last(history).at + PRUNE_LEEWAY_NS)
    && (op.BaselineBatch? && history != [] ==> op.now <= Last(history).at + PRUNE_LEEWAY_NS)
  }

  ghost predicate SteadyRun(log: seq<Op>) {
    log == [] || (SteadyRun(Front(log)) && Steady(History(Front(log)), Final(log)))
  }

  ghost predicate LastIsNewest(history: seq<Row>) {
    forall r :: r in history ==> r.at <= Last(history).at
  }

  /** A prune within the leeway cannot reach the newest minute. */
  lemma TimelyPrune(s: State, history: seq<Row>, op: Op)
    requires Numbered(s.samples) && history != [] && Steady(history, op)
    ensures forall r :: r in MinuteRows(s.samples, Bucket(Last(history).at)) ==> r.id !in Pruned(s, op)
  {
    hide BatchIds, Select;
    SelectMembers(MinuteOf(Bucket(Last(history).at)), s.samples);
    if op.AgedBatch? {
      BatchFacts(Aged(op.now - RAW_AGE_NS), s.samples);
    } else if op.BaselineBatch? {
      BatchFacts(OldBaseline(op.now - RECENT_BASELINE_NS), s.samples);
    }
  }

  /** A minute after the newest one has no rows yet, so none are missing. */
  lemma NewMinuteIsIntact(s: State, history: seq<Row>, m: Minute)
    requires Sound(s, history) && LastIsNewest(history)
    requires history != [] ==> m.index > Bucket(Last(history).at).index
    ensures Intact(s, history, m)
  {
    hide Select;
    SelectMembers(MinuteOf(m), s.samples);
    SelectMembers(MinuteOf(m), history);
    SomeMember(MinuteRows(history, m));
    SomeMember(MinuteRows(s.samples, m));
  }

  lemma SteadyIsGentle(s: State, history: seq<Row>, op: Op)
    requires Sound(s, history) && LastIntact(s, history) && LastIsNewest(history) && Steady(history, op)
    ensures Gentle(s, history, op) && LastIsNewest(NextHistory(history, op))
  {
    hide BatchIds, Select, Pruned, Intact;
    if history != [] {
      TimelyPrune(s, history, op);
    }
    if op.Commit? && op.row.mode.Baseline? {
      var m := Bucket(op.row.at);
      if history == [] || m != Bucket(Last(history).at) {
        NewMinuteIsIntact(s, history, m);
      }
    }
  }

  lemma {:induction false} SteadyRunsAreGentle(log: seq<Op>)
    requires Performed(log) && SteadyRun(log)
    ensures GentleRun(log) && LastIsNewest(History(log))
  {
    hide Apply, Sound, View, Gentle, Steady, LastIsNewest;
    if log == [] {
      assert LastIsNewest([]) by { NothingIsNewer(); }
    } else {
      SteadyRunsAreGentle(Front(log));
      GentleRunsKeepTheView(Front(log));
      AgedAppend(log);
      SteadyIsGentle(Replay(Front(log)), History(Front(log)), Final(log));
    }
  }

  lemma NothingIsNewer()
    ensures LastIsNewest([])
  {
  }

  /** The view survives crashes, reopens, age expiry and pressure eviction. */
  lemma ViewUnderRetention(log: seq<Op>)
    requires Performed(log) && SteadyRun(log)
    ensures View(Replay(log), History(log), AgeInstants(log))
  {
    SteadyRunsAreGentle(log);
    GentleRunsKeepTheView(log);
  }

  /** Whatever a crash left behind, reopening leaves no minute lagging. */
  lemma ReopenIsExact(log: seq<Op>, m: Minute)
    requires Performed(log) && SteadyRun(log)
    ensures var s, rows := Apply(Replay(log), Reopen), MinuteRows(History(log), m);
            && (m in s.rollups ==> rows != [] && s.rollups[m] == MinuteRollup(rows))
            && (m !in s.rollups ==> rows == [] || exists now :: now in AgeInstants(log) && Expired(m, now))
  {
    hide Sound, Select, MinuteRollup, AfterReopen;
    SteadyRunsAreGentle(log);
    GentleRunsKeepTheView(log);
    var s := Apply(Replay(log), Reopen);
    ViewStep(Replay(log), History(log), AgeInstants(log), Reopen);
    assert ViewAt(s, History(log), AgeInstants(log), m);
    assert s.pending == Nothing by { ReopenForgets(Replay(log)); }
    assert Drop(MinuteRows(History(log), m), 0) == MinuteRows(History(log), m);
  }

  lemma ReopenForgets(s: State)
    ensures AfterReopen(s).pending == Nothing
  {
  }

  // ------------------------------------------------ exactly when a rebuild is right

  /** How many of the minute's commits the store itself still knows about. */
  ghost function Recorded(s: State, m: Minute): nat {
    (if m in s.rollups then s.rollups[m].count else 0) + Lag(s, m)
  }

  /** The newest instant at which an age batch has run. */
  function LatestAge(log: seq<Op>): Option<int> {
    if log == [] then None
    else NextLatest(LatestAge(Front(log)), Final(log))
  }

  function NextLatest(latest: Option<int>, op: Op): Option<int> {
    if op.AgedBatch? && (latest.None? || latest.value < op.now) then Some(op.now) else latest
  }

  /** The minute's rollup was due to expire at the newest age batch. */
  predicate PastExpiry(m: Minute, latest: Option<int>) {
    latest.Some? && Start(m) < latest.value - ROLLUP_AGE_NS
  }

  /** The newest instant stands for all: a minute is past expiry at some age batch if and
      only if it is at the newest. */
  ghost predicate StandsFor(latest: Option<int>, aged: set<int>) {
    forall m: Minute :: AgedAway(m, aged) <==> PastExpiry(m, latest)
  }

  lemma StandsStep(latest: Option<int>, aged: set<int>, op: Op)
    requires StandsFor(latest, aged)
    ensures StandsFor(NextLatest(latest, op), NextAged(aged, op))
  {
    forall m: Minute ensures AgedAway(m, NextAged(aged, op)) <==> PastExpiry(m, NextLatest(latest, op)) {
      assert AgedAway(m, aged) <==> PastExpiry(m, latest);
      AgedMore(m, aged, op);
    }
  }

  lemma AgedMore(m: Minute, aged: set<int>, op: Op)
    ensures AgedAway(m, NextAged(aged, op)) <==> AgedAway(m, aged) || (op.AgedBatch? && Expired(m, op.now))
  {
    if op.AgedBatch? {
      assert op.now in NextAged(aged, op);
    }
  }

  lemma {:induction false} LatestStands(log: seq<Op>)
    ensures StandsFor(LatestAge(log), AgeInstants(log))
  {
    hide StandsFor;
    if log == [] {
      NeverAged();
    } else {
      LatestStands(Front(log));
      AgedAppend(log);
      StandsStep(LatestAge(Front(log)), AgeInstants(Front(log)), Final(log));
    }
  }

  lemma NeverAged()
    ensures StandsFor(None, AgeInstants([]))
  {
  }

  /** The minute's rollup has expired and is gone, but raw rows of it remain to rebuild it from. */
  ghost predicate Revived(s: State, latest: Option<int>, op: Op, m: Minute) {
    m !in s.rollups && PastExpiry(m, latest) && MinuteRows(Apply(s, op).samples, m) != []
  }

  /** When a rebuild of the minute is right.  The raw rows number the rollup's own count plus
      the pending commits, or there are none and the rollup was to expire anyway.  A revived
      minute has no count to go by: there the raw rows must be its whole history. */
  ghost predicate Countable(s: State, history: seq<Row>, latest: Option<int>, op: Op, m: Minute) {
    if Revived(s, latest, op, m) then MinuteRows(s.samples, m) == MinuteRows(history, m)
    else
      || |MinuteRows(s.samples, m)| == Recorded(s, m)
      || (MinuteRows(Apply(s, op).samples, m) == [] && PastExpiry(m, latest))
  }

  ghost predicate CountsRight(s: State, history: seq<Row>, latest: Option<int>, op: Op) {
    && (forall m :: m in RebuiltBy(s, op) ==> Countable(s, history, latest, op, m))
    && (forall m :: Forgotten(s, op, m) ==> m !in s.rollups && PastExpiry(m, latest))
  }

  /** Whatever a minute is or was, its recorded count is its history unless it has expired. */
  lemma RecordedIsHistory(s: State, history: seq<Row>, aged: set<int>, m: Minute)
    requires ViewAt(s, history, aged, m) && !(m !in s.rollups && AgedAway(m, aged))
    ensures Recorded(s, m) == |MinuteRows(history, m)|
  {
    hide Select;
    CountOf(Drop(MinuteRows(history, m), Lag(s, m)));
  }

  /** Of a rebuilt minute, raw rows and history change alike. */
  lemma RebuiltRows(s: State, history: seq<Row>, op: Op, m: Minute)
    requires RowsOf(s.samples, history) && m in RebuiltBy(s, op)
    ensures var s', history' := Apply(s, op), NextHistory(history, op);
            MinuteRows(s'.samples, m) == MinuteRows(history', m) <==> MinuteRows(s.samples, m) == MinuteRows(history, m)
  {
    hide Select, Rebuilt, LatestBaseline, RowsOf;
    match op
    case Commit(row) =>
      MinuteRowsAppend(history, row, m);
      MinuteRowsAppend(s.samples, row, m);
      assert AfterCommit(s, row).samples == s.samples + [row];
      SameInit(MinuteRows(s.samples, m), MinuteRows(history, m), row);
    case Flush =>
    case Reopen =>
  }

  lemma SameInit(a: seq<Row>, b: seq<Row>, row: Row)
    ensures a + [row] == b + [row] <==> a == b
  {
    assert a == (a + [row])[..|a + [row]| - 1] && b == (b + [row])[..|b + [row]| - 1];
  }

  lemma FaithfulIff(s: State, history: seq<Row>, aged: set<int>, latest: Option<int>, op: Op, m: Minute)
    requires RowsOf(s.samples, history) && View(s, history, aged) && m in RebuiltBy(s, op) && StandsFor(latest, aged)
    ensures Faithful(Apply(s, op).samples, NextHistory(history, op), aged, m) <==> Countable(s, history, latest, op, m)
  {
    hide Select, Rebuilt, LatestBaseline, RowsOf, Apply, RebuiltBy, Recorded, AgedAway, PastExpiry;
    assert ViewAt(s, history, aged, m);
    assert AgedAway(m, aged) <==> PastExpiry(m, latest);
    RebuiltRows(s, history, op, m);
    if m in s.rollups || !AgedAway(m, aged) {
      RecordedIsHistory(s, history, aged, m);
      RawIsPartOfHistory(s.samples, history, m);
    }
  }

  /** An operation keeps the view if and only if the counts are right, which can be told
      before it acts from the store and the newest age batch, unless it revives a minute. */
  lemma CountedStepIff(s: State, history: seq<Row>, aged: set<int>, latest: Option<int>, op: Op)
    requires Sound(s, history) && View(s, history, aged) && Enabled(s, op) && StandsFor(latest, aged)
    ensures View(Apply(s, op), NextHistory(history, op), NextAged(aged, op)) <==> CountsRight(s, history, latest, op)
  {
    hide View, Sound, Enabled, Apply, RebuiltBy, Forgotten, Faithful, Countable, NextAged, NextHistory, AgedAway, PastExpiry;
    StepIff(s, history, aged, op);
    SoundRows(s, history);
    forall m | m in RebuiltBy(s, op)
      ensures Faithful(Apply(s, op).samples, NextHistory(history, op), aged, m) <==> Countable(s, history, latest, op, m)
    {
      FaithfulIff(s, history, aged, latest, op, m);
    }
    forall m ensures AgedAway(m, aged) <==> PastExpiry(m, latest) {
    }
  }

  lemma FlushCounts(s: State, history: seq<Row>, aged: set<int>, m: Minute)
    requires RowsOf(s.samples, history) && View(s, history, aged) && !AgedAway(m, aged)
    ensures Faithful(s.samples, history, aged, m) <==> |MinuteRows(s.samples, m)| == Recorded(s, m)
  {
    hide Select, RowsOf, Recorded;
    assert ViewAt(s, history, aged, m);
    RecordedIsHistory(s, history, aged, m);
    RawIsPartOfHistory(s.samples, history, m);
  }

  /** Flushing a lagging minute that has not expired keeps the view if and only if the
      raw rows still present number the rollup's own count plus the pending commits. */
  lemma FlushIsExactIff(s: State, history: seq<Row>, aged: set<int>, m: Minute)
    requires Sound(s, history) && View(s, history, aged)
    requires s.pending.Pending? && s.pending.bucket == m && s.pending.count > 0 && !AgedAway(m, aged)
    ensures View(AfterFlush(s), history, aged) <==> |MinuteRows(s.samples, m)| == Recorded(s, m)
  {
    hide View, Sound, Select, Rebuilt, Faithful;
    SoundRows(s, history);
    FlushIff(s, history, aged);
    assert RebuiltBy(s, Flush) == {m};
    FlushCounts(s, history, aged, m);
  }

  // Over whole runs: the view holds throughout iff every operation was safe when it ran.

  ghost predicate ViewThroughout(log: seq<Op>) {
    View(Replay(log), History(log), AgeInstants(log)) && (log == [] || ViewThroughout(Front(log)))
  }

  ghost predicate SafeRun(log: seq<Op>) {
    log == [] || (SafeRun(Front(log)) && Safe(Replay(Front(log)), History(Front(log)), AgeInstants(Front(log)), Final(log)))
  }

  lemma {:induction false} ViewThroughoutIff(log: seq<Op>)
    requires Performed(log)
    ensures ViewThroughout(log) <==> SafeRun(log)
  {
    hide Apply, NextAged, NextHistory, View, Sound, Safe, Enabled;
    if log == [] {
      FreshIsAView();
    } else {
      ViewThroughoutIff(Front(log));
      SoundRun(Front(log));
      AgedAppend(log);
      if ViewThroughout(Front(log)) {
        StepIff(Replay(Front(log)), History(Front(log)), AgeInstants(Front(log)), Final(log));
      }
    }
  }

  ghost predicate CountedRun(log: seq<Op>) {
    log == [] ||
    (CountedRun(Front(log)) && CountsRight(Replay(Front(log)), History(Front(log)), LatestAge(Front(log)), Final(log)))
  }

  /** The same with the counts, step by step. */
  lemma {:induction false} ViewThroughoutIffCounted(log: seq<Op>)
    requires Performed(log)
    ensures ViewThroughout(log) <==> CountedRun(log)
  {
    hide Apply, NextAged, NextHistory, View, Sound, CountsRight, Enabled, StandsFor;
    if log == [] {
      FreshIsAView();
    } else {
      ViewThroughoutIffCounted(Front(log));
      SoundRun(Front(log));
      AgedAppend(log);
      LatestStands(Front(log));
      if ViewThroughout(Front(log)) {
        CountedStepIff(Replay(Front(log)), History(Front(log)), AgeInstants(Front(log)), LatestAge(Front(log)), Final(log));
      }
    }
  }
}
