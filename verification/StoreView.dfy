/** The rollup table is a view of the baseline history: what every operation
    keeps, and exactly when a rebuild from the surviving raw rows is exact. */
module StoreView {
  import opened Common
  import opened Samples
  import opened Rollups
  import opened StoreMachine

  ghost function MinuteRows(rows: seq<Row>, m: Minute): seq<Row> {
    Select(MinuteOf(m), rows)
  }

  function Last(rows: seq<Row>): Row
    requires rows != []
  {
    rows[|rows| - 1]
  }

  /** How many commits the minute's rollup may be behind. */
  ghost function Lag(s: State, m: Minute): nat {
    if s.pending.Pending? && s.pending.bucket == m then s.pending.count else 0
  }

  ghost function Drop(rows: seq<Row>, n: nat): seq<Row>
    requires n <= |rows|
  {
    rows[..|rows| - n]
  }

  ghost predicate Expired(m: Minute, now: int) {
    Start(m) < now - ROLLUP_AGE_NS
  }

  /** The minute's rollup is the fold of every baseline ever committed to it, except
      the `Lag` newest; it is absent only if there is nothing to fold or it aged out. */
  ghost predicate ViewAt(s: State, history: seq<Row>, aged: set<int>, m: Minute) {
    var rows := MinuteRows(history, m);
    && Lag(s, m) <= |rows|
    && var settled := Drop(rows, Lag(s, m));
       && (m in s.rollups ==> settled != [] && s.rollups[m] == MinuteRollup(settled))
       && (m !in s.rollups ==> settled == [] || exists now :: now in aged && Expired(m, now))
  }

  ghost predicate View(s: State, history: seq<Row>, aged: set<int>) {
    && (s.pending.Pending? ==>
          s.pending.count <= 2 && history != [] && s.pending.bucket == Bucket(Last(history).at))
    && forall m :: ViewAt(s, history, aged, m)
  }

  /** Every raw row of the minute's history is still present. */
  ghost predicate Intact(s: State, history: seq<Row>, m: Minute) {
    MinuteRows(s.samples, m) == MinuteRows(history, m)
  }

  ghost predicate LastIntact(s: State, history: seq<Row>) {
    history != [] ==> Intact(s, history, Bucket(Last(history).at))
  }

  /** Raw baseline rows come from the history; ids are commit numbers. */
  ghost predicate Sound(s: State, history: seq<Row>) {
    && Numbered(s.samples) && Numbered(history)
    && (forall r :: r in s.samples || r in history ==> r.id < s.nextId)
    && (forall r :: r in history ==> r.mode.Baseline?)
    && (forall r :: r in s.samples && r.mode.Baseline? ==> r in history)
  }

  function NextHistory(history: seq<Row>, op: Op): seq<Row> {
    if op.Commit? && op.row.mode.Baseline? then history + [op.row] else history
  }

  ghost function NextAged(aged: set<int>, op: Op): set<int> {
    if op.AgedBatch? then aged + {op.now} else aged
  }

  // ------------------------------------------------------------- preservation

  lemma SoundCommit(s: State, history: seq<Row>, row: Row)
    requires Sound(s, history) && row.id == s.nextId
    ensures Sound(AfterCommit(s, row), NextHistory(history, Commit(row)))
  {
    hide MinuteRollup, Select, Numbered;
    var s' := AfterCommit(s, row);
    assert s'.samples == s.samples + [row] && s'.nextId == s.nextId + 1;
    assert forall r :: r in s'.samples <==> r in s.samples || r == row;
    var history' := NextHistory(history, Commit(row));
    assert forall r :: r in history' ==> r in history || r == row;
    assert Numbered(s'.samples) by { AppendNumbered(s.samples, row); }
    assert Numbered(history') by { AppendNumbered(history, row); }
  }

  lemma AppendNumbered(rows: seq<Row>, row: Row)
    requires Numbered(rows) && forall r :: r in rows ==> r.id < row.id
    ensures Numbered(rows + [row])
  {
  }

  lemma SoundShrink(s: State, history: seq<Row>, gone: set<nat>)
    requires Sound(s, history)
    ensures Sound(s.(samples := Without(s.samples, gone)), history)
  {
    Shrink(s.samples, gone);
  }

  lemma SoundStep(s: State, history: seq<Row>, op: Op)
    requires Sound(s, history) && Enabled(s, op)
    ensures Sound(Apply(s, op), NextHistory(history, op))
  {
    hide MinuteRollup, Select, Without, Numbered, Smallest, BatchIds, TimeOrder;
    match op
    case Commit(row) => SoundCommit(s, history, row);
    case AgedBatch(now) => SoundShrink(s, history, BatchIds(Aged(now - RAW_AGE_NS), s.samples));
    case DetailBatch => SoundShrink(s, history, BatchIds(Details, s.samples));
    case BaselineBatch(now) => SoundShrink(s, history, BatchIds(OldBaseline(now - RECENT_BASELINE_NS), s.samples));
    case Checkpoint(_) =>
    case Flush =>
    case Reopen =>
  }

  lemma Shrink(rows: seq<Row>, gone: set<nat>)
    requires Numbered(rows)
    ensures Numbered(Without(rows, gone))
    ensures forall r :: r in Without(rows, gone) ==> r in rows
  {
    WithoutKeepsNumbering(rows, gone);
    WithoutMembers(rows, gone);
  }

  lemma RebuiltElsewhere(rollups: map<Minute, Rollup>, samples: seq<Row>, b: Minute, m: Minute)
    requires m != b
    ensures m in Rebuilt(rollups, samples, b) <==> m in rollups
    ensures m in rollups ==> Rebuilt(rollups, samples, b)[m] == rollups[m]
  {
  }

  lemma RebuiltHere(rollups: map<Minute, Rollup>, samples: seq<Row>, b: Minute)
    ensures b in Rebuilt(rollups, samples, b) <==> MinuteRows(samples, b) != []
    ensures b in Rebuilt(rollups, samples, b) ==> Rebuilt(rollups, samples, b)[b] == MinuteRollup(MinuteRows(samples, b))
  {
  }

  lemma MinuteRowsAppend(rows: seq<Row>, row: Row, m: Minute)
    ensures MinuteRows(rows + [row], m) ==
            if row.mode.Baseline? && Bucket(row.at) == m then MinuteRows(rows, m) + [row] else MinuteRows(rows, m)
  {
    MinuteMatches(m, row);
    SelectAppend(MinuteOf(m), rows, row);
  }

  // ------------------------------------- exactly when an operation keeps the view

  lemma SomeMember(rows: seq<Row>)
    ensures rows == [] || rows[0] in rows
  {
  }

  lemma {:induction false} SubsetLength(a: seq<Row>, b: seq<Row>)
    requires Numbered(a) && Numbered(b) && (a == [] || b != []) && forall r :: r in a ==> r in b
    ensures |a| <= |b| && (|a| == |b| ==> a == b)
    decreases |b|
  {
    if a != [] {
      var x, y := Last(a), Last(b);
      var a', b' := a[..|a| - 1], b[..|b| - 1];
      assert a == a' + [x] && b == b' + [y];
      SomeMember(a');
      if x == y {
        forall r | r in a' ensures r in b' {
          assert r in a && r.id < x.id;
        }
        assert a' == [] || b' != [];
        SubsetLength(a', b');
      } else {
        assert x in a && x in b' && x.id < y.id;
        forall r | r in a ensures r in b' {
          assert r in b && r.id <= x.id;
        }
        SubsetLength(a, b');
      }
    }
  }

  lemma CountOf(rows: seq<Row>)
    ensures MinuteRollup(rows).count == |rows|
  {
  }

  /** A rebuild of the minute from the raw rows is right: they are all there, or none is
      and the minute's rollup has aged out anyway. */
  ghost predicate Faithful(samples: seq<Row>, history: seq<Row>, aged: set<int>, m: Minute) {
    || MinuteRows(samples, m) == MinuteRows(history, m)
    || (MinuteRows(samples, m) == [] && AgedAway(m, aged))
  }

  ghost predicate AgedAway(m: Minute, aged: set<int>) {
    exists now :: now in aged && Expired(m, now)
  }

  /** The minutes whose rollup an operation recomputes. */
  function RebuiltBy(s: State, op: Op): set<Minute> {
    match op
    case Commit(row) => if row.mode.Detail? then {} else RolledMinute(s, Bucket(row.at)) + FilledMinute(s, Bucket(row.at))
    case Flush => if s.pending.Pending? && s.pending.count > 0 then {s.pending.bucket} else {}
    case Reopen =>
      (match LatestBaseline(s.samples)
       case None => {}
       case Some(row) => {Bucket(row.at)})
    case _ => {}
  }

  function RolledMinute(s: State, bucket: Minute): set<Minute> {
    if Changed(s.pending, bucket) && s.pending.count > 0 then {s.pending.bucket} else {}
  }

  function FilledMinute(s: State, bucket: Minute): set<Minute> {
    if NextCount(s.pending, bucket) >= 3 then {bucket} else {}
  }

  /** A lagging minute that a restart forgets without rebuilding it. */
  predicate Forgotten(s: State, op: Op, m: Minute) {
    op.Reopen? && s.pending.Pending? && s.pending.count > 0 && s.pending.bucket == m && m !in RebuiltBy(s, op)
  }

  /** The operation recomputes only minutes that can be recomputed, and forgets none. */
  ghost predicate Safe(s: State, history: seq<Row>, aged: set<int>, op: Op) {
    && (forall m :: m in RebuiltBy(s, op) ==> Faithful(Apply(s, op).samples, NextHistory(history, op), aged, m))
    && (forall m :: Forgotten(s, op, m) ==> m !in s.rollups && AgedAway(m, aged))
  }

  ghost predicate RowsOf(samples: seq<Row>, history: seq<Row>) {
    && Numbered(samples) && Numbered(history)
    && forall r :: r in samples && r.mode.Baseline? ==> r in history
  }

  lemma RawIsPartOfHistory(samples: seq<Row>, history: seq<Row>, m: Minute)
    requires RowsOf(samples, history)
    ensures var raw, rows := MinuteRows(samples, m), MinuteRows(history, m);
            |raw| <= |rows| && (|raw| == |rows| ==> raw == rows)
  {
    hide Select;
    SelectKeepsNumbering(MinuteOf(m), samples);
    SelectKeepsNumbering(MinuteOf(m), history);
    SelectMembers(MinuteOf(m), samples);
    SelectMembers(MinuteOf(m), history);
    SomeMember(MinuteRows(samples, m));
    SubsetLength(MinuteRows(samples, m), MinuteRows(history, m));
  }

  /** A minute rebuilt and not lagging agrees with the history iff the rebuild was faithful. */
  lemma RebuiltIff(s: State, history: seq<Row>, aged: set<int>, m: Minute)
    requires RowsOf(s.samples, history) && Lag(s, m) == 0
    requires m in s.rollups <==> MinuteRows(s.samples, m) != []
    requires m in s.rollups ==> s.rollups[m] == MinuteRollup(MinuteRows(s.samples, m))
    ensures ViewAt(s, history, aged, m) <==> Faithful(s.samples, history, aged, m)
  {
    hide Select, MinuteRollup, Numbered;
    var raw, rows := MinuteRows(s.samples, m), MinuteRows(history, m);
    assert Drop(rows, 0) == rows;
    RawIsPartOfHistory(s.samples, history, m);
    CountOf(raw);
    CountOf(rows);
  }

  /** A minute the operation does not recompute. */
  lemma Untouched(s: State, s': State, history: seq<Row>, aged: set<int>, m: Minute)
    requires ViewAt(s, history, aged, m) && Lag(s', m) == Lag(s, m)
    requires m in s'.rollups <==> m in s.rollups
    requires m in s.rollups ==> s'.rollups[m] == s.rollups[m]
    ensures ViewAt(s', history, aged, m)
  {
  }

  lemma CommitRollups(s: State, row: Row, m: Minute)
    requires row.mode.Baseline?
    ensures var s' := AfterCommit(s, row);
            && (m !in RebuiltBy(s, Commit(row)) ==> (m in s'.rollups <==> m in s.rollups))
            && (m !in RebuiltBy(s, Commit(row)) && m in s.rollups ==> s'.rollups[m] == s.rollups[m])
            && (m in RebuiltBy(s, Commit(row)) ==> (m in s'.rollups <==> MinuteRows(s'.samples, m) != []))
            && (m in RebuiltBy(s, Commit(row)) && m in s'.rollups ==> s'.rollups[m] == MinuteRollup(MinuteRows(s'.samples, m)))
  {
    hide MinuteRollup, Select;
  }

  /** One minute after a commit. */
  lemma CommitAt(s: State, history: seq<Row>, aged: set<int>, row: Row, m: Minute)
    requires View(s, history, aged) && row.mode.Baseline?
    requires RowsOf(s.samples + [row], history + [row])
    ensures var s' := AfterCommit(s, row);
            ViewAt(s', history + [row], aged, m) <==>
            (m in RebuiltBy(s, Commit(row)) ==> Faithful(s'.samples, history + [row], aged, m))
  {
    hide MinuteRollup, Select, RowsOf, Rebuilt, Faithful;
    assert ViewAt(s, history, aged, m);
    var s' := AfterCommit(s, row);
    CommitRollups(s, row, m);
    MinuteRowsAppend(history, row, m);
    if m in RebuiltBy(s, Commit(row)) {
      RebuiltIff(s', history + [row], aged, m);
    } else if m == Bucket(row.at) {
      var rows := MinuteRows(history, m);
      assert Lag(s', m) == Lag(s, m) + 1;
      assert Drop(rows + [row], Lag(s', m)) == Drop(rows, Lag(s, m));
    } else {
      assert Lag(s', m) == Lag(s, m);
      assert MinuteRows(history + [row], m) == MinuteRows(history, m);
    }
  }

  lemma CommitIff(s: State, history: seq<Row>, aged: set<int>, row: Row)
    requires Sound(s, history) && View(s, history, aged) && row.id == s.nextId
    ensures View(AfterCommit(s, row), NextHistory(history, Commit(row)), aged) <==> Safe(s, history, aged, Commit(row))
  {
    hide MinuteRollup, Select, Rebuilt, Faithful, RebuiltBy, Sound;
    var s', history' := AfterCommit(s, row), NextHistory(history, Commit(row));
    SoundCommit(s, history, row);
    SoundRows(s', history');
    if row.mode.Baseline? {
      forall m
        ensures ViewAt(s', history', aged, m) <==> (m in RebuiltBy(s, Commit(row)) ==> Faithful(s'.samples, history', aged, m))
      {
        CommitAt(s, history, aged, row, m);
      }
    } else {
      assert RebuiltBy(s, Commit(row)) == {} by { DetailRebuildsNothing(s, row); }
      forall m ensures ViewAt(s', history', aged, m) {
        assert ViewAt(s, history, aged, m);
        Untouched(s, s', history, aged, m);
      }
    }
  }

  lemma DetailRebuildsNothing(s: State, row: Row)
    requires row.mode.Detail?
    ensures RebuiltBy(s, Commit(row)) == {}
  {
  }

  lemma SoundRows(s: State, history: seq<Row>)
    requires Sound(s, history)
    ensures RowsOf(s.samples, history)
  {
    hide Numbered;
  }

  lemma FlushIff(s: State, history: seq<Row>, aged: set<int>)
    requires RowsOf(s.samples, history) && View(s, history, aged)
    ensures View(AfterFlush(s), history, aged) <==> Safe(s, history, aged, Flush)
  {
    hide MinuteRollup, Select, Rebuilt, Faithful, RowsOf;
    var s' := AfterFlush(s);
    forall m
      ensures ViewAt(s', history, aged, m) <==> (m in RebuiltBy(s, Flush) ==> Faithful(s'.samples, history, aged, m))
    {
      assert ViewAt(s, history, aged, m);
      if m in RebuiltBy(s, Flush) {
        RebuiltHere(s.rollups, s.samples, m);
        RebuiltIff(s', history, aged, m);
      } else {
        if s.pending.Pending? && s.pending.count > 0 {
          RebuiltElsewhere(s.rollups, s.samples, s.pending.bucket, m);
        }
        Untouched(s, s', history, aged, m);
      }
    }
  }

  /** One minute after a restart, which drops every lag. */
  lemma ReopenAt(s: State, history: seq<Row>, aged: set<int>, m: Minute)
    requires RowsOf(s.samples, history) && ViewAt(s, history, aged, m)
    ensures var s' := AfterReopen(s);
            ViewAt(s', history, aged, m) <==>
            ((m in RebuiltBy(s, Reopen) ==> Faithful(s'.samples, history, aged, m)) &&
             (Forgotten(s, Reopen, m) ==> m !in s.rollups && AgedAway(m, aged)))
  {
    hide MinuteRollup, Select, Rebuilt, Faithful, RowsOf, LatestBaseline;
    var s', rows := AfterReopen(s), MinuteRows(history, m);
    assert Lag(s', m) == 0;
    if m in RebuiltBy(s, Reopen) {
      RebuiltHere(s.rollups, s.samples, m);
      RebuiltIff(s', history, aged, m);
    } else {
      ReopenElsewhere(s, m);
      CountOf(rows);
      CountOf(Drop(rows, Lag(s, m)));
      assert Drop(rows, 0) == rows;
    }
  }

  lemma ReopenElsewhere(s: State, m: Minute)
    requires m !in RebuiltBy(s, Reopen)
    ensures m in AfterReopen(s).rollups <==> m in s.rollups
    ensures m in s.rollups ==> AfterReopen(s).rollups[m] == s.rollups[m]
  {
    hide MinuteRollup, Select;
  }

  lemma ReopenIff(s: State, history: seq<Row>, aged: set<int>)
    requires RowsOf(s.samples, history) && View(s, history, aged)
    ensures View(AfterReopen(s), history, aged) <==> Safe(s, history, aged, Reopen)
  {
    hide MinuteRollup, Select, Rebuilt, Faithful, RowsOf, LatestBaseline, ViewAt, RebuiltBy, Forgotten;
    var s' := AfterReopen(s);
    forall m
      ensures ViewAt(s', history, aged, m) <==>
              ((m in RebuiltBy(s, Reopen) ==> Faithful(s'.samples, history, aged, m)) &&
               (Forgotten(s, Reopen, m) ==> m !in s.rollups && AgedAway(m, aged)))
    {
      assert ViewAt(s, history, aged, m);
      ReopenAt(s, history, aged, m);
    }
  }

  lemma ViewSameRollups(s: State, s': State, history: seq<Row>, aged: set<int>)
    requires View(s, history, aged) && s'.rollups == s.rollups && s'.pending == s.pending
    ensures View(s', history, aged)
  {
    hide MinuteRollup, Select;
    forall m ensures ViewAt(s', history, aged, m) {
      assert ViewAt(s, history, aged, m);
    }
  }

  lemma ViewAged(s: State, history: seq<Row>, aged: set<int>, now: int)
    requires View(s, history, aged)
    ensures View(Apply(s, AgedBatch(now)), history, aged + {now})
  {
    hide MinuteRollup, Select, Without, BatchIds;
    var s' := Apply(s, AgedBatch(now));
    assert now in aged + {now};
    forall m ensures ViewAt(s', history, aged + {now}, m) {
      assert ViewAt(s, history, aged, m);
      SmallestFacts((set b | b in s.rollups && Start(b) < now - ROLLUP_AGE_NS), RETENTION_BATCH_ROWS);
      assert m in ExpiredBuckets(s.rollups, now - ROLLUP_AGE_NS) ==> Expired(m, now);
    }
  }

  /** An operation keeps the view if and only if it is safe. */
  lemma StepIff(s: State, history: seq<Row>, aged: set<int>, op: Op)
    requires Sound(s, history) && View(s, history, aged) && Enabled(s, op)
    ensures View(Apply(s, op), NextHistory(history, op), NextAged(aged, op)) <==> Safe(s, history, aged, op)
  {
    hide MinuteRollup, Select, Rebuilt, Without, BatchIds, ExpiredBuckets, AfterCommit, AfterFlush, AfterReopen, LatestBaseline, View, RowsOf, DetailBytes, HasDetail, Faithful;
    SoundRows(s, history);
    match op
    case Commit(row) => CommitIff(s, history, aged, row);
    case AgedBatch(now) => ViewAged(s, history, aged, now);
    case DetailBatch => ViewSameRollups(s, Apply(s, op), history, aged);
    case BaselineBatch(now) => ViewSameRollups(s, Apply(s, op), history, aged);
    case Checkpoint(_) => ViewSameRollups(s, Apply(s, op), history, aged);
    case Flush => FlushIff(s, history, aged);
    case Reopen => ReopenIff(s, history, aged);
  }

  /** With the newest minute intact, the newest raw baseline is the newest committed one. */
  lemma LatestIs(s: State, history: seq<Row>)
    requires Sound(s, history) && LastIntact(s, history)
    ensures LatestBaseline(s.samples) == if history == [] then None else Some(Last(history))
  {
    if history == [] {
      LatestIsNone(s.samples);
    } else {
      var last := Last(history);
      MinuteMatches(Bucket(last.at), last);
      SelectMembers(MinuteOf(Bucket(last.at)), history);
      SelectMembers(MinuteOf(Bucket(last.at)), s.samples);
      assert last in MinuteRows(history, Bucket(last.at));
      LatestIsMax(s.samples, last);
    }
  }

  lemma {:induction false} LatestIsNone(rows: seq<Row>)
    requires forall r :: r in rows ==> r.mode.Detail?
    ensures LatestBaseline(rows) == None
  {
    if rows != [] {
      LatestIsNone(rows[..|rows| - 1]);
    }
  }

  lemma {:induction false} LatestIsMax(rows: seq<Row>, last: Row)
    requires Numbered(rows) && last in rows && last.mode.Baseline?
    requires forall r :: r in rows && r.mode.Baseline? ==> r.id <= last.id
    ensures LatestBaseline(rows) == Some(last)
  {
    if rows[|rows| - 1] != last {
      assert rows[|rows| - 1] in rows;
      LatestIsMax(rows[..|rows| - 1], last);
    }
  }

  /** With every raw row of the newest minute present, every operation is safe. */
  lemma IntactIsSafe(s: State, history: seq<Row>, aged: set<int>, op: Op)
    requires Sound(s, history) && View(s, history, aged) && LastIntact(s, history)
    ensures Safe(s, history, aged, op)
  {
    hide MinuteRollup, Select, Rebuilt, Without, BatchIds, Sound, ViewAt, LatestBaseline;
    LatestIs(s, history);
    match op
    case Commit(row) =>
      if history != [] {
        MinuteRowsAppend(history, row, Bucket(Last(history).at));
        MinuteRowsAppend(s.samples, row, Bucket(Last(history).at));
      }
      assert AfterCommit(s, row).samples == s.samples + [row];
    case _ =>
  }

  lemma ViewStep(s: State, history: seq<Row>, aged: set<int>, op: Op)
    requires Sound(s, history) && View(s, history, aged) && LastIntact(s, history) && Enabled(s, op)
    ensures View(Apply(s, op), NextHistory(history, op), NextAged(aged, op))
  {
    hide Sound, View, LastIntact, Enabled, Safe, Apply;
    IntactIsSafe(s, history, aged, op);
    StepIff(s, history, aged, op);
  }
}
