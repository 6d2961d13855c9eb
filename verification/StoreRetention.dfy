/** Whole-run theorems about what retention may and may not remove. */
module StoreRetention {
  import opened Common
  import opened Samples
  import opened StoreMachine
  import opened StoreView
  import opened StoreRuns

  // -------------------------------------------------------- the detail reserve

  lemma {:induction false} DetailBytesShrink(rows: seq<Row>, gone: set<nat>)
    ensures DetailBytes(Without(rows, gone)) <= DetailBytes(rows)
  {
    if rows != [] {
      var init, last := rows[..|rows| - 1], rows[|rows| - 1];
      DetailBytesShrink(init, gone);
      DetailBytesAppend(Without(init, gone), last);
    }
  }

  lemma DetailBytesAppend(rows: seq<Row>, row: Row)
    ensures DetailBytes(rows + [row]) == DetailBytes(rows) + if row.mode.Detail? then row.blobBytes else 0
  {
    assert (rows + [row])[..|rows|] == rows;
  }

  lemma ReserveStep(s: State, op: Op)
    requires DetailBytes(s.samples) <= DETAIL_RESERVE_BYTES && Enabled(s, op)
    ensures DetailBytes(Apply(s, op).samples) <= DETAIL_RESERVE_BYTES
  {
    hide BatchIds, Without, DetailBytes, AfterCommit, AfterFlush, AfterReopen, HasDetail;
    match op
    case Commit(row) =>
      DetailBytesAppend(s.samples, row);
      CommitAppends(s, row);
    case AgedBatch(now) => DetailBytesShrink(s.samples, BatchIds(Aged(now - RAW_AGE_NS), s.samples));
    case DetailBatch => DetailBytesShrink(s.samples, BatchIds(Details, s.samples));
    case BaselineBatch(now) => DetailBytesShrink(s.samples, BatchIds(OldBaseline(now - RECENT_BASELINE_NS), s.samples));
    case Checkpoint(_) =>
    case Flush => SameSamples(s);
    case Reopen => SameSamples(s);
  }

  /** From a fresh store, detail blobs never outgrow their reserve. */
  lemma {:induction false} DetailStaysInReserve(log: seq<Op>)
    requires Performed(log)
    ensures DetailBytes(Replay(log).samples) <= DETAIL_RESERVE_BYTES
  {
    hide Apply, Enabled;
    if log != [] {
      DetailStaysInReserve(Front(log));
      ReserveStep(Replay(Front(log)), Final(log));
    }
  }

  lemma SameSamples(s: State)
    ensures AfterFlush(s).samples == s.samples && AfterReopen(s).samples == s.samples
  {
  }

  // ------------------------------------------------- detail rows keep their twin

  /** The detail row repeats the baseline committed just before it. */
  predicate Twins(detail: Row, baseline: Row) {
    && detail.mode.Detail? && baseline.mode.Baseline?
    && detail.at == baseline.at && detail.host == baseline.host && detail.services == baseline.services
  }

  /** The newest baseline, if no age or pressure batch has run since its commit. */
  function JustCommitted(log: seq<Op>): Option<Row> {
    if log == [] then None else NextJustCommitted(JustCommitted(Front(log)), Final(log))
  }

  /** Every detail row is committed right after its baseline. */
  ghost predicate PairedRun(log: seq<Op>) {
    log == [] ||
    (PairedRun(Front(log)) && PairedStep(JustCommitted(Front(log)), Final(log)))
  }

  ghost predicate PairedStep(last: Option<Row>, op: Op) {
    op.Commit? && op.row.mode.Detail? ==> last.Some? && Twins(op.row, last.value)
  }

  /** The row is at least as new as every age cutoff applied so far. */
  ghost predicate Retained(row: Row, aged: set<int>) {
    forall now :: now in aged ==> row.at >= now - RAW_AGE_NS
  }

  ghost predicate HasTwin(rows: seq<Row>, d: Row) {
    exists b :: b in rows && Twins(d, b)
  }

  ghost predicate PairsKept(rows: seq<Row>, aged: set<int>, last: Option<Row>) {
    && (last.Some? ==> last.value in rows)
    && forall d :: d in rows && d.mode.Detail? && Retained(d, aged) ==> HasTwin(rows, d)
  }

  lemma PairsAfterCommit(rows: seq<Row>, aged: set<int>, last: Option<Row>, row: Row)
    requires PairsKept(rows, aged, last) && PairedStep(last, Commit(row))
    ensures PairsKept(rows + [row], aged, if row.mode.Baseline? then Some(row) else last)
  {
    forall d | d in rows + [row] && d.mode.Detail? && Retained(d, aged)
      ensures HasTwin(rows + [row], d)
    {
      if d in rows {
        var b :| b in rows && Twins(d, b);
        assert b in rows + [row];
      } else {
        assert last.value in rows + [row] && Twins(d, last.value);
      }
    }
  }

  lemma PairsAfterAging(rows: seq<Row>, aged: set<int>, last: Option<Row>, now: int)
    requires Numbered(rows) && PairsKept(rows, aged, last)
    ensures PairsKept(Without(rows, BatchIds(Aged(now - RAW_AGE_NS), rows)), aged + {now}, None)
  {
    hide BatchIds, Without, Numbered;
    var gone := BatchIds(Aged(now - RAW_AGE_NS), rows);
    BatchFacts(Aged(now - RAW_AGE_NS), rows);
    WithoutMembers(rows, gone);
    var rest := Without(rows, gone);
    assert now in aged + {now};
    forall d | d in rest && d.mode.Detail? && Retained(d, aged + {now})
      ensures HasTwin(rest, d)
    {
      assert Retained(d, aged);
      var b :| b in rows && Twins(d, b);
      assert !Matches(Aged(now - RAW_AGE_NS), b);
      assert b in rest;
    }
  }

  lemma PairsAfterDetailBatch(rows: seq<Row>, aged: set<int>, last: Option<Row>)
    requires Numbered(rows) && PairsKept(rows, aged, last) && (last.Some? ==> last.value.mode.Baseline?)
    ensures PairsKept(Without(rows, BatchIds(Details, rows)), aged, last)
  {
    hide BatchIds, Without, Numbered;
    var gone := BatchIds(Details, rows);
    BatchFacts(Details, rows);
    WithoutMembers(rows, gone);
    var rest := Without(rows, gone);
    forall d | d in rest && d.mode.Detail? && Retained(d, aged)
      ensures HasTwin(rest, d)
    {
      var b :| b in rows && Twins(d, b);
      assert b in rest;
    }
  }

  lemma PairsAfterBaselineBatch(rows: seq<Row>, aged: set<int>, gone: set<nat>)
    requires !HasDetail(rows)
    ensures PairsKept(Without(rows, gone), aged, None)
  {
    WithoutMembers(rows, gone);
  }

  lemma {:induction false} JustCommittedIsBaseline(log: seq<Op>)
    ensures JustCommitted(log).Some? ==> JustCommitted(log).value.mode.Baseline?
  {
    if log != [] {
      JustCommittedIsBaseline(Front(log));
    }
  }

  function NextJustCommitted(last: Option<Row>, op: Op): Option<Row> {
    match op
    case Commit(row) => if row.mode.Baseline? then Some(row) else last
    case AgedBatch(_) => None
    case BaselineBatch(_) => None
    case _ => last
  }

  lemma PairsStep(s: State, history: seq<Row>, aged: set<int>, last: Option<Row>, op: Op)
    requires Sound(s, history) && Enabled(s, op)
    requires PairsKept(s.samples, aged, last) && PairedStep(last, op)
    requires last.Some? ==> last.value.mode.Baseline?
    ensures PairsKept(Apply(s, op).samples, NextAged(aged, op), NextJustCommitted(last, op))
  {
    hide BatchIds, Without, PairsKept, AfterCommit, AfterFlush, AfterReopen, Sound, PairedStep, HasDetail, DetailBytes;
    NumberedRun(s, history);
    match op
    case Commit(row) =>
      PairsAfterCommit(s.samples, aged, last, row);
      CommitAppends(s, row);
    case AgedBatch(now) => PairsAfterAging(s.samples, aged, last, now);
    case DetailBatch => PairsAfterDetailBatch(s.samples, aged, last);
    case BaselineBatch(now) =>
      PairsAfterBaselineBatch(s.samples, aged, BatchIds(OldBaseline(now - RECENT_BASELINE_NS), s.samples));
    case Checkpoint(_) =>
    case Flush => SameSamples(s);
    case Reopen => SameSamples(s);
  }

  /** In every run, a detail row that no age cutoff has reached still has the baseline
      row it was committed with, whatever was evicted for quota or pressure. */
  lemma {:induction false} DetailKeepsItsBaseline(log: seq<Op>)
    requires Performed(log) && PairedRun(log)
    ensures PairsKept(Replay(log).samples, AgeInstants(log), JustCommitted(log))
  {
    hide PairsKept, Sound, PairedStep, Apply, Enabled, NextAged, NextHistory;
    if log == [] {
      NoPairsYet();
    } else {
      DetailKeepsItsBaseline(Front(log));
      JustCommittedIsBaseline(Front(log));
      SoundRun(Front(log));
      AgedAppend(log);
      PairsStep(Replay(Front(log)), History(Front(log)), AgeInstants(Front(log)), JustCommitted(Front(log)), Final(log));
    }
  }

  lemma NoPairsYet()
    ensures PairsKept([], AgeInstants([]), None)
  {
  }

  lemma NumberedRun(s: State, history: seq<Row>)
    requires Sound(s, history)
    ensures Numbered(s.samples)
  {
  }

  lemma CommitAppends(s: State, row: Row)
    ensures AfterCommit(s, row).samples == s.samples + [row]
  {
  }

  // ------------------------------------------- a busy checkpoint stops deletion

  predicate Removes(op: Op) {
    op.AgedBatch? || op.DetailBatch? || op.BaselineBatch?
  }

  /** A successful checkpoint, or the restart that forgets the busy one. */
  predicate Releases(op: Op) {
    op == Checkpoint(true) || op == Reopen
  }

  /** The flag after some operations, from the operations alone. */
  function FlagAfter(blocked: bool, ops: seq<Op>): bool {
    if ops == [] then blocked
    else
      match Final(ops)
      case Checkpoint(ok) => !ok
      case Reopen => false
      case _ => FlagAfter(blocked, Front(ops))
  }

  lemma FlagStep(s: State, op: Op)
    ensures Apply(s, op).blocked == FlagAfter(s.blocked, [op])
  {
    hide Select, Without, BatchIds, Rebuilt, ExpiredBuckets, LatestBaseline;
    assert Front([op]) == [];
  }

  /** The store's blocked flag is the outcome of the last checkpoint since the last restart. */
  lemma {:induction false} FlagIsReplayed(log: seq<Op>, ops: seq<Op>)
    ensures Replay(log + ops).blocked == FlagAfter(Replay(log).blocked, ops)
  {
    hide Apply;
    if ops == [] {
      assert log + ops == log;
    } else {
      assert Front(log + ops) == log + Front(ops) && Final(log + ops) == Final(ops);
      FlagIsReplayed(log, Front(ops));
      FlagStep(Replay(log + Front(ops)), Final(ops));
    }
  }

  /** A removal at i comes after a release. */
  ghost predicate Released(ops: seq<Op>, i: nat) {
    exists j: nat :: j < i < |ops| && Releases(ops[j])
  }

  ghost predicate AllReleased(ops: seq<Op>) {
    forall i: nat :: i < |ops| && Removes(ops[i]) ==> Released(ops, i)
  }

  /** Entered with a blocked checkpoint, a call removes nothing until a checkpoint succeeds. */
  ghost predicate Guarded(blocked: bool, ops: seq<Op>) {
    blocked ==> AllReleased(ops)
  }

  lemma {:induction false} StillBlocked(ops: seq<Op>)
    requires forall op :: op in ops ==> !Releases(op)
    ensures FlagAfter(true, ops)
  {
    if ops != [] {
      assert Final(ops) in ops;
      assert forall op :: op in Front(ops) ==> op in ops;
      StillBlocked(Front(ops));
    }
  }

  /** Two lists of released removals; the second may rely on a release in the first. */
  lemma ReleasedConcat(a: seq<Op>, b: seq<Op>)
    requires AllReleased(a) && (AllReleased(b) || exists op :: op in a && Releases(op))
    ensures AllReleased(a + b)
  {
    var ops := a + b;
    forall i: nat | i < |ops| && Removes(ops[i]) ensures Released(ops, i) {
      if i < |a| {
        assert Released(a, i);
        var j: nat :| j < i && Releases(a[j]);
        assert ops[j] == a[j];
      } else if AllReleased(b) {
        assert ops[i] == b[i - |a|] && Released(b, i - |a|);
        var j: nat :| j < i - |a| && Releases(b[j]);
        assert ops[j + |a|] == b[j];
      } else {
        var op :| op in a && Releases(op);
        var j: nat :| j < |a| && a[j] == op;
        assert ops[j] == op;
      }
    }
  }

  /** Calls that are guarded one by one, each by the flag it finds, are guarded together:
      after a busy checkpoint nothing is removed until one succeeds. */
  lemma GuardCompose(log: seq<Op>, a: seq<Op>, b: seq<Op>)
    requires Guarded(Replay(log).blocked, a) && Guarded(Replay(log + a).blocked, b)
    ensures Guarded(Replay(log).blocked, a + b)
  {
    hide Replay, AllReleased;
    if Replay(log).blocked {
      if forall op :: op in a ==> !Releases(op) {
        FlagIsReplayed(log, a);
        StillBlocked(a);
      }
      ReleasedConcat(a, b);
    }
  }
}
