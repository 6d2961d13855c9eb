/** The store as a machine: every committed transaction, checkpoint attempt and
    restart is one operation on a pure state.  The class in Store.dfy performs
    exactly such operations; whole-run theorems are about lists of them. */
module StoreMachine {
  import opened Common
  import opened Samples
  import opened Rollups

  const RAW_AGE_NS: int := 48 * 60 * MINUTE_NS
  const ROLLUP_AGE_NS: int := 14 * 24 * 60 * MINUTE_NS
  const RECENT_BASELINE_NS: int := 60 * MINUTE_NS
  const MAX_SAMPLE_BYTES: nat := 1024 * 1024
  const RETENTION_BATCH_ROWS: nat := 16
  const MAX_RETENTION_BATCHES: nat := 128
  const DETAIL_RESERVE_BYTES: nat := 192 * 1024 * 1024
  const BASELINE_RESERVE_BYTES: nat := 256 * 1024 * 1024

  /** The minute whose rollup may lag, and by how many commits. */
  datatype Pending = Nothing | Pending(bucket: Minute, count: nat)

  /** The two durable tables and the writer's memory.  `samples` is in commit order. */
  datatype State = State(samples: seq<Row>, rollups: map<Minute, Rollup>, nextId: nat,
                         blocked: bool, pending: Pending)

  datatype Op =
    | Commit(row: Row)
    | AgedBatch(now: int)
    | DetailBatch
    | BaselineBatch(now: int)
    | Checkpoint(ok: bool)
    | Flush
    | Reopen

  const FRESH: State := State([], map[], 0, false, Nothing)

  /** The limits in plain units. */
  lemma Limits()
    ensures RAW_AGE_NS == 172_800_000_000_000 && ROLLUP_AGE_NS == 1_209_600_000_000_000
    ensures RECENT_BASELINE_NS == 3_600_000_000_000 && MINUTE_NS == 60_000_000_000
    ensures MAX_SAMPLE_BYTES == 1_048_576 && RETENTION_BATCH_ROWS == 16 && MAX_RETENTION_BATCHES == 128
    ensures DETAIL_RESERVE_BYTES == 201_326_592 && BASELINE_RESERVE_BYTES == 268_435_456
  {
  }

  // ------------------------------------------------------------------ queries

  function DetailBytes(rows: seq<Row>): nat {
    if rows == [] then 0
    else
      var last := rows[|rows| - 1];
      DetailBytes(rows[..|rows| - 1]) + if last.mode.Detail? then last.blobBytes else 0
  }

  function BaselineBytes(rows: seq<Row>): nat {
    if rows == [] then 0
    else
      var last := rows[|rows| - 1];
      BaselineBytes(rows[..|rows| - 1]) + if last.mode.Baseline? then last.blobBytes + last.textChars else 0
  }

  /** `WHERE mode='baseline' ORDER BY id DESC LIMIT 1`. */
  function LatestBaseline(rows: seq<Row>): Option<Row> {
    if rows == [] then None
    else if rows[|rows| - 1].mode.Baseline? then Some(rows[|rows| - 1])
    else LatestBaseline(rows[..|rows| - 1])
  }

  /** The ids of the oldest batch of rows a filter selects. */
  function BatchIds(f: Filter, rows: seq<Row>): set<nat> {
    set r | r in Oldest(Select(f, rows), RETENTION_BATCH_ROWS) :: r.id
  }

  predicate IsLeast(m: Minute, s: set<Minute>) {
    m in s && forall x :: x in s ==> m.index <= x.index
  }

  lemma {:induction false} SetHasLeast(s: set<Minute>)
    requires s != {}
    ensures exists m :: IsLeast(m, s)
  {
    var m :| m in s;
    if s == {m} {
      assert IsLeast(m, s);
    } else {
      var rest := s - {m};
      assert rest != {} && s == rest + {m};
      SetHasLeast(rest);
      var k :| IsLeast(k, rest);
      assert IsLeast(if m.index < k.index then m else k, s);
    }
  }

  lemma WithoutOne(s: set<Minute>, m: Minute)
    requires m in s
    ensures |s| == |s - {m}| + 1
  {
  }

  /** The n earliest minutes. */
  function Smallest(s: set<Minute>, n: nat): set<Minute> {
    if n == 0 || s == {} then {}
    else
      SetHasLeast(s);
      var m :| IsLeast(m, s);
      {m} + Smallest(s - {m}, n - 1)
  }

  lemma {:induction false} SmallestFacts(s: set<Minute>, n: nat)
    ensures Smallest(s, n) <= s && |Smallest(s, n)| == Min(n, |s|)
    ensures forall a, b :: a in Smallest(s, n) && b in s - Smallest(s, n) ==> a.index < b.index
  {
    if n > 0 && s != {} {
      SetHasLeast(s);
      var m :| IsLeast(m, s) && Smallest(s, n) == {m} + Smallest(s - {m}, n - 1);
      var rest, out := s - {m}, Smallest(s - {m}, n - 1);
      SmallestFacts(rest, n - 1);
      hide Smallest;
      WithoutOne(s, m);
      LeastFirst(s, m, out);
    }
  }

  lemma LeastFirst(s: set<Minute>, m: Minute, out: set<Minute>)
    requires IsLeast(m, s) && out <= s - {m}
    requires forall a, b :: a in out && b in (s - {m}) - out ==> a.index < b.index
    ensures {m} + out <= s && |{m} + out| == |out| + 1
    ensures forall a, b :: a in {m} + out && b in s - ({m} + out) ==> a.index < b.index
  {
    forall b | b in s - ({m} + out) ensures m.index < b.index && b in (s - {m}) - out {
      assert b.index != m.index;
    }
  }

  /** `WHERE bucket_start_ns < cutoff ORDER BY bucket_start_ns LIMIT 16`. */
  function ExpiredBuckets(rollups: map<Minute, Rollup>, cutoff: int): set<Minute> {
    Smallest((set b | b in rollups && Start(b) < cutoff), RETENTION_BATCH_ROWS)
  }

  // --------------------------------------------------------------- operations

  function MinuteRollup(rows: seq<Row>): Rollup {
    RollupOf(TimeOrder(rows))
  }

  /** Replaces a minute's rollup by one computed from the raw rows still present. */
  function Rebuilt(rollups: map<Minute, Rollup>, samples: seq<Row>, bucket: Minute): map<Minute, Rollup> {
    var rows := Select(MinuteOf(bucket), samples);
    if rows == [] then rollups - {bucket} else rollups[bucket := MinuteRollup(rows)]
  }

  function Changed(pending: Pending, bucket: Minute): bool {
    pending.Pending? && pending.bucket != bucket
  }

  function NextCount(pending: Pending, bucket: Minute): nat {
    if Changed(pending, bucket) || pending.Nothing? then 1 else pending.count + 1
  }

  /** The rollups after a row has opened a new minute: the old one is brought up to date. */
  function RolledOver(s: State, samples: seq<Row>, bucket: Minute): map<Minute, Rollup> {
    if Changed(s.pending, bucket) && s.pending.count > 0
    then Rebuilt(s.rollups, samples, s.pending.bucket) else s.rollups
  }

  /** Inserts a row and maintains the rollups in the same transaction. */
  function AfterCommit(s: State, row: Row): State {
    var s' := s.(samples := s.samples + [row], nextId := s.nextId + 1);
    if row.mode.Detail? then s'
    else
      var bucket := Bucket(row.at);
      var rolled := RolledOver(s, s'.samples, bucket);
      var next := NextCount(s.pending, bucket);
      if next >= 3
      then s'.(rollups := Rebuilt(rolled, s'.samples, bucket), pending := Pending(bucket, 0))
      else s'.(rollups := rolled, pending := Pending(bucket, next))
  }

  function AfterFlush(s: State): State {
    if s.pending.Pending? && s.pending.count > 0
    then s.(rollups := Rebuilt(s.rollups, s.samples, s.pending.bucket), pending := s.pending.(count := 0))
    else s
  }

  /** A new process over the same file: memory is lost, the newest raw minute is rebuilt. */
  function AfterReopen(s: State): State {
    var s := s.(blocked := false, pending := Nothing);
    match LatestBaseline(s.samples)
    case None => s
    case Some(row) => s.(rollups := Rebuilt(s.rollups, s.samples, Bucket(row.at)))
  }

  function Apply(s: State, op: Op): State {
    match op
    case Commit(row) => AfterCommit(s, row)
    case AgedBatch(now) =>
      s.(samples := Without(s.samples, BatchIds(Aged(now - RAW_AGE_NS), s.samples)),
         rollups := s.rollups - ExpiredBuckets(s.rollups, now - ROLLUP_AGE_NS))
    case DetailBatch => s.(samples := Without(s.samples, BatchIds(Details, s.samples)))
    case BaselineBatch(now) =>
      s.(samples := Without(s.samples, BatchIds(OldBaseline(now - RECENT_BASELINE_NS), s.samples)))
    case Checkpoint(ok) => s.(blocked := !ok)
    case Flush => AfterFlush(s)
    case Reopen => AfterReopen(s)
  }

  predicate HasDetail(rows: seq<Row>) {
    exists r :: r in rows && r.mode.Detail?
  }

  /** When the store performs an operation at all. */
  ghost predicate Enabled(s: State, op: Op) {
    match op
    case Commit(row) =>
      && row.id == s.nextId
      && row.blobBytes + row.textBytes <= MAX_SAMPLE_BYTES
      && (row.mode.Detail? ==> DetailBytes(s.samples) + row.blobBytes <= DETAIL_RESERVE_BYTES)
    case BaselineBatch(_) => !HasDetail(s.samples)
    case _ => true
  }

  // --------------------------------------------------------------------- runs

  function Replay(log: seq<Op>): State {
    if log == [] then FRESH else Apply(Replay(log[..|log| - 1]), log[|log| - 1])
  }

  ghost predicate Performed(log: seq<Op>) {
    log == [] || (Performed(log[..|log| - 1]) && Enabled(Replay(log[..|log| - 1]), log[|log| - 1]))
  }

  lemma ReplayAppend(log: seq<Op>, op: Op)
    ensures Replay(log + [op]) == Apply(Replay(log), op)
    ensures Performed(log + [op]) <==> Performed(log) && Enabled(Replay(log), op)
  {
    assert (log + [op])[..|log|] == log;
  }

  /** Every baseline row ever committed, in commit order. */
  function History(log: seq<Op>): seq<Row> {
    if log == [] then []
    else
      var rest := History(log[..|log| - 1]);
      var op := log[|log| - 1];
      if op.Commit? && op.row.mode.Baseline? then rest + [op.row] else rest
  }

  /** The instants at which age batches have run. */
  function AgeInstants(log: seq<Op>): set<int> {
    set op | op in log && op.AgedBatch? :: op.now
  }

  // ------------------------------------------------------- what batches remove

  lemma BatchFacts(f: Filter, rows: seq<Row>)
    requires Numbered(rows)
    ensures BatchIds(f, rows) <= Ids(rows)
    ensures |BatchIds(f, rows)| == Min(RETENTION_BATCH_ROWS, |Select(f, rows)|)
    ensures forall r :: r in rows && r.id in BatchIds(f, rows) ==> Matches(f, r)
    ensures forall d, k :: (d in rows && d.id in BatchIds(f, rows) &&
                            k in rows && k.id !in BatchIds(f, rows) && Matches(f, k)) ==> Before(d, k)
  {
    var chosen := Select(f, rows);
    var batch := Oldest(chosen, RETENTION_BATCH_ROWS);
    SelectMembers(f, rows);
    SelectKeepsNumbering(f, rows);
    OldestComeFirst(chosen, RETENTION_BATCH_ROWS);
    assert BatchIds(f, rows) == Ids(batch);
    forall r | r in rows && r.id in BatchIds(f, rows) ensures r in batch {
      var q :| q in batch && q.id == r.id;
      assert q in rows;
      SameId(rows, q, r);
    }
  }

  lemma SameId(rows: seq<Row>, a: Row, b: Row)
    requires Numbered(rows) && a in rows && b in rows && a.id == b.id
    ensures a == b
  {
  }
}
