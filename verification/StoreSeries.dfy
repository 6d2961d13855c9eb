/** The reader over the store: what a rollup series says about everything ever committed. */
module StoreSeries {
  import opened Samples
  import opened Rollups
  import opened StoreMachine
  import opened StoreView
  import opened StoreRuns
  import opened Series

  /** No minute of the window lags or has aged out. */
  ghost predicate Settled(s: State, aged: set<int>, lo: int, hi: int) {
    forall m: Minute :: lo <= Start(m) < hi ==> Lag(s, m) == 0 && !AgedAway(m, aged)
  }

  lemma ViewIsInSync(s: State, history: seq<Row>, aged: set<int>, lo: int, hi: int)
    requires View(s, history, aged) && Settled(s, aged, lo, hi)
    ensures InSync(history, s.rollups, lo, hi)
  {
    hide Select, MinuteRollup;
    forall m: Minute | lo <= Start(m) < hi
      ensures m in s.rollups <==> Select(MinuteOf(m), history) != []
      ensures m in s.rollups ==> s.rollups[m] == MinuteRollup(Select(MinuteOf(m), history))
    {
      assert ViewAt(s, history, aged, m);
      var rows := MinuteRows(history, m);
      assert Drop(rows, 0) == rows;
    }
  }

  /** After any steady run, the rollup series over a settled window of whole minutes reports
      the buckets of every baseline ever committed there, raw rows pruned or not. */
  lemma RollupSeriesTellsHistory(log: seq<Op>, key: Key, start: int, end: int, step: int, first: nat, limit: nat, i: nat)
    requires Performed(log) && SteadyRun(log)
    requires WholeMinutes(start, end, step) && key !in SKIPPED_KEYS
    requires Settled(Replay(log), AgeInstants(log), start + first * step, Min(end, start + (first + limit + 1) * step))
    requires first <= i < LastIndex(start, end, step, first, limit)
    ensures RollupItem(Replay(log).rollups, key, start, end, step, first, limit, i)
            == BucketOver(History(log), key, Low(start, step, i), High(start, end, step, i))
  {
    hide View, InSync, Settled, RollupItem, BucketOver, Numbered, SKIPPED_KEYS, Replay, Performed;
    ViewUnderRetention(log);
    SoundRun(log);
    assert Numbered(History(log)) by { HistoryNumbered(Replay(log), History(log)); }
    var lo, hi := start + first * step, Min(end, start + (first + limit + 1) * step);
    ViewIsInSync(Replay(log), History(log), AgeInstants(log), lo, hi);
    RollupItemIsBucket(Replay(log).rollups, key, start, end, step, first, limit, i, History(log));
  }

  lemma HistoryNumbered(s: State, history: seq<Row>)
    requires Sound(s, history)
    ensures Numbered(history)
  {
  }
}
