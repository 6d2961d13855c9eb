/** The reader's time series: buckets computed from raw rows and buckets computed from
    minute rollups are the same buckets. */
module Series {
  import opened Common
  import opened Samples
  import opened Rollups
  import opened StoreMachine

  const MAX_ROWS: nat := 20_000
  const MAX_ROLLUPS: nat := 20_200

  /** A bucket's public value and its coverage counts. */
  datatype Item = Item(value: Summary, observed: nat, valid: nat, missing: nat)

  function CeilDiv(a: int, b: int): int
    requires b > 0
  {
    (a + b - 1) / b
  }

  /** `max(0, expected - observed)`, one sample being due every five seconds. */
  function MissingIn(width: int, observed: nat): nat {
    var expected := CeilDiv(width, 5 * SECOND_NS);
    if expected > observed then expected - observed else 0
  }

  /** What a bucket over [lo, hi) should say about a host metric. */
  function BucketOver(samples: seq<Row>, key: Key, lo: int, hi: int): Item {
    var rows := TimeOrder(Select(Between(lo, hi), samples));
    var values := Readings(rows, key);
    Item(Summarise(values), |rows|, |values|, MissingIn(hi - lo, |rows|))
  }

  // -------------------------------------------------------------- concatenation

  lemma {:induction false} ReadingsConcat(a: seq<Row>, b: seq<Row>, key: Key)
    ensures Readings(a + b, key) == Readings(a, key) + Readings(b, key)
  {
    if b == [] {
      assert a + b == a;
    } else {
      assert (a + b)[..|a + b| - 1] == a + b[..|b| - 1];
      ReadingsConcat(a, b[..|b| - 1], key);
    }
  }

  lemma {:induction false} SumConcat(a: seq<real>, b: seq<real>)
    ensures Sum(a + b) == Sum(a) + Sum(b)
  {
    if b == [] {
      assert a + b == a;
    } else {
      assert (a + b)[..|a + b| - 1] == a + b[..|b| - 1];
      SumConcat(a, b[..|b| - 1]);
    }
  }

  lemma MinimumIs(vs: seq<real>, m: real)
    requires vs != [] && m in vs && forall v :: v in vs ==> m <= v
    ensures Minimum(vs) == m
  {
  }

  lemma MaximumIs(vs: seq<real>, m: real)
    requires vs != [] && m in vs && forall v :: v in vs ==> m >= v
    ensures Maximum(vs) == m
  {
  }

  lemma ExtremesConcat(a: seq<real>, b: seq<real>)
    requires a != [] && b != []
    ensures Minimum(a + b) == Least(Minimum(a), Minimum(b))
    ensures Maximum(a + b) == Greatest(Maximum(a), Maximum(b))
  {
    assert forall v :: v in a + b <==> v in a || v in b;
    MinimumIs(a + b, Least(Minimum(a), Minimum(b)));
    MaximumIs(a + b, Greatest(Maximum(a), Maximum(b)));
  }

  // ----------------------------------------------------- a bucket from rollups

  /** The running totals of the rollup loop; `extremes` holds min, max and last. */
  datatype Totals = Totals(valid: nat, observed: nat, weighted: real, min: real, max: real, last: real)

  const NO_TOTALS: Totals := Totals(0, 0, 0.0, 0.0, 0.0, 0.0)

  /** The totals stand for these rows. */
  ghost predicate Stand(t: Totals, rows: seq<Row>, key: Key) {
    var values := Readings(rows, key);
    && t.observed == |rows| && t.valid == |values| && t.weighted == Sum(values)
    && (values != [] ==> t.min == Minimum(values) && t.max == Maximum(values) && t.last == values[|values| - 1])
  }

  function ValuesIn(rollup: Rollup, key: Key): Summary {
    if key in rollup.fields then rollup.fields[key].readings else NoReadings
  }

  lemma ValuesOfRollup(rows: seq<Row>, key: Key)
    requires key !in SKIPPED_KEYS
    ensures ValuesIn(RollupOf(rows), key) == Summarise(Readings(rows, key))
  {
    if key !in Keys(rows) {
      AbsentKey(rows, key);
    }
  }

  /** One minute's summary folded into the totals: the mean is weighted back into a sum. */
  function AddSummary(t: Totals, s: Summary): Totals {
    match s
    case NoReadings => t
    case Summary(n, lo, hi, mean, last) =>
      t.(valid := t.valid + n, weighted := t.weighted + mean * n as real,
         min := if t.valid == 0 then lo else Least(t.min, lo),
         max := if t.valid == 0 then hi else Greatest(t.max, hi),
         last := last)
  }

  function AddRollup(t: Totals, rollup: Rollup, key: Key): Totals {
    AddSummary(t.(observed := t.observed + rollup.count), ValuesIn(rollup, key))
  }

  ghost predicate StandForValues(t: Totals, values: seq<real>) {
    && t.valid == |values| && t.weighted == Sum(values)
    && (values != [] ==> t.min == Minimum(values) && t.max == Maximum(values) && t.last == values[|values| - 1])
  }

  lemma AddSummaryStands(t: Totals, a: seq<real>, b: seq<real>)
    requires StandForValues(t, a)
    ensures StandForValues(AddSummary(t, Summarise(b)), a + b)
  {
    hide Minimum, Maximum, Sum;
    SumConcat(a, b);
    if b == [] {
      assert a + b == a;
    } else {
      MeanTimesCount(Sum(b), |b|);
      if a == [] {
        EmptySum();
        assert a + b == b;
      } else {
        ExtremesConcat(a, b);
      }
    }
  }

  lemma AddRollupStands(t: Totals, rows: seq<Row>, part: seq<Row>, key: Key)
    requires Stand(t, rows, key) && key !in SKIPPED_KEYS
    ensures Stand(AddRollup(t, RollupOf(part), key), rows + part, key)
  {
    hide Keys, FieldsOf, Minimum, Maximum, Sum, Summarise, Readings, AddSummary, ValuesIn, StandForValues, SKIPPED_KEYS;
    var t' := t.(observed := t.observed + |part|);
    assert StandForValues(t', Readings(rows, key)) by { StandsForValues(t, t', rows, key); }
    ReadingsConcat(rows, part, key);
    ValuesOfRollup(part, key);
    AddSummaryStands(t', Readings(rows, key), Readings(part, key));
    AddKeepsObserved(t', Summarise(Readings(part, key)));
    ValuesStand(AddRollup(t, RollupOf(part), key), rows + part, key);
  }

  lemma StandsForValues(t: Totals, t': Totals, rows: seq<Row>, key: Key)
    requires Stand(t, rows, key) && t' == t.(observed := t'.observed)
    ensures StandForValues(t', Readings(rows, key))
  {
  }

  lemma AddKeepsObserved(t: Totals, s: Summary)
    ensures AddSummary(t, s).observed == t.observed
  {
  }

  lemma ValuesStand(t: Totals, rows: seq<Row>, key: Key)
    requires t.observed == |rows| && StandForValues(t, Readings(rows, key))
    ensures Stand(t, rows, key)
  {
  }

  lemma EmptySum()
    ensures Sum([]) == 0.0
  {
  }

  function MinuteList(samples: seq<Row>, m: Minute): seq<Row> {
    TimeOrder(Select(MinuteOf(m), samples))
  }

  /** The rows of several minutes, one minute after the other. */
  function Join(samples: seq<Row>, minutes: seq<Minute>): seq<Row> {
    if minutes == [] then []
    else Join(samples, minutes[..|minutes| - 1]) + MinuteList(samples, minutes[|minutes| - 1])
  }

  function TotalsOf(rollups: seq<Rollup>, key: Key): Totals {
    if rollups == [] then NO_TOTALS
    else AddRollup(TotalsOf(rollups[..|rollups| - 1], key), rollups[|rollups| - 1], key)
  }

  function ItemOf(t: Totals, width: int): Item {
    var value := if t.valid > 0 then Summary(t.valid, t.min, t.max, t.weighted / t.valid as real, t.last) else NoReadings;
    Item(value, t.observed, t.valid, MissingIn(width, t.observed))
  }

  /** The totals of consecutive minutes' rollups stand for all their rows. */
  lemma {:induction false} TotalsStand(rollups: seq<Rollup>, key: Key, samples: seq<Row>, minutes: seq<Minute>)
    requires key !in SKIPPED_KEYS && |rollups| == |minutes|
    requires forall i :: 0 <= i < |minutes| ==> rollups[i] == RollupOf(MinuteList(samples, minutes[i]))
    ensures Stand(TotalsOf(rollups, key), Join(samples, minutes), key)
  {
    hide RollupOf, Minimum, Maximum, Sum, AddRollup, MinuteList, SKIPPED_KEYS;
    if rollups == [] {
      EmptySum();
    } else {
      var n := |rollups| - 1;
      TotalsStand(rollups[..n], key, samples, minutes[..n]);
      AddRollupStands(TotalsOf(rollups[..n], key), Join(samples, minutes[..n]), MinuteList(samples, minutes[n]), key);
    }
  }

  lemma ItemStands(t: Totals, rows: seq<Row>, key: Key, width: int)
    requires Stand(t, rows, key)
    ensures var values := Readings(rows, key);
            ItemOf(t, width) == Item(Summarise(values), |rows|, |values|, MissingIn(width, |rows|))
  {
  }

  /** The per-bucket loop of the rollup series. */
  method FoldRollups(rollups: seq<Rollup>, key: Key, width: int) returns (item: Item)
    ensures item == ItemOf(TotalsOf(rollups, key), width)
  {
    var t := NO_TOTALS;
    for i := 0 to |rollups|
      invariant t == TotalsOf(rollups[..i], key)
    {
      assert rollups[..i + 1][..i] == rollups[..i];
      t := AddRollup(t, rollups[i], key);
    }
    assert rollups[..|rollups|] == rollups;
    item := ItemOf(t, width);
  }

  /** The per-bucket loop of the raw series. */
  method FoldRows(rows: seq<Row>, key: Key, width: int) returns (item: Item)
    ensures item == Item(Summarise(Readings(rows, key)), |rows|, |Readings(rows, key)|, MissingIn(width, |rows|))
  {
    var values := [];
    for i := 0 to |rows|
      invariant values == Readings(rows[..i], key)
    {
      assert rows[..i + 1][..i] == rows[..i];
      if HasNumber(rows[i], key) {
        values := values + [rows[i].host[key].value];
      }
    }
    assert rows[..|rows|] == rows;
    item := Item(Summarise(values), |rows|, |values|, MissingIn(width, |rows|));
  }

  // --------------------------------------------------------- grouping by bucket

  function RowAt(r: Row): int { r.at }

  function MinuteAt(m: Minute): int { Start(m) }

  /** The elements whose instant falls in bucket i, in their order. */
  function InBucket<T>(rows: seq<T>, at: T -> int, start: int, step: int, i: int): (out: seq<T>)
    requires step > 0
  {
    if rows == [] then []
    else
      var last := rows[|rows| - 1];
      var rest := InBucket(rows[..|rows| - 1], at, start, step, i);
      if (at(last) - start) / step == i then rest + [last] else rest
  }

  lemma {:induction false} InBucketMembers<T>(rows: seq<T>, at: T -> int, start: int, step: int, i: int)
    requires step > 0
    ensures forall r :: r in InBucket(rows, at, start, step, i) <==> r in rows && (at(r) - start) / step == i
  {
    if rows != [] {
      InBucketMembers(rows[..|rows| - 1], at, start, step, i);
      assert rows == rows[..|rows| - 1] + [rows[|rows| - 1]];
    }
  }

  function Lookup<T>(buckets: map<int, seq<T>>, i: int): seq<T> {
    if i in buckets then buckets[i] else []
  }

  /** `buckets.setdefault(index, []).append(row)` over all rows. */
  method Group<T>(rows: seq<T>, at: T -> int, start: int, step: int) returns (buckets: map<int, seq<T>>)
    requires step > 0
    ensures forall i: int :: Lookup(buckets, i) == InBucket(rows, at, start, step, i)
  {
    buckets := map[];
    for k := 0 to |rows|
      invariant forall i: int :: Lookup(buckets, i) == InBucket(rows[..k], at, start, step, i)
    {
      assert rows[..k + 1][..k] == rows[..k];
      var i := (at(rows[k]) - start) / step;
      ghost var before := buckets;
      buckets := buckets[i := Lookup(buckets, i) + [rows[k]]];
      forall j: int ensures Lookup(buckets, j) == InBucket(rows[..k + 1], at, start, step, j) {
        assert Lookup(before, j) == InBucket(rows[..k], at, start, step, j);
      }
    }
    assert rows[..|rows|] == rows;
  }

  lemma DivMod(x: int, step: int)
    requires step > 0
    ensures x / step * step <= x < x / step * step + step
  {
  }

  lemma {:induction false} Multiples(a: int, b: int, step: int)
    requires a < b && step > 0
    ensures a * step + step <= b * step
    decreases b - a
  {
    assert b * step == (b - 1) * step + step;
    if a + 1 < b {
      Multiples(a, b - 1, step);
    }
  }

  /** Bucket i spans [start + i*step, start + (i+1)*step). */
  lemma DivRange(x: int, step: int, i: int)
    requires step > 0
    ensures x / step == i <==> i * step <= x < i * step + step
  {
    var q := x / step;
    DivMod(x, step);
    if i < q {
      Multiples(i, q, step);
    } else if q < i {
      Multiples(q, i, step);
    }
  }

  lemma {:induction false} InBucketOrdered(rows: seq<Row>, start: int, step: int, i: int)
    requires step > 0 && Ordered(rows)
    ensures Ordered(InBucket(rows, RowAt, start, step, i))
  {
    if rows != [] {
      var init := rows[..|rows| - 1];
      InBucketOrdered(init, start, step, i);
      InBucketMembers(init, RowAt, start, step, i);
      var rest := InBucket(init, RowAt, start, step, i);
      forall k | 0 <= k < |rest| ensures Before(rest[k], rows[|rows| - 1]) {
        assert rest[k] in init;
      }
    }
  }

  /** Where bucket i begins and ends inside the window. */
  function Low(start: int, step: int, i: int): int { start + i * step }

  function High(start: int, end: int, step: int, i: int): int { Min(end, start + i * step + step) }

  /** Grouping a window's rows gives each bucket its own query's rows. */
  lemma GroupIsQuery(samples: seq<Row>, lo: int, hi: int, start: int, end: int, step: int, i: int)
    requires step > 0 && Numbered(samples)
    requires lo <= Low(start, step, i) && High(start, end, step, i) <= hi <= end
    ensures InBucket(TimeOrder(Select(Between(lo, hi), samples)), RowAt, start, step, i)
            == TimeOrder(Select(Between(Low(start, step, i), High(start, end, step, i)), samples))
  {
    hide Select, Ordered, Numbered, TimeOrder, InBucket;
    var window, own := Select(Between(lo, hi), samples), Select(Between(Low(start, step, i), High(start, end, step, i)), samples);
    SelectKeepsNumbering(Between(lo, hi), samples);
    SelectKeepsNumbering(Between(Low(start, step, i), High(start, end, step, i)), samples);
    SelectMembers(Between(lo, hi), samples);
    SelectMembers(Between(Low(start, step, i), High(start, end, step, i)), samples);
    TimeOrderIsOrdered(window);
    TimeOrderIsOrdered(own);
    InBucketOrdered(TimeOrder(window), start, step, i);
    InBucketMembers(TimeOrder(window), RowAt, start, step, i);
    forall r ensures r in InBucket(TimeOrder(window), RowAt, start, step, i) <==> r in TimeOrder(own) {
      DivRange(r.at - start, step, i);
    }
    OrderedUnique(InBucket(TimeOrder(window), RowAt, start, step, i), TimeOrder(own));
  }

  // ------------------------------------------------------------- the two series

  /** One past the last bucket index a page looks at. */
  function LastIndex(start: int, end: int, step: int, first: nat, limit: nat): int
    requires step > 0
  {
    Min(CeilDiv(end - start, step), first + limit + 1)
  }

  lemma CeilDivIs(a: int, b: int, i: int)
    requires b > 0
    ensures i < CeilDiv(a, b) <==> i * b < a
  {
    var q := CeilDiv(a, b);
    DivMod(a + b - 1, b);
    if i < q {
      Multiples(i, q, b);
    } else if q < i {
      Multiples(q, i, b);
    }
  }

  /** A page looks at exactly the buckets that begin before the end of the window, up to one
      more than its limit. */
  lemma LastIndexIs(start: int, end: int, step: int, first: nat, limit: nat, i: nat)
    requires step > 0
    ensures i < LastIndex(start, end, step, first, limit) <==> i <= first + limit && start + i * step < end
  {
    CeilDivIs(end - start, step, i);
  }

  /** With one sample due every five seconds of the bucket, begun ones included, `m` are
      missing from those observed. */
  lemma MissingIs(width: int, observed: nat)
    ensures var m := MissingIn(width, observed);
            if width <= observed * 5_000_000_000 then m == 0
            else m > 0 && (observed + m - 1) * 5_000_000_000 < width <= (observed + m) * 5_000_000_000
  {
  }

  /** Row limits in plain numbers. */
  lemma Limits()
    ensures MAX_ROWS == 20_000 && MAX_ROLLUPS == 20_200
  {
  }

  ghost predicate IsSeries(items: seq<Item>, samples: seq<Row>, key: Key, start: int, end: int, step: int, first: nat, limit: nat)
    requires step > 0
  {
    var last := LastIndex(start, end, step, first, limit);
    && |items| == (if last > first then last - first else 0)
    && forall k :: 0 <= k < |items| ==>
         items[k] == BucketOver(samples, key, Low(start, step, first + k), High(start, end, step, first + k))
  }

  /** The page's query window contains every bucket the page looks at. */
  lemma WindowCovers(start: int, end: int, step: int, first: nat, limit: nat, i: nat)
    requires step > 0 && first <= i < LastIndex(start, end, step, first, limit)
    ensures start + first * step <= Low(start, step, i)
    ensures High(start, end, step, i) <= Min(end, start + (first + limit + 1) * step)
  {
    assert first * step <= i * step;
    assert (i + 1) * step <= (first + limit + 1) * step;
    assert (i + 1) * step == i * step + step;
  }

  /** The window of at most 24 hours: buckets from raw baseline rows. */
  method RawSeries(samples: seq<Row>, key: Key, start: int, end: int, step: int, first: nat, limit: nat)
    returns (items: Option<seq<Item>>)
    requires step > 0 && Numbered(samples)
    ensures items.None? <==>
              |Select(Between(start + first * step, Min(end, start + (first + limit + 1) * step)), samples)| > MAX_ROWS
    ensures items.Some? ==> IsSeries(items.value, samples, key, start, end, step, first, limit)
  {
    hide Select, TimeOrder, Numbered, Ordered, InBucket, BucketOver;
    var lo, hi := start + first * step, Min(end, start + (first + limit + 1) * step);
    var rows := TimeOrder(Select(Between(lo, hi), samples));
    if |rows| > MAX_ROWS {
      return None;
    }
    var buckets := Group(rows, RowAt, start, step);
    var out: seq<Item> := [];
    var last := LastIndex(start, end, step, first, limit);
    var i := first;
    while i < last
      invariant first <= i && |out| == i - first && (i <= last || i == first)
      invariant forall k :: 0 <= k < |out| ==>
                  out[k] == BucketOver(samples, key, Low(start, step, first + k), High(start, end, step, first + k))
    {
      WindowCovers(start, end, step, first, limit, i);
      GroupIsQuery(samples, lo, hi, start, end, step, i);
      var width := High(start, end, step, i) - Low(start, step, i);
      var item := FoldRows(Lookup(buckets, i), key, width);
      BucketIs(samples, key, Low(start, step, i), High(start, end, step, i));
      out := out + [item];
      i := i + 1;
    }
    items := Some(out);
  }

  lemma BucketIs(samples: seq<Row>, key: Key, lo: int, hi: int)
    ensures var rows := TimeOrder(Select(Between(lo, hi), samples));
            BucketOver(samples, key, lo, hi) ==
            Item(Summarise(Readings(rows, key)), |rows|, |Readings(rows, key)|, MissingIn(hi - lo, |rows|))
  {
  }

  // ------------------------------------------------------------ rollup queries

  function MinuteRange(rollups: map<Minute, Rollup>, a: int, b: int): seq<Minute>
    decreases b - a
  {
    if a >= b then []
    else
      var rest := MinuteRange(rollups, a, b - 1);
      if Minute(b - 1) in rollups then rest + [Minute(b - 1)] else rest
  }

  /** `WHERE bucket_start_ns>=lo AND bucket_start_ns<hi ORDER BY bucket_start_ns`. */
  function MinutesBetween(rollups: map<Minute, Rollup>, lo: int, hi: int): seq<Minute> {
    MinuteRange(rollups, CeilDiv(lo, MINUTE_NS), CeilDiv(hi, MINUTE_NS))
  }

  ghost predicate Ascending(minutes: seq<Minute>) {
    forall i, j :: 0 <= i < j < |minutes| ==> minutes[i].index < minutes[j].index
  }

  lemma {:induction false} MinuteRangeMembers(rollups: map<Minute, Rollup>, a: int, b: int)
    ensures forall m :: m in MinuteRange(rollups, a, b) <==> m in rollups && a <= m.index < b
    ensures Ascending(MinuteRange(rollups, a, b))
    decreases b - a
  {
    if a < b {
      MinuteRangeMembers(rollups, a, b - 1);
      var rest := MinuteRange(rollups, a, b - 1);
      forall k | 0 <= k < |rest| ensures rest[k].index < b - 1 {
        assert rest[k] in rest;
      }
    }
  }

  lemma MinutesBetweenMembers(rollups: map<Minute, Rollup>, lo: int, hi: int)
    ensures forall m :: m in MinutesBetween(rollups, lo, hi) <==> m in rollups && lo <= Start(m) < hi
    ensures Ascending(MinutesBetween(rollups, lo, hi))
  {
    MinuteRangeMembers(rollups, CeilDiv(lo, MINUTE_NS), CeilDiv(hi, MINUTE_NS));
  }

  lemma {:induction false} InBucketAscending(minutes: seq<Minute>, start: int, step: int, i: int)
    requires step > 0 && Ascending(minutes)
    ensures Ascending(InBucket(minutes, MinuteAt, start, step, i))
  {
    if minutes != [] {
      var init := minutes[..|minutes| - 1];
      InBucketAscending(init, start, step, i);
      InBucketMembers(init, MinuteAt, start, step, i);
      var rest := InBucket(init, MinuteAt, start, step, i);
      forall k | 0 <= k < |rest| ensures rest[k].index < minutes[|minutes| - 1].index {
        assert rest[k] in init;
      }
    }
  }

  /** Every minute of the window has the rollup its raw rows call for. */
  ghost predicate InSync(samples: seq<Row>, rollups: map<Minute, Rollup>, lo: int, hi: int) {
    forall m: Minute :: lo <= Start(m) < hi ==>
      && (m in rollups <==> Select(MinuteOf(m), samples) != [])
      && (m in rollups ==> rollups[m] == MinuteRollup(Select(MinuteOf(m), samples)))
  }

  lemma MinuteListMembers(samples: seq<Row>, m: Minute)
    requires Numbered(samples)
    ensures forall r :: r in MinuteList(samples, m) <==> r in samples && r.mode.Baseline? && Bucket(r.at) == m
    ensures Ordered(MinuteList(samples, m))
  {
    hide Select, TimeOrder, Ordered, Numbered;
    SelectMembers(MinuteOf(m), samples);
    SelectKeepsNumbering(MinuteOf(m), samples);
    TimeOrderIsOrdered(Select(MinuteOf(m), samples));
    forall r ensures Matches(MinuteOf(m), r) <==> r.mode.Baseline? && Bucket(r.at) == m {
      MinuteMatches(m, r);
    }
  }

  /** Minutes in order, rows in order within each: the whole is in order. */
  lemma {:induction false} JoinOrdered(samples: seq<Row>, minutes: seq<Minute>)
    requires Numbered(samples) && Ascending(minutes)
    ensures Ordered(Join(samples, minutes))
    ensures forall r :: r in Join(samples, minutes) <==> r in samples && r.mode.Baseline? && Bucket(r.at) in minutes
  {
    hide MinuteList, Numbered, Matches;
    if minutes != [] {
      var init, last := minutes[..|minutes| - 1], minutes[|minutes| - 1];
      assert minutes == init + [last];
      JoinOrdered(samples, init);
      MinuteListMembers(samples, last);
      ConcatOrdered(Join(samples, init), MinuteList(samples, last), init, last);
    }
  }

  lemma ConcatOrdered(a: seq<Row>, b: seq<Row>, init: seq<Minute>, last: Minute)
    requires Ordered(a) && Ordered(b)
    requires forall r :: r in a ==> Bucket(r.at) in init
    requires forall r :: r in b ==> Bucket(r.at) == last
    requires forall m :: m in init ==> m.index < last.index
    ensures Ordered(a + b)
  {
    forall i, j | 0 <= i < |a| && 0 <= j < |b| ensures Before(a[i], b[j]) {
      assert a[i] in a && b[j] in b;
      assert Bucket(a[i].at).index < Bucket(b[j].at).index;
    }
  }

  /** The rows behind a bucket's rollups are the bucket's raw rows. */
  lemma JoinIsQuery(samples: seq<Row>, minutes: seq<Minute>, lo: int, hi: int)
    requires Numbered(samples) && Ascending(minutes)
    requires lo % MINUTE_NS == 0 && hi % MINUTE_NS == 0
    requires forall m :: m in minutes <==> Select(MinuteOf(m), samples) != [] && lo <= Start(m) < hi
    ensures Join(samples, minutes) == TimeOrder(Select(Between(lo, hi), samples))
  {
    hide Select, Ordered, Numbered, TimeOrder, Ascending;
    JoinOrdered(samples, minutes);
    SelectMembers(Between(lo, hi), samples);
    SelectKeepsNumbering(Between(lo, hi), samples);
    TimeOrderIsOrdered(Select(Between(lo, hi), samples));
    forall r ensures r in Join(samples, minutes) <==> r in TimeOrder(Select(Between(lo, hi), samples)) {
      var m := Bucket(r.at);
      MinuteMatches(m, r);
      SelectMembers(MinuteOf(m), samples);
      AlignedRange(r.at, lo, hi);
    }
    OrderedUnique(Join(samples, minutes), TimeOrder(Select(Between(lo, hi), samples)));
  }

  lemma AlignedRange(at: int, lo: int, hi: int)
    requires lo % MINUTE_NS == 0 && hi % MINUTE_NS == 0
    ensures lo <= Start(Bucket(at)) < hi <==> lo <= at < hi
  {
  }

  lemma AlignedMultiple(start: int, step: int, i: int)
    requires start % MINUTE_NS == 0 && step % MINUTE_NS == 0
    ensures (start + i * step) % MINUTE_NS == 0
  {
    var k := step / MINUTE_NS;
    assert i * step == i * k * MINUTE_NS;
    assert start + i * step == (start / MINUTE_NS + i * k) * MINUTE_NS;
  }

  /** A bucket's share of the listed minutes, and what its rollups stand for. */
  lemma BucketMinutes(samples: seq<Row>, rollups: map<Minute, Rollup>, lo: int, hi: int,
                      start: int, end: int, step: int, i: int)
    requires step > 0 && Numbered(samples) && InSync(samples, rollups, lo, hi)
    requires start % MINUTE_NS == 0 && end % MINUTE_NS == 0 && step % MINUTE_NS == 0
    requires lo <= Low(start, step, i) && High(start, end, step, i) <= hi <= end
    ensures var minutes := InBucket(MinutesBetween(rollups, lo, hi), MinuteAt, start, step, i);
            && (forall m :: m in minutes ==> m in rollups && rollups[m] == RollupOf(MinuteList(samples, m)))
            && Join(samples, minutes) ==
               TimeOrder(Select(Between(Low(start, step, i), High(start, end, step, i)), samples))
  {
    hide Select, Ascending, Numbered, TimeOrder, InBucket, Join, MinutesBetween, RollupOf;
    var all := MinutesBetween(rollups, lo, hi);
    var minutes := InBucket(all, MinuteAt, start, step, i);
    MinutesBetweenMembers(rollups, lo, hi);
    InBucketAscending(all, start, step, i);
    InBucketMembers(all, MinuteAt, start, step, i);
    AlignedMultiple(start, step, i);
    forall m ensures m in minutes <==> Select(MinuteOf(m), samples) != [] && Low(start, step, i) <= Start(m) < High(start, end, step, i) {
      DivRange(Start(m) - start, step, i);
    }
    JoinIsQuery(samples, minutes, Low(start, step, i), High(start, end, step, i));
  }

  /** `max(0, (bucket_start_ns - start) // step)` as an instant: minutes before the window
      count towards its first bucket. */
  function ClampedAt(start: int): Minute -> int {
    m => if Start(m) < start then start else Start(m)
  }

  /** The bucket index of a minute is never negative. */
  lemma ClampedIndex(start: int, step: int, m: Minute)
    requires step > 0
    ensures var q := (Start(m) - start) / step;
            (ClampedAt(start)(m) - start) / step == if q < 0 then 0 else q
  {
    DivMod(Start(m) - start, step);
    DivRange(0, step, 0);
    if Start(m) < start {
      DivRange(Start(m) - start, step, 0);
      NegativeQuotient(Start(m) - start, step);
    } else {
      NonNegativeQuotient(Start(m) - start, step);
    }
  }

  lemma NegativeQuotient(x: int, step: int)
    requires x < 0 && step > 0
    ensures x / step < 0
  {
  }

  lemma NonNegativeQuotient(x: int, step: int)
    requires x >= 0 && step > 0
    ensures x / step >= 0
  {
  }

  lemma {:induction false} SameBucket<T>(rows: seq<T>, at: T -> int, at': T -> int, start: int, step: int, i: int)
    requires step > 0 && forall r :: r in rows ==> at(r) == at'(r)
    ensures InBucket(rows, at, start, step, i) == InBucket(rows, at', start, step, i)
  {
    if rows != [] {
      assert rows[|rows| - 1] in rows && forall r :: r in rows[..|rows| - 1] ==> r in rows;
      SameBucket(rows[..|rows| - 1], at, at', start, step, i);
    }
  }

  /** The page's query over the rollup table. */
  function PageMinutes(rollups: map<Minute, Rollup>, start: int, end: int, step: int, first: nat, limit: nat): seq<Minute> {
    MinutesBetween(rollups, (start + first * step) / MINUTE_NS * MINUTE_NS, Min(end, start + (first + limit + 1) * step))
  }

  function RollupsOf(rollups: map<Minute, Rollup>, minutes: seq<Minute>): seq<Rollup>
    requires forall m :: m in minutes ==> m in rollups
  {
    seq(|minutes|, j requires 0 <= j < |minutes| => assert minutes[j] in minutes; rollups[minutes[j]])
  }

  lemma PageMinutesListed(rollups: map<Minute, Rollup>, start: int, end: int, step: int, first: nat, limit: nat, i: int)
    requires step > 0
    ensures forall m :: m in InBucket(PageMinutes(rollups, start, end, step, first, limit), ClampedAt(start), start, step, i) ==>
                          m in rollups
  {
    hide MinutesBetween;
    var lo, hi := (start + first * step) / MINUTE_NS * MINUTE_NS, Min(end, start + (first + limit + 1) * step);
    MinutesBetweenMembers(rollups, lo, hi);
    InBucketMembers(PageMinutes(rollups, start, end, step, first, limit), ClampedAt(start), start, step, i);
  }

  /** The item the rollup path reports for bucket i. */
  ghost function RollupItem(rollups: map<Minute, Rollup>, key: Key, start: int, end: int, step: int, first: nat, limit: nat, i: nat): Item
    requires step > 0
  {
    var minutes := InBucket(PageMinutes(rollups, start, end, step, first, limit), ClampedAt(start), start, step, i);
    PageMinutesListed(rollups, start, end, step, first, limit, i);
    ItemOf(TotalsOf(RollupsOf(rollups, minutes), key), High(start, end, step, i) - Low(start, step, i))
  }

  /** Windows over 24 hours: buckets from minute rollups. */
  method RollupSeries(rollups: map<Minute, Rollup>, key: Key, start: int, end: int, step: int, first: nat, limit: nat)
    returns (items: Option<seq<Item>>)
    requires step > 0
    ensures items.None? <==> |PageMinutes(rollups, start, end, step, first, limit)| > MAX_ROLLUPS
    ensures items.Some? ==>
              var last := LastIndex(start, end, step, first, limit);
              && |items.value| == (if last > first then last - first else 0)
              && forall k :: 0 <= k < |items.value| ==>
                   items.value[k] == RollupItem(rollups, key, start, end, step, first, limit, first + k)
  {
    hide InBucket, PageMinutes, RollupsOf, TotalsOf, ItemOf, ClampedAt;
    var minutes := PageMinutes(rollups, start, end, step, first, limit);
    if |minutes| > MAX_ROLLUPS {
      return None;
    }
    var buckets := Group(minutes, ClampedAt(start), start, step);
    var out: seq<Item> := [];
    var last := LastIndex(start, end, step, first, limit);
    var i := first;
    while i < last
      invariant first <= i && |out| == i - first && (i <= last || i == first)
      invariant forall k :: 0 <= k < |out| ==>
                  out[k] == RollupItem(rollups, key, start, end, step, first, limit, first + k)
    {
      PageMinutesListed(rollups, start, end, step, first, limit, i);
      var subset := Lookup(buckets, i);
      var item := FoldRollups(RollupsOf(rollups, subset), key, High(start, end, step, i) - Low(start, step, i));
      out := out + [item];
      i := i + 1;
    }
    items := Some(out);
  }

  ghost predicate WholeMinutes(start: int, end: int, step: int) {
    step > 0 && start % MINUTE_NS == 0 && end % MINUTE_NS == 0 && step % MINUTE_NS == 0
  }

  /** On whole minutes whose rollups are in sync, the rollup path reports for every bucket
      what the raw rows say: same extremes, mean, last value and counts. */
  lemma RollupItemIsBucket(rollups: map<Minute, Rollup>, key: Key, start: int, end: int, step: int, first: nat, limit: nat,
                           i: nat, samples: seq<Row>)
    requires WholeMinutes(start, end, step) && key !in SKIPPED_KEYS && Numbered(samples)
    requires InSync(samples, rollups, start + first * step, Min(end, start + (first + limit + 1) * step))
    requires first <= i < LastIndex(start, end, step, first, limit)
    ensures RollupItem(rollups, key, start, end, step, first, limit, i)
            == BucketOver(samples, key, Low(start, step, i), High(start, end, step, i))
  {
    hide Select, TimeOrder, Numbered, InBucket, InSync, MinutesBetween, Join, RollupOf, MinuteList, SKIPPED_KEYS, TotalsOf, ItemOf, Stand;
    var lo, hi := start + first * step, Min(end, start + (first + limit + 1) * step);
    AlignedMultiple(start, step, first);
    WindowCovers(start, end, step, first, limit, i);
    BucketMinutes(samples, rollups, lo, hi, start, end, step, i);
    assert PageMinutes(rollups, start, end, step, first, limit) == MinutesBetween(rollups, lo, hi);
    MinutesBetweenMembers(rollups, lo, hi);
    assert first * step >= 0;
    SameBucket(MinutesBetween(rollups, lo, hi), MinuteAt, ClampedAt(start), start, step, i);
    var minutes := InBucket(MinutesBetween(rollups, lo, hi), MinuteAt, start, step, i);
    var folded := RollupsOf(rollups, minutes);
    assert forall j :: 0 <= j < |minutes| ==> minutes[j] in minutes;
    TotalsStand(folded, key, samples, minutes);
    ItemStands(TotalsOf(folded, key), Join(samples, minutes), key, High(start, end, step, i) - Low(start, step, i));
    BucketIs(samples, key, Low(start, step, i), High(start, end, step, i));
  }
}
