/** One-minute rollups: the closed form they stand for, and the accumulating
    loop that computes them. */
module Rollups {
  import opened Samples

  /** Bookkeeping fields that a rollup leaves out. */
  const SKIPPED_KEYS: set<Key> := {
    Key("leaders_sampled_at_ns"), Key("process_scan_observed_at_ns"), Key("process_scan_observed_monotonic_ns"),
    Key("net_source"), Key("disk_source"), Key("net_members"), Key("disk_members") }

  const GAP_NS: int := 10 * SECOND_NS

  datatype Summary = NoReadings | Summary(valid: nat, min: real, max: real, mean: real, last: real)

  /** `missing` is the field's `_unavailable_count` in the coverage object (absent means 0). */
  datatype Field = Field(readings: Summary, missing: nat)

  type Fields = map<Key, Field>

  datatype Rollup = Rollup(count: nat, fields: Fields, gaps: nat)

  // -------------------------------------------------------------- closed form

  function Sum(vs: seq<real>): real {
    if vs == [] then 0.0 else Sum(vs[..|vs| - 1]) + vs[|vs| - 1]
  }

  function Least(a: real, b: real): real { if a <= b then a else b }

  function Greatest(a: real, b: real): real { if a >= b then a else b }

  function Minimum(vs: seq<real>): (m: real)
    requires vs != []
    ensures m in vs && forall v :: v in vs ==> m <= v
  {
    var last := vs[|vs| - 1];
    if |vs| == 1 then last
    else
      assert vs == vs[..|vs| - 1] + [last];
      Least(Minimum(vs[..|vs| - 1]), last)
  }

  function Maximum(vs: seq<real>): (m: real)
    requires vs != []
    ensures m in vs && forall v :: v in vs ==> m >= v
  {
    var last := vs[|vs| - 1];
    if |vs| == 1 then last
    else
      assert vs == vs[..|vs| - 1] + [last];
      Greatest(Maximum(vs[..|vs| - 1]), last)
  }

  /** Count, extremes, arithmetic mean and last of a list of readings. */
  function Summarise(vs: seq<real>): Summary {
    if vs == [] then NoReadings
    else Summary(|vs|, Minimum(vs), Maximum(vs), Sum(vs) / |vs| as real, vs[|vs| - 1])
  }

  predicate HasNumber(r: Row, key: Key) {
    key in r.host && r.host[key].Number?
  }

  /** The finite numbers recorded under a key, in row order. */
  function Readings(rows: seq<Row>, key: Key): seq<real> {
    if rows == [] then []
    else
      var last := rows[|rows| - 1];
      var rest := Readings(rows[..|rows| - 1], key);
      if HasNumber(last, key) then rest + [last.host[key].value] else rest
  }

  /** How many rows carry the key without a finite number. */
  function Missing(rows: seq<Row>, key: Key): nat {
    if rows == [] then 0
    else
      var last := rows[|rows| - 1];
      Missing(rows[..|rows| - 1], key) + if key in last.host && last.host[key].Unavailable? then 1 else 0
  }

  function Keys(rows: seq<Row>): set<Key> {
    (set r, key | r in rows && key in r.host :: key) - SKIPPED_KEYS
  }

  /** The row does not directly continue its predecessor's monotonic clock. */
  predicate Discontinuous(prev: Row, next: Row) {
    prev.boot != next.boot || next.mono <= prev.mono || next.mono - prev.mono > GAP_NS
  }

  function Gaps(rows: seq<Row>): nat {
    if |rows| < 2 then 0
    else Gaps(rows[..|rows| - 1]) + if Discontinuous(rows[|rows| - 2], rows[|rows| - 1]) then 1 else 0
  }

  function FieldOf(rows: seq<Row>, key: Key): Field {
    Field(Summarise(Readings(rows, key)), Missing(rows, key))
  }

  function FieldsOf(rows: seq<Row>): Fields {
    map key | key in Keys(rows) :: FieldOf(rows, key)
  }

  /** The rollup of a minute's rows, given in time order. */
  function RollupOf(rows: seq<Row>): Rollup {
    Rollup(|rows|, FieldsOf(rows), Gaps(rows))
  }

  // ---------------------------------------------------------- incremental form

  /** Folds one more number into a summary: means are re-weighted, not re-summed. */
  function Absorb(s: Summary, x: real): Summary {
    match s
    case NoReadings => Summary(1, x, x, (0.0 * 0 as real + x) / 1 as real, x)
    case Summary(n, lo, hi, mean, _) =>
      Summary(n + 1, Least(lo, x), Greatest(hi, x), (mean * n as real + x) / (n + 1) as real, x)
  }

  lemma MeanTimesCount(total: real, n: nat)
    requires n > 0
    ensures total / n as real * n as real == total
  {
  }

  lemma Reweighted(total: real, n: nat, x: real)
    requires n > 0
    ensures (total / n as real * n as real + x) / (n + 1) as real == (total + x) / (n + 1) as real
  {
    MeanTimesCount(total, n);
    assert total / n as real * n as real + x == total + x;
  }

  lemma Extremes(vs: seq<real>, x: real)
    requires vs != []
    ensures Minimum(vs + [x]) == Least(Minimum(vs), x) && Maximum(vs + [x]) == Greatest(Maximum(vs), x)
  {
    assert (vs + [x])[..|vs|] == vs;
  }

  lemma SumAppend(vs: seq<real>, x: real)
    ensures Sum(vs + [x]) == Sum(vs) + x
  {
    assert (vs + [x])[..|vs|] == vs;
  }

  lemma AbsorbMean(n: nat, lo: real, hi: real, total: real, last: real, x: real)
    requires n > 0
    ensures Absorb(Summary(n, lo, hi, total / n as real, last), x)
            == Summary(n + 1, Least(lo, x), Greatest(hi, x), (total + x) / (n + 1) as real, x)
  {
    Reweighted(total, n, x);
  }

  /** The incremental step computes the closed form of the longer list. */
  lemma AbsorbIsSummarise(vs: seq<real>, x: real)
    ensures Absorb(Summarise(vs), x) == Summarise(vs + [x])
  {
    hide Minimum, Maximum, Sum, Least, Greatest;
    SumAppend(vs, x);
    if vs == [] {
      AbsorbFirst(x);
      OneReading(x);
    } else {
      hide Absorb;
      Extremes(vs, x);
      AbsorbMean(|vs|, Minimum(vs), Maximum(vs), Sum(vs), vs[|vs| - 1], x);
      assert |vs + [x]| == |vs| + 1;
    }
  }

  lemma AbsorbFirst(x: real)
    ensures Absorb(NoReadings, x) == Summary(1, x, x, x, x)
  {
  }

  lemma OneReading(x: real)
    ensures Summarise([x]) == Summary(1, x, x, x, x) && [] + [x] == [x]
  {
    assert Sum([x]) == x by { SumAppend([], x); assert [] + [x] == [x]; }
  }

  lemma AppendRow(rows: seq<Row>, r: Row, key: Key)
    ensures Readings(rows + [r], key) ==
            if HasNumber(r, key) then Readings(rows, key) + [r.host[key].value] else Readings(rows, key)
    ensures Missing(rows + [r], key) ==
            Missing(rows, key) + if key in r.host && r.host[key].Unavailable? then 1 else 0
  {
    assert (rows + [r])[..|rows|] == rows;
  }

  lemma {:induction false} AbsentKey(rows: seq<Row>, key: Key)
    requires key !in Keys(rows) && key !in SKIPPED_KEYS
    ensures Readings(rows, key) == [] && Missing(rows, key) == 0
  {
    if rows != [] {
      var init, last := rows[..|rows| - 1], rows[|rows| - 1];
      assert last in rows && forall r :: r in init ==> r in rows;
      AbsentKey(init, key);
    }
  }

  /** A field's accumulator after one more row that carries it. */
  function FieldAfter(fields: Fields, row: Row, key: Key): Field
    requires key in row.host
  {
    var field := if key in fields then fields[key] else Field(NoReadings, 0);
    match row.host[key]
    case Number(x) => field.(readings := Absorb(field.readings, x))
    case Unavailable => field.(missing := field.missing + 1)
  }

  /** The accumulators after the given fields of one more row. */
  function FieldsAfter(fields: Fields, row: Row, keys: set<Key>): Fields
    requires keys <= row.host.Keys
  {
    map key | key in fields.Keys + keys :: if key in keys then FieldAfter(fields, row, key) else fields[key]
  }

  lemma OneMoreField(fields: Fields, row: Row, done: set<Key>, key: Key)
    requires done <= row.host.Keys && key in row.host && key !in done
    ensures FieldsAfter(fields, row, done)[key := FieldAfter(FieldsAfter(fields, row, done), row, key)]
            == FieldsAfter(fields, row, done + {key})
  {
    var before := FieldsAfter(fields, row, done);
    assert FieldAfter(before, row, key) == FieldAfter(fields, row, key);
  }

  ghost predicate Lists(listing: seq<Key>, keys: set<Key>) {
    && (forall key :: key in keys <==> key in listing)
    && (forall i, j :: 0 <= i < j < |listing| ==> listing[i] != listing[j])
  }

  /** One row's pass over its fields, in whatever order the object lists them. */
  method AbsorbRow(fields: Fields, row: Row, listing: seq<Key>) returns (fields': Fields)
    requires Lists(listing, Tracked(row))
    ensures fields' == FieldsAfter(fields, row, Tracked(row))
  {
    fields' := fields;
    assert fields' == FieldsAfter(fields, row, Listed([]));
    for i := 0 to |listing|
      invariant Listed(listing[..i]) <= row.host.Keys
      invariant fields' == FieldsAfter(fields, row, Listed(listing[..i]))
    {
      ListedNext(listing, i);
      assert listing[i] in Tracked(row);
      OneMoreField(fields, row, Listed(listing[..i]), listing[i]);
      fields' := fields'[listing[i] := FieldAfter(fields', row, listing[i])];
    }
    assert listing[..|listing|] == listing;
    assert Listed(listing) == Tracked(row);
  }

  ghost function Listed(listing: seq<Key>): set<Key> {
    set key | key in listing
  }

  lemma ListedNext(listing: seq<Key>, i: nat)
    requires i < |listing| && forall i, j :: 0 <= i < j < |listing| ==> listing[i] != listing[j]
    ensures listing[i] !in Listed(listing[..i])
    ensures Listed(listing[..i + 1]) == Listed(listing[..i]) + {listing[i]}
  {
    assert listing[..i + 1] == listing[..i] + [listing[i]];
  }

  /** Any enumeration of a set; stands for the order a JSON object lists its keys in. */
  method Enumerate(keys: set<Key>) returns (listing: seq<Key>)
    ensures Lists(listing, keys)
  {
    listing := [];
    var todo := keys;
    while todo != {}
      invariant todo <= keys
      invariant Lists(listing, keys - todo)
      decreases |todo|
    {
      var key :| key in todo;
      listing := listing + [key];
      todo := todo - {key};
    }
  }

  function Tracked(row: Row): set<Key> {
    row.host.Keys - SKIPPED_KEYS
  }

  lemma NextField(rows: seq<Row>, row: Row, key: Key)
    requires key !in SKIPPED_KEYS
    ensures key in Tracked(row) ==> FieldAfter(FieldsOf(rows), row, key) == FieldOf(rows + [row], key)
    ensures key !in Tracked(row) ==> FieldOf(rows + [row], key) == FieldOf(rows, key)
  {
    AppendRow(rows, row, key);
    if key !in Keys(rows) {
      AbsentKey(rows, key);
    }
    if HasNumber(row, key) {
      AbsorbIsSummarise(Readings(rows, key), row.host[key].value);
    }
  }

  lemma KeysAppend(rows: seq<Row>, row: Row)
    ensures Keys(rows + [row]) == Keys(rows) + Tracked(row)
    ensures Tracked(row) <= row.host.Keys
    ensures Keys(rows) !! SKIPPED_KEYS && Tracked(row) !! SKIPPED_KEYS
  {
  }

  /** The pass over one more row turns one closed form into the next. */
  lemma NextRow(rows: seq<Row>, row: Row)
    ensures FieldsAfter(FieldsOf(rows), row, Tracked(row)) == FieldsOf(rows + [row])
  {
    hide Keys, FieldOf, FieldAfter, Tracked, SKIPPED_KEYS;
    KeysAppend(rows, row);
    var fields, fields' := FieldsAfter(FieldsOf(rows), row, Tracked(row)), FieldsOf(rows + [row]);
    forall key | key in fields' ensures fields[key] == fields'[key] {
      NextField(rows, row, key);
    }
  }

  /** Row i does not continue its predecessor: another boot, a clock that did not advance, or
      one that advanced by more than ten seconds. */
  ghost predicate BreaksOff(rows: seq<Row>, i: int) {
    && 1 <= i < |rows|
    && !(rows[i - 1].boot == rows[i].boot && rows[i - 1].mono < rows[i].mono <= rows[i - 1].mono + 10_000_000_000)
  }

  ghost function GapIndices(rows: seq<Row>): set<int> {
    set i: int | 1 <= i < |rows| && BreaksOff(rows, i)
  }

  lemma OneMoreGap(rows: seq<Row>)
    requires |rows| >= 2
    ensures var n := |rows| - 1;
            && n !in GapIndices(rows[..n])
            && GapIndices(rows) == if Discontinuous(rows[n - 1], rows[n]) then GapIndices(rows[..n]) + {n} else GapIndices(rows[..n])
  {
    var n, init := |rows| - 1, rows[..|rows| - 1];
    forall i: int | 1 <= i < n ensures BreaksOff(rows, i) <==> BreaksOff(init, i) {
      assert init[i] == rows[i] && init[i - 1] == rows[i - 1];
    }
    assert BreaksOff(rows, n) <==> Discontinuous(rows[n - 1], rows[n]);
    hide BreaksOff, Discontinuous;
  }

  lemma {:induction false} GapsAre(rows: seq<Row>)
    ensures Gaps(rows) == |GapIndices(rows)|
  {
    hide Discontinuous, BreaksOff, GapIndices;
    if |rows| < 2 {
      NoGapIndices(rows);
    } else {
      GapsAre(rows[..|rows| - 1]);
      OneMoreGap(rows);
    }
  }

  lemma NoGapIndices(rows: seq<Row>)
    requires |rows| < 2
    ensures GapIndices(rows) == {}
  {
  }

  const BOOKKEEPING_NAMES: seq<string> := [
    "leaders_sampled_at_ns", "process_scan_observed_at_ns", "process_scan_observed_monotonic_ns",
    "net_source", "disk_source", "net_members", "disk_members"]

  /** The bookkeeping names that no rollup carries. */
  lemma KeysAre(rows: seq<Row>, key: Key)
    ensures key in Keys(rows) <==>
              (exists r :: r in rows && key in r.host) && key.name !in BOOKKEEPING_NAMES
  {
    assert key in SKIPPED_KEYS ==> key == Key(key.name);
  }

  /** `rebuild_rollup` over the rows its query returns. */
  method Rebuild(rows: seq<Row>) returns (rollup: Rollup)
    ensures rollup == RollupOf(rows)
    ensures rollup.count == |rows| && rollup.gaps == |GapIndices(rows)|
    ensures forall key :: key in rollup.fields <==>
                            (exists r :: r in rows && key in r.host) && key.name !in BOOKKEEPING_NAMES
  {
    GapsAre(rows);
    forall key ensures key in Keys(rows) <==> (exists r :: r in rows && key in r.host) && key.name !in BOOKKEEPING_NAMES {
      KeysAre(rows, key);
    }
    var fields: Fields, gaps := map[], 0;
    for i := 0 to |rows|
      invariant fields == FieldsOf(rows[..i])
      invariant gaps == Gaps(rows[..i])
    {
      NextRow(rows[..i], rows[i]);
      assert rows[..i] + [rows[i]] == rows[..i + 1];
      var listing := Enumerate(Tracked(rows[i]));
      fields := AbsorbRow(fields, rows[i], listing);
      assert rows[..i + 1][..i] == rows[..i];
      if i > 0 && Discontinuous(rows[i - 1], rows[i]) {
        gaps := gaps + 1;
      }
    }
    assert rows[..|rows|] == rows;
    rollup := Rollup(|rows|, fields, gaps);
  }
}
