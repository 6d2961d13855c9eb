/** The rows of the monitor store and the order in which SQLite lists them. */
module Samples {

  const SECOND_NS: int := 1_000_000_000
  const MINUTE_NS: int := 60 * SECOND_NS

  datatype Mode = Baseline | Detail

  /** The name of a field of `host_json`, and its value: a finite number, or anything else (null, text, object). */
  datatype Key = Key(name: string)

  datatype Reading = Number(value: real) | Unavailable

  /** `id` is the commit number; `blobBytes` is the length of the process blob and
      `textBytes` and `textChars` the summed lengths of the host, services and errors texts
      in bytes and, as SQLite measures text, in characters. */
  datatype Row = Row(id: nat, at: int, mono: int, boot: string, mode: Mode,
                     host: map<Key, Reading>, services: string,
                     blobBytes: nat, textBytes: nat, textChars: nat)

  /** A wall-clock minute; `Start` is its `bucket_start_ns`. */
  datatype Minute = Minute(index: int)

  function Start(m: Minute): int {
    m.index * MINUTE_NS
  }

  function Bucket(at: int): Minute {
    Minute(at / MINUTE_NS)
  }

  /** `ORDER BY sampled_at_ns,id`. */
  predicate Before(a: Row, b: Row) {
    a.at < b.at || (a.at == b.at && a.id < b.id)
  }

  /** Rows in commit order: ids strictly increase. */
  ghost predicate Numbered(rows: seq<Row>) {
    forall i, j :: 0 <= i < j < |rows| ==> rows[i].id < rows[j].id
  }

  ghost predicate Ordered(rows: seq<Row>) {
    forall i, j :: 0 <= i < j < |rows| ==> Before(rows[i], rows[j])
  }

  ghost function Ids(rows: seq<Row>): set<nat> {
    set r | r in rows :: r.id
  }

  // ---------------------------------------------------------------- selection

  datatype Filter = MinuteOf(minute: Minute) | Between(lo: int, hi: int) | Details | Aged(cutoff: int) | OldBaseline(cutoff: int)

  /** The WHERE clauses the store and its readers use. */
  predicate Matches(f: Filter, r: Row) {
    match f
    case MinuteOf(m) => r.mode.Baseline? && Start(m) <= r.at < Start(m) + MINUTE_NS
    case Between(lo, hi) => r.mode.Baseline? && lo <= r.at < hi
    case Details => r.mode.Detail?
    case Aged(cutoff) => r.at < cutoff
    case OldBaseline(cutoff) => r.mode.Baseline? && r.at < cutoff
  }

  lemma MinuteMatches(m: Minute, r: Row)
    ensures Matches(MinuteOf(m), r) <==> r.mode.Baseline? && Bucket(r.at) == m
  {
  }

  function Select(f: Filter, rows: seq<Row>): (out: seq<Row>)
    ensures |out| <= |rows|
  {
    if rows == [] then []
    else
      var last := rows[|rows| - 1];
      var rest := Select(f, rows[..|rows| - 1]);
      if Matches(f, last) then rest + [last] else rest
  }

  lemma {:induction false} SelectMembers(f: Filter, rows: seq<Row>)
    ensures forall r :: r in Select(f, rows) <==> r in rows && Matches(f, r)
  {
    if rows != [] {
      var init, last := rows[..|rows| - 1], rows[|rows| - 1];
      SelectMembers(f, init);
      assert rows == init + [last];
    }
  }

  lemma {:induction false} SelectKeepsNumbering(f: Filter, rows: seq<Row>)
    requires Numbered(rows)
    ensures Numbered(Select(f, rows))
  {
    if rows != [] {
      var init, last := rows[..|rows| - 1], rows[|rows| - 1];
      SelectKeepsNumbering(f, init);
      SelectMembers(f, init);
      forall r | r in Select(f, init) ensures r.id < last.id {
        assert r in init;
      }
    }
  }

  lemma SelectAppend(f: Filter, rows: seq<Row>, r: Row)
    ensures Select(f, rows + [r]) == if Matches(f, r) then Select(f, rows) + [r] else Select(f, rows)
  {
    assert (rows + [r])[..|rows|] == rows;
  }

  /** Rows that survive the deletion of a set of ids. */
  function Without(rows: seq<Row>, gone: set<nat>): seq<Row> {
    if rows == [] then []
    else
      var last := rows[|rows| - 1];
      var rest := Without(rows[..|rows| - 1], gone);
      if last.id in gone then rest else rest + [last]
  }

  lemma {:induction false} WithoutMembers(rows: seq<Row>, gone: set<nat>)
    ensures forall r :: r in Without(rows, gone) <==> r in rows && r.id !in gone
  {
    if rows != [] {
      var init, last := rows[..|rows| - 1], rows[|rows| - 1];
      WithoutMembers(init, gone);
      assert rows == init + [last];
    }
  }

  lemma WithoutAppend(rows: seq<Row>, r: Row, gone: set<nat>)
    ensures Without(rows + [r], gone) == if r.id in gone then Without(rows, gone) else Without(rows, gone) + [r]
  {
    assert (rows + [r])[..|rows|] == rows;
  }

  lemma {:induction false} WithoutKeepsNumbering(rows: seq<Row>, gone: set<nat>)
    requires Numbered(rows)
    ensures Numbered(Without(rows, gone))
  {
    if rows != [] {
      var init, last := rows[..|rows| - 1], rows[|rows| - 1];
      WithoutKeepsNumbering(init, gone);
      WithoutMembers(init, gone);
      forall r | r in Without(init, gone) ensures r.id < last.id {
        assert r in init;
      }
    }
  }

  lemma {:induction false} WithoutTwice(rows: seq<Row>, a: set<nat>, b: set<nat>)
    ensures Without(Without(rows, a), b) == Without(rows, a + b)
  {
    if rows != [] {
      var init, last := rows[..|rows| - 1], rows[|rows| - 1];
      WithoutTwice(init, a, b);
      assert rows == init + [last];
      WithoutAppend(init, last, a);
      WithoutAppend(init, last, a + b);
      WithoutAppend(Without(init, a), last, b);
    }
  }

  lemma {:induction false} WithoutNothing(rows: seq<Row>, gone: set<nat>)
    requires forall r :: r in rows ==> r.id !in gone
    ensures Without(rows, gone) == rows
  {
    if rows != [] {
      WithoutNothing(rows[..|rows| - 1], gone);
    }
  }

  lemma {:induction false} WithoutLength(rows: seq<Row>, gone: set<nat>)
    requires Numbered(rows) && gone <= Ids(rows)
    ensures |Without(rows, gone)| + |gone| == |rows|
  {
    hide Numbered;
    if rows == [] {
      assert gone == {};
    } else {
      var init, last := rows[..|rows| - 1], rows[|rows| - 1];
      LastIsNew(rows);
      if last.id in gone {
        WithoutLength(init, gone - {last.id});
        WithoutIrrelevant(init, gone, last.id);
      } else {
        WithoutLength(init, gone);
      }
    }
  }

  lemma LastIsNew(rows: seq<Row>)
    requires Numbered(rows) && rows != []
    ensures var init, last := rows[..|rows| - 1], rows[|rows| - 1];
            Numbered(init) && last.id !in Ids(init) && Ids(rows) == Ids(init) + {last.id}
  {
    assert rows == rows[..|rows| - 1] + [rows[|rows| - 1]];
  }

  lemma {:induction false} WithoutIrrelevant(rows: seq<Row>, gone: set<nat>, id: nat)
    requires id !in Ids(rows)
    ensures Without(rows, gone - {id}) == Without(rows, gone)
  {
    if rows != [] {
      assert rows[|rows| - 1] in rows;
      WithoutIrrelevant(rows[..|rows| - 1], gone, id);
    }
  }

  /** A deletion that touches no matching row leaves the selection alone. */
  lemma {:induction false} SelectWithout(f: Filter, rows: seq<Row>, gone: set<nat>)
    requires forall r :: r in rows && Matches(f, r) ==> r.id !in gone
    ensures Select(f, Without(rows, gone)) == Select(f, rows)
  {
    if rows != [] {
      var init, last := rows[..|rows| - 1], rows[|rows| - 1];
      SelectWithout(f, init, gone);
      assert rows == init + [last];
      WithoutAppend(init, last, gone);
      SelectAppend(f, init, last);
      SelectAppend(f, Without(init, gone), last);
    }
  }

  // ------------------------------------------------------------------ sorting

  function Insert(rows: seq<Row>, r: Row): (out: seq<Row>)
    ensures multiset(out) == multiset(rows) + multiset{r}
    ensures |out| == |rows| + 1
    ensures forall x :: x in out <==> x == r || x in rows
  {
    if rows == [] || Before(r, rows[0]) then [r] + rows
    else
      assert rows == [rows[0]] + rows[1..];
      [rows[0]] + Insert(rows[1..], r)
  }

  /** The rows listed by time, ties by id. */
  function TimeOrder(rows: seq<Row>): (out: seq<Row>)
    ensures multiset(out) == multiset(rows)
    ensures |out| == |rows|
    ensures forall x :: x in out <==> x in rows
  {
    if rows == [] then []
    else
      assert rows == rows[..|rows| - 1] + [rows[|rows| - 1]];
      Insert(TimeOrder(rows[..|rows| - 1]), rows[|rows| - 1])
  }

  lemma {:induction false} InsertOrdered(rows: seq<Row>, r: Row)
    requires Ordered(rows)
    requires forall x :: x in rows ==> x.id != r.id
    ensures Ordered(Insert(rows, r))
  {
    if rows != [] && !Before(r, rows[0]) {
      InsertOrdered(rows[1..], r);
      var tail := Insert(rows[1..], r);
      assert Before(rows[0], r);
      forall j | 0 <= j < |tail| ensures Before(rows[0], tail[j]) {
        assert tail[j] in tail;
      }
    }
  }

  lemma {:induction false} TimeOrderIsOrdered(rows: seq<Row>)
    requires Numbered(rows)
    ensures Ordered(TimeOrder(rows))
  {
    if rows != [] {
      var init := rows[..|rows| - 1];
      TimeOrderIsOrdered(init);
      InsertOrdered(TimeOrder(init), rows[|rows| - 1]);
    }
  }

  /** A listing by time: earlier rows first, rows of one instant by id. */
  lemma TimeOrderMeans(rows: seq<Row>, i: nat, j: nat)
    requires Numbered(rows) && i < j < |TimeOrder(rows)|
    ensures var list := TimeOrder(rows);
            list[i].at < list[j].at || (list[i].at == list[j].at && list[i].id < list[j].id)
  {
    hide TimeOrder, Numbered;
    TimeOrderIsOrdered(rows);
  }

  /** An ordered listing is determined by the rows in it. */
  lemma {:induction false} OrderedUnique(a: seq<Row>, b: seq<Row>)
    requires Ordered(a) && Ordered(b)
    requires forall r :: r in a <==> r in b
    ensures a == b
  {
    assert a != [] ==> a[0] in b;
    assert b != [] ==> b[0] in a;
    if a != [] {
      var i :| 0 <= i < |b| && b[i] == a[0];
      var j :| 0 <= j < |a| && a[j] == b[0];
      assert a[0] == b[0];
      forall r ensures r in a[1..] <==> r in b[1..] {
        if r in a[1..] {
          var k :| 1 <= k < |a| && a[k] == r;
          assert Before(a[0], r) && r in b;
        }
        if r in b[1..] {
          var k :| 1 <= k < |b| && b[k] == r;
          assert Before(b[0], r) && r in a;
        }
      }
      OrderedUnique(a[1..], b[1..]);
    }
  }

  function Min(a: int, b: int): int {
    if a < b then a else b
  }

  /** `ORDER BY sampled_at_ns,id LIMIT n`. */
  function Oldest(rows: seq<Row>, n: nat): (out: seq<Row>)
    ensures |out| == Min(n, |rows|)
    ensures forall r :: r in out ==> r in rows
  {
    var all := TimeOrder(rows);
    all[..Min(n, |all|)]
  }

  lemma OldestComeFirst(rows: seq<Row>, n: nat)
    requires Numbered(rows)
    ensures forall d, k :: d in Oldest(rows, n) && k in rows && k !in Oldest(rows, n) ==> Before(d, k)
    ensures |Ids(Oldest(rows, n))| == Min(n, |rows|)
  {
    TimeOrderIsOrdered(rows);
    var all := TimeOrder(rows);
    var m := Min(n, |all|);
    assert forall i :: 0 <= i < m ==> all[i] == all[..m][i];
    forall d, k | d in Oldest(rows, n) && k in rows && k !in Oldest(rows, n)
      ensures Before(d, k)
    {
      var i :| 0 <= i < m && all[i] == d;
      assert k in all;
      var j :| 0 <= j < |all| && all[j] == k;
    }
    forall i, j | 0 <= i < j < m ensures all[i].id != all[j].id {
      assert Before(all[i], all[j]) && all[i] in rows && all[j] in rows;
    }
    IdsCount(all[..m]);
  }

  lemma {:induction false} IdsCount(rows: seq<Row>)
    requires forall i, j :: 0 <= i < j < |rows| ==> rows[i].id != rows[j].id
    ensures |Ids(rows)| == |rows|
  {
    if rows != [] {
      var init, last := rows[..|rows| - 1], rows[|rows| - 1];
      IdsCount(init);
      assert rows == init + [last];
      assert Ids(rows) == Ids(init) + {last.id};
    }
  }
}
