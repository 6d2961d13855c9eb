/** Cursor pagination of the reader: following cursors lists everything once. */
module Paging {
  import opened Common
  import opened Packing

  datatype Event = Event(at: int, id: nat, text: string)

  datatype Position = Position(at: int, id: nat)

  function PositionOf(e: Event): Position {
    Position(e.at, e.id)
  }

  /** `(sampled_at_ns,id) < (?,?)`. */
  predicate Under(a: Position, b: Position) {
    a.at < b.at || (a.at == b.at && a.id < b.id)
  }

  /** The matching rows as `ORDER BY sampled_at_ns DESC,id DESC` lists them. */
  ghost predicate Listed(table: seq<Event>) {
    forall i, j :: 0 <= i < j < |table| ==>
      table[j].at < table[i].at || (table[j].at == table[i].at && table[j].id < table[i].id)
  }

  function Query(table: seq<Event>, before: Option<Position>): seq<Event> {
    if table == [] then []
    else
      var rest := Query(table[1..], before);
      if before.None? || Under(PositionOf(table[0]), before.value) then [table[0]] + rest else rest
  }

  /** The cursor left behind by a page that ended just before row k. */
  ghost function CursorAt(table: seq<Event>, k: nat): Option<Position>
    requires k <= |table|
  {
    if k == 0 then None else Some(PositionOf(table[k - 1]))
  }

  lemma {:induction false} QueryAll(table: seq<Event>, before: Option<Position>)
    requires before.None? || forall i :: 0 <= i < |table| ==> Under(PositionOf(table[i]), before.value)
    ensures Query(table, before) == table
  {
    if table != [] {
      QueryAll(table[1..], before);
    }
  }

  lemma {:induction false} QueryResumes(table: seq<Event>, k: nat)
    requires Listed(table) && k <= |table|
    ensures Query(table, CursorAt(table, k)) == table[k..]
  {
    if k == 0 {
      QueryAll(table, None);
    } else if k == 1 {
      QueryAll(table[1..], CursorAt(table, k));
    } else {
      assert table[1..][k - 2] == table[k - 1];
      QueryResumes(table[1..], k - 1);
    }
  }

  function Positions(rows: seq<Event>): (positions: seq<Position>)
    ensures |positions| == |rows|
  {
    seq(|rows|, i requires 0 <= i < |rows| => PositionOf(rows[i]))
  }

  /** `events`: the envelope's size depends on the candidates it reports on. */
  method EventsPage(table: seq<Event>, before: Option<Position>, limit: nat, maxBytes: nat,
                    sizes: seq<Event> -> Sizes<Event, Position>)
    returns (r: Result<Page<Event, Position>>, n: nat)
    ensures var rows := Take(Query(table, before), limit + 1);
            && n == Admitted(sizes(rows), rows, Some(Positions(rows)), limit, maxBytes, 0)
            && (n > 0 ==> r == Ok(Draft(rows, Some(Positions(rows)), n, n < |rows|)))
            && (rows == [] && r.Ok? ==> r.value.items == [] && r.value.next == None)
            && (r.Err? ==> n == 0)
  {
    var rows := Take(Query(table, before), limit + 1);
    r, n := PackReader(sizes(rows), rows, Positions(rows), limit, maxBytes, false);
  }

  /** Row k's envelope fits when it opens a page. */
  ghost predicate Opens(table: seq<Event>, k: nat, limit: nat, maxBytes: nat, sizes: seq<Event> -> Sizes<Event, Position>)
    requires k < |table|
  {
    var rows := Take(table[k..], limit + 1);
    Trial(sizes(rows), rows, Some(Positions(rows)), 1) <= maxBytes
  }

  ghost predicate EachFits(table: seq<Event>, limit: nat, maxBytes: nat, sizes: seq<Event> -> Sizes<Event, Position>) {
    forall k: nat :: k < |table| ==> Opens(table, k, limit, maxBytes, sizes)
  }

  /** A page of n rows from row k ends with the cursor of row k + n, or none at the end. */
  lemma PageAdvances(table: seq<Event>, k: nat, limit: nat, n: nat)
    requires k < |table| && limit >= 1
    requires var rows := Take(table[k..], limit + 1); 0 < n <= |rows| && n <= limit
    ensures var rows := Take(table[k..], limit + 1);
            var page := Draft(rows, Some(Positions(rows)), n, n < |rows|);
            && k + n <= |table| && page.items == table[k..k + n]
            && page.next == if k + n == |table| then None else CursorAt(table, k + n)
  {
    var rows := Take(table[k..], limit + 1);
    assert rows[..n] == table[k..k + n];
    assert rows[n - 1] == table[k + n - 1];
  }

  lemma PageHasItems(table: seq<Event>, k: nat, limit: nat, maxBytes: nat, sizes: seq<Event> -> Sizes<Event, Position>)
    requires k < |table| && limit >= 1 && Opens(table, k, limit, maxBytes, sizes)
    ensures var rows := Take(table[k..], limit + 1);
            Admitted(sizes(rows), rows, Some(Positions(rows)), limit, maxBytes, 0) > 0
  {
    var rows := Take(table[k..], limit + 1);
    AdmitsFirst(sizes(rows), rows, Some(Positions(rows)), limit, maxBytes);
  }

  /** A client that follows `next_cursor` until it is null has read every matching event
      exactly once, newest first, whatever the page size. */
  method ReadAllEvents(table: seq<Event>, limit: nat, maxBytes: nat, sizes: seq<Event> -> Sizes<Event, Position>)
    returns (all: seq<Event>)
    requires Listed(table) && limit >= 1 && EachFits(table, limit, maxBytes, sizes)
    ensures all == table
  {
    hide Query, Trial, Draft, Admitted, Listed, Positions;
    all := [];
    var before := None;
    while true
      invariant |all| <= |table| && all == table[..|all|] && before == CursorAt(table, |all|)
      invariant all == table ==> table == []
      decreases |table| - |all|
    {
      ghost var k := |all|;
      QueryResumes(table, k);
      var r, n := EventsPage(table, before, limit, maxBytes, sizes);
      if k < |table| {
        assert Opens(table, k, limit, maxBytes, sizes);
        PageHasItems(table, k, limit, maxBytes, sizes);
      }
      if n == 0 {
        break;
      }
      PageAdvances(table, k, limit, n);
      all := all + r.value.items;
      if r.value.next.None? {
        break;
      }
      before := r.value.next;
    }
  }

  // --------------------------------------------------------- series bucket pages

  function Indices(first: nat, last: nat): (list: seq<nat>)
    requires first <= last
    ensures |list| == last - first && forall i :: 0 <= i < |list| ==> list[i] == first + i
  {
    seq(last - first, i requires 0 <= i < last - first => first + i)
  }

  /** Buckets are packed in index order, the index being the cursor position. */
  method BucketPage(count: nat, first: nat, limit: nat, maxBytes: nat, sizes: seq<nat> -> Sizes<nat, nat>)
    returns (r: Result<Page<nat, nat>>, n: nat)
    requires first <= count
    ensures var rows := Indices(first, if count < first + limit + 1 then count else first + limit + 1);
            && n == Admitted(sizes(rows), rows, Some(rows), limit, maxBytes, 0)
            && (n > 0 ==> r == Ok(Draft(rows, Some(rows), n, n < |rows|)))
  {
    var rows := Indices(first, if count < first + limit + 1 then count else first + limit + 1);
    r, n := PackReader(sizes(rows), rows, rows, limit, maxBytes, false);
  }

  ghost predicate BucketOpens(count: nat, k: nat, limit: nat, maxBytes: nat, sizes: seq<nat> -> Sizes<nat, nat>)
    requires k < count
  {
    var rows := Indices(k, if count < k + limit + 1 then count else k + limit + 1);
    Trial(sizes(rows), rows, Some(rows), 1) <= maxBytes
  }

  ghost predicate EachBucketFits(count: nat, limit: nat, maxBytes: nat, sizes: seq<nat> -> Sizes<nat, nat>) {
    forall k: nat :: k < count ==> BucketOpens(count, k, limit, maxBytes, sizes)
  }

  lemma NoIndices()
    ensures Indices(0, 0) == []
  {
  }

  lemma BucketsOpen(count: nat, k: nat, limit: nat, maxBytes: nat, sizes: seq<nat> -> Sizes<nat, nat>)
    requires k < count && limit >= 1 && BucketOpens(count, k, limit, maxBytes, sizes)
    ensures var rows := Indices(k, if count < k + limit + 1 then count else k + limit + 1);
            var n := Admitted(sizes(rows), rows, Some(rows), limit, maxBytes, 0); 0 < n <= |rows| && n <= limit
  {
    hide Trial;
    var rows := Indices(k, if count < k + limit + 1 then count else k + limit + 1);
    AdmitsFirst(sizes(rows), rows, Some(rows), limit, maxBytes);
  }

  /** A page of n buckets from the first ends with its last index as cursor, or none at the end. */
  lemma BucketsAdvance(count: nat, first: nat, limit: nat, n: nat)
    requires first < count && limit >= 1
    requires var rows := Indices(first, if count < first + limit + 1 then count else first + limit + 1);
             0 < n <= |rows| && n <= limit
    ensures var rows := Indices(first, if count < first + limit + 1 then count else first + limit + 1);
            var page := Draft(rows, Some(rows), n, n < |rows|);
            && first + n <= count && Indices(0, first) + page.items == Indices(0, first + n)
            && page.next == if first + n == count then None else Some(first + n - 1)
  {
  }

  /** Resuming after each cursor yields every bucket index once, in order. */
  method ReadAllBuckets(count: nat, limit: nat, maxBytes: nat, sizes: seq<nat> -> Sizes<nat, nat>)
    returns (all: seq<nat>)
    requires limit >= 1 && count >= 1 && EachBucketFits(count, limit, maxBytes, sizes)
    ensures all == Indices(0, count)
  {
    hide Trial, Admitted, Indices, Draft;
    all := [];
    assert all == Indices(0, 0) by { NoIndices(); }
    var after: Option<nat> := None;
    while true
      invariant |all| < count && all == Indices(0, |all|)
      invariant after == if all == [] then None else Some(|all| - 1)
      decreases count - |all|
    {
      var first := if after.None? then 0 else after.value + 1;
      var r, n := BucketPage(count, first, limit, maxBytes, sizes);
      ghost var rows := Indices(first, if count < first + limit + 1 then count else first + limit + 1);
      assert BucketOpens(count, first, limit, maxBytes, sizes);
      BucketsOpen(count, first, limit, maxBytes, sizes);
      BucketsAdvance(count, first, limit, n);
      all := all + r.value.items;
      if r.value.next.None? {
        break;
      }
      after := r.value.next;
    }
  }
}
