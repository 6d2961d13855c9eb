/** The flight-recorder export: two tables merged into one descending, resumable list. */
module Export {
  import opened Common
  import opened Packing

  const GAP_NS: int := 10_000_000_000

  /** SQLite's largest row id. */
  const MAX_ROWID: int := 0x7fff_ffff_ffff_ffff

  const SAMPLE: int := 0
  const EVENT: int := 1

  datatype Entry = Entry(at: int, category: int, id: int)

  /** A replayed entry; `gap` is the distance to the next newer sample when over ten seconds. */
  datatype Public = Public(entry: Entry, gap: Option<int>)

  datatype Cursor = Cursor(position: Entry, newer: Option<int>)

  /** Tuple order on (sampled_at_ns, category, id). */
  predicate Less(a: Entry, b: Entry) {
    || a.at < b.at
    || (a.at == b.at && a.category < b.category)
    || (a.at == b.at && a.category == b.category && a.id < b.id)
  }

  ghost predicate Descending(list: seq<Entry>) {
    forall i, j :: 0 <= i < j < |list| ==> Less(list[j], list[i])
  }

  /** A table's rows in `ORDER BY sampled_at_ns DESC,id DESC`. */
  ghost predicate IsTable(rows: seq<Entry>, category: int) {
    && Descending(rows)
    && forall e :: e in rows ==> e.category == category && 0 <= e.id <= MAX_ROWID
  }

  // ------------------------------------------------------------------- merging

  /** Both lists in one descending list; what sorting their concatenation in reverse gives. */
  function Merge(a: seq<Entry>, b: seq<Entry>): (out: seq<Entry>)
    ensures |out| == |a| + |b|
    decreases |a| + |b|
  {
    if a == [] then b
    else if b == [] then a
    else if Less(b[0], a[0]) then [a[0]] + Merge(a[1..], b)
    else [b[0]] + Merge(a, b[1..])
  }

  lemma {:induction false} MergeMembers(a: seq<Entry>, b: seq<Entry>)
    ensures forall e :: e in Merge(a, b) <==> e in a || e in b
    decreases |a| + |b|
  {
    if a != [] && b != [] {
      assert a == [a[0]] + a[1..] && b == [b[0]] + b[1..];
      if Less(b[0], a[0]) {
        MergeMembers(a[1..], b);
      } else {
        MergeMembers(a, b[1..]);
      }
    }
  }

  lemma ConsDescending(e: Entry, rest: seq<Entry>)
    requires Descending(rest) && forall x :: x in rest ==> Less(x, e)
    ensures Descending([e] + rest)
  {
  }

  lemma {:induction false} MergeDescending(a: seq<Entry>, b: seq<Entry>)
    requires Descending(a) && Descending(b)
    requires forall x, y :: x in a && y in b ==> x.category != y.category
    ensures Descending(Merge(a, b))
    decreases |a| + |b|
  {
    if a != [] && b != [] {
      assert a[0] in a && b[0] in b;
      assert (forall x :: x in a[1..] ==> x in a) && (forall x :: x in b[1..] ==> x in b);
      if Less(b[0], a[0]) {
        MergeDescending(a[1..], b);
        MergeMembers(a[1..], b);
        ConsDescending(a[0], Merge(a[1..], b));
      } else {
        MergeDescending(a, b[1..]);
        MergeMembers(a, b[1..]);
        ConsDescending(b[0], Merge(a, b[1..]));
      }
    }
  }

  /** A descending list is determined by its entries. */
  lemma {:induction false} DescendingUnique(a: seq<Entry>, b: seq<Entry>)
    requires Descending(a) && Descending(b) && forall e :: e in a <==> e in b
    ensures a == b
  {
    assert a != [] ==> a[0] in b;
    assert b != [] ==> b[0] in a;
    if a != [] {
      var i :| 0 <= i < |b| && b[i] == a[0];
      var j :| 0 <= j < |a| && a[j] == b[0];
      assert a[0] == b[0];
      var a', b' := a[1..], b[1..];
      assert a == [a[0]] + a' && b == [b[0]] + b';
      forall e ensures e in a' <==> e in b' {
        assert e in a' ==> e in b && Less(e, a[0]);
        assert e in b' ==> e in a && Less(e, b[0]);
      }
      DescendingUnique(a', b');
    }
  }

  /** Reading each list n deep is enough for the first n of the merge. */
  lemma {:induction false} TakeMerge(a: seq<Entry>, b: seq<Entry>, n: nat)
    ensures Take(Merge(a, b), n) == Take(Merge(Take(a, n), Take(b, n)), n)
    decreases n
  {
    if n > 0 && a != [] && b != [] {
      var x, y := Take(a, n), Take(b, n);
      TakeHead(a, n);
      TakeHead(b, n);
      hide Take, Less;
      if Less(b[0], a[0]) {
        TakeTail(a, n);
        TakeTwice(b, n);
        TakeMerge(a[1..], b, n - 1);
        TakeMerge(x[1..], y, n - 1);
        TakeCons(a[0], Merge(a[1..], b), Merge(x[1..], y), n);
      } else {
        TakeTail(b, n);
        TakeTwice(a, n);
        TakeMerge(a, b[1..], n - 1);
        TakeMerge(x, y[1..], n - 1);
        TakeCons(b[0], Merge(a, b[1..]), Merge(x, y[1..]), n);
      }
    }
  }

  lemma TakeHead(a: seq<Entry>, n: nat)
    requires n > 0 && a != []
    ensures Take(a, n) != [] && Take(a, n)[0] == a[0]
  {
  }

  lemma TakeTail(a: seq<Entry>, n: nat)
    requires n > 0 && a != []
    ensures Take(a, n) != [] && Take(a, n)[1..] == Take(a[1..], n - 1) == Take(Take(a, n)[1..], n - 1)
  {
  }

  lemma TakeTwice(a: seq<Entry>, n: nat)
    requires n > 0
    ensures Take(Take(a, n), n - 1) == Take(a, n - 1)
  {
  }

  lemma TakeCons(e: Entry, p: seq<Entry>, q: seq<Entry>, n: nat)
    requires n > 0 && Take(p, n - 1) == Take(q, n - 1)
    ensures Take([e] + p, n) == Take([e] + q, n)
  {
    assert Take([e] + p, n) == [e] + Take(p, n - 1);
    assert Take([e] + q, n) == [e] + Take(q, n - 1);
  }

  // ------------------------------------------------------------------- cursors

  /** The resume condition of the row query. */
  predicate Passes(e: Entry, last: Entry) {
    var sameTimeId := if e.category == last.category then last.id else if e.category < last.category then MAX_ROWID else -1;
    e.at < last.at || (e.at == last.at && e.id < sameTimeId)
  }

  /** It admits exactly the entries after the cursor, except a sample with the largest
      possible row id that shares its timestamp with the event at the cursor. */
  lemma PassesIff(e: Entry, last: Entry)
    requires e.id >= 0
    ensures Passes(e, last) <==>
              Less(e, last) && !(e.at == last.at && e.category < last.category && e.id >= MAX_ROWID)
  {
  }

  function Rows(table: seq<Entry>, before: Option<Cursor>): seq<Entry> {
    if table == [] then []
    else
      var rest := Rows(table[..|table| - 1], before);
      var e := table[|table| - 1];
      if before.None? || Passes(e, before.value.position) then rest + [e] else rest
  }

  lemma {:induction false} RowsFacts(table: seq<Entry>, before: Option<Cursor>, category: int)
    requires IsTable(table, category)
    ensures IsTable(Rows(table, before), category)
    ensures forall e :: e in Rows(table, before) <==>
                          e in table && (before.Some? ==> Passes(e, before.value.position))
  {
    if table != [] {
      var init, e := table[..|table| - 1], table[|table| - 1];
      assert table == init + [e];
      RowsFacts(init, before, category);
      var rest := Rows(init, before);
      forall k | 0 <= k < |rest| ensures Less(e, rest[k]) {
        assert rest[k] in init;
      }
    }
  }

  /** The merged list of a whole window. */
  function Whole(samples: seq<Entry>, events: seq<Entry>): seq<Entry> {
    Merge(samples, events)
  }

  ghost predicate IsStore(samples: seq<Entry>, events: seq<Entry>) {
    IsTable(samples, SAMPLE) && IsTable(events, EVENT)
  }

  lemma WholeFacts(samples: seq<Entry>, events: seq<Entry>)
    requires IsStore(samples, events)
    ensures Descending(Whole(samples, events))
    ensures forall e :: e in Whole(samples, events) <==> e in samples || e in events
  {
    MergeDescending(samples, events);
    MergeMembers(samples, events);
  }

  /** The cursor after the first k entries of the list. */
  function CursorAt(list: seq<Entry>, k: nat): Option<Cursor>
    requires k <= |list|
  {
    if k == 0 then None else Some(Cursor(list[k - 1], NewerAfter(list[..k], None)))
  }

  /** A sample at the cursor's instant that the query cannot reach past an event. */
  ghost predicate Hides(samples: seq<Entry>, last: Entry) {
    exists e :: e in samples && Hidden(e, last)
  }

  predicate Hidden(e: Entry, last: Entry) {
    e.at == last.at && e.category == SAMPLE && last.category == EVENT && e.id >= MAX_ROWID
  }

  /** What a query with the cursor after k entries lists. */
  ghost function Resumed(samples: seq<Entry>, events: seq<Entry>, k: nat): seq<Entry>
    requires k <= |Whole(samples, events)|
  {
    var before := CursorAt(Whole(samples, events), k);
    Merge(Rows(samples, before), Rows(events, before))
  }

  lemma ResumedMembers(samples: seq<Entry>, events: seq<Entry>, k: nat)
    requires IsStore(samples, events) && k <= |Whole(samples, events)|
    ensures var list := Whole(samples, events); var rest := Resumed(samples, events, k);
            && Descending(rest)
            && forall e :: e in rest <==> e in list[k..] && !(k > 0 && Hidden(e, list[k - 1]))
  {
    hide Rows, Merge, NewerAfter, Passes, Hidden;
    var list := Whole(samples, events);
    var before := CursorAt(list, k);
    WholeFacts(samples, events);
    RowsFacts(samples, before, SAMPLE);
    RowsFacts(events, before, EVENT);
    WholeFacts(Rows(samples, before), Rows(events, before));
    forall e ensures e in Resumed(samples, events, k) <==> e in list[k..] && !(k > 0 && Hidden(e, list[k - 1])) {
      SuffixIsBelow(list, k, e);
      if k > 0 && e in list {
        assert list[k - 1] in list;
        PassesUnlessHidden(e, list[k - 1]);
      }
    }
  }

  lemma PassesUnlessHidden(e: Entry, last: Entry)
    requires 0 <= e.id && e.category in {SAMPLE, EVENT} && last.category in {SAMPLE, EVENT}
    ensures Passes(e, last) <==> Less(e, last) && !Hidden(e, last)
  {
    PassesIff(e, last);
  }

  /** Querying both tables with a cursor resumes the merged list where it stopped if and
      only if the cursor hides no sample. */
  lemma ResumesIff(samples: seq<Entry>, events: seq<Entry>, k: nat)
    requires IsStore(samples, events) && k <= |Whole(samples, events)|
    ensures var list := Whole(samples, events);
            Resumed(samples, events, k) == list[k..] <==> !(k > 0 && Hides(samples, list[k - 1]))
  {
    hide Rows, Merge, NewerAfter, Resumed, Whole;
    var list := Whole(samples, events);
    WholeFacts(samples, events);
    ResumedMembers(samples, events, k);
    if k > 0 && Hides(samples, list[k - 1]) {
      var e :| e in samples && Hidden(e, list[k - 1]);
      SuffixIsBelow(list, k, e);
      assert e in list[k..] && e !in Resumed(samples, events, k);
    } else {
      forall e | e in list[k..] && k > 0 ensures !Hidden(e, list[k - 1]) {
        CategoryOf(samples, events, e);
      }
      SuffixDescends(list, k);
      DescendingUnique(Resumed(samples, events, k), list[k..]);
    }
  }

  lemma SuffixDescends(list: seq<Entry>, k: nat)
    requires Descending(list) && k <= |list|
    ensures Descending(list[k..]) && forall e :: e in list[k..] ==> e in list
  {
  }

  lemma CategoryOf(samples: seq<Entry>, events: seq<Entry>, e: Entry)
    requires IsStore(samples, events) && (e in samples || e in events)
    ensures e.category == SAMPLE ==> e in samples
  {
  }

  /** One sample with the largest row id at the instant of an event: the page after the
      event does not list it. */
  lemma LargestIdIsLost()
    ensures var samples, events := [Entry(5, SAMPLE, MAX_ROWID)], [Entry(5, EVENT, 1)];
            && IsStore(samples, events) && Whole(samples, events) == events + samples
            && Resumed(samples, events, 1) == []
  {
    var samples, events := [Entry(5, SAMPLE, MAX_ROWID)], [Entry(5, EVENT, 1)];
    assert Merge(samples, []) == samples;
    ResumedMembers(samples, events, 1);
    assert Whole(samples, events)[1..] == samples;
    SomeEntry(Resumed(samples, events, 1));
  }

  lemma SomeEntry(list: seq<Entry>)
    ensures list == [] || list[0] in list
  {
  }

  lemma SuffixIsBelow(list: seq<Entry>, k: nat, e: Entry)
    requires Descending(list) && k <= |list|
    ensures e in list[k..] <==> e in list && (k > 0 ==> Less(e, list[k - 1]))
  {
    if e in list {
      var i :| 0 <= i < |list| && list[i] == e;
      assert i >= k ==> list[k..][i - k] == e;
    }
  }

  // --------------------------------------------------------------- annotations

  function GapFrom(e: Entry, newer: Option<int>): Option<int> {
    if e.category == SAMPLE && newer.Some? && newer.value - e.at > GAP_NS then Some(newer.value - e.at) else None
  }

  function NextNewer(e: Entry, newer: Option<int>): Option<int> {
    if e.category == SAMPLE then Some(e.at) else newer
  }

  /** The oldest sample passed so far, seen from the newest end. */
  function NewerAfter(list: seq<Entry>, newer: Option<int>): Option<int> {
    if list == [] then newer else NextNewer(list[|list| - 1], NewerAfter(list[..|list| - 1], newer))
  }

  /** Every entry with its gap, as one unbounded page shows them. */
  function Annotate(list: seq<Entry>, newer: Option<int>): (out: seq<Public>)
    ensures |out| == |list|
  {
    if list == [] then []
    else
      var init, e := list[..|list| - 1], list[|list| - 1];
      Annotate(init, newer) + [Public(e, GapFrom(e, NewerAfter(init, newer)))]
  }

  function CursorsOf(list: seq<Entry>, newer: Option<int>): (out: seq<Cursor>)
    ensures |out| == |list|
  {
    if list == [] then []
    else CursorsOf(list[..|list| - 1], newer) + [Cursor(list[|list| - 1], NewerAfter(list, newer))]
  }

  lemma {:induction false} AnnotateConcat(a: seq<Entry>, b: seq<Entry>, newer: Option<int>)
    ensures NewerAfter(a + b, newer) == NewerAfter(b, NewerAfter(a, newer))
    ensures Annotate(a + b, newer) == Annotate(a, newer) + Annotate(b, NewerAfter(a, newer))
    ensures CursorsOf(a + b, newer) == CursorsOf(a, newer) + CursorsOf(b, NewerAfter(a, newer))
  {
    if b == [] {
      assert a + b == a;
    } else {
      assert (a + b)[..|a + b| - 1] == a + b[..|b| - 1];
      AnnotateConcat(a, b[..|b| - 1], newer);
    }
  }

  // What the annotations say, entry by entry.

  ghost function Beyond(distance: int): Option<int> {
    if distance > 10_000_000_000 then Some(distance) else None
  }

  /** Entry j is the nearest sample before entry i. */
  ghost predicate NearestSample(list: seq<Entry>, j: int, i: int) {
    0 <= j < i <= |list| && list[j].category == 0 && forall k :: j < k < i ==> list[k].category != 0
  }

  ghost predicate NoSampleBefore(list: seq<Entry>, i: int) {
    0 <= i <= |list| && forall k :: 0 <= k < i ==> list[k].category != 0
  }

  /** An event has no gap.  A sample has the distance to the nearest newer sample of the list,
      or to the one given if there is none, when it exceeds ten seconds. */
  ghost predicate GapIs(list: seq<Entry>, newer: Option<int>, i: nat, gap: Option<int>)
    requires i < |list|
  {
    if list[i].category != 0 then gap == None
    else
      && (forall j: nat :: NearestSample(list, j, i) ==> gap == Beyond(list[j].at - list[i].at))
      && (NoSampleBefore(list, i) ==> gap == if newer.None? then None else Beyond(newer.value - list[i].at))
  }

  lemma {:induction false} NewerIs(list: seq<Entry>, newer: Option<int>)
    ensures forall j: nat :: NearestSample(list, j, |list|) ==> NewerAfter(list, newer) == Some(list[j].at)
    ensures NoSampleBefore(list, |list|) ==> NewerAfter(list, newer) == newer
  {
    if list != [] {
      var init, n := list[..|list| - 1], |list| - 1;
      NewerIs(init, newer);
      forall j: nat | NearestSample(list, j, |list|) ensures NewerAfter(list, newer) == Some(list[j].at) {
        if j < n {
          assert list[n].category != 0;
          assert NearestSample(init, j, n);
        }
      }
      if NoSampleBefore(list, |list|) {
        assert list[n].category != 0;
        assert NoSampleBefore(init, n);
      }
    }
  }

  /** One of the two cases applies. */
  lemma {:induction false} SomeNewer(list: seq<Entry>, i: nat)
    requires i <= |list|
    ensures NoSampleBefore(list, i) || exists j: nat :: NearestSample(list, j, i)
  {
    if i > 0 {
      var p: nat := i - 1;
      if list[p].category == 0 {
        assert NearestSample(list, p, i);
      } else {
        SomeNewer(list, p);
        if !NoSampleBefore(list, p) {
          var j: nat :| NearestSample(list, j, p);
          assert NearestSample(list, j, i);
        }
      }
    }
  }

  /** Where the nearest sample is depends only on what comes before. */
  lemma SameNearest(a: seq<Entry>, b: seq<Entry>, i: nat)
    requires i <= |a| && i <= |b| && forall k: nat :: k < i ==> a[k] == b[k]
    ensures forall j: nat :: NearestSample(a, j, i) ==> NearestSample(b, j, i) && j < i
    ensures NoSampleBefore(a, i) ==> NoSampleBefore(b, i)
  {
  }

  lemma GapOfPrefix(list: seq<Entry>, init: seq<Entry>, newer: Option<int>, i: nat, gap: Option<int>)
    requires i < |init| && i < |list| && forall k: nat :: k <= i ==> list[k] == init[k]
    requires GapIs(init, newer, i, gap)
    ensures GapIs(list, newer, i, gap)
  {
    hide NearestSample, NoSampleBefore;
    SameNearest(list, init, i);
  }

  lemma LastAnnotation(list: seq<Entry>, init: seq<Entry>, newer: Option<int>)
    requires |list| == |init| + 1 && forall k: nat :: k < |init| ==> list[k] == init[k]
    ensures GapIs(list, newer, |init|, GapFrom(list[|init|], NewerAfter(init, newer)))
  {
    hide NearestSample, NoSampleBefore, NewerAfter;
    NewerIs(init, newer);
    SameNearest(list, init, |init|);
  }

  lemma {:induction false} AnnotationIs(list: seq<Entry>, newer: Option<int>, i: nat)
    requires i < |list|
    ensures Annotate(list, newer)[i].entry == list[i] && GapIs(list, newer, i, Annotate(list, newer)[i].gap)
  {
    hide GapIs, GapFrom, NewerAfter;
    var init, n := list[..|list| - 1], |list| - 1;
    if i < n {
      AnnotationIs(init, newer, i);
      GapOfPrefix(list, init, newer, i, Annotate(init, newer)[i].gap);
    } else {
      LastAnnotation(list, init, newer);
    }
  }

  /** Every entry is shown with its gap. */
  ghost predicate ShownWithGaps(shown: seq<Public>, list: seq<Entry>, newer: Option<int>) {
    && |shown| <= |list|
    && forall i: nat :: i < |shown| ==> shown[i].entry == list[i] && GapIs(list, newer, i, shown[i].gap)
  }

  lemma AnnotateShows(list: seq<Entry>, newer: Option<int>, n: nat)
    requires n <= |list|
    ensures ShownWithGaps(Annotate(list, newer)[..n], list, newer)
  {
    forall i: nat | i < n
      ensures Annotate(list, newer)[..n][i].entry == list[i] && GapIs(list, newer, i, Annotate(list, newer)[..n][i].gap)
    {
      AnnotationIs(list, newer, i);
    }
  }

  /** The categories and limits in plain numbers. */
  lemma Limits()
    ensures SAMPLE == 0 && EVENT == 1 && MAX_ROWID == 9_223_372_036_854_775_807
  {
  }

  // -------------------------------------------------------------------- paging

  type ExportSizes = seq<Public> -> Sizes<Public, Cursor>

  /** The page's entries, given what the two tables still hold. */
  function Candidates(rest: seq<Entry>, newer: Option<int>, limit: nat): seq<Public> {
    Annotate(Take(rest, limit + 1), newer)
  }

  /** `export_capture`: each table is read limit + 1 deep, merged, annotated and packed. */
  method ExportPage(samples: seq<Entry>, events: seq<Entry>, before: Option<Cursor>, limit: nat, maxBytes: nat,
                    sizes: ExportSizes)
    returns (r: Result<Page<Public, Cursor>>, n: nat)
    ensures var rest := Merge(Rows(samples, before), Rows(events, before));
            var newer := if before.Some? then before.value.newer else None;
            var items := Candidates(rest, newer, limit);
            var cursors := CursorsOf(Take(rest, limit + 1), newer);
            && n == Admitted(sizes(items), items, Some(cursors), limit, maxBytes, 0)
            && (n > 0 ==> r == Ok(Draft(items, Some(cursors), n, |rest| > limit || n < |items|)))
            && (n > 0 ==> |r.value.items| == n && ShownWithGaps(r.value.items, Take(rest, limit + 1), newer))
  {
    hide Merge, Rows, Admitted, GapIs;
    var sampleRows, eventRows := Take(Rows(samples, before), limit + 1), Take(Rows(events, before), limit + 1);
    var combined := Merge(sampleRows, eventRows);
    var page := Take(combined, limit + 1);
    TakeMerge(Rows(samples, before), Rows(events, before), limit + 1);
    var newer := if before.Some? then before.value.newer else None;
    ghost var start := newer;
    var items: seq<Public> := [];
    var cursors: seq<Cursor> := [];
    for i := 0 to |page|
      invariant items == Annotate(page[..i], start) && cursors == CursorsOf(page[..i], start)
      invariant newer == NewerAfter(page[..i], start)
    {
      assert page[..i + 1][..i] == page[..i];
      var gap := GapFrom(page[i], newer);
      newer := NextNewer(page[i], newer);
      items, cursors := items + [Public(page[i], gap)], cursors + [Cursor(page[i], newer)];
    }
    assert page[..|page|] == page;
    r, n := PackShared(sizes(items), items, Some(cursors), limit, maxBytes, |combined| > limit);
    AnnotateShows(page, start, n);
  }

  /** Entry k's envelope fits when it opens a page. */
  ghost predicate Opens(list: seq<Entry>, k: nat, limit: nat, maxBytes: nat, sizes: ExportSizes)
    requires k < |list|
  {
    var newer := NewerAfter(list[..k], None);
    var items := Candidates(list[k..], newer, limit);
    Trial(sizes(items), items, Some(CursorsOf(Take(list[k..], limit + 1), newer)), 1) <= maxBytes
  }

  ghost predicate EachFits(list: seq<Entry>, limit: nat, maxBytes: nat, sizes: ExportSizes) {
    forall k: nat :: k < |list| ==> Opens(list, k, limit, maxBytes, sizes)
  }

  lemma PageHasItems(list: seq<Entry>, k: nat, limit: nat, maxBytes: nat, sizes: ExportSizes)
    requires k < |list| && limit >= 1 && Opens(list, k, limit, maxBytes, sizes)
    ensures var newer := NewerAfter(list[..k], None);
            var items := Candidates(list[k..], newer, limit);
            Admitted(sizes(items), items, Some(CursorsOf(Take(list[k..], limit + 1), newer)), limit, maxBytes, 0) > 0
  {
    hide Trial, Admitted;
    var newer := NewerAfter(list[..k], None);
    var items := Candidates(list[k..], newer, limit);
    AdmitsFirst(sizes(items), items, Some(CursorsOf(Take(list[k..], limit + 1), newer)), limit, maxBytes);
  }

  lemma LastCursor(list: seq<Entry>, newer: Option<int>)
    requires list != []
    ensures CursorsOf(list, newer)[|list| - 1] == Cursor(list[|list| - 1], NewerAfter(list, newer))
  {
  }

  lemma Splits(list: seq<Entry>, k: nat, n: nat, m: nat)
    requires n <= m && k + m <= |list|
    ensures list[k..k + m] == list[k..k + n] + list[k + n..k + m]
    ensures list[k..] == list[k..k + n] + list[k + n..]
    ensures list == list[..k] + list[k..]
  {
  }

  /** A page's annotations are the list's own. */
  lemma AnnotatePart(list: seq<Entry>, k: nat, n: nat, m: nat)
    requires 0 < n <= m && k + m <= |list|
    ensures Annotate(list[k..k + m], NewerAfter(list[..k], None))[..n] == Annotate(list, None)[k..k + n]
  {
    hide Annotate, CursorsOf, NewerAfter;
    var newer := NewerAfter(list[..k], None);
    var part, tail, rest := list[k..k + n], list[k + n..k + m], list[k + n..];
    Splits(list, k, n, m);
    AnnotateConcat(list[..k], list[k..], None);
    AnnotateConcat(part, rest, newer);
    AnnotateConcat(part, tail, newer);
    Middle(Annotate(list[..k], None), Annotate(part, newer), Annotate(tail, NewerAfter(part, newer)),
           Annotate(rest, NewerAfter(part, newer)));
  }

  lemma Middle<T>(p: seq<T>, q: seq<T>, r: seq<T>, s: seq<T>)
    ensures (q + r)[..|q|] == q && (p + (q + s))[|p|..|p| + |q|] == q
  {
  }

  /** So is the cursor it ends with. */
  lemma CursorPart(list: seq<Entry>, k: nat, n: nat, m: nat)
    requires 0 < n <= m && k + m <= |list|
    ensures Some(CursorsOf(list[k..k + m], NewerAfter(list[..k], None))[n - 1]) == CursorAt(list, k + n)
  {
    hide Annotate, CursorsOf, NewerAfter;
    var newer := NewerAfter(list[..k], None);
    var part, tail := list[k..k + n], list[k + n..k + m];
    assert list[k..k + m] == part + tail && list[..k + n] == list[..k] + part;
    AnnotateConcat(part, tail, newer);
    AnnotateConcat(list[..k], part, None);
    LastCursor(part, newer);
  }

  /** A page of n items from entry k ends with the cursor of entry k + n, or none at the end. */
  lemma PageAdvances(list: seq<Entry>, k: nat, limit: nat, n: nat)
    requires k < |list| && 0 < n <= limit && n <= |Take(list[k..], limit + 1)|
    ensures var newer := NewerAfter(list[..k], None);
            var items, cursors := Candidates(list[k..], newer, limit), CursorsOf(Take(list[k..], limit + 1), newer);
            var page := Draft(items, Some(cursors), n, |list[k..]| > limit || n < |items|);
            && k + n <= |list| && page.items == Annotate(list, None)[k..k + n]
            && page.next == if k + n == |list| then None else CursorAt(list, k + n)
  {
    hide Annotate, CursorsOf, NewerAfter;
    var m := |Take(list[k..], limit + 1)|;
    assert Take(list[k..], limit + 1) == list[k..k + m];
    AnnotatePart(list, k, n, m);
    CursorPart(list, k, n, m);
  }

  // ------------------------------------------------------------- whole replays

  lemma {:induction false} EntriesKept(list: seq<Entry>, newer: Option<int>, i: nat)
    requires i < |list|
    ensures Annotate(list, newer)[i].entry == list[i] && CursorsOf(list, newer)[i].position == list[i]
  {
    if i < |list| - 1 {
      EntriesKept(list[..|list| - 1], newer, i);
    }
  }

  /** Below a cursor below a cursor is below the first. */
  lemma PassesThrough(e: Entry, x: Entry, last: Entry)
    requires Passes(e, x) && Passes(x, last)
    requires 0 <= e.id && 0 <= x.id <= MAX_ROWID
    requires e.category in {SAMPLE, EVENT} && x.category in {SAMPLE, EVENT} && last.category in {SAMPLE, EVENT}
    ensures Passes(e, last)
  {
  }

  lemma {:induction false} RowsShrink(table: seq<Entry>, before: Option<Cursor>, next: Cursor)
    requires before.Some? ==> forall e :: e in table && Passes(e, next.position) ==> Passes(e, before.value.position)
    ensures |Rows(table, Some(next))| <= |Rows(table, before)|
    ensures next.position in Rows(table, before) ==> |Rows(table, Some(next))| < |Rows(table, before)|
  {
    hide Passes;
    if table != [] {
      var e := table[|table| - 1];
      assert e in table && forall x :: x in table[..|table| - 1] ==> x in table;
      RowsShrink(table[..|table| - 1], before, next);
      assert e == next.position ==> !Passes(e, next.position) by { NotBelowItself(next.position); }
    }
  }

  lemma NotBelowItself(e: Entry)
    ensures !Passes(e, e)
  {
  }

  /** Rows still to be read. */
  ghost function Unread(samples: seq<Entry>, events: seq<Entry>, before: Option<Cursor>): nat {
    |Rows(samples, before)| + |Rows(events, before)|
  }

  ghost predicate OnStore(samples: seq<Entry>, events: seq<Entry>, before: Option<Cursor>) {
    before.Some? ==> before.value.position in samples || before.value.position in events
  }

  lemma UnreadShrinks(samples: seq<Entry>, events: seq<Entry>, before: Option<Cursor>, next: Cursor)
    requires IsStore(samples, events) && OnStore(samples, events, before)
    requires next.position in Rows(samples, before) || next.position in Rows(events, before)
    ensures Unread(samples, events, Some(next)) < Unread(samples, events, before)
    ensures OnStore(samples, events, Some(next))
  {
    hide Rows, Passes;
    RowsFacts(samples, before, SAMPLE);
    RowsFacts(events, before, EVENT);
    if before.Some? {
      forall e | (e in samples || e in events) && Passes(e, next.position) ensures Passes(e, before.value.position) {
        PassesThrough(e, next.position, before.value.position);
      }
    }
    RowsShrink(samples, before, next);
    RowsShrink(events, before, next);
  }

  /** What a page shows and where it ends, in terms of what the query still listed. */
  lemma PageShows(rest: seq<Entry>, newer: Option<int>, limit: nat, n: nat, more: bool)
    requires 0 < n <= |Take(rest, limit + 1)|
    ensures var items, cursors := Candidates(rest, newer, limit), CursorsOf(Take(rest, limit + 1), newer);
            var page := Draft(items, Some(cursors), n, more);
            && (forall p :: p in page.items ==> p.entry in rest)
            && (page.next.Some? ==> page.next.value.position in rest)
  {
    hide Annotate, CursorsOf;
    var list := Take(rest, limit + 1);
    forall i: nat | i < |list| ensures Annotate(list, newer)[i].entry in rest && CursorsOf(list, newer)[i].position in rest {
      EntriesKept(list, newer, i);
      assert list[i] == rest[i];
    }
  }

  /** The replay has shown the first entries of the list and stands after them. */
  ghost predicate OnCourse(list: seq<Entry>, all: seq<Public>, before: Option<Cursor>) {
    |all| <= |list| && all == Annotate(list, None)[..|all|] && before == CursorAt(list, |all|)
  }

  /** A sample has been passed over for good. */
  ghost predicate Missed(samples: seq<Entry>, all: seq<Public>, before: Option<Cursor>, e: Entry) {
    && e in samples && before.Some? && !Passes(e, before.value.position)
    && forall p :: p in all ==> p.entry != e
  }

  lemma MissedForGood(samples: seq<Entry>, events: seq<Entry>, all: seq<Public>, before: Option<Cursor>, e: Entry,
                      page: Page<Public, Cursor>)
    requires IsStore(samples, events) && OnStore(samples, events, before) && Missed(samples, all, before, e)
    requires var rest := Merge(Rows(samples, before), Rows(events, before));
             (forall p :: p in page.items ==> p.entry in rest) && (page.next.Some? ==> page.next.value.position in rest)
    ensures e in samples && forall p :: p in all + page.items ==> p.entry != e
    ensures page.next.Some? ==> Missed(samples, all + page.items, page.next, e)
  {
    hide Rows, Merge, Passes;
    RowsFacts(samples, before, SAMPLE);
    RowsFacts(events, before, EVENT);
    MergeMembers(Rows(samples, before), Rows(events, before));
    if page.next.Some? && Passes(e, page.next.value.position) {
      PassesThrough(e, page.next.value.position, before.value.position);
    }
  }

  /** The first hidden sample is missed: it comes after the entries shown. */
  lemma HiddenIsMissed(samples: seq<Entry>, events: seq<Entry>, k: nat, e: Entry)
    requires IsStore(samples, events) && 0 < k <= |Whole(samples, events)|
    requires e in samples && Hidden(e, Whole(samples, events)[k - 1])
    ensures var list := Whole(samples, events); Missed(samples, Annotate(list, None)[..k], CursorAt(list, k), e)
  {
    hide Merge, Annotate, NewerAfter;
    var list := Whole(samples, events);
    WholeFacts(samples, events);
    SuffixIsBelow(list, k, e);
    forall p | p in Annotate(list, None)[..k] ensures p.entry != e {
      var i: nat :| i < k && Annotate(list, None)[i] == p;
      EntriesKept(list, None, i);
      assert list[i] == list[k - 1] || Less(list[k - 1], list[i]);
    }
  }

  lemma MissedIsIncomplete(samples: seq<Entry>, events: seq<Entry>, all: seq<Public>, e: Entry)
    requires IsStore(samples, events) && e in samples && forall p :: p in all ==> p.entry != e
    ensures all != Annotate(Whole(samples, events), None)
  {
    hide Merge, Annotate;
    var list := Whole(samples, events);
    WholeFacts(samples, events);
    var i: nat :| i < |list| && list[i] == e;
    EntriesKept(list, None, i);
    assert Annotate(list, None)[i] in Annotate(list, None);
  }

  /** How many entries a page that opens with entry k shows. */
  ghost function PageLength(list: seq<Entry>, k: nat, limit: nat, maxBytes: nat, sizes: ExportSizes): (n: nat)
    requires k < |list|
    ensures n <= |list| - k && n <= limit
  {
    var newer := NewerAfter(list[..k], None);
    var items := Candidates(list[k..], newer, limit);
    Admitted(sizes(items), items, Some(CursorsOf(Take(list[k..], limit + 1), newer)), limit, maxBytes, 0)
  }

  /** Where the pages of the list end, from entry k on, but for the last. */
  ghost function PageEnds(list: seq<Entry>, k: nat, limit: nat, maxBytes: nat, sizes: ExportSizes): (ends: seq<nat>)
    requires k <= |list|
    ensures forall e :: e in ends ==> k < e < |list|
    decreases |list| - k
  {
    if k == |list| then []
    else
      var n := PageLength(list, k, limit, maxBytes, sizes);
      if n == 0 || k + n == |list| then [] else [k + n] + PageEnds(list, k + n, limit, maxBytes, sizes)
  }

  /** From entry k on, no page ends with an event that hides a sample. */
  ghost predicate Clean(samples: seq<Entry>, list: seq<Entry>, k: nat, limit: nat, maxBytes: nat, sizes: ExportSizes)
    requires k <= |list|
  {
    forall e :: e in PageEnds(list, k, limit, maxBytes, sizes) ==> !Hides(samples, list[e - 1])
  }

  lemma CleanStep(samples: seq<Entry>, list: seq<Entry>, k: nat, limit: nat, maxBytes: nat, sizes: ExportSizes)
    requires k < |list| && PageLength(list, k, limit, maxBytes, sizes) > 0
    ensures var next := k + PageLength(list, k, limit, maxBytes, sizes);
            Clean(samples, list, k, limit, maxBytes, sizes) <==>
            next == |list| || (!Hides(samples, list[next - 1]) && Clean(samples, list, next, limit, maxBytes, sizes))
  {
    hide Hides, PageLength;
    var next := k + PageLength(list, k, limit, maxBytes, sizes);
    var ends := PageEnds(list, k, limit, maxBytes, sizes);
    if next == |list| {
      assert ends == [];
    } else {
      var rest := PageEnds(list, next, limit, maxBytes, sizes);
      assert ends == [next] + rest;
      assert forall e :: e in ends <==> e == next || e in rest;
      assert next in ends;
    }
  }

  lemma CleanAtEnd(samples: seq<Entry>, list: seq<Entry>, limit: nat, maxBytes: nat, sizes: ExportSizes)
    ensures Clean(samples, list, |list|, limit, maxBytes, sizes)
  {
  }

  /** The next page while on course. */
  lemma PageOnCourse(samples: seq<Entry>, events: seq<Entry>, all: seq<Public>, before: Option<Cursor>,
                     limit: nat, n: nat, page: Page<Public, Cursor>)
    requires IsStore(samples, events) && OnCourse(Whole(samples, events), all, before)
    requires before.Some? ==> !Hides(samples, before.value.position)
    requires var rest := Merge(Rows(samples, before), Rows(events, before));
             var newer := if before.Some? then before.value.newer else None;
             && 0 < n <= limit && n <= |Take(rest, limit + 1)|
             && page == Draft(Candidates(rest, newer, limit), Some(CursorsOf(Take(rest, limit + 1), newer)), n,
                              |rest| > limit || n < |Candidates(rest, newer, limit)|)
    ensures var list := Whole(samples, events);
            && (page.next.Some? ==> OnCourse(list, all + page.items, page.next) && 0 < |all + page.items| < |list|)
            && (page.next.None? ==> all + page.items == Annotate(list, None) && |all| + n == |list|)
            && (page.next.Some? ==> |all + page.items| == |all| + n && page.next.value.position == list[|all| + n - 1])
  {
    hide Merge, Rows, Annotate, CursorsOf, NewerAfter, Draft, Descending, Hides;
    var list, k := Whole(samples, events), |all|;
    ResumesIff(samples, events, k);
    NewerAtCursor(list, k);
    PageAdvances(list, k, limit, n);
    assert page.items == Annotate(list, None)[k..k + n];
    assert Annotate(list, None)[..k] + Annotate(list, None)[k..k + n] == Annotate(list, None)[..k + n];
    assert Annotate(list, None)[..|list|] == Annotate(list, None);
  }

  /** A non-empty page is due while on course. */
  lemma PageIsDue(samples: seq<Entry>, events: seq<Entry>, all: seq<Public>, before: Option<Cursor>,
                  limit: nat, maxBytes: nat, sizes: ExportSizes)
    requires IsStore(samples, events) && OnCourse(Whole(samples, events), all, before) && limit >= 1
    requires before.Some? ==> !Hides(samples, before.value.position)
    requires EachFits(Whole(samples, events), limit, maxBytes, sizes)
    ensures var rest := Merge(Rows(samples, before), Rows(events, before));
            var newer := if before.Some? then before.value.newer else None;
            var items := Candidates(rest, newer, limit);
            |all| < |Whole(samples, events)| ==>
              0 < PageLength(Whole(samples, events), |all|, limit, maxBytes, sizes)
                == Admitted(sizes(items), items, Some(CursorsOf(Take(rest, limit + 1), newer)), limit, maxBytes, 0)
  {
    hide Merge, Rows, Annotate, CursorsOf, NewerAfter, Descending, Hides, Trial, Admitted;
    var list, k := Whole(samples, events), |all|;
    ResumesIff(samples, events, k);
    NewerAtCursor(list, k);
    if k < |list| {
      assert Opens(list, k, limit, maxBytes, sizes);
      PageHasItems(list, k, limit, maxBytes, sizes);
    }
  }

  /** Following `next_cursor` until it is null replays the whole merged window, each entry
      once and with the gap it would have on a single unbounded page, if and only if none of
      the list's pages ends with an event that hides a sample. */
  method ReplayAll(samples: seq<Entry>, events: seq<Entry>, limit: nat, maxBytes: nat, sizes: ExportSizes)
    returns (all: seq<Public>)
    requires IsStore(samples, events) && limit >= 1
    requires EachFits(Whole(samples, events), limit, maxBytes, sizes)
    ensures all == Annotate(Whole(samples, events), None) <==> Clean(samples, Whole(samples, events), 0, limit, maxBytes, sizes)
    ensures (forall e :: e in events ==> !Hides(samples, e)) ==> all == Annotate(Whole(samples, events), None)
    ensures all == Annotate(Whole(samples, events), None) ==>
              |all| == |Whole(samples, events)| && ShownWithGaps(all, Whole(samples, events), None)
  {
    hide Merge, Rows, Admitted, Annotate, CursorsOf, NewerAfter, Draft, Trial, Descending, IsStore, Passes, Hides, Hidden, Whole,
      Clean, EachFits, OnStore, Unread, Candidates, CursorAt, Missed, OnCourse, PageLength, ShownWithGaps;
    ghost var list := Whole(samples, events);
    all := [];
    var before: Option<Cursor> := None;
    ghost var lost: Option<Entry> := None;
    ReplayBegins(samples, events);
    while true
      invariant OnStore(samples, events, before)
      invariant lost.None? ==> OnCourse(list, all, before) && |all| <= |list| && (|all| == |list| ==> list == [])
      invariant lost.None? && before.Some? ==> !Hides(samples, before.value.position)
      invariant lost.None? ==>
                  (Clean(samples, list, 0, limit, maxBytes, sizes) <==> Clean(samples, list, |all|, limit, maxBytes, sizes))
      invariant lost.Some? ==> !Clean(samples, list, 0, limit, maxBytes, sizes) && Missed(samples, all, before, lost.value)
      decreases Unread(samples, events, before)
    {
      ghost var rest := Merge(Rows(samples, before), Rows(events, before));
      ghost var newer := if before.Some? then before.value.newer else None;
      var r, n := ExportPage(samples, events, before, limit, maxBytes, sizes);
      PageSize(rest, newer, limit, maxBytes, sizes);
      if lost.None? {
        PageIsDue(samples, events, all, before, limit, maxBytes, sizes);
        CleanAtEnd(samples, list, limit, maxBytes, sizes);
        if |all| < |list| {
          CleanStep(samples, list, |all|, limit, maxBytes, sizes);
        }
      }
      if n == 0 {
        ReplayStops(samples, events, all, before, lost);
        break;
      }
      PageShows(rest, newer, limit, n, |rest| > limit || n < |Candidates(rest, newer, limit)|);
      var page := r.value;
      if lost.Some? {
        MissedForGood(samples, events, all, before, lost.value, page);
      } else {
        PageOnCourse(samples, events, all, before, limit, n, page);
      }
      all := all + page.items;
      if page.next.None? {
        if lost.Some? {
          MissedIsIncomplete(samples, events, all, lost.value);
        }
        break;
      }
      NextUnread(samples, events, before, page.next.value);
      before := page.next;
      if lost.None? && Hides(samples, before.value.position) {
        lost := NowLost(samples, events, all, before);
      }
    }
    if forall e :: e in events ==> !Hides(samples, e) {
      EventsHide(samples, events, limit, maxBytes, sizes);
    }
    AnnotateShows(list, None, |list|);
    assert Annotate(list, None)[..|list|] == Annotate(list, None);
  }

  /** Only an event can hide a sample. */
  lemma EventsHide(samples: seq<Entry>, events: seq<Entry>, limit: nat, maxBytes: nat, sizes: ExportSizes)
    requires IsStore(samples, events) && forall e :: e in events ==> !Hides(samples, e)
    ensures Clean(samples, Whole(samples, events), 0, limit, maxBytes, sizes)
  {
    hide Merge, PageLength;
    var list := Whole(samples, events);
    WholeFacts(samples, events);
    forall e | e in PageEnds(list, 0, limit, maxBytes, sizes) ensures !Hides(samples, list[e - 1]) {
      assert list[e - 1] in list;
      CategoryOf(samples, events, list[e - 1]);
    }
  }

  /** The sample that a cursor on course has just hidden. */
  ghost function NowLost(samples: seq<Entry>, events: seq<Entry>, all: seq<Public>, before: Option<Cursor>): (lost: Option<Entry>)
    requires IsStore(samples, events) && before.Some? && all != [] && Hides(samples, before.value.position)
    requires OnCourse(Whole(samples, events), all, before)
    ensures lost.Some? && Missed(samples, all, before, lost.value)
  {
    var e :| e in samples && Hidden(e, before.value.position);
    HiddenIsMissed(samples, events, |all|, e);
    Some(e)
  }

  lemma ReplayBegins(samples: seq<Entry>, events: seq<Entry>)
    ensures OnStore(samples, events, None) && OnCourse(Whole(samples, events), [], None)
  {
  }

  lemma PageSize(rest: seq<Entry>, newer: Option<int>, limit: nat, maxBytes: nat, sizes: ExportSizes)
    ensures var items, cursors := Candidates(rest, newer, limit), CursorsOf(Take(rest, limit + 1), newer);
            && |items| == |cursors| == |Take(rest, limit + 1)|
            && Admitted(sizes(items), items, Some(cursors), limit, maxBytes, 0) <= |items|
            && Admitted(sizes(items), items, Some(cursors), limit, maxBytes, 0) <= limit
  {
  }

  lemma NextUnread(samples: seq<Entry>, events: seq<Entry>, before: Option<Cursor>, next: Cursor)
    requires IsStore(samples, events) && OnStore(samples, events, before)
    requires next.position in Merge(Rows(samples, before), Rows(events, before))
    ensures Unread(samples, events, Some(next)) < Unread(samples, events, before)
    ensures OnStore(samples, events, Some(next))
  {
    hide Rows, Merge;
    MergeMembers(Rows(samples, before), Rows(events, before));
    UnreadShrinks(samples, events, before, next);
  }

  /** An empty page ends the replay: on course there was nothing left. */
  lemma ReplayStops(samples: seq<Entry>, events: seq<Entry>, all: seq<Public>, before: Option<Cursor>, lost: Option<Entry>)
    requires IsStore(samples, events)
    requires lost.None? ==> OnCourse(Whole(samples, events), all, before) && |all| >= |Whole(samples, events)|
    requires lost.Some? ==> Missed(samples, all, before, lost.value)
    ensures all == Annotate(Whole(samples, events), None) <==> lost.None?
  {
    hide Merge, Rows, Annotate, NewerAfter, IsStore, Passes, Whole;
    if lost.Some? {
      MissedIsIncomplete(samples, events, all, lost.value);
    } else {
      var whole := Annotate(Whole(samples, events), None);
      assert whole[..|whole|] == whole;
    }
  }

  lemma NewerAtCursor(list: seq<Entry>, k: nat)
    requires k <= |list|
    ensures (if CursorAt(list, k).Some? then CursorAt(list, k).value.newer else None) == NewerAfter(list[..k], None)
  {
  }
}
