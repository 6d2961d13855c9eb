/** Host throughput: rates from consecutive counter observations. */
module Rates {
  import opened Common

  const NSEC: int := 1_000_000_000
  const MAX_INTERVAL_NS: int := 15 * NSEC
  const LOOKBACK_NS: int := 60 * NSEC

  datatype Name = Name(text: string)

  /** One interface or device: its two byte counters and its identity token. */
  datatype Member = Member(first: nat, second: nat, token: string)

  /** A baseline row as the rate loop sees it; malformed member objects are empty. */
  datatype Row = Row(id: nat, at: int, mono: int, boot: string, provider: Option<string>,
                     counter: Option<int>, members: map<Name, Member>)

  /** Which of a member's counters the metric reads. */
  datatype Side = First | Second

  function Pick(m: Member, side: Side): nat {
    if side.First? then m.first else m.second
  }

  // ------------------------------------------------------------------ totals

  ghost function Total(members: map<Name, Member>, names: set<Name>, side: Side): int
    requires names <= members.Keys
    decreases |names|
  {
    if names == {} then 0
    else
      var n :| n in names;
      Pick(members[n], side) + Total(members, names - {n}, side)
  }

  /** The total does not depend on the order of summation. */
  lemma {:induction false} TotalPick(members: map<Name, Member>, names: set<Name>, side: Side, x: Name)
    requires names <= members.Keys && x in names
    ensures Total(members, names, side) == Pick(members[x], side) + Total(members, names - {x}, side)
    decreases |names|
  {
    var n :| n in names && Total(members, names, side) == Pick(members[n], side) + Total(members, names - {n}, side);
    if n != x {
      TotalPick(members, names - {n}, side, x);
      TotalPick(members, names - {x}, side, n);
      assert names - {n} - {x} == names - {x} - {n};
    }
  }

  /** The total adds up the first counters of the members, or their second ones. */
  lemma TotalAdds(members: map<Name, Member>, names: set<Name>, x: Name)
    requires names <= members.Keys && x in names
    ensures Total(members, {}, First) == 0 && Total(members, {}, Second) == 0
    ensures Total(members, names, First) == members[x].first + Total(members, names - {x}, First)
    ensures Total(members, names, Second) == members[x].second + Total(members, names - {x}, Second)
  {
    TotalPick(members, names, First, x);
    TotalPick(members, names, Second, x);
  }

  /** `sum(pair[index] for pair in members.values())`. */
  method SumMembers(members: map<Name, Member>, side: Side) returns (total: int)
    ensures total == Total(members, members.Keys, side)
  {
    total := 0;
    var todo := members.Keys;
    while todo != {}
      invariant todo <= members.Keys
      invariant total + Total(members, todo, side) == Total(members, members.Keys, side)
      decreases |todo|
    {
      var n :| n in todo;
      TotalPick(members, todo, side, n);
      total := total + Pick(members[n], side);
      todo := todo - {n};
    }
  }

  ghost function Delta(before: map<Name, Member>, now: map<Name, Member>, names: set<Name>, side: Side): int
    requires names <= now.Keys && names <= before.Keys
  {
    Total(now, names, side) - Total(before, names, side)
  }

  /** `sum(members[name][index] - old_members[name][index] for name in members)`. */
  method SumDeltas(before: map<Name, Member>, now: map<Name, Member>, side: Side) returns (delta: int)
    requires before.Keys == now.Keys
    ensures delta == Delta(before, now, now.Keys, side)
  {
    delta := 0;
    var todo := now.Keys;
    while todo != {}
      invariant todo <= now.Keys
      invariant delta + Delta(before, now, todo, side) == Delta(before, now, now.Keys, side)
      decreases |todo|
    {
      var n :| n in todo;
      TotalPick(now, todo, side, n);
      TotalPick(before, todo, side, n);
      delta := delta + Pick(now[n], side) - Pick(before[n], side);
      todo := todo - {n};
    }
  }

  lemma {:induction false} DeltaNonNegative(before: map<Name, Member>, now: map<Name, Member>, names: set<Name>, side: Side)
    requires names <= now.Keys && names <= before.Keys
    requires forall n :: n in names ==> Pick(now[n], side) >= Pick(before[n], side)
    ensures Delta(before, now, names, side) >= 0
    decreases |names|
  {
    if names != {} {
      var n :| n in names;
      TotalPick(now, names, side, n);
      TotalPick(before, names, side, n);
      DeltaNonNegative(before, now, names - {n}, side);
    }
  }

  // ------------------------------------------------------------------- rates

  /** The row is a counter observation at all. */
  ghost predicate Usable(r: Row, side: Side) {
    && r.provider.Some? && r.provider.value != ""
    && r.counter.Some? && r.counter.value >= 0
    && r.members != map[] && r.counter.value == Total(r.members, r.members.Keys, side)
  }

  /** The same members continued counting on the same boot, at most 15 seconds apart. */
  predicate Continues(prev: Row, next: Row) {
    && next.boot == prev.boot && next.provider == prev.provider
    && 0 < next.mono - prev.mono <= MAX_INTERVAL_NS
    && next.members.Keys == prev.members.Keys
    && forall n :: n in next.members ==>
         && next.members[n].token == prev.members[n].token
         && next.members[n].first >= prev.members[n].first
         && next.members[n].second >= prev.members[n].second
  }

  ghost function Rate(prev: Row, next: Row, side: Side): Option<real> {
    if Continues(prev, next)
    then Some((Delta(prev.members, next.members, next.members.Keys, side) * NSEC) as real / (next.mono - prev.mono) as real)
    else None
  }

  /** The rate a row gets in a listing: only its direct predecessor matters. */
  ghost function RateAt(rows: seq<Row>, i: nat, side: Side): Option<real>
    requires i < |rows|
  {
    if i > 0 && Usable(rows[i - 1], side) then Rate(rows[i - 1], rows[i], side) else None
  }

  method CheckUsable(r: Row, side: Side) returns (ok: bool)
    ensures ok == Usable(r, side)
  {
    var total := SumMembers(r.members, side);
    ok := r.provider.Some? && r.provider.value != "" && r.counter.Some? && r.counter.value >= 0
          && r.members != map[] && r.counter.value == total;
  }

  ghost predicate DistinctIds(rows: seq<Row>) {
    forall i, j :: 0 <= i < j < |rows| ==> rows[i].id != rows[j].id
  }

  /** `_host_rates`: one pass with the previous observation in hand. */
  method HostRates(rows: seq<Row>, side: Side) returns (rates: map<nat, Option<real>>)
    requires DistinctIds(rows)
    ensures forall i :: 0 <= i < |rows| ==> (rows[i].id in rates <==> Usable(rows[i], side))
    ensures forall i :: 0 <= i < |rows| && rows[i].id in rates ==> rates[rows[i].id] == RateAt(rows, i, side)
  {
    hide Usable, Continues, Rate, RateAt;
    rates := map[];
    var previous: Option<Row> := None;
    for k := 0 to |rows|
      invariant forall i :: k <= i < |rows| ==> rows[i].id !in rates
      invariant forall i :: 0 <= i < k ==> (rows[i].id in rates <==> Usable(rows[i], side))
      invariant forall i :: 0 <= i < k && rows[i].id in rates ==> rates[rows[i].id] == RateAt(rows, i, side)
      invariant previous == if k > 0 && Usable(rows[k - 1], side) then Some(rows[k - 1]) else None
    {
      var row := rows[k];
      var usable := CheckUsable(row, side);
      if !usable {
        previous := None;
      } else {
        var value: Option<real> := None;
        if previous.Some? {
          value := RateOf(previous.value, row, side);
        }
        assert value == RateAt(rows, k, side) by { RateFrom(rows, k, side); }
        rates := rates[row.id := value];
        previous := Some(row);
      }
    }
  }

  lemma RateFrom(rows: seq<Row>, k: nat, side: Side)
    requires k < |rows|
    ensures RateAt(rows, k, side) ==
            if k > 0 && Usable(rows[k - 1], side) then Rate(rows[k - 1], rows[k], side) else None
  {
  }

  method RateOf(prev: Row, next: Row, side: Side) returns (value: Option<real>)
    ensures value == Rate(prev, next, side)
  {
    value := None;
    if Continues(prev, next) {
      var delta := SumDeltas(prev.members, next.members, side);
      value := Some((delta * NSEC) as real / (next.mono - prev.mono) as real);
    }
  }

  // -------------------------------------------------------------- properties

  /** A row has a rate exactly if its direct predecessor is usable, of the same boot and
      provider and at most fifteen seconds before it, and has the same members, by name and
      identity token, none of whose counters has fallen since. */
  lemma RateIff(rows: seq<Row>, i: nat, side: Side)
    requires i < |rows|
    ensures RateAt(rows, i, side).Some? <==>
              && i > 0 && Usable(rows[i - 1], side)
              && rows[i].boot == rows[i - 1].boot && rows[i].provider == rows[i - 1].provider
              && rows[i - 1].mono < rows[i].mono <= rows[i - 1].mono + 15_000_000_000
              && rows[i].members.Keys == rows[i - 1].members.Keys
              && forall n :: n in rows[i].members ==> SameMember(rows[i - 1].members[n], rows[i].members[n])
  {
  }

  ghost predicate SameMember(before: Member, now: Member) {
    now.token == before.token && now.first >= before.first && now.second >= before.second
  }

  lemma RateIsNonNegative(rows: seq<Row>, i: nat, side: Side)
    requires i < |rows| && RateAt(rows, i, side).Some?
    ensures RateAt(rows, i, side).value >= 0.0
  {
    var prev, next := rows[i - 1], rows[i];
    DeltaNonNegative(prev.members, next.members, next.members.Keys, side);
    var delta := Delta(prev.members, next.members, next.members.Keys, side);
    Quotient((delta * NSEC) as real, (next.mono - prev.mono) as real);
  }

  lemma Quotient(a: real, b: real)
    requires b > 0.0
    ensures a / b * b == a && (a >= 0.0 ==> a / b >= 0.0)
  {
  }

  /** Bytes implied by the rates of rows i+1..j, in byte-nanoseconds per second. */
  ghost function Traffic(rows: seq<Row>, i: nat, j: nat, side: Side): real
    requires i <= j < |rows| && forall k :: i < k <= j ==> RateAt(rows, k, side).Some?
    decreases j
  {
    if i == j then 0.0
    else Traffic(rows, i, j - 1, side) + RateAt(rows, j, side).value * (rows[j].mono - rows[j - 1].mono) as real
  }

  lemma RateTimesInterval(rows: seq<Row>, j: nat, side: Side)
    requires 0 < j < |rows| && RateAt(rows, j, side).Some? && Usable(rows[j], side)
    ensures RateAt(rows, j, side).value * (rows[j].mono - rows[j - 1].mono) as real
            == ((rows[j].counter.value - rows[j - 1].counter.value) * 1_000_000_000) as real
  {
    var prev, next := rows[j - 1], rows[j];
    var delta := Delta(prev.members, next.members, next.members.Keys, side);
    assert delta == next.counter.value - prev.counter.value;
    Quotient((delta * NSEC) as real, (next.mono - prev.mono) as real);
  }

  /** Over a stretch of consecutive rates, rate times interval adds up to the counter's growth. */
  lemma {:induction false} RatesTelescope(rows: seq<Row>, i: nat, j: nat, side: Side)
    requires i <= j < |rows| && Usable(rows[i], side) && Usable(rows[j], side)
    requires forall k :: i <= k <= j ==> Usable(rows[k], side)
    requires forall k :: i < k <= j ==> RateAt(rows, k, side).Some?
    ensures Traffic(rows, i, j, side) == ((rows[j].counter.value - rows[i].counter.value) * 1_000_000_000) as real
    decreases j
  {
    hide Rate, RateAt, Usable;
    if i < j {
      RatesTelescope(rows, i, j - 1, side);
      RateTimesInterval(rows, j, side);
    }
  }

  /** A wall-clock gap beyond the lookback comes with a new boot or a monotonic gap. */
  ghost predicate GapsAreReal(rows: seq<Row>) {
    forall i :: 0 < i < |rows| && rows[i].at - rows[i - 1].at > LOOKBACK_NS ==>
      rows[i].boot != rows[i - 1].boot || rows[i].mono - rows[i - 1].mono > MAX_INTERVAL_NS
  }

  /** Listing only rows p up to q changes the rate of row i if and only if i is the first row
      kept and it had a rate across the cut. */
  lemma CutKeepsRateIff(rows: seq<Row>, p: nat, q: nat, i: nat, side: Side)
    requires p <= i < q <= |rows|
    ensures RateAt(rows[p..q], i - p, side) == RateAt(rows, i, side) <==>
            !(i == p && p > 0 && Usable(rows[p - 1], side) && Continues(rows[p - 1], rows[p]))
  {
  }

  /** `max(0, query_start - 60 s)`. */
  function ReadStart(queryStart: int): int {
    if queryStart < LOOKBACK_NS then 0 else queryStart - LOOKBACK_NS
  }

  /** The rows a page reads of the window: from its lookback to its end. */
  ghost predicate IsPage(rows: seq<Row>, queryStart: int, queryEnd: int, p: nat, q: nat) {
    && p <= q <= |rows|
    && (forall k :: 0 <= k < p ==> rows[k].at < ReadStart(queryStart))
    && (forall k :: p <= k < q ==> ReadStart(queryStart) <= rows[k].at < queryEnd)
    && (forall k :: q <= k < |rows| ==> rows[k].at >= queryEnd)
  }

  /** Rates on a page with its 60-second lookback, cut off at its end, are the rates of the
      whole window. */
  lemma PageRatesAreWindowRates(rows: seq<Row>, queryStart: int, queryEnd: int, p: nat, q: nat, i: nat, side: Side)
    requires GapsAreReal(rows) && forall k :: 0 <= k < |rows| ==> rows[k].at >= 0
    requires IsPage(rows, queryStart, queryEnd, p, q)
    requires i < |rows| && queryStart <= rows[i].at < queryEnd
    ensures p <= i < q && RateAt(rows[p..q], i - p, side) == RateAt(rows, i, side)
  {
    assert p <= i < q;
    CutKeepsRateIff(rows, p, q, i, side);
    if i == p && p > 0 {
      assert rows[p].at - rows[p - 1].at > LOOKBACK_NS;
    }
  }
}
