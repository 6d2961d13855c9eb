/** Retention for the append-only backup copy: which snapshots a maintenance run forgets,
    and why its own deletions never raise the loss alarm. */
module Retention {
  import opened Common

  const DAY: int := 86_400
  const MIN_DAYS: int := 7
  const KEEP_LAST: nat := 3
  const TOTAL_TRIP_MIN: int := 10
  const CHECK_BUCKETS: nat := 12

  datatype Source = Source(name: string)

  /** `source` is absent unless the tags name exactly one; fixed-width hex ids compare as numbers. */
  datatype Snapshot = Snapshot(id: nat, time: int, source: Option<Source>, full: bool)

  datatype Policy = Policy(defaultDays: int, windows: map<Source, int>)

  function Max(a: int, b: int): int { if a > b then a else b }

  function Window(policy: Policy, source: Source): int {
    if source in policy.windows then Max(MIN_DAYS, policy.windows[source]) else Max(MIN_DAYS, policy.defaultDays)
  }

  function Cutoff(policy: Policy, source: Source, now: int): int {
    now - Window(policy, source) * DAY
  }

  /** Tuple order on (time, id). */
  predicate Newer(a: Snapshot, b: Snapshot) {
    a.time > b.time || (a.time == b.time && a.id > b.id)
  }

  ghost predicate DistinctIds(snaps: seq<Snapshot>) {
    forall i, j :: 0 <= i < j < |snaps| ==> snaps[i].id != snaps[j].id
  }

  ghost predicate NewestFirst(list: seq<Snapshot>) {
    forall i, j :: 0 <= i < j < |list| ==> Newer(list[i], list[j])
  }

  // --------------------------------------------------------- grouping, sorting

  function Group(snaps: seq<Snapshot>, source: Source): seq<Snapshot> {
    if snaps == [] then []
    else
      var rest := Group(snaps[..|snaps| - 1], source);
      if snaps[|snaps| - 1].source == Some(source) then rest + [snaps[|snaps| - 1]] else rest
  }

  lemma {:induction false} GroupMembers(snaps: seq<Snapshot>, source: Source)
    ensures forall s :: s in Group(snaps, source) <==> s in snaps && s.source == Some(source)
  {
    if snaps != [] {
      GroupMembers(snaps[..|snaps| - 1], source);
      assert snaps == snaps[..|snaps| - 1] + [snaps[|snaps| - 1]];
    }
  }

  lemma {:induction false} GroupDistinct(snaps: seq<Snapshot>, source: Source)
    requires DistinctIds(snaps)
    ensures DistinctIds(Group(snaps, source))
  {
    if snaps != [] {
      var init, last := snaps[..|snaps| - 1], snaps[|snaps| - 1];
      GroupDistinct(init, source);
      GroupMembers(init, source);
      var rest := Group(init, source);
      forall k | 0 <= k < |rest| ensures rest[k].id != last.id {
        assert rest[k] in init;
      }
    }
  }

  function Insert(list: seq<Snapshot>, s: Snapshot): (out: seq<Snapshot>)
    ensures forall x :: x in out <==> x == s || x in list
  {
    if list == [] || Newer(s, list[0]) then [s] + list
    else
      assert list == [list[0]] + list[1..];
      [list[0]] + Insert(list[1..], s)
  }

  /** `sorted(items, reverse=True)`. */
  function Sort(snaps: seq<Snapshot>): (out: seq<Snapshot>)
    ensures forall x :: x in out <==> x in snaps
  {
    if snaps == [] then []
    else
      assert snaps == snaps[..|snaps| - 1] + [snaps[|snaps| - 1]];
      Insert(Sort(snaps[..|snaps| - 1]), snaps[|snaps| - 1])
  }

  lemma {:induction false} InsertKeepsOrder(list: seq<Snapshot>, s: Snapshot)
    requires NewestFirst(list) && forall x :: x in list ==> x.id != s.id
    ensures NewestFirst(Insert(list, s))
  {
    if list != [] && !Newer(s, list[0]) {
      InsertKeepsOrder(list[1..], s);
      var tail := Insert(list[1..], s);
      assert list[0] in list;
      forall j | 0 <= j < |tail| ensures Newer(list[0], tail[j]) {
        assert tail[j] in tail;
      }
    }
  }

  lemma {:induction false} SortIsNewestFirst(snaps: seq<Snapshot>)
    requires DistinctIds(snaps)
    ensures NewestFirst(Sort(snaps))
  {
    if snaps != [] {
      var init, last := snaps[..|snaps| - 1], snaps[|snaps| - 1];
      SortIsNewestFirst(init);
      forall x | x in Sort(init) ensures x.id != last.id {
        assert x in init;
      }
      InsertKeepsOrder(Sort(init), last);
    }
  }

  lemma {:induction false} NewestFirstUnique(a: seq<Snapshot>, b: seq<Snapshot>)
    requires NewestFirst(a) && NewestFirst(b) && forall s :: s in a <==> s in b
    ensures a == b
  {
    assert a != [] ==> a[0] in b;
    assert b != [] ==> b[0] in a;
    if a != [] {
      var i :| 0 <= i < |b| && b[i] == a[0];
      var j :| 0 <= j < |a| && a[j] == b[0];
      assert a[0] == b[0];
      var a', b' := a[1..], b[1..];
      assert a == [a[0]] + a' && b == [b[0]] + b';
      forall s ensures s in a' <==> s in b' {
        assert s in a' ==> s in b && Newer(a[0], s);
        assert s in b' ==> s in a && Newer(b[0], s);
      }
      NewestFirstUnique(a', b');
    }
  }

  /** A source's snapshots, newest first. */
  function Ordered(snaps: seq<Snapshot>, source: Source): seq<Snapshot> {
    Sort(Group(snaps, source))
  }

  lemma OrderedFacts(snaps: seq<Snapshot>, source: Source)
    requires DistinctIds(snaps)
    ensures NewestFirst(Ordered(snaps, source))
    ensures forall s :: s in Ordered(snaps, source) <==> s in snaps && s.source == Some(source)
  {
    GroupDistinct(snaps, source);
    GroupMembers(snaps, source);
    SortIsNewestFirst(Group(snaps, source));
  }

  // ------------------------------------------------------------ what is kept

  /** The survivors of a newest-first list: `position` and `seenFull` describe what came before. */
  function Survivors(list: seq<Snapshot>, position: nat, seenFull: bool, cutoff: int): seq<Snapshot> {
    if list == [] then []
    else
      var s := list[0];
      var rest := Survivors(list[1..], position + 1, seenFull || s.full, cutoff);
      if position < KEEP_LAST || s.time >= cutoff || (s.full && !seenFull) then [s] + rest else rest
  }

  /** Pruning at an earlier cutoff first changes nothing about a later one. */
  lemma {:induction false} SurvivorsCompose(list: seq<Snapshot>, p: nat, q: nat, seenFull: bool, c1: int, c2: int)
    requires c1 <= c2 && (p == q || (p >= KEEP_LAST && q >= KEEP_LAST))
    ensures Survivors(Survivors(list, p, seenFull, c1), q, seenFull, c2) == Survivors(list, p, seenFull, c2)
    decreases list
  {
    if list != [] {
      var s := list[0];
      var rest := Survivors(list[1..], p + 1, seenFull || s.full, c1);
      if p < KEEP_LAST || s.time >= c1 || (s.full && !seenFull) {
        assert ([s] + rest)[0] == s && ([s] + rest)[1..] == rest;
        SurvivorsCompose(list[1..], p + 1, q + 1, seenFull || s.full, c1, c2);
      } else {
        SurvivorsCompose(list[1..], p + 1, q, seenFull || s.full, c1, c2);
      }
    }
  }

  lemma {:induction false} SurvivorsShrink(list: seq<Snapshot>, p: nat, seenFull: bool, cutoff: int)
    requires NewestFirst(list)
    ensures NewestFirst(Survivors(list, p, seenFull, cutoff))
    ensures forall s :: s in Survivors(list, p, seenFull, cutoff) ==> s in list
  {
    if list != [] {
      SurvivorsShrink(list[1..], p + 1, seenFull || list[0].full, cutoff);
      var rest := Survivors(list[1..], p + 1, seenFull || list[0].full, cutoff);
      assert list == [list[0]] + list[1..];
      forall k | 0 <= k < |rest| ensures Newer(list[0], rest[k]) {
        assert rest[k] in list[1..];
      }
    }
  }

  /** Exactly which positions survive: the first three, those inside the window, and the
      newest full-history point. */
  lemma {:induction false} SurvivesIff(list: seq<Snapshot>, p: nat, seenFull: bool, cutoff: int, i: nat)
    requires NewestFirst(list) && i < |list|
    ensures list[i] in Survivors(list, p, seenFull, cutoff) <==>
            || p + i < KEEP_LAST
            || list[i].time >= cutoff
            || (list[i].full && !seenFull && forall j :: 0 <= j < i ==> !list[j].full)
    decreases list
  {
    var s, tail := list[0], list[1..];
    var rest := Survivors(tail, p + 1, seenFull || s.full, cutoff);
    SurvivorsShrink(tail, p + 1, seenFull || s.full, cutoff);
    assert forall k :: 0 <= k < |tail| ==> tail[k] == list[k + 1] && Newer(s, tail[k]);
    assert s !in rest;
    if i > 0 {
      assert tail[i - 1] == list[i] && list[i] != s;
      assert forall j :: 0 < j < i ==> list[j] == tail[j - 1];
      SurvivesIff(tail, p + 1, seenFull || s.full, cutoff, i - 1);
      if forall j :: 0 <= j < i ==> !list[j].full {
        assert !list[0].full;
        assert forall j :: 0 <= j < i - 1 ==> tail[j] == list[j + 1];
      }
    }
  }

  ghost predicate Kept(snaps: seq<Snapshot>, policy: Policy, now: int, s: Snapshot) {
    s.source.None? ||
    s in Survivors(Ordered(snaps, s.source.value), 0, false, Cutoff(policy, s.source.value, now))
  }

  // ----------------------------------------------------------------- the plan

  ghost predicate IsPlan(snaps: seq<Snapshot>, policy: Policy, now: int, delete: set<nat>) {
    && (forall id :: id in delete ==> exists s :: s in snaps && s.id == id)
    && forall s :: s in snaps ==> (s.id in delete <==> !Kept(snaps, policy, now, s))
  }

  /** What a repository holds after forgetting some ids. */
  function Forget(snaps: seq<Snapshot>, delete: set<nat>): seq<Snapshot> {
    if snaps == [] then []
    else
      var rest := Forget(snaps[..|snaps| - 1], delete);
      if snaps[|snaps| - 1].id in delete then rest else rest + [snaps[|snaps| - 1]]
  }

  lemma {:induction false} ForgetMembers(snaps: seq<Snapshot>, delete: set<nat>)
    ensures forall s :: s in Forget(snaps, delete) <==> s in snaps && s.id !in delete
  {
    if snaps != [] {
      ForgetMembers(snaps[..|snaps| - 1], delete);
      assert snaps == snaps[..|snaps| - 1] + [snaps[|snaps| - 1]];
    }
  }

  lemma {:induction false} ForgetDistinct(snaps: seq<Snapshot>, delete: set<nat>)
    requires DistinctIds(snaps)
    ensures DistinctIds(Forget(snaps, delete))
  {
    if snaps != [] {
      var init, last := snaps[..|snaps| - 1], snaps[|snaps| - 1];
      ForgetDistinct(init, delete);
      ForgetMembers(init, delete);
      var rest := Forget(init, delete);
      forall k | 0 <= k < |rest| ensures rest[k].id != last.id {
        assert rest[k] in init;
      }
    }
  }

  /** After a plan, each source holds the survivors of its list. */
  lemma OrderedAfterPlan(snaps: seq<Snapshot>, policy: Policy, now: int, delete: set<nat>, source: Source)
    requires DistinctIds(snaps) && IsPlan(snaps, policy, now, delete)
    ensures Ordered(Forget(snaps, delete), source)
            == Survivors(Ordered(snaps, source), 0, false, Cutoff(policy, source, now))
  {
    hide Ordered, Survivors, Forget, DistinctIds, NewestFirst;
    ForgetDistinct(snaps, delete);
    ForgetMembers(snaps, delete);
    OrderedFacts(snaps, source);
    OrderedFacts(Forget(snaps, delete), source);
    SurvivorsShrink(Ordered(snaps, source), 0, false, Cutoff(policy, source, now));
    NewestFirstUnique(Ordered(Forget(snaps, delete), source),
                      Survivors(Ordered(snaps, source), 0, false, Cutoff(policy, source, now)));
  }

  /** Retaining at t1 and then at t2 leaves what retaining at t2 alone leaves. */
  lemma RetentionComposes(snaps: seq<Snapshot>, policy: Policy, t1: int, t2: int,
                          delete1: set<nat>, delete12: set<nat>, delete2: set<nat>, s: Snapshot)
    requires DistinctIds(snaps) && t1 <= t2
    requires IsPlan(snaps, policy, t1, delete1) && IsPlan(Forget(snaps, delete1), policy, t2, delete12)
    requires IsPlan(snaps, policy, t2, delete2)
    ensures s in Forget(Forget(snaps, delete1), delete12) <==> s in Forget(snaps, delete2)
  {
    hide Ordered, Survivors, Forget, DistinctIds, Cutoff;
    ForgetMembers(snaps, delete1);
    ForgetMembers(Forget(snaps, delete1), delete12);
    ForgetMembers(snaps, delete2);
    if s.source.Some? && s in snaps {
      var source := s.source.value;
      var list := Ordered(snaps, source);
      OrderedAfterPlan(snaps, policy, t1, delete1, source);
      CutoffMonotone(policy, source, t1, t2);
      var c1, c2 := Cutoff(policy, source, t1), Cutoff(policy, source, t2);
      SurvivorsCompose(list, 0, 0, false, c1, c2);
      OrderedFacts(snaps, source);
      SurvivorsNested(list, c1, c2);
    }
  }

  lemma CutoffMonotone(policy: Policy, source: Source, t1: int, t2: int)
    requires t1 <= t2
    ensures Cutoff(policy, source, t1) <= Cutoff(policy, source, t2)
  {
  }

  lemma SurvivorsNested(list: seq<Snapshot>, c1: int, c2: int)
    requires NewestFirst(list) && c1 <= c2
    ensures forall s :: s in Survivors(list, 0, false, c2) ==> s in Survivors(list, 0, false, c1)
  {
    SurvivorsCompose(list, 0, 0, false, c1, c2);
    SurvivorsShrink(list, 0, false, c1);
    SurvivorsShrink(Survivors(list, 0, false, c1), 0, false, c2);
  }

  /** Every source keeps its newest three and its newest full-history point. */
  lemma AlwaysKept(snaps: seq<Snapshot>, policy: Policy, now: int, delete: set<nat>, source: Source, i: nat)
    requires DistinctIds(snaps) && IsPlan(snaps, policy, now, delete)
    requires i < |Ordered(snaps, source)|
    requires i < KEEP_LAST ||
             (Ordered(snaps, source)[i].full && forall j :: 0 <= j < i ==> !Ordered(snaps, source)[j].full)
    ensures Ordered(snaps, source)[i] in Forget(snaps, delete)
  {
    var list := Ordered(snaps, source);
    OrderedFacts(snaps, source);
    assert list[i] in list;
    SurvivesIff(list, 0, false, Cutoff(policy, source, now), i);
    ForgetMembers(snaps, delete);
  }

  // ------------------------------------------------------- computing the plan

  /** The newest full-history snapshot, kept by pairwise maximum. */
  function NewestFull(snaps: seq<Snapshot>): Option<Snapshot> {
    if snaps == [] then None
    else
      var rest, last := NewestFull(snaps[..|snaps| - 1]), snaps[|snaps| - 1];
      if !last.full then rest
      else if rest.None? || Newer(last, rest.value) then Some(last) else rest
  }

  lemma {:induction false} NewestFullIs(snaps: seq<Snapshot>)
    requires DistinctIds(snaps)
    ensures NewestFull(snaps).None? ==> forall s :: s in snaps ==> !s.full
    ensures NewestFull(snaps).Some? ==>
              var m := NewestFull(snaps).value;
              m in snaps && m.full && forall s :: s in snaps && s.full && s != m ==> Newer(m, s)
  {
    if snaps != [] {
      var init, last := snaps[..|snaps| - 1], snaps[|snaps| - 1];
      assert snaps == init + [last];
      NewestFullIs(init);
      assert forall s :: s in init ==> s.id != last.id;
    }
  }

  function Lookup(groups: map<Source, seq<Snapshot>>, source: Source): seq<Snapshot> {
    if source in groups then groups[source] else []
  }

  function FullOf(full: map<Source, Snapshot>, source: Source): Option<Snapshot> {
    if source in full then Some(full[source]) else None
  }

  /** The first loop of `plan_retention`. */
  method BuildGroups(snaps: seq<Snapshot>) returns (groups: map<Source, seq<Snapshot>>, full: map<Source, Snapshot>)
    ensures forall source :: Lookup(groups, source) == Group(snaps, source)
    ensures forall source :: FullOf(full, source) == NewestFull(Group(snaps, source))
  {
    groups, full := map[], map[];
    for k := 0 to |snaps|
      invariant forall source :: Lookup(groups, source) == Group(snaps[..k], source)
      invariant forall source :: FullOf(full, source) == NewestFull(Group(snaps[..k], source))
    {
      var s := snaps[k];
      ghost var groups0, full0 := groups, full;
      assert snaps[..k + 1][..k] == snaps[..k];
      if s.source.Some? {
        var source := s.source.value;
        groups := groups[source := Lookup(groups, source) + [s]];
        if s.full && (source !in full || Newer(s, full[source])) {
          full := full[source := s];
        }
      }
      forall source
        ensures Lookup(groups, source) == Group(snaps[..k + 1], source)
        ensures FullOf(full, source) == NewestFull(Group(snaps[..k + 1], source))
      {
        assert Lookup(groups0, source) == Group(snaps[..k], source);
        assert FullOf(full0, source) == NewestFull(Group(snaps[..k], source));
        var group := Group(snaps[..k], source);
        assert (group + [s])[..|group|] == group;
      }
    }
    assert snaps[..|snaps|] == snaps;
  }

  ghost predicate Condemned(list: seq<Snapshot>, cutoff: int, newestFull: Option<Snapshot>, i: nat)
    requires i < |list|
  {
    i >= KEEP_LAST && list[i].time < cutoff && (newestFull.None? || list[i].id != newestFull.value.id)
  }

  ghost predicate AreRemovals(removed: set<nat>, list: seq<Snapshot>, cutoff: int, newestFull: Option<Snapshot>) {
    forall id :: id in removed <==>
      (exists i: nat :: i < |list| && list[i].id == id && Condemned(list, cutoff, newestFull, i))
  }

  /** One source's removals, from its sorted list. */
  method Removals(list: seq<Snapshot>, cutoff: int, newestFull: Option<Snapshot>) returns (removed: set<nat>)
    ensures AreRemovals(removed, list, cutoff, newestFull)
  {
    removed := {};
    for i := 0 to |list|
      invariant forall id :: id in removed <==> exists k: nat :: k < i && list[k].id == id && Condemned(list, cutoff, newestFull, k)
    {
      if i >= KEEP_LAST && list[i].time < cutoff && (newestFull.None? || list[i].id != newestFull.value.id) {
        assert Condemned(list, cutoff, newestFull, i);
        removed := removed + {list[i].id};
      }
    }
  }

  /** The removals of a source are exactly the non-survivors of its list. */
  lemma CondemnedIff(snaps: seq<Snapshot>, source: Source, cutoff: int, i: nat)
    requires DistinctIds(snaps) && i < |Ordered(snaps, source)|
    ensures Condemned(Ordered(snaps, source), cutoff, NewestFull(Group(snaps, source)), i) <==>
            Ordered(snaps, source)[i] !in Survivors(Ordered(snaps, source), 0, false, cutoff)
  {
    hide Survivors, Sort, Group, NewestFull;
    var list, group := Ordered(snaps, source), Group(snaps, source);
    GroupDistinct(snaps, source);
    GroupMembers(snaps, source);
    NewestFullIs(group);
    OrderedFacts(snaps, source);
    SurvivesIff(list, 0, false, cutoff, i);
    assert list[i] in list;
    assert forall k :: 0 <= k < |list| ==> list[k] in list;
    if NewestFull(group).Some? {
      var m := NewestFull(group).value;
      assert m in list;
      var k :| 0 <= k < |list| && list[k] == m;
      FirstFull(list, k, i);
      SameIdSame(snaps, list[i], m);
    }
  }

  lemma FirstFull(list: seq<Snapshot>, k: nat, i: nat)
    requires NewestFirst(list) && k < |list| && i < |list| && list[k].full
    requires forall s :: s in list && s.full && s != list[k] ==> Newer(list[k], s)
    ensures (list[i].full && forall j :: 0 <= j < i ==> !list[j].full) <==> list[i] == list[k]
  {
    assert forall j :: 0 <= j < |list| ==> list[j] in list;
    if i < k {
      assert Newer(list[i], list[k]);
    } else if k < i {
      assert Newer(list[k], list[i]);
    }
  }

  lemma SameIdSame(snaps: seq<Snapshot>, a: Snapshot, b: Snapshot)
    requires DistinctIds(snaps) && a in snaps && b in snaps
    ensures a.id == b.id <==> a == b
  {
  }

  /** The deletions are right for one source. */
  ghost predicate Settled(snaps: seq<Snapshot>, policy: Policy, now: int, delete: set<nat>, source: Source) {
    forall s :: s in snaps && s.source == Some(source) ==> (s.id in delete <==> !Kept(snaps, policy, now, s))
  }

  /** Every id set for deletion belongs to a snapshot of one of the given sources. */
  ghost predicate FromSources(snaps: seq<Snapshot>, delete: set<nat>, sources: set<Source>) {
    forall id :: id in delete ==> exists s :: s in snaps && s.id == id && s.source.Some? && s.source.value in sources
  }

  lemma RemovalsSettle(snaps: seq<Snapshot>, policy: Policy, now: int, source: Source, removed: set<nat>)
    requires DistinctIds(snaps)
    requires AreRemovals(removed, Ordered(snaps, source), Cutoff(policy, source, now), NewestFull(Group(snaps, source)))
    ensures Settled(snaps, policy, now, removed, source) && FromSources(snaps, removed, {source})
  {
    hide Survivors, Ordered, Condemned, NewestFull, Group;
    var list, cutoff := Ordered(snaps, source), Cutoff(policy, source, now);
    OrderedFacts(snaps, source);
    forall s | s in snaps && s.source == Some(source) ensures s.id in removed <==> !Kept(snaps, policy, now, s) {
      assert s in list;
      var i: nat :| i < |list| && list[i] == s;
      CondemnedIff(snaps, source, cutoff, i);
      if s.id in removed {
        var k: nat :| k < |list| && list[k].id == s.id && Condemned(list, cutoff, NewestFull(Group(snaps, source)), k);
        assert list[k] in list;
        SameIdSame(snaps, list[k], s);
        CondemnedIff(snaps, source, cutoff, k);
      }
    }
    forall id | id in removed ensures exists s :: s in snaps && s.id == id && s.source.Some? && s.source.value in {source} {
      var i: nat :| i < |list| && list[i].id == id && Condemned(list, cutoff, NewestFull(Group(snaps, source)), i);
      assert list[i] in list;
    }
  }

  /** Adding one source's removals leaves the settled sources alone. */
  lemma SettledTogether(snaps: seq<Snapshot>, policy: Policy, now: int, delete: set<nat>, removed: set<nat>,
                        done: set<Source>, source: Source)
    requires DistinctIds(snaps) && source !in done
    requires FromSources(snaps, delete, done) && forall x :: x in done ==> Settled(snaps, policy, now, delete, x)
    requires Settled(snaps, policy, now, removed, source) && FromSources(snaps, removed, {source})
    ensures FromSources(snaps, delete + removed, done + {source})
    ensures forall x :: x in done + {source} ==> Settled(snaps, policy, now, delete + removed, x)
  {
    hide Kept;
    forall id | id in delete + removed
      ensures exists s :: s in snaps && s.id == id && s.source.Some? && s.source.value in done + {source}
    {
      if id in delete {
        var s :| s in snaps && s.id == id && s.source.Some? && s.source.value in done;
      } else {
        var s :| s in snaps && s.id == id && s.source.Some? && s.source.value in {source};
      }
    }
    forall s | s in snaps && s.source.Some? && s.source.value in done + {source}
      ensures s.id in delete + removed <==> !Kept(snaps, policy, now, s)
    {
      var x := s.source.value;
      if s.id in delete {
        var t :| t in snaps && t.id == s.id && t.source.Some? && t.source.value in done;
        SameIdSame(snaps, t, s);
        assert Settled(snaps, policy, now, delete, x);
      } else if s.id in removed {
        var t :| t in snaps && t.id == s.id && t.source.Some? && t.source.value in {source};
        SameIdSame(snaps, t, s);
      } else if x in done {
        assert Settled(snaps, policy, now, delete, x);
      }
    }
  }

  /** `plan_retention`: deletes exactly the snapshots outside their window that are neither
      among the newest three of their source nor its newest full-history point. */
  method PlanRetention(snaps: seq<Snapshot>, policy: Policy, now: int) returns (delete: set<nat>)
    requires DistinctIds(snaps)
    ensures IsPlan(snaps, policy, now, delete)
  {
    hide Group, NewestFull, Survivors, DistinctIds, Settled, FromSources, AreRemovals, Cutoff, Sort;
    var groups, full := BuildGroups(snaps);
    delete := {};
    var todo := groups.Keys;
    ghost var done: set<Source> := {};
    NoDeletions(snaps, policy, now);
    while todo != {}
      invariant todo !! done && todo + done == groups.Keys
      invariant FromSources(snaps, delete, done)
      invariant forall x :: x in done ==> Settled(snaps, policy, now, delete, x)
      decreases |todo|
    {
      var source :| source in todo;
      assert Lookup(groups, source) == Group(snaps, source) && FullOf(full, source) == NewestFull(Group(snaps, source));
      var list := Sort(groups[source]);
      var removed := Removals(list, Cutoff(policy, source, now), FullOf(full, source));
      RemovalsSettle(snaps, policy, now, source, removed);
      SettledTogether(snaps, policy, now, delete, removed, done, source);
      delete := delete + removed;
      todo, done := todo - {source}, done + {source};
    }
    assert done == groups.Keys;
    AllSettled(snaps, policy, now, delete, groups);
  }

  lemma NoDeletions(snaps: seq<Snapshot>, policy: Policy, now: int)
    ensures FromSources(snaps, {}, {})
  {
  }

  lemma AllSettled(snaps: seq<Snapshot>, policy: Policy, now: int, delete: set<nat>, groups: map<Source, seq<Snapshot>>)
    requires DistinctIds(snaps)
    requires forall source :: Lookup(groups, source) == Group(snaps, source)
    requires FromSources(snaps, delete, groups.Keys)
    requires forall x :: x in groups ==> Settled(snaps, policy, now, delete, x)
    ensures IsPlan(snaps, policy, now, delete)
  {
    hide Group;
    forall s | s in snaps && s.id in delete ensures s.source.Some? {
      var t :| t in snaps && t.id == s.id && t.source.Some? && t.source.value in groups.Keys;
      SameIdSame(snaps, t, s);
    }
    forall s | s in snaps ensures s.id in delete <==> !Kept(snaps, policy, now, s) {
      if s.source.Some? {
        GroupMembers(snaps, s.source.value);
        assert Lookup(groups, s.source.value) == Group(snaps, s.source.value);
        assert Settled(snaps, policy, now, delete, s.source.value);
      }
    }
    forall id | id in delete ensures exists s :: s in snaps && s.id == id {
      var t :| t in snaps && t.id == id && t.source.Some? && t.source.value in groups.Keys;
    }
  }

  // ------------------------------------------------------------- maintenance

  /** More than ten and more than half of the snapshots would go. */
  predicate BreakerTrips(total: nat, count: nat) {
    count > TOTAL_TRIP_MIN && total > 0 && 2 * count > total
  }

  /** More than ten and more than a tenth have gone since the recorded baseline. */
  predicate LossAlarm(previous: Option<nat>, current: nat) {
    previous.Some? && previous.value > 0 && previous.value - current > TOTAL_TRIP_MIN
    && 10 * (previous.value - current) > previous.value
  }

  /** The repository and the count recorded by the last maintenance run. */
  datatype Copy = Copy(snaps: seq<Snapshot>, baseline: Option<nat>)

  /** How restic behaves during a run: listing can fail before anything is decided, and
      forgetting can stop after some of the ids. */
  datatype Restic = Works | ListingFails | ForgetFails(done: set<nat>)

  datatype Event = Append(snap: Snapshot) | Maintenance(policy: Policy, now: int, restic: Restic)

  /** The ids a plan deletes. */
  ghost function PlanOf(snaps: seq<Snapshot>, policy: Policy, now: int): set<nat> {
    set s | s in snaps && !Kept(snaps, policy, now, s) :: s.id
  }

  lemma PlanIs(snaps: seq<Snapshot>, policy: Policy, now: int, delete: set<nat>)
    requires DistinctIds(snaps) && IsPlan(snaps, policy, now, delete)
    ensures delete == PlanOf(snaps, policy, now)
  {
    hide Kept, DistinctIds;
    forall id ensures id in delete <==> id in PlanOf(snaps, policy, now) {
      if id in delete {
        var s :| s in snaps && s.id == id;
      }
    }
  }

  ghost predicate Alarms(c: Copy) {
    LossAlarm(c.baseline, |c.snaps|)
  }

  /** A run deletes nothing if the loss alarm is on or the plan removes too much. */
  ghost predicate Refused(c: Copy, policy: Policy, now: int) {
    Alarms(c) || BreakerTrips(|c.snaps|, |PlanOf(c.snaps, policy, now)|)
  }

  ghost function After(c: Copy, e: Event): Copy {
    match e
    case Append(snap) => c.(snaps := c.snaps + [snap])
    case Maintenance(policy, now, restic) =>
      if restic.ListingFails? || Refused(c, policy, now) then c
      else
        var plan := PlanOf(c.snaps, policy, now);
        if restic.ForgetFails? then c.(snaps := Forget(c.snaps, plan * restic.done))
        else Copy(Forget(c.snaps, plan), Some(|Forget(c.snaps, plan)|))
  }

  /** One run of the maintenance script. */
  method Maintain(c: Copy, policy: Policy, now: int, restic: Restic) returns (c': Copy, alarm: bool)
    requires DistinctIds(c.snaps)
    ensures c' == After(c, Maintenance(policy, now, restic)) && DistinctIds(c'.snaps)
    ensures alarm == (!restic.ListingFails? && Alarms(c))
    ensures c'.baseline == c.baseline || (restic.Works? && c'.baseline == Some(|c'.snaps|))
    ensures forall s :: s in c.snaps && s !in c'.snaps ==> !Kept(c.snaps, policy, now, s)
    ensures alarm <==> !restic.ListingFails? && c.baseline.Some? && c.baseline.value - |c.snaps| > 10 &&
                       10 * (c.baseline.value - |c.snaps|) > c.baseline.value
    ensures var lost := |c.snaps| - |c'.snaps|; lost >= 0 && (lost <= 10 || 2 * lost <= |c.snaps|)
    ensures alarm || restic.ListingFails? ==> c' == c
    ensures var plan := PlanOf(c.snaps, policy, now);
            restic.Works? && !alarm && (|plan| <= 10 || 2 * |plan| <= |c.snaps|) ==>
              c'.snaps == Forget(c.snaps, plan) && c'.baseline == Some(|c'.snaps|) && |c'.snaps| + |plan| == |c.snaps|
  {
    hide IsPlan, Kept, DistinctIds, Forget;
    c', alarm := c, false;
    if restic.ListingFails? {
      return;
    }
    alarm := LossAlarm(c.baseline, |c.snaps|);
    var delete := PlanRetention(c.snaps, policy, now);
    PlanIs(c.snaps, policy, now, delete);
    if alarm || BreakerTrips(|c.snaps|, |delete|) {
      return;
    }
    PlanLength(c.snaps, policy, now);
    SubsetSize(if restic.ForgetFails? then delete * restic.done else delete, delete);
    var forgotten := if restic.ForgetFails? then delete * restic.done else delete;
    ForgetDistinct(c.snaps, forgotten);
    ForgetMembers(c.snaps, forgotten);
    PartLength(c.snaps, policy, now, forgotten);
    PlanCondemns(c.snaps, policy, now);
    c' := Copy(Forget(c.snaps, forgotten), if restic.Works? then Some(|c.snaps| - |delete|) else c.baseline);
  }

  lemma PartLength(snaps: seq<Snapshot>, policy: Policy, now: int, part: set<nat>)
    requires DistinctIds(snaps) && part <= PlanOf(snaps, policy, now)
    ensures |Forget(snaps, part)| + |part| == |snaps|
  {
    hide Kept;
    ForgetLength(snaps, part);
  }

  // The plan in plain terms.

  /** The days a source's points stay: as configured, but at least seven. */
  ghost function Days(policy: Policy, source: Source): int {
    var days := if source in policy.windows then policy.windows[source] else policy.defaultDays;
    if days < 7 then 7 else days
  }

  /** The points of the same source that are later, or as late with a larger id. */
  ghost function LaterPoints(snaps: seq<Snapshot>, s: Snapshot): set<Snapshot> {
    set t | t in snaps && t.source == s.source && (t.time > s.time || (t.time == s.time && t.id > s.id))
  }

  lemma {:induction false} DistinctCount(list: seq<Snapshot>)
    requires NewestFirst(list)
    ensures |set s | s in list| == |list|
  {
    if list != [] {
      var init, last := list[..|list| - 1], list[|list| - 1];
      DistinctCount(init);
      assert (set s | s in list) == (set s | s in init) + {last};
    }
  }

  lemma LaterCount(snaps: seq<Snapshot>, source: Source, i: nat)
    requires DistinctIds(snaps) && i < |Ordered(snaps, source)|
    ensures var s := Ordered(snaps, source)[i]; |LaterPoints(snaps, s)| == i
    ensures var list := Ordered(snaps, source);
            forall t :: t in LaterPoints(snaps, list[i]) <==> t in list[..i]
  {
    hide Ordered, DistinctIds;
    OrderedFacts(snaps, source);
    var list, s := Ordered(snaps, source), Ordered(snaps, source)[i];
    assert s in list;
    forall t ensures t in LaterPoints(snaps, s) <==> t in list[..i] {
      if t in LaterPoints(snaps, s) {
        assert t in list;
        var k: nat :| k < |list| && list[k] == t;
        assert k < i;
        assert list[..i][k] == t;
      }
      if t in list[..i] {
        var k: nat :| k < i && list[k] == t;
        assert Newer(t, s) && t in list;
      }
    }
    assert LaterPoints(snaps, s) == set t | t in list[..i];
    DistinctCount(list[..i]);
  }

  /** A point is deleted if and only if it has exactly one source, at least three later points
      of that source, is older than the source's days, and is not the latest full-history
      point of it. */
  lemma PlanIff(snaps: seq<Snapshot>, policy: Policy, now: int, s: Snapshot)
    requires DistinctIds(snaps) && s in snaps
    ensures s.id in PlanOf(snaps, policy, now) <==>
              && s.source.Some? && |LaterPoints(snaps, s)| >= 3
              && s.time < now - 86_400 * Days(policy, s.source.value)
              && (!s.full || exists t :: t in LaterPoints(snaps, s) && t.full)
  {
    hide Ordered, DistinctIds, LaterPoints, Survivors;
    PlanCondemns(snaps, policy, now);
    if s.source.Some? {
      var source := s.source.value;
      OrderedFacts(snaps, source);
      var list := Ordered(snaps, source);
      var i: nat :| i < |list| && list[i] == s;
      LaterCount(snaps, source, i);
      SurvivesIff(list, 0, false, Cutoff(policy, source, now), i);
      if t :| t in LaterPoints(snaps, s) && t.full {
        var j: nat :| j < i && list[..i][j] == t;
        assert list[j].full;
      }
      if j: int :| 0 <= j < i && list[j].full {
        assert list[..i][j] == list[j];
        assert list[j] in LaterPoints(snaps, s);
      }
    }
  }

  lemma PlanCondemns(snaps: seq<Snapshot>, policy: Policy, now: int)
    requires DistinctIds(snaps)
    ensures forall s :: s in snaps && s.id in PlanOf(snaps, policy, now) ==> !Kept(snaps, policy, now, s)
  {
    hide Kept;
    forall s | s in snaps && s.id in PlanOf(snaps, policy, now) ensures !Kept(snaps, policy, now, s) {
      var t :| t in snaps && !Kept(snaps, policy, now, t) && t.id == s.id;
      SameIdSame(snaps, s, t);
    }
  }

  lemma PlanLength(snaps: seq<Snapshot>, policy: Policy, now: int)
    requires DistinctIds(snaps)
    ensures |PlanOf(snaps, policy, now)| <= |snaps|
    ensures |snaps| - |PlanOf(snaps, policy, now)| == |Forget(snaps, PlanOf(snaps, policy, now))|
  {
    hide Kept;
    ForgetLength(snaps, PlanOf(snaps, policy, now));
  }

  lemma {:induction false} ForgetLength(snaps: seq<Snapshot>, delete: set<nat>)
    requires DistinctIds(snaps) && forall id :: id in delete ==> exists s :: s in snaps && s.id == id
    ensures |Forget(snaps, delete)| + |delete| == |snaps|
  {
    if snaps == [] {
      assert delete == {};
    } else {
      var init, last := snaps[..|snaps| - 1], snaps[|snaps| - 1];
      var rest := delete - {last.id};
      assert snaps == init + [last];
      forall id | id in rest ensures exists s :: s in init && s.id == id {
        var s :| s in snaps && s.id == id;
        assert s in init;
      }
      ForgetLength(init, rest);
      ForgetOther(init, delete, last.id);
    }
  }

  lemma {:induction false} ForgetOther(snaps: seq<Snapshot>, delete: set<nat>, id: nat)
    requires forall s :: s in snaps ==> s.id != id
    ensures Forget(snaps, delete - {id}) == Forget(snaps, delete)
  {
    if snaps != [] {
      assert snaps[|snaps| - 1] in snaps;
      ForgetOther(snaps[..|snaps| - 1], delete, id);
    }
  }

  lemma {:induction false} ForgetNothing(snaps: seq<Snapshot>)
    ensures Forget(snaps, {}) == snaps
  {
    if snaps != [] {
      ForgetNothing(snaps[..|snaps| - 1]);
    }
  }

  // ------------------------------------------------------- runs of the copy

  /** The copy after a run of arrivals and maintenance. */
  ghost function Reached(c: Copy, events: seq<Event>): Copy {
    if events == [] then c else After(Reached(c, events[..|events| - 1]), events[|events| - 1])
  }

  /** A new snapshot never has the id of one that is present. */
  ghost predicate Legal(c: Copy, events: seq<Event>) {
    events == [] ||
    (Legal(c, events[..|events| - 1]) && Fits(Reached(c, events[..|events| - 1]), events[|events| - 1]))
  }

  ghost predicate Fits(c: Copy, e: Event) {
    e.Append? ==> forall s :: s in c.snaps ==> s.id != e.snap.id
  }

  /** How the count has drifted below the recorded one: what failed runs have forgotten since
      the last completed run, less what has arrived since. */
  ghost function Drift(c: Copy, events: seq<Event>): int {
    if events == [] then (if c.baseline.None? then 0 else c.baseline.value - |c.snaps|)
    else
      var front := events[..|events| - 1];
      DriftAfter(Reached(c, front), Drift(c, front), events[|events| - 1])
  }

  ghost function DriftAfter(c: Copy, drift: int, e: Event): int {
    match e
    case Append(_) => drift - 1
    case Maintenance(policy, now, restic) =>
      if restic.ListingFails? || Refused(c, policy, now) then drift
      else if restic.ForgetFails? then drift + |PlanOf(c.snaps, policy, now) * restic.done|
      else 0
  }

  ghost predicate Tracks(c: Copy, drift: int) {
    DistinctIds(c.snaps) && (c.baseline.Some? ==> c.baseline.value - |c.snaps| == drift)
  }

  lemma TracksStep(c: Copy, drift: int, e: Event)
    requires Tracks(c, drift) && Fits(c, e)
    ensures Tracks(After(c, e), DriftAfter(c, drift, e))
  {
    hide Kept, Forget, LossAlarm, BreakerTrips;
    if e.Maintenance? {
      var plan := PlanOf(c.snaps, e.policy, e.now);
      PlanLength(c.snaps, e.policy, e.now);
      ForgetDistinct(c.snaps, plan);
      if e.restic.ForgetFails? {
        ForgetLength(c.snaps, plan * e.restic.done);
        ForgetDistinct(c.snaps, plan * e.restic.done);
      }
    }
  }

  lemma {:induction false} DriftIs(c: Copy, events: seq<Event>)
    requires DistinctIds(c.snaps) && Legal(c, events)
    ensures Tracks(Reached(c, events), Drift(c, events))
  {
    hide After, DriftAfter, Tracks, Fits, DistinctIds;
    if events == [] {
      TracksNow(c);
    } else {
      var front := events[..|events| - 1];
      DriftIs(c, front);
      TracksStep(Reached(c, front), Drift(c, front), events[|events| - 1]);
    }
  }

  lemma TracksNow(c: Copy)
    requires DistinctIds(c.snaps)
    ensures Tracks(c, Drift(c, []))
  {
  }

  /** In every run, with failures anywhere, the next maintenance alarms if and only if a
      count is recorded and the drift is more than ten and more than a tenth of it. */
  lemma AlarmIff(c: Copy, events: seq<Event>)
    requires DistinctIds(c.snaps) && Legal(c, events)
    ensures var b, drift := Reached(c, events).baseline, Drift(c, events);
            Alarms(Reached(c, events)) <==> b.Some? && b.value > 0 && drift > TOTAL_TRIP_MIN && 10 * drift > b.value
  {
    hide Reached, Drift, Legal;
    DriftIs(c, events);
  }

  ghost predicate Explained(c: Copy) {
    DistinctIds(c.snaps) && (c.baseline.Some? ==> c.baseline.value <= |c.snaps|)
  }

  predicate Harmless(e: Event) {
    e.Maintenance? ==> !e.restic.ForgetFails?
  }

  lemma {:induction false} NoFailureNoDrift(c: Copy, events: seq<Event>)
    requires Explained(c) && forall e :: e in events ==> Harmless(e)
    ensures Drift(c, events) <= 0
  {
    if events != [] {
      assert events[|events| - 1] in events && forall e :: e in events[..|events| - 1] ==> e in events;
      NoFailureNoDrift(c, events[..|events| - 1]);
    }
  }

  /** With arrivals only and no failure while forgetting, maintenance never alarms on its
      own deletions. */
  lemma NoFailureNoAlarm(c: Copy, events: seq<Event>)
    requires Explained(c) && Legal(c, events) && forall e :: e in events ==> Harmless(e)
    ensures !Alarms(Reached(c, events))
  {
    hide Reached, Drift, Legal;
    AlarmIff(c, events);
    NoFailureNoDrift(c, events);
  }

  /** Runs the events and collects the alarms of the maintenance runs. */
  method RunCopy(c0: Copy, events: seq<Event>) returns (c: Copy, alarms: seq<bool>)
    requires DistinctIds(c0.snaps) && Legal(c0, events)
    ensures c == Reached(c0, events) && |alarms| == |events|
    ensures forall i :: 0 <= i < |events| ==>
              (alarms[i] <==> events[i].Maintenance? && !events[i].restic.ListingFails? && Alarms(Reached(c0, events[..i])))
    ensures Explained(c0) && (forall e :: e in events ==> Harmless(e)) ==> true !in alarms
  {
    hide After, Alarms, DistinctIds, Reached, Legal, Explained;
    c, alarms := c0, [];
    ReachedNone(c0);
    for i := 0 to |events|
      invariant DistinctIds(c.snaps) && c == Reached(c0, events[..i]) && |alarms| == i
      invariant forall k :: 0 <= k < i ==>
                  (alarms[k] <==> events[k].Maintenance? && !events[k].restic.ListingFails? && Alarms(Reached(c0, events[..k])))
    {
      LegalPrefix(c0, events, i);
      NextReached(c0, events, i);
      match events[i]
      case Append(snap) =>
        AppendDistinct(c, events[i]);
        c, alarms := c.(snaps := c.snaps + [snap]), alarms + [false];
      case Maintenance(policy, now, restic) =>
        var alarm;
        c, alarm := Maintain(c, policy, now, restic);
        alarms := alarms + [alarm];
    }
    assert events[..|events|] == events;
    if Explained(c0) && forall e :: e in events ==> Harmless(e) {
      forall i | 0 <= i < |events| ensures !alarms[i] {
        LegalPrefix(c0, events, i);
        NoFailureNoAlarm(c0, events[..i]);
      }
    }
  }

  lemma ReachedNone(c: Copy)
    ensures Reached(c, []) == c
  {
  }

  lemma {:induction false} LegalPrefix(c: Copy, events: seq<Event>, i: nat)
    requires Legal(c, events) && i <= |events|
    ensures Legal(c, events[..i]) && (i < |events| ==> Fits(Reached(c, events[..i]), events[i]))
    decreases |events|
  {
    if i < |events| {
      var front := events[..|events| - 1];
      assert front[..i] == events[..i];
      if i < |front| {
        assert front[i] == events[i];
      }
      LegalPrefix(c, front, i);
    } else {
      assert events[..i] == events;
    }
  }

  lemma NextReached(c: Copy, events: seq<Event>, i: nat)
    requires i < |events|
    ensures Reached(c, events[..i + 1]) == After(Reached(c, events[..i]), events[i])
  {
    assert events[..i + 1][..i] == events[..i];
  }

  lemma AppendDistinct(c: Copy, e: Event)
    requires DistinctIds(c.snaps) && Fits(c, e) && e.Append?
    ensures DistinctIds(c.snaps + [e.snap]) && After(c, e) == c.(snaps := c.snaps + [e.snap])
  {
  }

  // ------------------------------------------- a failed run and the next alarm

  function Appends(snaps: seq<Snapshot>): seq<Event> {
    seq(|snaps|, i requires 0 <= i < |snaps| => Append(snaps[i]))
  }

  lemma {:induction false} AppendsDrift(c: Copy, first: Event, arrivals: seq<Snapshot>)
    ensures var events := [first] + Appends(arrivals);
            && Drift(c, events) == Drift(c, [first]) - |arrivals|
            && Reached(c, events).baseline == Reached(c, [first]).baseline
  {
    hide DriftAfter;
    var events := [first] + Appends(arrivals);
    if arrivals == [] {
      assert events == [first];
    } else {
      var init := arrivals[..|arrivals| - 1];
      assert events[..|events| - 1] == [first] + Appends(init);
      AppendsDrift(c, first, init);
      AppendDrift(Reached(c, [first] + Appends(init)), Drift(c, [first] + Appends(init)), events[|events| - 1]);
    }
  }

  lemma AppendDrift(c: Copy, drift: int, e: Event)
    requires e.Append?
    ensures DriftAfter(c, drift, e) == drift - 1 && After(c, e).baseline == c.baseline
  {
  }

  /** After a run that failed while forgetting, and some arrivals, the next run alarms if and
      only if a count b was recorded and what is missing from it is more than ten and more
      than a tenth of b. */
  lemma FailedRunAlarmsIff(c: Copy, policy: Policy, now: int, done: set<nat>, arrivals: seq<Snapshot>)
    requires DistinctIds(c.snaps) && !Refused(c, policy, now)
    requires Legal(c, [Maintenance(policy, now, ForgetFails(done))] + Appends(arrivals))
    ensures var gone := PlanOf(c.snaps, policy, now) * done;
            Alarms(Reached(c, [Maintenance(policy, now, ForgetFails(done))] + Appends(arrivals))) <==>
            c.baseline.Some? && c.baseline.value > 0 &&
            (var lost := c.baseline.value - (|c.snaps| - |gone| + |arrivals|); lost > TOTAL_TRIP_MIN && 10 * lost > c.baseline.value)
  {
    hide Legal, Alarms, PlanOf, Refused;
    var first := Maintenance(policy, now, ForgetFails(done));
    AlarmIff(c, [first] + Appends(arrivals));
    AppendsDrift(c, first, arrivals);
    assert [first][..0] == [];
    ReachedNone(c);
  }

  // A copy on which it happens: 14 old points of one source and 8 unmanaged ones, all 22
  // recorded; a run that forgets eleven and then fails.

  const SOURCE: Source := Source("db")

  const PLAIN_POLICY: Policy := Policy(30, map[])

  function Point(i: nat): Snapshot {
    Snapshot(i, i, if i < 14 then Some(SOURCE) else None, false)
  }

  const POINTS: seq<Snapshot> := seq(22, i requires 0 <= i < 22 => Point(i))

  const MUCH_LATER: int := 1000 * DAY

  lemma PointsOrdered()
    ensures Ordered(POINTS, SOURCE) == seq(14, k requires 0 <= k < 14 => Point(13 - k)) && DistinctIds(POINTS)
  {
    hide Group, Sort;
    var list := seq(14, k requires 0 <= k < 14 => Point(13 - k));
    assert DistinctIds(POINTS);
    OrderedFacts(POINTS, SOURCE);
    forall s ensures s in list <==> s in POINTS && s.source == Some(SOURCE) {
      if s in POINTS && s.source == Some(SOURCE) {
        var i: nat :| i < 22 && POINTS[i] == s;
        assert list[13 - i] == s;
      }
      if s in list {
        var k: nat :| k < 14 && list[k] == s;
        assert POINTS[13 - k] == s;
      }
    }
    NewestFirstUnique(Ordered(POINTS, SOURCE), list);
  }

  lemma PointKept(i: nat)
    requires i < 22
    ensures Point(i) in POINTS && (Kept(POINTS, PLAIN_POLICY, MUCH_LATER, Point(i)) <==> i >= 11)
  {
    assert POINTS[i] == Point(i);
    if i < 14 {
      PointsOrdered();
      var list := Ordered(POINTS, SOURCE);
      hide Ordered;
      OrderedFacts(POINTS, SOURCE);
      assert list[13 - i] == Point(i);
      SurvivesIff(list, 0, false, Cutoff(PLAIN_POLICY, SOURCE, MUCH_LATER), 13 - i);
    }
  }

  function IdsBelow(n: nat): (ids: set<nat>)
    ensures |ids| == n && forall i: nat :: i in ids <==> i < n
  {
    if n == 0 then {} else IdsBelow(n - 1) + {n - 1}
  }

  lemma PointsPlan()
    ensures PlanOf(POINTS, PLAIN_POLICY, MUCH_LATER) == IdsBelow(11)
  {
    hide Kept, IdsBelow;
    var plan := PlanOf(POINTS, PLAIN_POLICY, MUCH_LATER);
    forall id: nat ensures id in plan <==> id < 11 {
      if id < 11 {
        PointKept(id);
      }
      if id in plan {
        var s :| s in POINTS && !Kept(POINTS, PLAIN_POLICY, MUCH_LATER, s) && s.id == id;
        var i: nat :| i < 22 && POINTS[i] == s;
        PointKept(i);
      }
    }
  }

  /** The script's own deletions raise the alarm after a failure. */
  lemma FailedRunCanAlarm()
    ensures var c := Copy(POINTS, Some(22));
            var failed := Maintenance(PLAIN_POLICY, MUCH_LATER, ForgetFails(PlanOf(POINTS, PLAIN_POLICY, MUCH_LATER)));
            Explained(c) && !Alarms(c) && Legal(c, [failed]) && Alarms(Reached(c, [failed]))
  {
    hide PlanOf, IdsBelow;
    var c, plan := Copy(POINTS, Some(22)), PlanOf(POINTS, PLAIN_POLICY, MUCH_LATER);
    var failed := Maintenance(PLAIN_POLICY, MUCH_LATER, ForgetFails(plan));
    PointsOrdered();
    PointsPlan();
    assert plan * plan == plan;
    assert [failed][..0] == [] && [failed] + Appends([]) == [failed];
    FailedRunAlarmsIff(c, PLAIN_POLICY, MUCH_LATER, plan, []);
  }

  // ------------------------------------------------------------ check rotation

  /** The bucket a verified check hands on. */
  function NextBucket(bucket: nat): nat {
    bucket % CHECK_BUCKETS + 1
  }

  function BucketAfter(bucket: nat, checks: nat): nat {
    if checks == 0 then bucket else NextBucket(BucketAfter(bucket, checks - 1))
  }

  /** Up to the last bucket the rotation counts on. */
  lemma {:induction false} BucketCounts(bucket: nat, checks: nat)
    requires 1 <= bucket && bucket + checks <= CHECK_BUCKETS
    ensures BucketAfter(bucket, checks) == bucket + checks
  {
    if checks > 0 {
      BucketCounts(bucket, checks - 1);
    }
  }

  lemma {:induction false} BucketAdds(bucket: nat, m: nat, n: nat)
    ensures BucketAfter(bucket, m + n) == BucketAfter(BucketAfter(bucket, m), n)
  {
    if n > 0 {
      BucketAdds(bucket, m, n - 1);
    }
  }

  /** Twelve verified checks in a row read every twelfth of the repository. */
  lemma RotationCoversAll(bucket: nat, target: nat)
    requires 1 <= bucket <= CHECK_BUCKETS && 1 <= target <= CHECK_BUCKETS
    ensures exists k: nat :: k < CHECK_BUCKETS && BucketAfter(bucket, k) == target
  {
    if target >= bucket {
      BucketCounts(bucket, target - bucket);
    } else {
      var last := CHECK_BUCKETS - bucket;
      BucketCounts(bucket, last);
      BucketAdds(bucket, last, 1);
      assert BucketAfter(CHECK_BUCKETS, 1) == NextBucket(BucketAfter(CHECK_BUCKETS, 0)) == 1;
      BucketCounts(1, target - 1);
      BucketAdds(bucket, last + 1, target - 1);
      assert BucketAfter(bucket, last + 1 + (target - 1)) == target;
    }
  }
}
