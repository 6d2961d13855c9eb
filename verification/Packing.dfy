/** Bounding a response by item count and wire bytes: `_pack` of the reader and
    `pack` of the shared query helpers. */
module Packing {
  import opened Common

  datatype Result<T> = Ok(value: T) | Err(reason: string)

  /** The budgets `limits` accepts. */
  const MIN_BUDGET: nat := 256
  const MAX_BUDGET: nat := 65536

  /** The least a quoted cursor can weigh: version, 24-digit digest and a position, in base64. */
  const MIN_CURSOR_BYTES: nat := 60

  /** Wire sizes of the parts of a response.  `meta` is everything but the items, the
      cursor and the flag; `bare` is the same for the fallback envelope, whose cursor is null. */
  datatype Sizes<!T, !C> = Sizes(meta: nat, bare: nat, item: T -> nat, position: C -> nat, budgetError: nat)
  {
    function Cursor(next: Option<C>): nat {
      match next
      case None => 4
      case Some(c) => MIN_CURSOR_BYTES + position(c)
    }

    function Flag(truncated: bool): nat {
      if truncated then 4 else 5
    }

    function Items(items: seq<T>): nat {
      if items == [] then 0
      else Items(items[..|items| - 1]) + item(items[|items| - 1]) + if |items| > 1 then 1 else 0
    }

    function Wire(items: seq<T>, next: Option<C>, truncated: bool): nat {
      meta + Items(items) + Cursor(next) + Flag(truncated)
    }
  }

  /** `complete` says that coverage and request were not dropped. */
  datatype Page<T, C> = Page(items: seq<T>, next: Option<C>, truncated: bool, complete: bool)

  /** The envelope tried for the first n items: cursor and flag are reserved. */
  function Trial<T, C>(z: Sizes<T, C>, items: seq<T>, cursors: Option<seq<C>>, n: nat): nat
    requires 0 < n <= |items| && (cursors.Some? ==> |cursors.value| == |items|)
  {
    z.Wire(items[..n], if cursors.None? then None else Some(cursors.value[n - 1]), true)
  }

  /** How many items are admitted, n having been already: the first trial over budget ends it. */
  function Admitted<T, C>(z: Sizes<T, C>, items: seq<T>, cursors: Option<seq<C>>, limit: nat, maxBytes: nat, n: nat): (count: nat)
    requires n <= |items| && n <= limit && (cursors.Some? ==> |cursors.value| == |items|)
    ensures n <= count <= |items| && count <= limit
    ensures n < count ==> Trial(z, items, cursors, count) <= maxBytes
    ensures count < |items| && count < limit ==> Trial(z, items, cursors, count + 1) > maxBytes
    decreases |items| - n
  {
    if n < |items| && n < limit && Trial(z, items, cursors, n + 1) <= maxBytes
    then Admitted(z, items, cursors, limit, maxBytes, n + 1)
    else n
  }

  lemma AdmitsFirst<T, C>(z: Sizes<T, C>, items: seq<T>, cursors: Option<seq<C>>, limit: nat, maxBytes: nat)
    requires items != [] && limit >= 1 && (cursors.Some? ==> |cursors.value| == |items|)
    requires Trial(z, items, cursors, 1) <= maxBytes
    ensures Admitted(z, items, cursors, limit, maxBytes, 0) >= 1
  {
    assert Admitted(z, items, cursors, limit, maxBytes, 0) == Admitted(z, items, cursors, limit, maxBytes, 1);
  }

  /** The page for n admitted items, before the final size check. */
  function Draft<T, C>(items: seq<T>, cursors: Option<seq<C>>, n: nat, more: bool): Page<T, C>
    requires n <= |items| && (cursors.Some? ==> |cursors.value| == |items|)
  {
    Page(items[..n], if more && n > 0 && cursors.Some? then Some(cursors.value[n - 1]) else None, more, true)
  }

  /** Items weigh what they weigh, plus a comma between any two. */
  lemma ItemsWeigh<T, C>(z: Sizes<T, C>, items: seq<T>, x: T)
    ensures z.Items([]) == 0
    ensures z.Items(items + [x]) == z.Items(items) + z.item(x) + if items == [] then 0 else 1
  {
    assert (items + [x])[..|items|] == items;
  }

  /** The reserve of an envelope with n items: a quoted cursor, or null without cursors, and
      the word `true`. */
  ghost function Reserved<T, C>(z: Sizes<T, C>, items: seq<T>, cursors: Option<seq<C>>, n: nat): nat
    requires 0 < n <= |items| && (cursors.Some? ==> |cursors.value| == |items|)
  {
    z.meta + z.Items(items[..n]) + (if cursors.None? then 4 else 60 + z.position(cursors.value[n - 1])) + 4
  }

  /** The envelope of n items as it stands at the end: the cursor of the last item, or null;
      `true` or `false`; and an error when not even one item was admitted. */
  ghost function Final<T, C>(z: Sizes<T, C>, items: seq<T>, cursors: Option<seq<C>>, n: nat, more: bool): nat
    requires n <= |items| && (cursors.Some? ==> |cursors.value| == |items|)
  {
    z.meta + z.Items(items[..n]) + (if more && n > 0 && cursors.Some? then 60 + z.position(cursors.value[n - 1]) else 4)
      + (if more then 4 else 5) + (if more && n == 0 then z.budgetError else 0)
  }

  /** The fallback: no cursor, no coverage, no request. */
  ghost function Fallback<T, C>(z: Sizes<T, C>, items: seq<T>, n: nat, more: bool): nat
    requires n <= |items|
  {
    z.bare + z.Items(items[..n]) + if more then 4 else 5
  }

  /** What a packer returns for n admitted items. */
  ghost predicate Packed<T, C>(z: Sizes<T, C>, items: seq<T>, cursors: Option<seq<C>>, n: nat, limit: nat, maxBytes: nat,
                               more: bool, r: Result<Page<T, C>>)
    requires n <= |items| && (cursors.Some? ==> |cursors.value| == |items|)
  {
    && n <= limit && (n > 0 ==> Reserved(z, items, cursors, n) <= maxBytes)
    && (n < |items| && n < limit ==> Reserved(z, items, cursors, n + 1) > maxBytes)
    && (r.Err? <==> Final(z, items, cursors, n, more) > maxBytes && Fallback(z, items, n, more) > maxBytes)
    && (r.Ok? ==>
          && r.value.items == items[..n] && r.value.truncated == more
          && (r.value.complete <==> Final(z, items, cursors, n, more) <= maxBytes)
          && (r.value.complete ==>
                r.value.next == if more && n > 0 && cursors.Some? then Some(cursors.value[n - 1]) else None)
          && (!r.value.complete ==> r.value.next == None))
  }

  /** The admission loop both packers run. */
  method Admit<T, C>(z: Sizes<T, C>, items: seq<T>, cursors: Option<seq<C>>, limit: nat, maxBytes: nat) returns (n: nat)
    requires cursors.Some? ==> |cursors.value| == |items|
    ensures n == Admitted(z, items, cursors, limit, maxBytes, 0)
  {
    hide Trial;
    n := 0;
    while n < |items| && n < limit
      invariant n <= |items| && n <= limit
      invariant Admitted(z, items, cursors, limit, maxBytes, 0) == Admitted(z, items, cursors, limit, maxBytes, n)
    {
      if Trial(z, items, cursors, n + 1) > maxBytes {
        return;
      }
      n := n + 1;
    }
  }

  /** The reader's packer.  Once one item is admitted the envelope is complete, fits, and
      carries a cursor exactly if something was left out. */
  method PackReader<T, C>(z: Sizes<T, C>, items: seq<T>, cursors: seq<C>, limit: nat, maxBytes: nat, more0: bool)
    returns (r: Result<Page<T, C>>, n: nat)
    requires |cursors| == |items|
    ensures n == Admitted(z, items, Some(cursors), limit, maxBytes, 0)
    ensures n > 0 ==> r == Ok(Draft(items, Some(cursors), n, more0 || n < |items|))
    ensures n > 0 ==> z.Wire(r.value.items, r.value.next, r.value.truncated) <= maxBytes
    ensures n == 0 && r.Ok? ==> r.value.items == [] && r.value.next == None
    ensures n == 0 && r.Ok? ==> r.value.truncated == (more0 || items != [])
    ensures r.Err? ==> n == 0 && z.bare + z.Flag(more0 || items != []) > maxBytes
    ensures Packed(z, items, Some(cursors), n, limit, maxBytes, more0 || n < |items|, r)
  {
    n := Admit(z, items, Some(cursors), limit, maxBytes);
    var more := more0 || n < |items| || |items| > limit;
    var page := Draft(items, Some(cursors), n, more);
    var size := z.Wire(page.items, page.next, page.truncated) + if more && n == 0 then z.budgetError else 0;
    if size > maxBytes {
      page := page.(next := None, complete := false);
      size := z.bare + z.Flag(more);
    }
    r := if size > maxBytes then Err("response exceeds max_bytes") else Ok(page);
  }

  /** The helpers' packer, with or without cursors. */
  method PackShared<T, C>(z: Sizes<T, C>, items: seq<T>, cursors: Option<seq<C>>, limit: nat, maxBytes: nat, more0: bool)
    returns (r: Result<Page<T, C>>, n: nat)
    requires cursors.Some? ==> |cursors.value| == |items|
    ensures n == Admitted(z, items, cursors, limit, maxBytes, 0)
    ensures n > 0 && cursors.Some? ==> r == Ok(Draft(items, cursors, n, more0 || n < |items|))
    ensures n > 0 && cursors.Some? ==> z.Wire(r.value.items, r.value.next, r.value.truncated) <= maxBytes
    ensures n > 0 && cursors.None? ==>
              ((r.Ok? && r.value.complete) <==> more0 || n < |items| || z.Wire(items, None, true) < maxBytes)
    ensures r.Ok? ==> r.value.items == items[..n] && r.value.truncated == (more0 || n < |items|)
    ensures r.Err? ==> z.bare + z.Items(items[..n]) + z.Flag(more0 || n < |items|) > maxBytes
    ensures Packed(z, items, cursors, n, limit, maxBytes, more0 || n < |items|, r)
  {
    hide Final, Sizes.Wire, Reserved, Admitted, Trial;
    AdmittedReserve(z, items, cursors, limit, maxBytes);
    n := Admit(z, items, cursors, limit, maxBytes);
    assert n == |items| ==> items[..n] == items;
    var more := more0 || n < |items|;
    var page := Draft(items, cursors, n, more);
    var size := z.Wire(page.items, page.next, page.truncated) + if more && n == 0 then z.budgetError else 0;
    FinalIsWire(z, items, cursors, n, more);
    if size > maxBytes {
      page := page.(next := None, complete := false);
      size := z.bare + z.Items(page.items) + z.Flag(more);
      assert size == Fallback(z, items, n, more);
    }
    r := if size > maxBytes then Err("response metadata exceeds max_bytes") else Ok(page);
    PackedMeans(z, items, cursors, n, limit, maxBytes, more, r);
  }

  lemma AdmittedReserve<T, C>(z: Sizes<T, C>, items: seq<T>, cursors: Option<seq<C>>, limit: nat, maxBytes: nat)
    requires cursors.Some? ==> |cursors.value| == |items|
    ensures var n := Admitted(z, items, cursors, limit, maxBytes, 0);
            && n <= limit && (n > 0 ==> Reserved(z, items, cursors, n) <= maxBytes)
            && (n < |items| && n < limit ==> Reserved(z, items, cursors, n + 1) > maxBytes)
  {
    hide Admitted;
  }

  lemma FinalIsWire<T, C>(z: Sizes<T, C>, items: seq<T>, cursors: Option<seq<C>>, n: nat, more: bool)
    requires n <= |items| && (cursors.Some? ==> |cursors.value| == |items|)
    ensures var page := Draft(items, cursors, n, more);
            z.Wire(page.items, page.next, page.truncated) + (if more && n == 0 then z.budgetError else 0)
            == Final(z, items, cursors, n, more)
  {
  }

  lemma PackedMeans<T, C>(z: Sizes<T, C>, items: seq<T>, cursors: Option<seq<C>>, n: nat, limit: nat, maxBytes: nat,
                          more: bool, r: Result<Page<T, C>>)
    requires n <= |items| && (cursors.Some? ==> |cursors.value| == |items|)
    requires Packed(z, items, cursors, n, limit, maxBytes, more, r) && (n < |items| ==> more)
    ensures n > 0 && cursors.Some? ==> r == Ok(Draft(items, cursors, n, more))
    ensures n > 0 && cursors.Some? ==> z.Wire(r.value.items, r.value.next, r.value.truncated) <= maxBytes
    ensures n > 0 && cursors.None? ==> ((r.Ok? && r.value.complete) <==> more || z.Wire(items, None, true) < maxBytes)
  {
    assert n == |items| ==> items[..n] == items;
  }

  /** One item that fits exactly with the flag reserved for a truncated page: the complete
      page's flag is a byte longer, so coverage is dropped although everything was listed. */
  method OneByteShort() returns (r: Result<Page<nat, nat>>, n: nat)
    ensures n == 1 && r.Ok? && r.value.items == [7] && !r.value.truncated && !r.value.complete
  {
    var z: Sizes<nat, nat> := Sizes(300, 200, _ => 40, _ => 0, 0);
    assert z.Items([]) == 0 && [7][..0] == [] && [7][..1] == [7];
    assert z.Items([7]) == 40;
    var budget := 348;
    assert MIN_BUDGET <= budget <= MAX_BUDGET;
    assert Trial(z, [7], None, 1) == budget;
    AdmitsFirst(z, [7], None, 5, budget);
    r, n := PackShared(z, [7], None, 5, budget, false);
  }
}
