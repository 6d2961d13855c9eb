/** The bounded, cancellable disk walk: what it counts and when it may call itself complete. */
module DiskWalk {
  import opened Common

  datatype Stop = Cancelled | Timeout | EntryCap | DepthCap | SourceError

  /** How listing a directory ends: after all of it, or early with an error. */
  datatype Scan = Complete | ScanDenied(after: nat) | ScanFailed(after: nat)

  datatype Open = Opened | OpenDenied | OpenFailed | OpenForeign

  /** What lies below a directory entry.  `hidden` is the true size behind an entry that
      the walk cannot or will not look into. */
  datatype Entry =
    | File(size: nat)
    | Dir(open: Open, scan: Scan, children: seq<Node>)
    | StatDenied(hidden: nat)
    | StatFailed(hidden: nat)
    | Foreign(hidden: nat)
    | Special

  datatype Node = Node(name: string, entry: Entry)

  datatype Listed = Listed(name: string, size: nat, directory: bool)

  // ------------------------------------------------------------- the true tree

  /** The total of regular-file sizes. */
  function Bytes(e: Entry): nat
    decreases e, 1
  {
    match e
    case File(size) => size
    case Dir(_, _, children) => BytesAll(children)
    case StatDenied(hidden) => hidden
    case StatFailed(hidden) => hidden
    case Foreign(hidden) => hidden
    case Special => 0
  }

  function BytesAll(nodes: seq<Node>): nat
    decreases nodes, 0
  {
    if nodes == [] then 0
    else BytesAll(nodes[..|nodes| - 1]) + Bytes(nodes[|nodes| - 1].entry)
  }

  /** How many entries there are to look at. */
  function Count(e: Entry): nat
    decreases e, 1
  {
    if e.Dir? then 1 + CountAll(e.children) else 1
  }

  function CountAll(nodes: seq<Node>): nat
    decreases nodes, 0
  {
    if nodes == [] then 0
    else CountAll(nodes[..|nodes| - 1]) + Count(nodes[|nodes| - 1].entry)
  }

  /** Nothing denied, failing, foreign or special, and no directory below the depth limit. */
  predicate Plain(e: Entry, depth: nat, maxDepth: nat)
    decreases e, 1
  {
    match e
    case File(_) => true
    case Dir(open, scan, children) =>
      open.Opened? && scan.Complete? && depth < maxDepth && PlainAll(children, depth + 1, maxDepth)
    case _ => false
  }

  predicate PlainAll(nodes: seq<Node>, depth: nat, maxDepth: nat)
    decreases nodes, 0
  {
    nodes == [] || (PlainAll(nodes[..|nodes| - 1], depth, maxDepth) && Plain(nodes[|nodes| - 1].entry, depth, maxDepth))
  }

  function Sizes(listed: seq<Listed>): nat {
    if listed == [] then 0 else Sizes(listed[..|listed| - 1]) + listed[|listed| - 1].size
  }

  /** What a complete walk lists: every child with its total and whether it is a directory. */
  ghost function ListingOf(nodes: seq<Node>): seq<Listed> {
    if nodes == [] then []
    else
      var last := nodes[|nodes| - 1];
      ListingOf(nodes[..|nodes| - 1]) + [Listed(last.name, Bytes(last.entry), last.entry.Dir?)]
  }

  lemma {:induction false} ListingHas(nodes: seq<Node>, i: nat)
    requires i < |nodes|
    ensures |ListingOf(nodes)| == |nodes|
    ensures ListingOf(nodes)[i] == Listed(nodes[i].name, Bytes(nodes[i].entry), nodes[i].entry.Dir?)
  {
    if |nodes| > 1 {
      ListingHas(nodes[..|nodes| - 1], if i < |nodes| - 1 then i else 0);
    }
  }

  lemma {:induction false} PrefixBytes(nodes: seq<Node>, i: nat)
    requires i <= |nodes|
    ensures BytesAll(nodes[..i]) <= BytesAll(nodes)
    ensures CountAll(nodes[..i]) <= CountAll(nodes)
    ensures forall depth: nat, maxDepth: nat :: PlainAll(nodes, depth, maxDepth) ==> PlainAll(nodes[..i], depth, maxDepth)
    decreases |nodes|
  {
    if i < |nodes| {
      var init := nodes[..|nodes| - 1];
      assert init[..i] == nodes[..i];
      PrefixBytes(init, i);
    } else {
      assert nodes[..i] == nodes;
    }
  }

  lemma NextListed(nodes: seq<Node>, i: nat)
    requires i < |nodes|
    ensures ListingOf(nodes[..i + 1]) == ListingOf(nodes[..i]) + [Listed(nodes[i].name, Bytes(nodes[i].entry), nodes[i].entry.Dir?)]
    ensures ListingOf([]) == []
  {
    assert nodes[..i + 1][..i] == nodes[..i];
  }

  lemma NextNode(nodes: seq<Node>, i: nat)
    requires i < |nodes|
    ensures BytesAll(nodes[..i + 1]) == BytesAll(nodes[..i]) + Bytes(nodes[i].entry)
    ensures CountAll(nodes[..i + 1]) == CountAll(nodes[..i]) + Count(nodes[i].entry)
    ensures forall depth: nat, maxDepth: nat ::
              PlainAll(nodes[..i + 1], depth, maxDepth) == (PlainAll(nodes[..i], depth, maxDepth) && Plain(nodes[i].entry, depth, maxDepth))
  {
    assert nodes[..i + 1][..i] == nodes[..i];
  }

  // ------------------------------------------------------------------ the walk

  class Walker {
    const maxEntries: nat
    const maxDepth: nat
    var scanned: nat
    var skipped: nat
    var denied: nat
    var stop: Option<Stop>
    var entries: seq<Listed>
    /** Whether the caller has cancelled, and whether the deadline has passed, when the
        check before entry k looks. */
    const cancelled: nat -> bool
    const late: nat -> bool

    constructor (maxEntries: nat, maxDepth: nat, cancelled: nat -> bool, late: nat -> bool)
      ensures this.maxEntries == maxEntries && this.maxDepth == maxDepth
      ensures this.cancelled == cancelled && this.late == late
      ensures scanned == skipped == denied == 0 && stop == None && entries == []
    {
      this.maxEntries, this.maxDepth, this.cancelled, this.late := maxEntries, maxDepth, cancelled, late;
      scanned, skipped, denied, stop, entries := 0, 0, 0, None, [];
    }

    /** Every entry looked at had passed its check, and the stop reason is the one the next
        check met. */
    ghost predicate Valid()
      reads this`scanned, this`stop
    {
      scanned <= maxEntries && Quiet(0, scanned) && Honest(stop, scanned)
    }

    ghost predicate Honest(reason: Option<Stop>, k: nat) {
      && (reason == Some(Cancelled) ==> cancelled(k))
      && (reason == Some(Timeout) ==> late(k) && !cancelled(k))
      && (reason == Some(EntryCap) ==> k == maxEntries && !late(k) && !cancelled(k))
    }

    /** No check from entry a up to entry b is interrupted. */
    ghost predicate Quiet(a: nat, b: nat) {
      forall k: nat :: a <= k < b ==> !cancelled(k) && !late(k)
    }

    lemma DepthCapIsHonest(k: nat)
      ensures Honest(Some(DepthCap), k)
    {
    }

    lemma QuietSplit(a: nat, n: nat, m: nat)
      ensures Quiet(a, a + n + m) <==> Quiet(a, a + n) && Quiet(a + n, a + n + m)
      ensures m >= 1 ==> (Quiet(a + n, a + n + m) <==> !cancelled(a + n) && !late(a + n) && Quiet(a + n + 1, a + n + m))
      ensures Quiet(a, a)
    {
    }

    /** The check between entries. */
    method Expired() returns (over: bool)
      requires Valid()
      modifies this`stop
      ensures Valid() && over == stop.Some? && (old(stop).Some? ==> stop == old(stop))
      ensures old(stop).None? ==> (over <==> cancelled(scanned) || late(scanned) || scanned == maxEntries)
    {
      if stop.None? {
        if cancelled(scanned) {
          stop := Some(Cancelled);
        } else if late(scanned) {
          stop := Some(Timeout);
        } else if scanned >= maxEntries {
          stop := Some(EntryCap);
        }
      }
      over := stop.Some?;
    }

    /** The walk does not look behind the entry. */
    ghost predicate Shut(e: Entry, depth: nat) {
      match e
      case File(_) => false
      case Dir(open, _, _) => depth == maxDepth || !open.Opened?
      case _ => true
    }

    /** It is counted as denied; a shut entry is otherwise skipped, or ends the walk at the depth cap. */
    ghost predicate CountsDenied(e: Entry, depth: nat) {
      e.StatDenied? || (e.Dir? && depth != maxDepth && e.open.OpenDenied?)
    }

    /** One entry of a listing, after `expired` has let it pass. */
    method Look(node: Node, depth: nat) returns (size: nat)
      requires Valid() && stop.None? && scanned < maxEntries && !cancelled(scanned) && !late(scanned)
      modifies this`scanned, this`skipped, this`denied, this`stop, this`entries
      ensures Valid() && skipped >= old(skipped) && denied >= old(denied)
      ensures size <= Bytes(node.entry)
      ensures if depth == 0 then Sizes(entries) == Sizes(old(entries)) + size else entries == old(entries)
      ensures (stop.None? && denied == old(denied) && skipped == old(skipped)) <==>
              (Quiet(old(scanned) + 1, old(scanned) + Count(node.entry)) && Plain(node.entry, depth, maxDepth)
               && old(scanned) + Count(node.entry) <= maxEntries)
      ensures stop.None? && denied == old(denied) && skipped == old(skipped) ==>
                size == Bytes(node.entry) && scanned == old(scanned) + Count(node.entry)
      ensures Shut(node.entry, depth) ==>
                && stop == (if node.entry.Dir? && depth == maxDepth then Some(DepthCap) else None)
                && denied == old(denied) + (if CountsDenied(node.entry, depth) then 1 else 0)
                && skipped == old(skipped) + (if (node.entry.Dir? && depth == maxDepth) || CountsDenied(node.entry, depth) then 0 else 1)
                && size == 0 && scanned == old(scanned) + 1
      ensures depth == 0 && stop.None? && denied == old(denied) && skipped == old(skipped) ==>
                entries == old(entries) + [Listed(node.name, Bytes(node.entry), node.entry.Dir?)]
      decreases node
    {
      hide BytesAll, CountAll, PlainAll, Sizes;
      size := 0;
      scanned := scanned + 1;
      match node.entry {
        case StatDenied(_) => denied := denied + 1; return;
        case StatFailed(_) => skipped := skipped + 1; return;
        case Foreign(_) => skipped := skipped + 1; return;
        case Special => skipped := skipped + 1; return;
        case File(bytes) => size := bytes;
        case Dir(open, _, _) =>
          if depth == maxDepth {
            stop := Some(DepthCap);
          } else if open.OpenDenied? {
            denied := denied + 1;
          } else if open.OpenFailed? || open.OpenForeign? {
            skipped := skipped + 1;
          } else {
            var below := Walk(node.entry, depth + 1);
            match below {
              case Total(bytes) => size := bytes;
              case Raised => skipped := skipped + 1;
            }
          }
      }
      if depth == 0 {
        AppendListed(entries, Listed(node.name, size, node.entry.Dir?));
        entries := entries + [Listed(node.name, size, node.entry.Dir?)];
      }
    }

    /** The recursive walk of one opened directory. */
    method Walk(dir: Entry, depth: nat) returns (r: Outcome)
      requires dir.Dir? && Valid() && stop.None?
      modifies this`scanned, this`skipped, this`denied, this`stop, this`entries
      ensures Valid() && skipped >= old(skipped) && denied >= old(denied)
      ensures r.Total? ==> r.bytes <= BytesAll(dir.children)
      ensures if depth == 0 then Sizes(entries) <= Sizes(old(entries)) + BytesAll(dir.children) else entries == old(entries)
      ensures depth == 0 && r.Total? ==> Sizes(entries) == Sizes(old(entries)) + r.bytes
      ensures (r.Total? && stop.None? && denied == old(denied) && skipped == old(skipped)) <==>
              (Quiet(old(scanned), old(scanned) + CountAll(dir.children))
               && dir.scan.Complete? && depth <= maxDepth && PlainAll(dir.children, depth, maxDepth)
               && old(scanned) + CountAll(dir.children) <= maxEntries)
      ensures r.Total? && stop.None? && denied == old(denied) && skipped == old(skipped) ==>
                r.bytes == BytesAll(dir.children) && scanned == old(scanned) + CountAll(dir.children)
      ensures (depth == 0 && r.Total? && stop.None? && denied == old(denied) && skipped == old(skipped)) ==>
                entries == old(entries) + ListingOf(dir.children)
      decreases dir
    {
      hide Bytes, Count, Plain, Sizes, BytesAll, CountAll, PlainAll, Quiet, ListingOf, Honest, Shut, CountsDenied;
      EmptyDir();
      DepthCapIsHonest(scanned);
      QuietSplit(scanned, 0, 0);
      if depth > maxDepth {
        stop := Some(DepthCap);
        return Total(0);
      }
      var nodes := dir.children;
      var n := if dir.scan.Complete? then |nodes| else if dir.scan.after < |nodes| then dir.scan.after else |nodes|;
      var total: nat, i: nat := 0, 0;
      assert nodes[..0] == [];
      while i < n
        invariant 0 <= i <= n && Valid() && skipped >= old(skipped) && denied >= old(denied)
        invariant total <= BytesAll(nodes[..i])
        invariant if depth == 0 then Sizes(entries) == Sizes(old(entries)) + total else entries == old(entries)
        invariant (stop.None? && denied == old(denied) && skipped == old(skipped)) <==>
                  (Quiet(old(scanned), old(scanned) + CountAll(nodes[..i]))
                   && PlainAll(nodes[..i], depth, maxDepth) && old(scanned) + CountAll(nodes[..i]) <= maxEntries)
        invariant stop.None? && denied == old(denied) && skipped == old(skipped) ==>
                    total == BytesAll(nodes[..i]) && scanned == old(scanned) + CountAll(nodes[..i])
        invariant depth == 0 && stop.None? && denied == old(denied) && skipped == old(skipped) ==>
                    entries == old(entries) + ListingOf(nodes[..i])
        decreases n - i
      {
        NextNode(nodes, i);
        NextListed(nodes, i);
        PrefixBytes(nodes, i);
        PrefixBytes(nodes, i + 1);
        CountPositive(nodes[i].entry);
        QuietSplit(old(scanned), CountAll(nodes[..i]), Count(nodes[i].entry));
        QuietSplit(old(scanned), CountAll(nodes[..i + 1]), CountAll(nodes) - CountAll(nodes[..i + 1]));
        var over := Expired();
        if over {
          return Total(total);
        }
        NodeInside(dir, i);
        var size := Look(nodes[i], depth);
        total := total + size;
        i := i + 1;
      }
      PrefixBytes(nodes, n);
      assert n == |nodes| ==> nodes[..n] == nodes;
      match dir.scan {
        case Complete => r := Total(total);
        case ScanDenied(_) => denied := denied + 1; r := Total(total);
        case ScanFailed(_) => r := Raised;
      }
    }
  }

  datatype Outcome = Total(bytes: nat) | Raised

  lemma EmptyDir()
    ensures BytesAll([]) == 0 && CountAll([]) == 0 && ListingOf([]) == [] && forall d: nat, m: nat :: PlainAll([], d, m)
  {
  }

  lemma CountPositive(e: Entry)
    ensures Count(e) >= 1
  {
  }

  lemma NodeInside(dir: Entry, i: nat)
    requires dir.Dir? && i < |dir.children|
    ensures dir.children[i] < dir
  {
  }

  lemma AppendListed(listed: seq<Listed>, l: Listed)
    ensures Sizes(listed + [l]) == Sizes(listed) + l.size
  {
    assert (listed + [l])[..|listed|] == listed;
  }

  /** `query_disk_space` on an opened target directory.  The walk never reports more than
      there is, and calls itself complete exactly when it saw all of it: no cancellation,
      timeout, denial, skipped entry, depth or entry cap anywhere below.  No entry is looked
      at once the caller has cancelled or the deadline has passed, and the reason given for
      stopping is the true one. */
  method QueryDiskSpace(target: Entry, maxEntries: nat, maxDepth: nat, cancelled: nat -> bool, late: nat -> bool)
    returns (scanned: nat, bytesObserved: nat, listed: seq<Listed>, stop: Option<Stop>, complete: bool)
    requires target.Dir?
    ensures scanned <= maxEntries && bytesObserved <= BytesAll(target.children)
    ensures complete <==>
              (target.scan.Complete? && PlainAll(target.children, 0, maxDepth) && CountAll(target.children) <= maxEntries
               && forall k: nat :: k < CountAll(target.children) ==> !cancelled(k) && !late(k))
    ensures complete ==> stop == None && bytesObserved == BytesAll(target.children) && scanned == CountAll(target.children)
    ensures bytesObserved == Sizes(listed) && (complete ==> listed == ListingOf(target.children))
    ensures forall k: nat :: k < scanned ==> !cancelled(k) && !late(k)
    ensures stop == Some(Cancelled) ==> cancelled(scanned)
    ensures stop == Some(Timeout) ==> late(scanned) && !cancelled(scanned)
    ensures stop == Some(EntryCap) ==> scanned == maxEntries
  {
    var walker := new Walker(maxEntries, maxDepth, cancelled, late);
    var r := walker.Walk(target, 0);
    if r.Raised? && walker.stop.None? {
      walker.stop := Some(SourceError);
    }
    scanned, stop := walker.scanned, walker.stop;
    listed := walker.entries;
    bytesObserved := Sizes(listed);
    complete := walker.stop.None? && walker.denied == 0 && walker.skipped == 0;
  }
}
