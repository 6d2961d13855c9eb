/** The process tree view: parent links resolved in one capture, rows listed parent
    before child by an explicit stack, cycles included. */
module ProcessTree {
  import opened Common

  /** A captured row; a field of the wrong type is absent. */
  datatype Process = Process(pid: Option<int>, ppid: Option<int>, startTicks: Option<int>, observed: int)

  datatype Link = Root | UnavailableInCapture | AmbiguousPid | Linked | FilteredOut | Mismatch | InvalidCycle

  /** Rows by position in the capture.  `nodes` are the selected rows in (pid, start) order. */
  datatype Graph = Graph(nodes: seq<nat>, parent: map<nat, nat>)

  datatype Visit = Visit(node: nat, depth: nat)

  // ---------------------------------------------------------------- the links

  /** The captured rows with a given positive pid. */
  function RowsWithPid(captured: seq<Process>, pid: int): (rows: seq<nat>)
    ensures forall i: nat :: i in rows <==> i < |captured| && captured[i].pid == Some(pid)
  {
    if captured == [] then []
    else
      var n := |captured| - 1;
      var rest := RowsWithPid(captured[..n], pid);
      if captured[n].pid == Some(pid) then rest + [n] else rest
  }

  /** How a selected row's parent pid resolves, and to which row. */
  function Resolve(captured: seq<Process>, selected: set<nat>, i: nat): (r: (Link, Option<nat>))
    requires i < |captured|
    ensures r.1.Some? <==> r.0.Linked?
    ensures r.1.Some? ==>
              var p := r.1.value;
              && p in selected && p < |captured| && p != i
              && captured[p].pid == captured[i].ppid
              && (forall q :: 0 <= q < |captured| && captured[q].pid == captured[p].pid ==> q == p)
              && captured[p].startTicks.Some? && captured[i].startTicks.Some?
              && captured[p].startTicks.value <= captured[i].startTicks.value
              && captured[p].observed == captured[i].observed
  {
    var row := captured[i];
    if row.ppid.None? || row.ppid.value <= 0 || row.ppid == row.pid then (Root, None)
    else
      var matches := RowsWithPid(captured, row.ppid.value);
      if |matches| == 0 then (UnavailableInCapture, None)
      else if |matches| > 1 then (AmbiguousPid, None)
      else
        var p := matches[0];
        OnlyMatch(captured, row.ppid.value);
        if row.startTicks.None? || captured[p].startTicks.None? || captured[p].startTicks.value > row.startTicks.value
           || captured[p].observed != row.observed then (Mismatch, None)
        else if p in selected then (Linked, Some(p))
        else (FilteredOut, None)
  }

  lemma OnlyMatch(captured: seq<Process>, pid: int)
    requires |RowsWithPid(captured, pid)| == 1
    ensures var p := RowsWithPid(captured, pid)[0];
            && p < |captured| && captured[p].pid == Some(pid)
            && forall q :: 0 <= q < |captured| && captured[q].pid == Some(pid) ==> q == p
  {
    var rows := RowsWithPid(captured, pid);
    assert rows[0] in rows;
    forall q | 0 <= q < |captured| && captured[q].pid == Some(pid) ensures q == rows[0] {
      assert q in rows;
    }
  }

  /** The captured rows with a pid, as a set. */
  ghost function Matching(captured: seq<Process>, pid: int): set<nat> {
    set q: nat | q < |captured| && captured[q].pid == Some(pid)
  }

  lemma {:induction false} RowsAreMatching(captured: seq<Process>, pid: int)
    ensures |RowsWithPid(captured, pid)| == |Matching(captured, pid)|
  {
    if captured != [] {
      var n := |captured| - 1;
      RowsAreMatching(captured[..n], pid);
      var before, after := Matching(captured[..n], pid), Matching(captured, pid);
      assert after == if captured[n].pid == Some(pid) then before + {n} else before;
    }
  }

  /** The row names a parent pid other than its own. */
  predicate HasParentPid(p: Process) {
    p.ppid.Some? && p.ppid.value > 0 && p.ppid != p.pid
  }

  /** The parent was observed at the same instant and did not start after its child. */
  predicate CouldBeParent(parent: Process, child: Process) {
    && parent.startTicks.Some? && child.startTicks.Some? && parent.startTicks.value <= child.startTicks.value
    && parent.observed == child.observed
  }

  /** Exactly when each link is reported. */
  lemma LinkIff(captured: seq<Process>, selected: set<nat>, i: nat)
    requires i < |captured|
    ensures var link, child := Resolve(captured, selected, i).0, captured[i];
            && (link.Root? <==> !HasParentPid(child))
            && (HasParentPid(child) ==>
                  var parents := Matching(captured, child.ppid.value);
                  && (link.UnavailableInCapture? <==> parents == {})
                  && (link.AmbiguousPid? <==> |parents| > 1)
                  && (link.Mismatch? <==> exists p :: parents == {p} && !CouldBeParent(captured[p], child))
                  && (link.FilteredOut? <==> exists p :: parents == {p} && CouldBeParent(captured[p], child) && p !in selected)
                  && (link.Linked? <==> exists p :: parents == {p} && CouldBeParent(captured[p], child) && p in selected))
  {
    hide RowsWithPid;
    var child := captured[i];
    if HasParentPid(child) {
      var parents := Matching(captured, child.ppid.value);
      RowsAreMatching(captured, child.ppid.value);
      if |RowsWithPid(captured, child.ppid.value)| == 1 {
        OnlyMatch(captured, child.ppid.value);
        assert parents == {RowsWithPid(captured, child.ppid.value)[0]};
      }
    }
  }

  /** What the link pass records for one row. */
  ghost predicate Recorded(captured: seq<Process>, chosen: set<nat>, i: nat, links: map<nat, Link>, parent: map<nat, nat>)
    requires i < |captured|
  {
    var r := Resolve(captured, chosen, i);
    && i in links && links[i] == r.0
    && (i in parent <==> r.1.Some?) && (i in parent ==> parent[i] == r.1.value)
  }

  /** The link pass over the selected rows. */
  method BuildGraph(captured: seq<Process>, selected: seq<nat>) returns (g: Graph, links: map<nat, Link>)
    requires forall k :: 0 <= k < |selected| ==> selected[k] < |captured|
    ensures g.nodes == selected && Closed(g) && LinksMatch(g, links)
    ensures forall k :: 0 <= k < |selected| ==>
              Recorded(captured, (set j | j in selected), selected[k], links, g.parent)
  {
    hide Resolve, RowsWithPid;
    var chosen := set j | j in selected;
    var parent: map<nat, nat> := map[];
    links := map[];
    for k := 0 to |selected|
      invariant forall i :: 0 <= i < k ==> Recorded(captured, chosen, selected[i], links, parent)
      invariant forall n :: n in parent ==> n in selected[..k] && parent[n] in selected
    {
      var i := selected[k];
      var (link, p) := Resolve(captured, chosen, i);
      ResolvesWithin(captured, chosen, i);
      links := links[i := link];
      parent := if p.Some? then parent[i := p.value] else parent;
      assert selected[..k + 1] == selected[..k] + [i];
      assert i in selected;
    }
    g := Graph(selected, parent);
    forall n | n in selected ensures n in links && (links[n].Linked? <==> n in parent) {
      var q :| 0 <= q < |selected| && selected[q] == n;
      assert Recorded(captured, chosen, selected[q], links, parent);
      ResolvesWithin(captured, chosen, n);
    }
  }

  lemma ResolvesWithin(captured: seq<Process>, chosen: set<nat>, i: nat)
    requires i < |captured|
    ensures var r := Resolve(captured, chosen, i);
            (r.1.Some? <==> r.0.Linked?) && (r.1.Some? ==> r.1.value in chosen)
  {
  }

  /** Links stay within the selected rows. */
  ghost predicate Closed(g: Graph) {
    forall n :: n in g.parent ==> n in g.nodes && g.parent[n] in g.nodes
  }

  // ------------------------------------------------------------- the traversal

  predicate IsChild(g: Graph, n: nat, c: nat) {
    c in g.parent && g.parent[c] == n
  }

  function FilterChildren(g: Graph, nodes: seq<nat>, n: nat): (out: seq<nat>)
    ensures forall c :: c in out <==> c in nodes && IsChild(g, n, c)
  {
    if nodes == [] then []
    else
      var rest := FilterChildren(g, nodes[..|nodes| - 1], n);
      if IsChild(g, n, nodes[|nodes| - 1]) then rest + [nodes[|nodes| - 1]] else rest
  }

  /** A row's linked children, in the order of the selection. */
  function Children(g: Graph, n: nat): seq<nat> {
    FilterChildren(g, g.nodes, n)
  }

  function At(nodes: seq<nat>, depth: nat): seq<Visit> {
    seq(|nodes|, i requires 0 <= i < |nodes| => Visit(nodes[i], depth))
  }

  function Unvisited(g: Graph, visited: set<nat>): set<nat> {
    set n | n in g.nodes && n !in visited
  }

  function Left(g: Graph, visited: set<nat>): nat {
    |Unvisited(g, visited)|
  }

  lemma LeftShrinks(g: Graph, visited: set<nat>, more: set<nat>, n: nat)
    requires n in g.nodes && n !in visited && visited + {n} <= more
    ensures Left(g, more) < Left(g, visited)
  {
    var a, b := Unvisited(g, visited), Unvisited(g, more);
    assert n in a && b <= a - {n};
    SubsetSize(b, a - {n});
    assert |a - {n}| == |a| - 1;
  }

  function Nodes(visits: seq<Visit>): set<nat> {
    set v | v in visits :: v.node
  }

  /** Recursive depth-first preorder of several subtrees, skipping rows already visited. */
  function Dfs(g: Graph, list: seq<Visit>, visited: set<nat>): seq<Visit>
    decreases Left(g, visited), |list|
  {
    if list == [] then []
    else if list[0].node in visited || list[0].node !in g.nodes then Dfs(g, list[1..], visited)
    else
      var v := list[0];
      LeftShrinks(g, visited, visited + {v.node}, v.node);
      var below := Dfs(g, At(Children(g, v.node), v.depth + 1), visited + {v.node});
      LeftShrinks(g, visited, visited + {v.node} + Nodes(below), v.node);
      [v] + below + Dfs(g, list[1..], visited + {v.node} + Nodes(below))
  }

  lemma NodesConcat(a: seq<Visit>, b: seq<Visit>)
    ensures Nodes(a + b) == Nodes(a) + Nodes(b)
  {
  }

  /** What a fresh row contributes below itself. */
  function Below(g: Graph, v: Visit, visited: set<nat>): seq<Visit> {
    Dfs(g, At(Children(g, v.node), v.depth + 1), visited + {v.node})
  }

  lemma DfsFresh(g: Graph, list: seq<Visit>, visited: set<nat>)
    requires list != [] && list[0].node !in visited && list[0].node in g.nodes
    ensures var v, below := list[0], Below(g, list[0], visited);
            && Dfs(g, list, visited) == [v] + below + Dfs(g, list[1..], visited + {v.node} + Nodes(below))
            && Left(g, visited + {v.node} + Nodes(below)) < Left(g, visited)
            && Left(g, visited + {v.node}) < Left(g, visited)
  {
    var v, below := list[0], Below(g, list[0], visited);
    LeftShrinks(g, visited, visited + {v.node}, v.node);
    LeftShrinks(g, visited, visited + {v.node} + Nodes(below), v.node);
  }

  lemma DfsStale(g: Graph, list: seq<Visit>, visited: set<nat>)
    requires list != [] && (list[0].node in visited || list[0].node !in g.nodes)
    ensures Dfs(g, list, visited) == Dfs(g, list[1..], visited)
  {
  }

  /** Traversing two lists is traversing one and then the other. */
  lemma {:induction false} DfsConcat(g: Graph, a: seq<Visit>, b: seq<Visit>, visited: set<nat>)
    ensures Dfs(g, a + b, visited) == Dfs(g, a, visited) + Dfs(g, b, visited + Nodes(Dfs(g, a, visited)))
    decreases Left(g, visited), |a|
  {
    hide Dfs, Left, Children, Below, Nodes;
    if a == [] {
      assert a + b == b;
      NothingLeft(g, visited);
    } else {
      assert (a + b)[1..] == a[1..] + b && (a + b)[0] == a[0];
      var v := a[0];
      if v.node in visited || v.node !in g.nodes {
        DfsStale(g, a, visited);
        DfsStale(g, a + b, visited);
        DfsConcat(g, a[1..], b, visited);
      } else {
        var below := Below(g, v, visited);
        var visited' := visited + {v.node} + Nodes(below);
        DfsFresh(g, a, visited);
        DfsFresh(g, a + b, visited);
        DfsConcat(g, a[1..], b, visited');
        VisitedAfter(v, below, Dfs(g, a[1..], visited'), visited);
      }
    }
  }

  lemma VisitedAfter(v: Visit, below: seq<Visit>, rest: seq<Visit>, visited: set<nat>)
    ensures visited + Nodes([v] + below + rest) == visited + {v.node} + Nodes(below) + Nodes(rest)
  {
    NodesConcat([v] + below, rest);
    NodesConcat([v], below);
  }

  /** One pop of the explicit stack. */
  lemma Pop(g: Graph, v: Visit, rest: seq<Visit>, visited: set<nat>)
    requires v.node in g.nodes && v.node !in visited
    ensures Dfs(g, [v] + rest, visited) == [v] + Dfs(g, At(Children(g, v.node), v.depth + 1) + rest, visited + {v.node})
  {
    hide Dfs, Left, Children, Nodes;
    assert ([v] + rest)[1..] == rest;
    DfsFresh(g, [v] + rest, visited);
    DfsConcat(g, At(Children(g, v.node), v.depth + 1), rest, visited + {v.node});
  }

  /** The nested `visit`; the stack is written top first. */
  method VisitFrom(g: Graph, start: nat, visited0: set<nat>, ordered0: seq<Visit>)
    returns (visited: set<nat>, ordered: seq<Visit>)
    requires Closed(g) && start in g.nodes
    ensures ordered == ordered0 + Dfs(g, [Visit(start, 0)], visited0)
    ensures visited == visited0 + Nodes(Dfs(g, [Visit(start, 0)], visited0))
  {
    hide Dfs, Children, Left;
    var pending := [Visit(start, 0)];
    visited, ordered := visited0, ordered0;
    ghost var done: seq<Visit> := [];
    while pending != []
      invariant forall v :: v in pending ==> v.node in g.nodes
      invariant ordered == ordered0 + done && visited == visited0 + Nodes(done)
      invariant done + Dfs(g, pending, visited) == Dfs(g, [Visit(start, 0)], visited0)
      decreases Left(g, visited), |pending|
    {
      var v, rest := pending[0], pending[1..];
      assert pending == [v] + rest && v in pending;
      if v.node in visited {
        SkipVisited(g, v, rest, visited);
        pending := rest;
      } else {
        Pop(g, v, rest, visited);
        LeftShrinks(g, visited, visited + {v.node}, v.node);
        NodesConcat(done, [v]);
        ChildrenAreNodes(g, v.node, v.depth + 1);
        visited, ordered, done := visited + {v.node}, ordered + [v], done + [v];
        pending := At(Children(g, v.node), v.depth + 1) + rest;
      }
    }
    NothingLeft(g, visited);
  }

  lemma SkipVisited(g: Graph, v: Visit, rest: seq<Visit>, visited: set<nat>)
    requires v.node in visited
    ensures Dfs(g, [v] + rest, visited) == Dfs(g, rest, visited)
  {
    assert ([v] + rest)[1..] == rest;
  }

  lemma NothingLeft(g: Graph, visited: set<nat>)
    ensures Dfs(g, [], visited) == [] && visited + Nodes([]) == visited
  {
  }

  lemma ChildrenAreNodes(g: Graph, n: nat, depth: nat)
    ensures forall v :: v in At(Children(g, n), depth) ==> v.node in g.nodes
  {
    forall v | v in At(Children(g, n), depth) ensures v.node in g.nodes {
      assert v.node in Children(g, n);
    }
  }

  // --------------------------------------------------- every row exactly once

  ghost predicate Distinct(visits: seq<Visit>) {
    forall i, j :: 0 <= i < j < |visits| ==> visits[i].node != visits[j].node
  }

  /** A traversal repeats nothing, revisits nothing, and misses nothing it was asked for. */
  lemma {:induction false} DfsOnce(g: Graph, list: seq<Visit>, visited: set<nat>)
    ensures var out := Dfs(g, list, visited);
            && Distinct(out) && Nodes(out) !! visited
            && (forall v :: v in out ==> v.node in g.nodes)
            && (forall v :: v in list && v.node in g.nodes ==> v.node in visited + Nodes(out))
    decreases Left(g, visited), |list|
  {
    hide Dfs, Left, Children, Distinct, Nodes, Below;
    if list == [] {
      NothingLeft(g, visited);
      EmptyOnce();
    } else {
      var v, rest := list[0], list[1..];
      assert list == [v] + rest;
      if v.node in visited || v.node !in g.nodes {
        DfsStale(g, list, visited);
        DfsOnce(g, rest, visited);
      } else {
        var below := Below(g, v, visited);
        var visited' := visited + {v.node} + Nodes(below);
        DfsFresh(g, list, visited);
        BelowOnce(g, v, visited);
        DfsOnce(g, rest, visited');
        var tail := Dfs(g, rest, visited');
        OnceConcat(v, below, tail);
        VisitedAfter(v, below, tail, {});
      }
    }
  }

  lemma BelowOnce(g: Graph, v: Visit, visited: set<nat>)
    requires v.node !in visited && v.node in g.nodes
    ensures var below := Below(g, v, visited);
            && Distinct(below) && Nodes(below) !! visited + {v.node}
            && (forall u :: u in below ==> u.node in g.nodes)
    decreases Left(g, visited), 0
  {
    hide Dfs, Left, Children, Distinct, Nodes;
    DfsFresh(g, [v], visited);
    DfsOnce(g, At(Children(g, v.node), v.depth + 1), visited + {v.node});
  }

  lemma EmptyOnce()
    ensures Distinct([]) && Nodes([]) == {}
  {
  }

  lemma OnceConcat(v: Visit, below: seq<Visit>, tail: seq<Visit>)
    requires Distinct(below) && Distinct(tail)
    requires v.node !in Nodes(below) && v.node !in Nodes(tail) && Nodes(below) !! Nodes(tail)
    ensures Distinct([v] + below + tail)
  {
    assert forall i :: 0 <= i < |below| ==> below[i] in below && below[i].node in Nodes(below);
    assert forall i :: 0 <= i < |tail| ==> tail[i] in tail && tail[i].node in Nodes(tail);
  }

  // ------------------------------------------------------- parents come first

  /** The row was asked for at this depth, or its parent appears earlier, one level up. */
  ghost predicate Placed(g: Graph, list: seq<Visit>, out: seq<Visit>, i: nat)
    requires i < |out|
  {
    || out[i] in list
    || (out[i].node in g.parent && exists j: nat :: j < i && out[j].node == g.parent[out[i].node] && out[i].depth == out[j].depth + 1)
  }

  ghost predicate AllPlaced(g: Graph, list: seq<Visit>, out: seq<Visit>) {
    forall i: nat :: i < |out| ==> Placed(g, list, out, i)
  }

  lemma {:induction false} ParentsFirst(g: Graph, list: seq<Visit>, visited: set<nat>)
    ensures AllPlaced(g, list, Dfs(g, list, visited))
    decreases Left(g, visited), |list|
  {
    hide Dfs, Left, Children, Below, AllPlaced;
    if list == [] {
      NothingLeft(g, visited);
      NonePlaced(g, list);
    } else {
      var v, rest := list[0], list[1..];
      if v.node in visited || v.node !in g.nodes {
        DfsStale(g, list, visited);
        ParentsFirst(g, rest, visited);
        PlacedMore(g, list, Dfs(g, rest, visited));
      } else {
        var below := Below(g, v, visited);
        DfsFresh(g, list, visited);
        assert below == Dfs(g, At(Children(g, v.node), v.depth + 1), visited + {v.node}) by { BelowIs(g, v, visited); }
        ParentsFirst(g, At(Children(g, v.node), v.depth + 1), visited + {v.node});
        ParentsFirst(g, rest, visited + {v.node} + Nodes(below));
        PlacedConcat(g, list, below, Dfs(g, rest, visited + {v.node} + Nodes(below)));
      }
    }
  }

  lemma BelowIs(g: Graph, v: Visit, visited: set<nat>)
    ensures Below(g, v, visited) == Dfs(g, At(Children(g, v.node), v.depth + 1), visited + {v.node})
  {
  }

  lemma NonePlaced(g: Graph, list: seq<Visit>)
    ensures AllPlaced(g, list, [])
  {
  }

  lemma PlacedMore(g: Graph, list: seq<Visit>, out: seq<Visit>)
    requires list != [] && AllPlaced(g, list[1..], out)
    ensures AllPlaced(g, list, out)
  {
    forall i: nat | i < |out| ensures Placed(g, list, out, i) {
      assert Placed(g, list[1..], out, i);
    }
  }

  lemma PlacedConcat(g: Graph, list: seq<Visit>, below: seq<Visit>, tail: seq<Visit>)
    requires list != []
    requires AllPlaced(g, At(Children(g, list[0].node), list[0].depth + 1), below)
    requires AllPlaced(g, list[1..], tail)
    ensures AllPlaced(g, list, [list[0]] + below + tail)
  {
    var v := list[0];
    var out := [v] + below + tail;
    forall i: nat | i < |out| ensures Placed(g, list, out, i) {
      if 1 <= i < 1 + |below| {
        assert out[i] == below[i - 1] && Placed(g, At(Children(g, v.node), v.depth + 1), below, i - 1);
        if out[i] in At(Children(g, v.node), v.depth + 1) {
          assert out[i].node in Children(g, v.node) && out[0] == v;
        } else {
          var j: nat :| j < i - 1 && below[j].node == g.parent[out[i].node] && out[i].depth == below[j].depth + 1;
          assert out[j + 1] == below[j];
        }
      } else if i > |below| {
        var k := i - 1 - |below|;
        assert out[i] == tail[k] && Placed(g, list[1..], tail, k);
        if out[i] !in list[1..] {
          var j: nat :| j < k && tail[j].node == g.parent[out[i].node] && out[i].depth == tail[j].depth + 1;
          assert out[j + 1 + |below|] == tail[j];
        }
      }
    }
  }

  // ------------------------------------- acyclic parts are in plain preorder

  /** k parent links up from a row. */
  function Up(g: Graph, n: nat, k: nat): Option<nat>
    decreases k
  {
    if k == 0 then Some(n)
    else if n in g.parent then Up(g, g.parent[n], k - 1)
    else None
  }

  ghost predicate Descends(g: Graph, m: nat, n: nat) {
    exists k: nat :: Up(g, m, k) == Some(n)
  }

  /** The chain of parents ends. */
  ghost predicate Rooted(g: Graph, n: nat) {
    exists k: nat :: RootedIn(g, n, k)
  }

  ghost predicate RootedIn(g: Graph, n: nat, k: nat) {
    Up(g, n, k).Some? && Up(g, n, k).value !in g.parent
  }

  lemma {:induction false} UpAdds(g: Graph, n: nat, a: nat, b: nat)
    requires Up(g, n, a).Some?
    ensures Up(g, n, a + b) == Up(g, Up(g, n, a).value, b)
    decreases a
  {
    if a > 0 {
      UpAdds(g, g.parent[n], a - 1, b);
    }
  }

  lemma {:induction false} NoCycle(g: Graph, n: nat, k: nat, c: nat)
    requires RootedIn(g, n, k) && c > 0
    ensures Up(g, n, c) != Some(n)
    decreases k
  {
    if k > 0 && Up(g, n, c) == Some(n) {
      var p := g.parent[n];
      UpAdds(g, p, c - 1, 1);
      NoCycle(g, p, k - 1, c);
    }
  }

  ghost predicate Apart(g: Graph, a: nat, b: nat) {
    forall m: nat :: !(Descends(g, m, a) && Descends(g, m, b))
  }

  lemma Meet(g: Graph, m: nat, a: nat, j: nat, b: nat, k: nat)
    requires Up(g, m, j) == Some(a) && Up(g, m, k) == Some(b) && j <= k
    ensures Up(g, a, k - j) == Some(b)
  {
    UpAdds(g, m, j, k - j);
  }

  /** Two children of a rooted row have no descendant in common. */
  lemma SiblingsApart(g: Graph, n: nat, a: nat, b: nat)
    requires Rooted(g, n) && IsChild(g, n, a) && IsChild(g, n, b) && a != b
    ensures Apart(g, a, b)
  {
    forall m: nat, j: nat, k: nat ensures !(Up(g, m, j) == Some(a) && Up(g, m, k) == Some(b)) {
      if j <= k {
        SiblingCycle(g, n, m, a, j, b, k);
      } else {
        SiblingCycle(g, n, m, b, k, a, j);
      }
    }
  }

  lemma SiblingCycle(g: Graph, n: nat, m: nat, a: nat, j: nat, b: nat, k: nat)
    requires Rooted(g, n) && IsChild(g, n, a) && IsChild(g, n, b) && a != b && j <= k
    ensures !(Up(g, m, j) == Some(a) && Up(g, m, k) == Some(b))
  {
    if Up(g, m, j) == Some(a) && Up(g, m, k) == Some(b) {
      var r: nat :| RootedIn(g, n, r);
      Meet(g, m, a, j, b, k);
      UpAdds(g, n, k - j - 1, 1);
      NoCycle(g, n, r, k - j);
    }
  }

  lemma RootsApart(g: Graph, a: nat, b: nat)
    requires a !in g.parent && b !in g.parent && a != b
    ensures Apart(g, a, b)
  {
    forall m: nat, j: nat, k: nat ensures !(Up(g, m, j) == Some(a) && Up(g, m, k) == Some(b)) {
      if Up(g, m, j) == Some(a) && Up(g, m, k) == Some(b) {
        if j <= k {
          Meet(g, m, a, j, b, k);
        } else {
          Meet(g, m, b, k, a, j);
        }
      }
    }
  }

  lemma ChildFacts(g: Graph, n: nat, c: nat)
    requires Rooted(g, n) && IsChild(g, n, c)
    ensures Rooted(g, c) && !Descends(g, n, c)
    ensures forall m: nat :: Descends(g, m, c) ==> Descends(g, m, n)
  {
    var r: nat :| RootedIn(g, n, r);
    assert RootedIn(g, c, r + 1);
    if k: nat :| Up(g, n, k) == Some(c) {
      UpAdds(g, n, k, 1);
      assert Up(g, n, k + 1) == Some(n);
      NoCycle(g, n, r, k + 1);
    }
    forall m: nat | Descends(g, m, c) ensures Descends(g, m, n) {
      var k: nat :| Up(g, m, k) == Some(c);
      UpAdds(g, m, k, 1);
      assert Up(g, m, k + 1) == Some(n);
    }
  }

  /** Textbook preorder; only a row that is its own ancestor is cut off. */
  function Preorder(g: Graph, list: seq<nat>, depth: nat, path: set<nat>): seq<Visit>
    decreases Left(g, path), |list|
  {
    if list == [] then []
    else if list[0] in path || list[0] !in g.nodes then Preorder(g, list[1..], depth, path)
    else
      LeftShrinks(g, path, path + {list[0]}, list[0]);
      [Visit(list[0], depth)] + Preorder(g, Children(g, list[0]), depth + 1, path + {list[0]})
        + Preorder(g, list[1..], depth, path)
  }

  /** Rows with ended parent chains, pairwise unrelated and untouched so far. */
  ghost predicate Forest(g: Graph, list: seq<nat>, visited: set<nat>) {
    && (forall c :: c in list ==> c in g.nodes && Rooted(g, c))
    && (forall i, j :: 0 <= i < j < |list| ==> Apart(g, list[i], list[j]))
    && (forall c, m: nat :: c in list && m in visited ==> !Descends(g, m, c))
  }

  ghost predicate UnderSome(g: Graph, list: seq<nat>, out: seq<Visit>) {
    forall v :: v in out ==> exists c :: c in list && Descends(g, v.node, c)
  }

  lemma DescendsSelf(g: Graph, n: nat)
    ensures Descends(g, n, n)
  {
    assert Up(g, n, 0) == Some(n);
  }

  ghost predicate NoRepeats(nodes: seq<nat>) {
    forall i, j :: 0 <= i < j < |nodes| ==> nodes[i] != nodes[j]
  }

  lemma {:induction false} DistinctChildren(g: Graph, nodes: seq<nat>, n: nat)
    requires NoRepeats(nodes)
    ensures NoRepeats(FilterChildren(g, nodes, n))
  {
    if nodes != [] {
      DistinctChildren(g, nodes[..|nodes| - 1], n);
      var rest := FilterChildren(g, nodes[..|nodes| - 1], n);
      forall k | 0 <= k < |rest| ensures rest[k] != nodes[|nodes| - 1] {
        assert rest[k] in rest && rest[k] in nodes[..|nodes| - 1];
      }
    }
  }

  ghost predicate DistinctNodes(g: Graph) {
    NoRepeats(g.nodes)
  }

  /** The children of a rooted row make a forest of their own. */
  lemma ChildForest(g: Graph, n: nat, visited: set<nat>)
    requires DistinctNodes(g) && Rooted(g, n) && forall m: nat :: m in visited ==> !Descends(g, m, n)
    ensures Forest(g, Children(g, n), visited + {n})
  {
    hide Rooted, Apart, Descends;
    var cs := Children(g, n);
    DistinctChildren(g, g.nodes, n);
    forall c | c in cs
      ensures c in g.nodes && Rooted(g, c) && forall m: nat :: m in visited + {n} ==> !Descends(g, m, c)
    {
      ChildFacts(g, n, c);
    }
    forall i, j | 0 <= i < j < |cs| ensures Apart(g, cs[i], cs[j]) {
      assert cs[i] in cs && cs[j] in cs;
      SiblingsApart(g, n, cs[i], cs[j]);
    }
  }

  /** After the first tree has been listed, the others are still untouched. */
  lemma RestForest(g: Graph, list: seq<nat>, visited: set<nat>, below: seq<Visit>)
    requires list != [] && Forest(g, list, visited)
    requires forall v :: v in below ==> Descends(g, v.node, list[0])
    ensures Forest(g, list[1..], visited + {list[0]} + Nodes(below))
  {
    hide Rooted, Descends;
    var n := list[0];
    DescendsSelf(g, n);
    forall c, m: nat | c in list[1..] && m in visited + {n} + Nodes(below) ensures !Descends(g, m, c) {
      var j :| 1 <= j < |list| && list[j] == c;
      assert Apart(g, list[0], list[j]);
    }
  }

  /** On a forest the traversal with its visited set is the plain preorder. */
  lemma {:induction false} ForestPreorder(g: Graph, list: seq<nat>, depth: nat, visited: set<nat>, path: set<nat>)
    requires DistinctNodes(g) && Forest(g, list, visited)
    requires forall c, m: nat :: c in list && m in path ==> !Descends(g, m, c)
    ensures Dfs(g, At(list, depth), visited) == Preorder(g, list, depth, path)
    ensures UnderSome(g, list, Dfs(g, At(list, depth), visited))
    decreases Left(g, visited), |list|
  {
    hide Dfs, Left, Children, Below, Preorder, Descends, Rooted, Apart, Nodes;
    if list == [] {
      assert At(list, depth) == [];
      NothingLeft(g, visited);
      NoPreorder(g, depth, path);
    } else {
      var n, v := list[0], Visit(list[0], depth);
      assert n in list;
      DescendsSelf(g, n);
      assert n !in visited && n !in path;
      assert At(list, depth)[1..] == At(list[1..], depth) && At(list, depth)[0] == v;
      DfsFresh(g, At(list, depth), visited);
      PreorderFresh(g, list, depth, path);
      BelowIs(g, v, visited);
      assert forall m: nat :: m in visited || m in path ==> !Descends(g, m, n);
      ChildForest(g, n, visited);
      ChildForest(g, n, path);
      ForestPreorder(g, Children(g, n), depth + 1, visited + {n}, path + {n});
      var below := Below(g, v, visited);
      UnderChildren(g, n, below);
      RestForest(g, list, visited, below);
      assert forall c :: c in list[1..] ==> c in list;
      ForestPreorder(g, list[1..], depth, visited + {n} + Nodes(below), path);
      UnderConcat(g, list, v, below, Dfs(g, At(list[1..], depth), visited + {n} + Nodes(below)));
    }
  }

  lemma NoPreorder(g: Graph, depth: nat, path: set<nat>)
    ensures Preorder(g, [], depth, path) == []
  {
  }

  lemma PreorderFresh(g: Graph, list: seq<nat>, depth: nat, path: set<nat>)
    requires list != [] && list[0] !in path && list[0] in g.nodes
    ensures Preorder(g, list, depth, path) ==
            [Visit(list[0], depth)] + Preorder(g, Children(g, list[0]), depth + 1, path + {list[0]})
              + Preorder(g, list[1..], depth, path)
  {
  }

  lemma UnderChildren(g: Graph, n: nat, below: seq<Visit>)
    requires Rooted(g, n) && UnderSome(g, Children(g, n), below)
    ensures forall v :: v in below ==> Descends(g, v.node, n)
  {
    hide Rooted;
    forall v | v in below ensures Descends(g, v.node, n) {
      var c :| c in Children(g, n) && Descends(g, v.node, c);
      ChildFacts(g, n, c);
    }
  }

  lemma UnderConcat(g: Graph, list: seq<nat>, v: Visit, below: seq<Visit>, tail: seq<Visit>)
    requires list != [] && v.node == list[0]
    requires forall u :: u in below ==> Descends(g, u.node, list[0])
    requires UnderSome(g, list[1..], tail)
    ensures UnderSome(g, list, [v] + below + tail)
  {
    hide Descends;
    DescendsSelf(g, v.node);
    forall u | u in [v] + below + tail ensures exists c :: c in list && Descends(g, u.node, c) {
      if u in tail {
        var c :| c in list[1..] && Descends(g, u.node, c);
        assert c in list;
      } else {
        assert list[0] in list && Descends(g, u.node, list[0]);
      }
    }
  }

  // --------------------------------------------------------------- both passes

  function RootsIn(g: Graph, nodes: seq<nat>): (out: seq<nat>)
    ensures forall n :: n in out <==> n in nodes && n !in g.parent
  {
    if nodes == [] then []
    else
      var rest := RootsIn(g, nodes[..|nodes| - 1]);
      if nodes[|nodes| - 1] in g.parent then rest else rest + [nodes[|nodes| - 1]]
  }

  /** The row at i comes after its parent and one level deeper. */
  ghost predicate AfterParent(g: Graph, ordered: seq<Visit>, i: nat)
    requires i < |ordered|
  {
    && ordered[i].node in g.parent
    && exists j: nat :: j < i && ordered[j].node == g.parent[ordered[i].node] && ordered[i].depth == ordered[j].depth + 1
  }

  ghost predicate LinkedAfterParents(g: Graph, links: map<nat, Link>, ordered: seq<Visit>) {
    forall i: nat :: i < |ordered| && ordered[i].node in links && links[ordered[i].node].Linked? ==> AfterParent(g, ordered, i)
  }

  /** A visit started at a row that is not (or no longer) linked keeps the promise. */
  lemma VisitKeepsParents(g: Graph, links: map<nat, Link>, ordered: seq<Visit>, n: nat, visited: set<nat>)
    requires LinkedAfterParents(g, links, ordered) && n in links && !links[n].Linked?
    ensures LinkedAfterParents(g, links, ordered + Dfs(g, [Visit(n, 0)], visited))
  {
    hide Dfs;
    var out := Dfs(g, [Visit(n, 0)], visited);
    ParentsFirst(g, [Visit(n, 0)], visited);
    var all := ordered + out;
    forall i: nat | i < |all| && all[i].node in links && links[all[i].node].Linked? ensures AfterParent(g, all, i) {
      if i < |ordered| {
        assert AfterParent(g, ordered, i);
        var j: nat :| j < i && ordered[j].node == g.parent[ordered[i].node] && ordered[i].depth == ordered[j].depth + 1;
        assert all[j] == ordered[j];
      } else {
        assert Placed(g, [Visit(n, 0)], out, i - |ordered|);
        var j: nat :| j < i - |ordered| && out[j].node == g.parent[all[i].node] && all[i].depth == out[j].depth + 1;
        assert all[j + |ordered|] == out[j];
      }
    }
  }

  /** Appending one start row to the list of start rows. */
  lemma OneMoreStart(g: Graph, list: seq<nat>, n: nat, prefix: seq<Visit>)
    ensures var done := Dfs(g, prefix + At(list, 0), {});
            Dfs(g, prefix + At(list + [n], 0), {}) == done + Dfs(g, [Visit(n, 0)], Nodes(done))
  {
    hide Dfs;
    assert prefix + At(list + [n], 0) == prefix + At(list, 0) + [Visit(n, 0)];
    DfsConcat(g, prefix + At(list, 0), [Visit(n, 0)], {});
    assert {} + Nodes(Dfs(g, prefix + At(list, 0), {})) == Nodes(Dfs(g, prefix + At(list, 0), {}));
  }

  // ------------------------------------------------- which rows a traversal reaches

  /** A finished traversal has visited the children of every row it lists. */
  lemma {:induction false} DfsCloses(g: Graph, list: seq<Visit>, visited: set<nat>)
    ensures forall v, c :: v in Dfs(g, list, visited) && IsChild(g, v.node, c) && c in g.nodes ==>
                             c in visited + Nodes(Dfs(g, list, visited))
    decreases Left(g, visited), |list|
  {
    hide Dfs, Left, Nodes, Children;
    if list == [] {
      NothingLeft(g, visited);
    } else {
      var v, rest := list[0], list[1..];
      if v.node in visited || v.node !in g.nodes {
        DfsStale(g, list, visited);
        DfsCloses(g, rest, visited);
      } else {
        DfsFresh(g, list, visited);
        var below, inner := Below(g, v, visited), visited + {v.node};
        BelowIs(g, v, visited);
        DfsCloses(g, At(Children(g, v.node), v.depth + 1), inner);
        ChildrenReached(g, v, inner);
        DfsCloses(g, rest, inner + Nodes(below));
        VisitedAfter(v, below, Dfs(g, rest, inner + Nodes(below)), visited);
      }
    }
  }

  lemma ChildrenReached(g: Graph, v: Visit, visited: set<nat>)
    ensures forall c :: IsChild(g, v.node, c) && c in g.nodes ==>
                          c in visited + Nodes(Dfs(g, At(Children(g, v.node), v.depth + 1), visited))
  {
    hide Dfs;
    var list := At(Children(g, v.node), v.depth + 1);
    DfsOnce(g, list, visited);
    forall c | IsChild(g, v.node, c) && c in g.nodes ensures c in visited + Nodes(Dfs(g, list, visited)) {
      assert c in Children(g, v.node);
      var i: nat :| i < |Children(g, v.node)| && Children(g, v.node)[i] == c;
      assert list[i] == Visit(c, v.depth + 1);
      assert list[i] in list;
    }
  }

  lemma DescendsVia(g: Graph, c: nat, p: nat, a: nat)
    requires IsChild(g, p, c) && Descends(g, p, a)
    ensures Descends(g, c, a)
  {
    var k: nat :| Up(g, p, k) == Some(a);
    assert Up(g, c, k + 1) == Some(a);
  }

  ghost predicate FromList(g: Graph, list: seq<Visit>, m: nat) {
    exists u :: u in list && Descends(g, m, u.node)
  }

  lemma {:induction false} ListedDescend(g: Graph, list: seq<Visit>, out: seq<Visit>, i: nat)
    requires AllPlaced(g, list, out) && i < |out|
    ensures FromList(g, list, out[i].node)
    decreases i
  {
    hide Descends;
    assert Placed(g, list, out, i);
    if out[i] in list {
      DescendsSelf(g, out[i].node);
    } else {
      var j: nat :| j < i && out[j].node == g.parent[out[i].node] && out[i].depth == out[j].depth + 1;
      ListedDescend(g, list, out, j);
      var u :| u in list && Descends(g, out[j].node, u.node);
      DescendsVia(g, out[i].node, out[j].node, u.node);
    }
  }

  lemma {:induction false} DescendantsIn(g: Graph, reached: set<nat>, m: nat, k: nat, a: nat)
    requires Closed(g) && m in g.nodes && a in reached && Up(g, m, k) == Some(a)
    requires forall p, c :: p in reached && IsChild(g, p, c) && c in g.nodes ==> c in reached
    ensures m in reached
    decreases k
  {
    if k > 0 {
      DescendantsIn(g, reached, g.parent[m], k - 1, a);
      assert IsChild(g, g.parent[m], m);
    }
  }

  /** A traversal reaches exactly the rows that descend from one of its starts. */
  lemma ReachedIff(g: Graph, list: seq<Visit>, m: nat)
    requires Closed(g) && m in g.nodes && forall u :: u in list ==> u.node in g.nodes
    ensures m in Nodes(Dfs(g, list, {})) <==> FromList(g, list, m)
  {
    hide Dfs, Closed, AllPlaced, Descends;
    var out := Dfs(g, list, {});
    ParentsFirst(g, list, {});
    DfsCloses(g, list, {});
    DfsOnce(g, list, {});
    if m in Nodes(out) {
      var i: nat :| i < |out| && out[i].node == m;
      ListedDescend(g, list, out, i);
    }
    if FromList(g, list, m) {
      var u :| u in list && Descends(g, m, u.node);
      ReachedBelow(g, Nodes(out), m, u.node);
    }
  }

  lemma ReachedBelow(g: Graph, reached: set<nat>, m: nat, a: nat)
    requires Closed(g) && m in g.nodes && a in reached && Descends(g, m, a)
    requires forall p, c :: p in reached && IsChild(g, p, c) && c in g.nodes ==> c in reached
    ensures m in reached
  {
    var k: nat :| Up(g, m, k) == Some(a);
    DescendantsIn(g, reached, m, k, a);
  }

  lemma {:induction false} UpStays(g: Graph, n: nat, k: nat)
    requires Closed(g) && n in g.nodes && Up(g, n, k).Some?
    ensures Up(g, n, k).value in g.nodes
    decreases k
  {
    if k > 0 {
      UpStays(g, g.parent[n], k - 1);
    }
  }

  /** The rows under the roots are exactly those whose parent chain ends. */
  lemma RootedIff(g: Graph, n: nat)
    requires Closed(g) && n in g.nodes
    ensures Rooted(g, n) <==> FromList(g, At(RootsIn(g, g.nodes), 0), n)
  {
    hide Closed;
    var roots := RootsIn(g, g.nodes);
    if Rooted(g, n) {
      var k: nat :| RootedIn(g, n, k);
      var a := Up(g, n, k).value;
      UpStays(g, n, k);
      assert a in roots && Descends(g, n, a);
      var i: nat :| i < |roots| && roots[i] == a;
      assert At(roots, 0)[i] == Visit(a, 0);
      assert Visit(a, 0) in At(roots, 0);
    }
    if FromList(g, At(roots, 0), n) {
      var u :| u in At(roots, 0) && Descends(g, n, u.node);
      var i: nat :| i < |roots| && At(roots, 0)[i] == u;
      assert roots[i] in roots;
      var k: nat :| Up(g, n, k) == Some(u.node);
      assert RootedIn(g, n, k);
    }
  }

  lemma AtMembers(g: Graph, nodes: seq<nat>)
    ensures forall u :: u in At(nodes, 0) <==> u.depth == 0 && u.node in nodes
  {
    forall u: Visit | u.depth == 0 && u.node in nodes ensures u in At(nodes, 0) {
      var i: nat :| i < |nodes| && nodes[i] == u.node;
      assert At(nodes, 0)[i] == u;
    }
  }

  lemma RootStartsAreNodes(g: Graph)
    ensures forall u :: u in At(RootsIn(g, g.nodes), 0) ==> u.node in g.nodes
  {
    AtMembers(g, RootsIn(g, g.nodes));
  }

  /** The row's parent chain never ends and no row before it in the selection is on it. */
  ghost predicate StartsCycle(g: Graph, i: nat)
    requires i < |g.nodes|
  {
    !Rooted(g, g.nodes[i]) && forall j :: 0 <= j < i ==> !Descends(g, g.nodes[i], g.nodes[j])
  }

  /** When the second pass comes to row i, it is still unseen exactly in that case. */
  lemma UnseenIff(g: Graph, i: nat)
    requires Closed(g) && i < |g.nodes|
    ensures g.nodes[i] !in Nodes(Dfs(g, At(RootsIn(g, g.nodes), 0) + At(g.nodes[..i], 0), {})) <==> StartsCycle(g, i)
  {
    hide Dfs, Closed, Descends, Rooted, At, RootsIn;
    var n, earlier := g.nodes[i], g.nodes[..i];
    var roots, rest := At(RootsIn(g, g.nodes), 0), At(earlier, 0);
    RootStartsAreNodes(g);
    AtMembers(g, earlier);
    ReachedIff(g, roots + rest, n);
    RootedIff(g, n);
    forall u ensures u in roots + rest <==> u in roots || u in rest {
    }
    if j :| 0 <= j < i && Descends(g, n, g.nodes[j]) {
      assert earlier[j] == g.nodes[j];
      assert Visit(g.nodes[j], 0) in rest;
      assert FromList(g, roots + rest, n);
    }
    if u :| u in rest && Descends(g, n, u.node) {
      var j: nat :| j < i && earlier[j] == u.node;
      assert Descends(g, n, g.nodes[j]);
    }
  }

  /** After the second pass has come to row i: which links were replaced. */
  ghost predicate CyclesMarked(g: Graph, links: map<nat, Link>, links': map<nat, Link>, i: nat) {
    && links'.Keys == links.Keys
    && forall k :: 0 <= k < |g.nodes| && g.nodes[k] in links ==>
         links'[g.nodes[k]] == if k < i && StartsCycle(g, k) then InvalidCycle else links[g.nodes[k]]
  }

  lemma CycleMark(g: Graph, links: map<nat, Link>, links': map<nat, Link>, i: nat, unseen: bool)
    requires i < |g.nodes| && DistinctNodes(g) && g.nodes[i] in links && CyclesMarked(g, links, links', i)
    requires unseen <==> StartsCycle(g, i)
    ensures CyclesMarked(g, links, if unseen then links'[g.nodes[i] := InvalidCycle] else links', i + 1)
  {
    hide StartsCycle;
  }

  lemma NoCyclesYet(g: Graph, links: map<nat, Link>)
    ensures CyclesMarked(g, links, links, 0)
  {
  }

  /** The first pass: every row without a linked parent starts a visit. */
  method VisitRoots(g: Graph, links: map<nat, Link>) returns (visited: set<nat>, ordered: seq<Visit>)
    requires Closed(g) && LinksMatch(g, links)
    ensures ordered == Dfs(g, At(RootsIn(g, g.nodes), 0), {}) && visited == Nodes(ordered)
    ensures LinkedAfterParents(g, links, ordered)
  {
    hide Dfs, Closed;
    visited, ordered := {}, [];
    NothingLeft(g, {});
    assert At(RootsIn(g, g.nodes[..0]), 0) == [];
    for i := 0 to |g.nodes|
      invariant ordered == Dfs(g, At(RootsIn(g, g.nodes[..i]), 0), {}) && visited == Nodes(ordered)
      invariant LinkedAfterParents(g, links, ordered)
    {
      var n := g.nodes[i];
      assert g.nodes[..i + 1][..i] == g.nodes[..i];
      if n !in g.parent {
        OneMoreStart(g, RootsIn(g, g.nodes[..i]), n, []);
        assert [] + At(RootsIn(g, g.nodes[..i]), 0) == At(RootsIn(g, g.nodes[..i]), 0);
        assert [] + At(RootsIn(g, g.nodes[..i]) + [n], 0) == At(RootsIn(g, g.nodes[..i]) + [n], 0);
        VisitKeepsParents(g, links, ordered, n, visited);
        NodesConcat(ordered, Dfs(g, [Visit(n, 0)], visited));
        visited, ordered := VisitFrom(g, n, visited, ordered);
      }
    }
    assert g.nodes[..|g.nodes|] == g.nodes;
  }

  ghost predicate LinksMatch(g: Graph, links: map<nat, Link>) {
    forall n :: n in g.nodes ==> n in links && (links[n].Linked? <==> n in g.parent)
  }

  /** Exactly the rows that start a visit although they have a linked parent are re-marked. */
  ghost predicate Marked(g: Graph, links: map<nat, Link>, links': map<nat, Link>, ordered: seq<Visit>) {
    && links'.Keys == links.Keys
    && (forall v :: v in ordered && v.node in links ==>
          links'[v.node] == if v.depth == 0 && v.node in g.parent then InvalidCycle else links[v.node])
    && (forall n :: n in links && n !in Nodes(ordered) ==> links'[n] == links[n])
  }

  /** Visits below a start are at positive depth. */
  lemma DepthsBelow(g: Graph, list: seq<Visit>, visited: set<nat>)
    ensures forall v :: v in Dfs(g, list, visited) && v.depth == 0 ==> v in list
  {
    hide Dfs;
    ParentsFirst(g, list, visited);
    var out := Dfs(g, list, visited);
    forall v | v in out && v.depth == 0 ensures v in list {
      var i: nat :| i < |out| && out[i] == v;
      assert Placed(g, list, out, i);
    }
  }

  lemma RootsUnmarked(g: Graph, links: map<nat, Link>)
    ensures Marked(g, links, links, Dfs(g, At(RootsIn(g, g.nodes), 0), {}))
  {
    hide Dfs;
    DepthsBelow(g, At(RootsIn(g, g.nodes), 0), {});
    forall v | v in At(RootsIn(g, g.nodes), 0) ensures v.node !in g.parent {
      var i: nat :| i < |RootsIn(g, g.nodes)| && At(RootsIn(g, g.nodes), 0)[i] == v;
      assert RootsIn(g, g.nodes)[i] in RootsIn(g, g.nodes);
    }
  }

  /** Every root is reached in the first pass, so a row still unseen has a parent. */
  lemma UnseenHasParent(g: Graph, rest: seq<Visit>, n: nat)
    requires n in g.nodes && n !in Nodes(Dfs(g, At(RootsIn(g, g.nodes), 0) + rest, {}))
    ensures n in g.parent
  {
    hide Dfs;
    DfsOnce(g, At(RootsIn(g, g.nodes), 0) + rest, {});
    RootIsListed(g, rest, n);
  }

  lemma RootIsListed(g: Graph, rest: seq<Visit>, n: nat)
    requires n in g.nodes
    ensures n !in g.parent ==> Visit(n, 0) in At(RootsIn(g, g.nodes), 0) + rest
  {
    var roots := RootsIn(g, g.nodes);
    if n !in g.parent {
      assert n in roots;
      var i: nat :| i < |roots| && roots[i] == n;
      assert (At(roots, 0) + rest)[i] == Visit(n, 0);
    }
  }

  lemma StartIsFirst(g: Graph, n: nat, visited: set<nat>)
    requires n in g.nodes && n !in visited
    ensures var out := Dfs(g, [Visit(n, 0)], visited);
            && Nodes(out) !! visited
            && (forall v :: v in out && v.node == n ==> v == Visit(n, 0))
            && (forall v :: v in out && v.depth == 0 ==> v.node == n)
  {
    hide Dfs, Below, Left;
    var out := Dfs(g, [Visit(n, 0)], visited);
    DfsOnce(g, [Visit(n, 0)], visited);
    DfsFresh(g, [Visit(n, 0)], visited);
    DepthsBelow(g, [Visit(n, 0)], visited);
    assert out[0] == Visit(n, 0);
    forall v | v in out && v.node == n ensures v == Visit(n, 0) {
      var i: nat :| i < |out| && out[i] == v;
      assert i == 0;
    }
  }

  lemma MarkStep(g: Graph, links: map<nat, Link>, links': map<nat, Link>, ordered: seq<Visit>, n: nat)
    requires Marked(g, links, links', ordered) && n in g.nodes && n !in Nodes(ordered) && n in links && n in g.parent
    ensures Marked(g, links, links'[n := InvalidCycle], ordered + Dfs(g, [Visit(n, 0)], Nodes(ordered)))
  {
    hide Dfs;
    var out := Dfs(g, [Visit(n, 0)], Nodes(ordered));
    StartIsFirst(g, n, Nodes(ordered));
    NodesConcat(ordered, out);
    DfsOnce(g, [Visit(n, 0)], Nodes(ordered));
    assert Visit(n, 0) in [Visit(n, 0)];
    forall v | v in ordered + out && v.node in links
      ensures links'[n := InvalidCycle][v.node] == if v.depth == 0 && v.node in g.parent then InvalidCycle else links[v.node]
    {
      assert v in ordered ==> v.node in Nodes(ordered);
      assert v in out ==> v.node in Nodes(out);
    }
  }

  /** The whole ordering.  Every selected row is listed exactly once; a row still marked
      `linked` follows its parent one level deeper; the rows reached from roots come first
      and are in plain recursive preorder; they are exactly the rows whose parent chain ends;
      `invalid_cycle` replaces the link of exactly the rows whose chain does not end and has
      no earlier selected row on it, which are those that start a visit of their own. */
  method OrderTree(g: Graph, links: map<nat, Link>) returns (ordered: seq<Visit>, links': map<nat, Link>)
    requires Closed(g) && LinksMatch(g, links) && DistinctNodes(g)
    ensures Distinct(ordered) && Nodes(ordered) == set n | n in g.nodes
    ensures LinkedAfterParents(g, links', ordered)
    ensures var trees := Preorder(g, RootsIn(g, g.nodes), 0, {});
            trees <= ordered && forall n :: n in g.nodes ==> (n in Nodes(trees) <==> Rooted(g, n))
    ensures Marked(g, links, links', ordered) && CyclesMarked(g, links, links', |g.nodes|)
  {
    hide CyclesMarked, StartsCycle, Rooted, FromList, Dfs, Closed, Distinct, Preorder, LinkedAfterParents, DistinctNodes, Nodes, Marked, At, RootsIn;
    var visited;
    visited, ordered := VisitRoots(g, links);
    links' := links;
    ghost var first, prefix := ordered, At(RootsIn(g, g.nodes), 0);
    RootsPreorder(g);
    RootsUnmarked(g, links);
    NoCyclesYet(g, links);
    RootStartsAreNodes(g);
    forall n | n in g.nodes ensures n in Nodes(first) <==> Rooted(g, n) {
      ReachedIff(g, prefix, n);
      RootedIff(g, n);
    }
    NoStarts(g, prefix);
    for i := 0 to |g.nodes|
      invariant ordered == Dfs(g, prefix + At(g.nodes[..i], 0), {}) && visited == Nodes(ordered)
      invariant LinkedAfterParents(g, links', ordered)
      invariant first <= ordered && Marked(g, links, links', ordered) && CyclesMarked(g, links, links', i)
    {
      var n := g.nodes[i];
      assert g.nodes[..i + 1] == g.nodes[..i] + [n];
      OneMoreStart(g, g.nodes[..i], n, prefix);
      UnseenIff(g, i);
      CycleMark(g, links, links', i, n !in visited);
      if n !in visited {
        ghost var out := Dfs(g, [Visit(n, 0)], visited);
        UnseenHasParent(g, At(g.nodes[..i], 0), n);
        MarkStep(g, links, links', ordered, n);
        UnseenKeepsParents(g, links', ordered, n);
        links' := links'[n := InvalidCycle];
        VisitKeepsParents(g, links', ordered, n, visited);
        NodesConcat(ordered, out);
        visited, ordered := VisitFrom(g, n, visited, ordered);
      } else {
        SkipVisited(g, Visit(n, 0), [], visited);
        NothingLeft(g, visited);
        assert [Visit(n, 0)] + [] == [Visit(n, 0)];
      }
    }
    assert g.nodes[..|g.nodes|] == g.nodes;
    DfsOnce(g, prefix + At(g.nodes, 0), {});
    AllListed(g, prefix, ordered);
  }

  lemma NoStarts(g: Graph, prefix: seq<Visit>)
    ensures prefix + At(g.nodes[..0], 0) == prefix
  {
  }

  lemma UnseenKeepsParents(g: Graph, links: map<nat, Link>, ordered: seq<Visit>, n: nat)
    requires LinkedAfterParents(g, links, ordered) && n !in Nodes(ordered)
    ensures LinkedAfterParents(g, links[n := InvalidCycle], ordered)
  {
    forall i: nat | i < |ordered| ensures ordered[i].node != n {
      assert ordered[i] in ordered;
    }
  }

  lemma AllListed(g: Graph, prefix: seq<Visit>, ordered: seq<Visit>)
    requires forall v :: v in ordered ==> v.node in g.nodes
    requires forall v :: v in prefix + At(g.nodes, 0) && v.node in g.nodes ==> v.node in {} + Nodes(ordered)
    ensures Nodes(ordered) == set n | n in g.nodes
  {
    forall n | n in g.nodes ensures n in Nodes(ordered) {
      var i :| 0 <= i < |g.nodes| && g.nodes[i] == n;
      assert At(g.nodes, 0)[i] == Visit(n, 0);
      assert Visit(n, 0) in prefix + At(g.nodes, 0);
    }
  }

  lemma {:induction false} DistinctRoots(g: Graph, nodes: seq<nat>)
    requires NoRepeats(nodes)
    ensures NoRepeats(RootsIn(g, nodes))
  {
    if nodes != [] {
      var init := nodes[..|nodes| - 1];
      DistinctRoots(g, init);
      var rest := RootsIn(g, init);
      forall k | 0 <= k < |rest| ensures rest[k] != nodes[|nodes| - 1] {
        assert rest[k] in rest && rest[k] in init;
      }
    }
  }

  /** The first pass lists the trees under the roots in plain preorder. */
  lemma RootsPreorder(g: Graph)
    requires DistinctNodes(g)
    ensures Dfs(g, At(RootsIn(g, g.nodes), 0), {}) == Preorder(g, RootsIn(g, g.nodes), 0, {})
  {
    hide Dfs, Preorder, Apart;
    var roots := RootsIn(g, g.nodes);
    DistinctRoots(g, g.nodes);
    forall n | n in roots ensures Rooted(g, n) {
      assert RootedIn(g, n, 0);
    }
    forall i, j | 0 <= i < j < |roots| ensures Apart(g, roots[i], roots[j]) {
      assert roots[i] in roots && roots[j] in roots;
      RootsApart(g, roots[i], roots[j]);
    }
    ForestPreorder(g, roots, 0, {}, {});
  }

  // -------------------------------------------------------------- sibling order

  function SortKey(p: Process): (int, int) {
    (if p.pid.Some? then p.pid.value else -1, if p.startTicks.Some? then p.startTicks.value else -1)
  }

  predicate KeyLeq(a: (int, int), b: (int, int)) {
    a.0 < b.0 || (a.0 == b.0 && a.1 <= b.1)
  }

  ghost predicate Sorted(captured: seq<Process>, nodes: seq<nat>) {
    && (forall i :: 0 <= i < |nodes| ==> nodes[i] < |captured|)
    && forall i, j :: 0 <= i < j < |nodes| ==> KeyLeq(SortKey(captured[nodes[i]]), SortKey(captured[nodes[j]]))
  }

  /** Children are pushed, and hence listed, in pid order. */
  lemma {:induction false} SiblingsInPidOrder(captured: seq<Process>, g: Graph, nodes: seq<nat>, n: nat)
    requires Sorted(captured, nodes)
    ensures Sorted(captured, FilterChildren(g, nodes, n))
  {
    if nodes != [] {
      var init := nodes[..|nodes| - 1];
      SiblingsInPidOrder(captured, g, init, n);
      var rest := FilterChildren(g, init, n);
      assert forall i :: 0 <= i < |init| ==> init[i] == nodes[i];
      forall k | 0 <= k < |rest| ensures KeyLeq(SortKey(captured[rest[k]]), SortKey(captured[nodes[|nodes| - 1]])) {
        assert rest[k] in rest && rest[k] in init;
      }
    }
  }

  function KeyOf(captured: seq<Process>, n: nat): (int, int) {
    if n < |captured| then SortKey(captured[n]) else (-1, -1)
  }

  /** `selected.sort` by (pid, start): a stable sort. */
  function InsertRow(captured: seq<Process>, rows: seq<nat>, n: nat): (out: seq<nat>)
    ensures multiset(out) == multiset(rows) + multiset{n}
    ensures forall r :: r in out <==> r == n || r in rows
  {
    if rows == [] || !KeyLeq(KeyOf(captured, rows[0]), KeyOf(captured, n)) then [n] + rows
    else
      assert rows == [rows[0]] + rows[1..];
      [rows[0]] + InsertRow(captured, rows[1..], n)
  }

  function SortRows(captured: seq<Process>, rows: seq<nat>): (out: seq<nat>)
    ensures multiset(out) == multiset(rows)
    ensures forall r :: r in out <==> r in rows
  {
    if rows == [] then []
    else
      assert rows == rows[..|rows| - 1] + [rows[|rows| - 1]];
      InsertRow(captured, SortRows(captured, rows[..|rows| - 1]), rows[|rows| - 1])
  }

  ghost predicate KeySorted(captured: seq<Process>, rows: seq<nat>) {
    && NoRepeats(rows)
    && forall i, j :: 0 <= i < j < |rows| ==> KeyLeq(KeyOf(captured, rows[i]), KeyOf(captured, rows[j]))
  }

  lemma ConsSorted(captured: seq<Process>, n: nat, rows: seq<nat>)
    requires KeySorted(captured, rows)
    requires forall r :: r in rows ==> r != n && KeyLeq(KeyOf(captured, n), KeyOf(captured, r))
    ensures KeySorted(captured, [n] + rows)
  {
    hide KeyLeq, KeyOf;
    assert forall k :: 0 <= k < |rows| ==> rows[k] in rows;
  }

  lemma {:induction false} InsertSorted(captured: seq<Process>, rows: seq<nat>, n: nat)
    requires KeySorted(captured, rows) && n !in rows
    ensures KeySorted(captured, InsertRow(captured, rows, n))
  {
    if rows != [] {
      HeadIsLeast(captured, rows);
      if KeyLeq(KeyOf(captured, rows[0]), KeyOf(captured, n)) {
        InsertSorted(captured, rows[1..], n);
        ConsSorted(captured, rows[0], InsertRow(captured, rows[1..], n));
      } else {
        ConsSorted(captured, n, rows);
      }
    }
  }

  lemma HeadIsLeast(captured: seq<Process>, rows: seq<nat>)
    requires KeySorted(captured, rows) && rows != []
    ensures KeySorted(captured, rows[1..]) && forall r :: r in rows[1..] ==> r in rows && r != rows[0]
    ensures forall r :: r in rows ==> KeyLeq(KeyOf(captured, rows[0]), KeyOf(captured, r))
  {
  }

  lemma {:induction false} SortRowsSorts(captured: seq<Process>, rows: seq<nat>)
    requires NoRepeats(rows)
    ensures KeySorted(captured, SortRows(captured, rows))
  {
    hide KeySorted;
    if rows == [] {
      NothingSorted(captured);
    } else {
      var init := rows[..|rows| - 1];
      SortRowsSorts(captured, init);
      assert rows[|rows| - 1] !in init;
      InsertSorted(captured, SortRows(captured, init), rows[|rows| - 1]);
    }
  }

  lemma NothingSorted(captured: seq<Process>)
    ensures KeySorted(captured, [])
  {
  }

  lemma KeysAreSorted(captured: seq<Process>, rows: seq<nat>)
    requires KeySorted(captured, rows) && forall r :: r in rows ==> r < |captured|
    ensures Sorted(captured, rows) && NoRepeats(rows)
  {
    assert forall k :: 0 <= k < |rows| ==> rows[k] in rows;
  }

  /** By pid, then by start; an absent value counts as minus one. */
  ghost predicate InPidOrder(captured: seq<Process>, nodes: seq<nat>) {
    && (forall i :: 0 <= i < |nodes| ==> nodes[i] < |captured|)
    && forall i, j :: 0 <= i < j < |nodes| ==> PidFirst(captured[nodes[i]], captured[nodes[j]])
  }

  ghost predicate PidFirst(a: Process, b: Process) {
    var p, q := if a.pid.None? then -1 else a.pid.value, if b.pid.None? then -1 else b.pid.value;
    var s, t := if a.startTicks.None? then -1 else a.startTicks.value, if b.startTicks.None? then -1 else b.startTicks.value;
    p < q || (p == q && s <= t)
  }

  lemma SortedByPid(captured: seq<Process>, nodes: seq<nat>)
    requires Sorted(captured, nodes)
    ensures InPidOrder(captured, nodes)
  {
    forall i, j | 0 <= i < j < |nodes| ensures PidFirst(captured[nodes[i]], captured[nodes[j]]) {
      assert KeyLeq(SortKey(captured[nodes[i]]), SortKey(captured[nodes[j]]));
    }
  }

  /** The parent links are exactly those that the captured rows resolve to. */
  ghost predicate Resolved(captured: seq<Process>, g: Graph, links: map<nat, Link>) {
    forall n :: n in g.nodes ==> n < |captured| && Recorded(captured, (set m | m in g.nodes), n, links, g.parent)
  }

  /** The tree view of a capture: the selected rows sorted by pid, linked, and ordered.
      `links` are the final ones and `resolved` those before cycles were marked. */
  method TreeView(captured: seq<Process>, selected: seq<nat>)
    returns (ordered: seq<Visit>, links: map<nat, Link>, ghost g: Graph, ghost resolved: map<nat, Link>)
    requires NoRepeats(selected) && forall n :: n in selected ==> n < |captured|
    ensures multiset(g.nodes) == multiset(selected) && InPidOrder(captured, g.nodes)
    ensures Resolved(captured, g, resolved) && forall n :: InPidOrder(captured, Children(g, n))
    ensures Distinct(ordered) && Nodes(ordered) == set n | n in selected
    ensures LinkedAfterParents(g, links, ordered) && CyclesMarked(g, resolved, links, |g.nodes|)
    ensures Preorder(g, RootsIn(g, g.nodes), 0, {}) <= ordered
  {
    hide SortRows, Sorted, InPidOrder, Recorded, Distinct, Nodes, LinkedAfterParents, CyclesMarked, Preorder, RootsIn, Marked, Rooted, Closed;
    var nodes := SortRows(captured, selected);
    SortRowsSorts(captured, selected);
    KeysAreSorted(captured, nodes);
    assert forall k :: 0 <= k < |nodes| ==> nodes[k] in nodes;
    var graph, first := BuildGraph(captured, nodes);
    forall n | n in nodes
      ensures Recorded(captured, (set m | m in nodes), n, first, graph.parent)
    {
      var k: nat :| k < |nodes| && nodes[k] == n;
    }
    SortedByPid(captured, nodes);
    forall n ensures InPidOrder(captured, Children(graph, n)) {
      SiblingsInPidOrder(captured, graph, graph.nodes, n);
      SortedByPid(captured, Children(graph, n));
    }
    g, resolved := graph, first;
    assert (set n | n in nodes) == (set n | n in selected);
    ordered, links := OrderTree(graph, first);
  }
}
