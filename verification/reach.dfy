/**
 * Breadth-first reachability between two nodes of a graph, using the nodes'
 * visited flags and a FIFO queue, with the flags cleared again on return.
 */
module Reach {
  import opened Graphs

  /** `w` follows directed edges of `adj`: each step goes to a neighbour of the node before it. */
  ghost predicate IsWalk(adj: seq<seq<nat>>, w: seq<nat>) {
    |w| >= 1 && forall k :: 0 <= k < |w| - 1 ==> w[k] < |adj| && w[k + 1] in adj[w[k]]
  }

  /** `v` can be reached from `u` along one or more directed edges. */
  ghost predicate Reaches(adj: seq<seq<nat>>, u: nat, v: nat) {
    exists w :: IsWalk(adj, w) && |w| >= 2 && w[0] == u && w[|w| - 1] == v
  }

  /** A set of nodes that contains every neighbour of each of its members. */
  ghost predicate Closed(adj: seq<seq<nat>>, s: set<nat>) {
    forall x :: x in s ==> x < |adj| && forall y :: y in adj[x] ==> y in s
  }

  /** One more edge extends a walk: from `u` (or from a node reachable from it) to a neighbour. */
  lemma ReachesStep(adj: seq<seq<nat>>, u: nat, x: nat, y: nat)
    requires x == u || Reaches(adj, u, x)
    requires x < |adj| && y in adj[x]
    ensures Reaches(adj, u, y)
  {
    if x == u {
      var w := [u, y];
      assert IsWalk(adj, w);
    } else {
      var w :| IsWalk(adj, w) && |w| >= 2 && w[0] == u && w[|w| - 1] == x;
      var w' := w + [y];
      assert forall k :: 0 <= k < |w| ==> w'[k] == w[k];
      assert IsWalk(adj, w');
    }
  }

  /** Every node on a walk that starts inside a closed set stays inside it. */
  lemma {:induction false} WalkStaysInClosed(adj: seq<seq<nat>>, s: set<nat>, w: seq<nat>, k: nat)
    requires Closed(adj, s) && IsWalk(adj, w) && w[0] in s && k < |w|
    ensures w[k] in s
  {
    if k > 0 {
      WalkStaysInClosed(adj, s, w, k - 1);
    }
  }

  /** A closed set holding `u` holds everything reachable from `u`. */
  lemma ClosedContainsReachable(adj: seq<seq<nat>>, s: set<nat>, u: nat, v: nat)
    requires Closed(adj, s) && u in s && Reaches(adj, u, v)
    ensures v in s
  {
    var w :| IsWalk(adj, w) && |w| >= 2 && w[0] == u && w[|w| - 1] == v;
    WalkStaysInClosed(adj, s, w, |w| - 1);
  }

  /** A walk along neighbour lists is a walk along any lists with the same neighbours. */
  lemma WalkSameNeighbours(a: seq<seq<nat>>, b: seq<seq<nat>>, w: seq<nat>)
    requires SameNeighbours(a, b) && IsWalk(a, w)
    ensures IsWalk(b, w)
  {
    forall k | 0 <= k < |w| - 1
      ensures w[k] < |b| && w[k + 1] in b[w[k]]
    {
      assert w[k + 1] in multiset(a[w[k]]);
    }
  }

  /**
   * The order of neighbour lists does not matter to reachability: two
   * families of lists with the same neighbours node by node reach the same nodes.
   */
  lemma ReachesSameNeighbours(a: seq<seq<nat>>, b: seq<seq<nat>>, u: nat, v: nat)
    requires SameNeighbours(a, b)
    ensures Reaches(a, u, v) <==> Reaches(b, u, v)
  {
    if Reaches(a, u, v) {
      var w :| IsWalk(a, w) && |w| >= 2 && w[0] == u && w[|w| - 1] == v;
      WalkSameNeighbours(a, b, w);
    }
    if Reaches(b, u, v) {
      var w :| IsWalk(b, w) && |w| >= 2 && w[0] == u && w[|w| - 1] == v;
      WalkSameNeighbours(b, a, w);
    }
  }

  /**
   * What a search from `src` for the name of `dest` knows about the nodes in
   * `order` (every node enqueued so far, once each) and the same nodes as a
   * set `seen`: all are reachable from `src` or are `src`, and none has the
   * name searched for.
   */
  ghost predicate Explored(adj: seq<seq<nat>>, names: seq<string>, src: nat, dest: nat,
                           order: seq<nat>, seen: set<nat>)
  {
    && |names| == |adj| && dest < |names|
    && (forall x :: x in seen <==> x in order)
    && (forall k :: 0 <= k < |order| ==> order[k] < |adj|)
    && (forall x :: multiset(order)[x] <= 1)
    && src in seen
    && (forall x :: x in seen ==> x == src || Reaches(adj, src, x))
    && (forall x :: x in seen ==> names[x] != names[dest])
  }

  /** The first `m` enqueued nodes have had all their neighbours marked. */
  ghost predicate ExpandedUpTo(adj: seq<seq<nat>>, order: seq<nat>, seen: set<nat>, m: nat)
    requires forall k :: 0 <= k < |order| ==> order[k] < |adj|
  {
    m <= |order| && forall k :: 0 <= k < m ==> forall y :: y in adj[order[k]] ==> y in seen
  }

  /** The visited flags are set exactly on the nodes in `seen`. */
  ghost predicate Marks(flags: seq<bool>, seen: set<nat>) {
    forall i :: 0 <= i < |flags| ==> (flags[i] <==> i in seen)
  }

  /** Marking and enqueueing an unmarked neighbour `y` of an explored node keeps the search's knowledge. */
  lemma ExploreStep(adj: seq<seq<nat>>, names: seq<string>, src: nat, dest: nat,
                    order: seq<nat>, seen: set<nat>, c: nat, y: nat)
    requires Explored(adj, names, src, dest, order, seen)
    requires c in seen && c < |adj| && y in adj[c] && y < |adj| && y !in seen && names[y] != names[dest]
    ensures Explored(adj, names, src, dest, order + [y], seen + {y})
  {
    ReachesStep(adj, src, c, y);
    var order' := order + [y];
    assert forall k :: 0 <= k < |order| ==> order'[k] == order[k];
    assert forall x :: x in order' <==> x in order || x == y;
    assert multiset(order') == multiset(order) + multiset{y};
  }

  /** Growing the enqueued nodes and the marked set keeps the expanded prefix expanded. */
  lemma ExpandedGrows(adj: seq<seq<nat>>, order: seq<nat>, seen: set<nat>, y: nat, m: nat)
    requires forall k :: 0 <= k < |order| ==> order[k] < |adj|
    requires ExpandedUpTo(adj, order, seen, m) && y < |adj|
    ensures ExpandedUpTo(adj, order + [y], seen + {y}, m)
  {
    var order' := order + [y];
    assert forall k :: 0 <= k < |order| ==> order'[k] == order[k];
  }

  /** The number of nodes whose visited flag is clear. */
  function Unmarked(flags: seq<bool>): (r: nat)
    ensures r <= |flags|
  {
    if flags == [] then 0 else (if flags[0] then 0 else 1) + Unmarked(flags[1..])
  }

  /** Setting one clear flag leaves one node fewer unmarked. */
  lemma {:induction false} UnmarkedAfterMark(flags: seq<bool>, y: nat)
    requires y < |flags| && !flags[y]
    ensures Unmarked(flags[y := true]) == Unmarked(flags) - 1
  {
    if y == 0 {
      assert flags[y := true][1..] == flags[1..];
    } else {
      assert flags[y := true][1..] == flags[1..][y - 1 := true];
      UnmarkedAfterMark(flags[1..], y - 1);
    }
  }

  /** All that marking and enqueueing the unmarked neighbour `y` of `c` keeps. */
  lemma EnqueueStep(adj: seq<seq<nat>>, names: seq<string>, src: nat, dest: nat,
                    order: seq<nat>, seen: set<nat>, c: nat, y: nat, head: nat, flags: seq<bool>)
    requires Explored(adj, names, src, dest, order, seen) && 1 <= head <= |order|
    requires ExpandedUpTo(adj, order, seen, head - 1)
    requires c in seen && c < |adj| && y in adj[c] && y < |adj| && y !in seen && names[y] != names[dest]
    requires Marks(flags, seen)
    ensures Explored(adj, names, src, dest, order + [y], seen + {y})
    ensures ExpandedUpTo(adj, order + [y], seen + {y}, head - 1)
    ensures (order + [y])[head..] == order[head..] + [y]
    ensures y < |flags| ==> Marks(flags[y := true], seen + {y})
  {
    ExploreStep(adj, names, src, dest, order, seen, c, y);
    ExpandedGrows(adj, order, seen, y, head - 1);
    assert (order + [y])[head..] == order[head..] + [y];
  }

  /** When every enqueued node has been expanded, the marked nodes form a closed set. */
  lemma ExpandedAllIsClosed(adj: seq<seq<nat>>, names: seq<string>, src: nat, dest: nat,
                            order: seq<nat>, seen: set<nat>)
    requires Explored(adj, names, src, dest, order, seen) && ExpandedUpTo(adj, order, seen, |order|)
    ensures Closed(adj, seen)
  {
    forall x | x in seen
      ensures x < |adj| && forall y :: y in adj[x] ==> y in seen
    {
      var k :| 0 <= k < |order| && order[k] == x;
    }
  }

  /**
   * Looks at one neighbour `y` of the node `c` being expanded: marks and
   * enqueues `y` when it is unmarked, and reports whether `y` has `dest`'s name.
   */
  method Visit(g: Graph, c: nat, y: nat, dest: nat, q: seq<nat>,
               ghost src: nat, ghost order: seq<nat>, ghost head: nat, ghost seen: set<nat>)
    returns (hit: bool, q': seq<nat>, ghost order': seq<nat>, ghost seen': set<nat>)
    requires g.Valid() && Explored(g.adj, g.names, src, dest, order, seen) && Marks(g.visited, seen)
    requires 1 <= head <= |order| && q == order[head..] && c == order[head - 1]
    requires ExpandedUpTo(g.adj, order, seen, head - 1)
    requires y in g.adj[c]
    modifies g
    ensures g.Valid() && g.count == old(g.count) && g.names == old(g.names) && g.adj == old(g.adj)
    ensures hit <==> g.names[y] == g.names[dest]
    ensures hit ==> Reaches(g.adj, src, y)
    ensures !hit ==>
      && Explored(g.adj, g.names, src, dest, order', seen') && Marks(g.visited, seen')
      && head <= |order'| && q' == order'[head..] && c == order'[head - 1]
      && ExpandedUpTo(g.adj, order', seen', head - 1)
      && seen <= seen' && y in seen'
      && Unmarked(g.visited) <= old(Unmarked(g.visited))
      && Unmarked(g.visited) + |q'| == old(Unmarked(g.visited)) + |q|
  {
    ghost var names, adj, flags := g.names, g.adj, g.visited;
    assert c in seen && c < g.count;
    assert y < g.count;
    q', order', seen' := q, order, seen;
    var isSeen := g.IsSeen(y);
    if !isSeen {
      UnmarkedAfterMark(g.visited, y);
      g.SetSeen(y, true);
      q' := q' + [y];
    }
    if g.names[y] == g.names[dest] {
      ReachesStep(adj, src, c, y);
      return true, q', order', seen';
    }
    hit := false;
    if !isSeen {
      EnqueueStep(adj, names, src, dest, order, seen, c, y, head, flags);
      order' := order + [y];
      seen' := seen + {y};
    }
  }

  /**
   * Goes through `list`, the neighbours of the node `c` just taken out of the
   * queue: each unmarked one is marked and enqueued, and the scan stops with
   * `found` at the first one named like `dest`. When nothing is found every
   * neighbour is marked, `c` counts as expanded, and each newly marked node
   * lengthens the queue by one.
   */
  method ScanNeighbours(g: Graph, c: nat, list: seq<nat>, dest: nat, q: seq<nat>,
                        ghost src: nat, ghost order: seq<nat>, ghost head: nat, ghost seen: set<nat>)
    returns (found: bool, q': seq<nat>, ghost order': seq<nat>, ghost seen': set<nat>)
    requires g.Valid() && Explored(g.adj, g.names, src, dest, order, seen) && Marks(g.visited, seen)
    requires 1 <= head <= |order| && q == order[head..] && c == order[head - 1]
    requires ExpandedUpTo(g.adj, order, seen, head - 1)
    requires multiset(list) == multiset(g.adj[c])
    modifies g
    ensures g.Valid() && g.count == old(g.count) && g.names == old(g.names) && g.adj == old(g.adj)
    ensures found ==> exists t :: 0 <= t < g.count && g.names[t] == g.names[dest] && Reaches(g.adj, src, t)
    ensures !found ==>
      && Explored(g.adj, g.names, src, dest, order', seen') && Marks(g.visited, seen')
      && head <= |order'| && q' == order'[head..] && ExpandedUpTo(g.adj, order', seen', head)
      && Unmarked(g.visited) <= old(Unmarked(g.visited))
      && Unmarked(g.visited) + |q'| == old(Unmarked(g.visited)) + |q|
  {
    ghost var names, adj := g.names, g.adj;
    q', order', seen' := q, order, seen;
    var i := 0;
    while i < |list|
      invariant 0 <= i <= |list|
      invariant g.Valid() && g.count == old(g.count) && g.names == names && g.adj == adj
      invariant Explored(adj, names, src, dest, order', seen') && Marks(g.visited, seen')
      invariant head <= |order'| && q' == order'[head..] && c == order'[head - 1]
      invariant ExpandedUpTo(adj, order', seen', head - 1)
      invariant forall j :: 0 <= j < i ==> list[j] in seen'
      invariant Unmarked(g.visited) <= old(Unmarked(g.visited))
      invariant Unmarked(g.visited) + |q'| == old(Unmarked(g.visited)) + |q|
    {
      var y := list[i];
      assert y in multiset(adj[c]);
      ghost var seenBefore := seen';
      var hit;
      hit, q', order', seen' := Visit(g, c, y, dest, q', src, order', head, seen');
      if hit {
        return true, q', order', seen';
      }
      forall j | 0 <= j < i + 1
        ensures list[j] in seen'
      {
        if j < i {
          assert list[j] in seenBefore;
        }
      }
      i := i + 1;
    }
    forall y | y in adj[c]
      ensures y in seen'
    {
      assert y in multiset(list);
    }
    found := false;
  }

  /**
   * True iff `src` and `dest` have the same name, or some node with `dest`'s
   * name is reachable from `src`. Expects no visited flag set on entry and
   * leaves none set on return; names and neighbour lists are not changed.
   */
  method FindPath(g: Graph, src: nat, dest: nat) returns (found: bool)
    requires g.Valid() && src < g.count && dest < g.count && g.AllUnseen()
    modifies g
    ensures g.Valid() && g.AllUnseen()
    ensures g.count == old(g.count) && g.names == old(g.names) && g.adj == old(g.adj)
    ensures g.visited == old(g.visited)
    ensures found <==>
      || g.names[src] == g.names[dest]
      || exists t :: 0 <= t < g.count && g.names[t] == g.names[dest] && Reaches(g.adj, src, t)
  {
    if g.names[src] == g.names[dest] {
      return true;
    }
    ghost var n, names, adj, flags := g.count, g.names, g.adj, g.visited;
    g.SetSeen(src, true);
    var q: seq<nat> := [src];
    // Every node ever enqueued, in order; the queue is the part not yet taken out.
    ghost var order: seq<nat> := [src];
    ghost var head := 0;
    ghost var seen: set<nat> := {src};
    while q != []
      invariant g.Valid() && g.count == n && g.names == names && g.adj == adj
      invariant Explored(adj, names, src, dest, order, seen) && Marks(g.visited, seen)
      invariant 0 <= head <= |order| && q == order[head..]
      invariant ExpandedUpTo(adj, order, seen, head)
      decreases Unmarked(g.visited), |q|
    {
      var c := q[0];
      q := q[1..];
      head := head + 1;
      var list := g.Neighbours(c);
      found, q, order, seen := ScanNeighbours(g, c, list, dest, q, src, order, head, seen);
      if found {
        g.ResetSeen();
        assert g.visited == flags;
        return true;
      }
    }
    ExpandedAllIsClosed(adj, names, src, dest, order, seen);
    forall t | 0 <= t < n && Reaches(adj, src, t)
      ensures names[t] != names[dest]
    {
      ClosedContainsReachable(adj, seen, src, t);
    }
    g.ResetSeen();
    assert g.visited == flags;
    return false;
  }
}
