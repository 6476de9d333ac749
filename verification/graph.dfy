/**
 * The node registry and adjacency store of a directed graph with named nodes.
 * A node is identified by its index in insertion order; a neighbour list holds
 * the indices of the nodes it points to.
 */
module Graphs {
  import opened Common

  /** Every neighbour index names one of the first `n` nodes. */
  predicate EdgesInRange(adj: seq<seq<nat>>, n: nat) {
    forall i, j :: 0 <= i < |adj| && 0 <= j < |adj[i]| ==> adj[i][j] < n
  }

  /** The lowest index at which `x` is stored: the node a lookup by name finds. */
  function IndexOf(names: seq<string>, x: string): (r: nat)
    requires x in names
    ensures r < |names| && names[r] == x
    ensures forall j :: 0 <= j < r ==> names[j] != x
  {
    if names[0] == x then 0 else 1 + IndexOf(names[1..], x)
  }

  /** Storing more names after `names` does not change which node a lookup finds. */
  lemma IndexOfAppend(names: seq<string>, more: seq<string>, x: string)
    requires x in names
    ensures IndexOf(names + more, x) == IndexOf(names, x)
  {
    var r, r' := IndexOf(names, x), IndexOf(names + more, x);
    assert (names + more)[r] == x;
  }

  /** Two families of neighbour lists that agree node by node up to order. */
  predicate SameNeighbours(x: seq<seq<nat>>, y: seq<seq<nat>>) {
    |x| == |y| && forall i :: 0 <= i < |x| ==> multiset(x[i]) == multiset(y[i])
  }

  /** What the edge test computes: every node has at least one neighbour. */
  predicate EveryNodeHasNeighbour(adj: seq<seq<nat>>) {
    forall i :: 0 <= i < |adj| ==> adj[i] != []
  }

  /** What the edge test is documented to compute: some node has a neighbour. */
  predicate SomeNodeHasNeighbour(adj: seq<seq<nat>>) {
    exists i :: 0 <= i < |adj| && adj[i] != []
  }

  /** The two readings disagree on the graph with no nodes and on a graph with one lone node. */
  lemma HasEdgesAsWrittenCounterexample()
    ensures EveryNodeHasNeighbour([]) && !SomeNodeHasNeighbour([])
    ensures SomeNodeHasNeighbour([[1], []]) && !EveryNodeHasNeighbour([[1], []])
  {
    var adj: seq<seq<nat>> := [[1], []];
    assert adj[0] != [];
    assert adj[1] == [];
  }

  /**
   * A graph with a fixed capacity. Node `i` has name `names[i]`, flag
   * `visited[i]` and neighbour list `adj[i]`; `count` is the number of nodes.
   */
  class Graph {
    const capacity: nat
    var count: nat
    var names: seq<string>
    var visited: seq<bool>
    var adj: seq<seq<nat>>

    /** The stored nodes fit the capacity and every neighbour is a stored node. */
    ghost predicate Valid()
      reads this
    {
      && count <= capacity
      && |names| == count && |visited| == count && |adj| == count
      && EdgesInRange(adj, count)
    }

    /** No stored node is marked as visited. */
    predicate AllUnseen()
      reads this
    {
      forall i :: 0 <= i < |visited| ==> !visited[i]
    }

    /** An empty graph that can hold `maxNodes` nodes. */
    constructor (maxNodes: nat)
      ensures Valid() && capacity == maxNodes
      ensures count == 0 && names == [] && visited == [] && adj == []
      ensures IsEmpty()
    {
      capacity := maxNodes;
      count := 0;
      names := [];
      visited := [];
      adj := [];
    }

    /** A graph is empty when it stores no node. */
    predicate IsEmpty()
      reads this
      requires Valid()
      ensures IsEmpty() <==> names == []
    {
      count == 0
    }

    /**
     * Appends a node named `s`, unvisited and without neighbours. No node with
     * the same name is looked for: equal names give distinct nodes.
     */
    method InsertNode(s: string)
      requires Valid() && count < capacity
      modifies this
      ensures Valid()
      ensures count == old(count) + 1
      ensures names == old(names) + [s]
      ensures visited == old(visited) + [false]
      ensures adj == old(adj) + [[]]
    {
      names := names + [s];
      visited := visited + [false];
      adj := adj + [[]];
      count := count + 1;
    }

    /** The first node named `s`, or `None` when no stored node has that name. */
    method FindNode(s: string) returns (r: Option<nat>)
      requires Valid()
      ensures r.None? <==> s !in names
      ensures r.Some? ==> r.value < count && r.value == IndexOf(names, s)
    {
      var i := 0;
      while i < count
        invariant 0 <= i <= count
        invariant forall j :: 0 <= j < i ==> names[j] != s
      {
        if names[i] == s {
          return Some(i);
        }
        i := i + 1;
      }
      return None;
    }

    /** The visited flag of node `n`. */
    method IsSeen(n: nat) returns (seen: bool)
      requires Valid() && n < count
      ensures seen == visited[n]
    {
      seen := visited[n];
    }

    /** Sets the visited flag of node `n` and of no other node. */
    method SetSeen(n: nat, seen: bool)
      requires Valid() && n < count
      modifies this
      ensures Valid()
      ensures visited == old(visited)[n := seen]
      ensures count == old(count) && names == old(names) && adj == old(adj)
    {
      visited := visited[n := seen];
    }

    /** Clears the visited flag of every stored node and changes nothing else. */
    method ResetSeen()
      requires Valid()
      modifies this
      ensures Valid() && AllUnseen()
      ensures count == old(count) && names == old(names) && adj == old(adj)
    {
      var i := 0;
      while i < count
        invariant 0 <= i <= count
        invariant Valid()
        invariant count == old(count) && names == old(names) && adj == old(adj)
        invariant forall j :: 0 <= j < i ==> !visited[j]
      {
        visited := visited[i := false];
        i := i + 1;
      }
    }

    /**
     * Adds the directed edge `n1 -> n2`: `n2` joins the neighbours of `n1`
     * (at an unspecified position) and no other list changes.
     */
    method InsertEdge(n1: nat, n2: nat)
      requires Valid() && n1 < count && n2 < count
      modifies this
      ensures Valid()
      ensures count == old(count) && names == old(names) && visited == old(visited)
      ensures |adj| == |old(adj)|
      ensures multiset(adj[n1]) == multiset(old(adj)[n1]) + multiset{n2}
      ensures forall i :: 0 <= i < |adj| && i != n1 ==> adj[i] == old(adj)[i]
    {
      adj := adj[n1 := [n2] + adj[n1]];
    }

    /** A fresh list with the neighbours of `n`, each as often as in `n`'s own list. */
    method Neighbours(n: nat) returns (list: seq<nat>)
      requires Valid() && n < count
      ensures multiset(list) == multiset(adj[n])
      ensures forall x :: x in list ==> x < count
    {
      list := [];
      var i := 0;
      while i < |adj[n]|
        invariant 0 <= i <= |adj[n]|
        invariant list == adj[n][..i]
      {
        list := list + [adj[n][i]];
        i := i + 1;
      }
      assert adj[n][..i] == adj[n];
    }

    /**
     * The edge test as the code computes it: false as soon as a node without
     * neighbours is met, true otherwise (so also on a graph with no nodes).
     */
    method HasEdgesAsWritten() returns (r: bool)
      requires Valid()
      ensures r <==> EveryNodeHasNeighbour(adj)
    {
      var i := 0;
      while i < count
        invariant 0 <= i <= count
        invariant forall j :: 0 <= j < i ==> adj[j] != []
      {
        if adj[i] == [] {
          return false;
        }
        i := i + 1;
      }
      return true;
    }

    /** The edge test as documented: true iff some node has a neighbour. */
    method HasEdges() returns (r: bool)
      requires Valid()
      ensures r <==> SomeNodeHasNeighbour(adj)
    {
      var i := 0;
      while i < count
        invariant 0 <= i <= count
        invariant forall j :: 0 <= j < i ==> adj[j] == []
      {
        if adj[i] != [] {
          return true;
        }
        i := i + 1;
      }
      return false;
    }
  }
}
