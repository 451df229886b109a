/** Finite directed graphs given by dependency lists: walks, cycles, topological orders. */
module Digraph {
  import opened Finite

  type Graph = map<string, seq<string>>

  ghost predicate Walk(g: Graph, w: seq<string>) {
    && |w| >= 1
    && (forall i :: 0 <= i < |w| ==> w[i] in g)
    && (forall i, j :: 0 <= i < |w| && j == i + 1 < |w| ==> w[j] in g[w[i]])
  }

  ghost predicate Cycle(g: Graph, c: seq<string>) {
    |c| >= 2 && Walk(g, c) && c[0] == c[|c| - 1]
  }

  ghost predicate Acyclic(g: Graph) {
    forall c :: !Cycle(g, c)
  }

  ghost predicate OnCycle(g: Graph, v: string) {
    exists c :: Cycle(g, c) && v in c
  }

  /** Every dependency names a node of the graph. */
  ghost predicate Closed(g: Graph) {
    forall u, v :: u in g && v in g[u] ==> v in g
  }

  /** Each node's dependencies come earlier in the order or belong to the excused set. */
  ghost predicate TopologicalUpTo(g: Graph, order: seq<string>, excused: set<string>) {
    forall k, d :: 0 <= k < |order| && order[k] in g && d in g[order[k]] ==> d in order[..k] || d in excused
  }

  lemma {:induction false} Descend(g: Graph, order: seq<string>, excused: set<string>, w: seq<string>, k: nat)
    requires Distinct(order) && TopologicalUpTo(g, order, excused)
    requires Walk(g, w) && |w| >= 2 && k < |order| && w[0] == order[k]
    requires forall i :: 1 <= i < |w| ==> w[i] !in excused
    ensures w[|w| - 1] in order[..k]
    decreases |w|
  {
    assert w[1] in g[order[k]] && w[1] !in excused;
    assert w[1] in order[..k];
    if |w| > 2 {
      var i :| 0 <= i < k && order[i] == w[1];
      Descend(g, order, excused, w[1..], i);
      assert order[..i] == order[..k][..i];
    }
  }

  /** If the whole graph is ordered up to the excused nodes, every cycle meets an excused node. */
  lemma CycleMeetsExcused(g: Graph, order: seq<string>, excused: set<string>, c: seq<string>)
    requires Distinct(order) && g.Keys <= Elements(order) && TopologicalUpTo(g, order, excused)
    requires Cycle(g, c)
    ensures exists v :: v in c && v in excused
  {
    if forall v :: v in c ==> v !in excused {
      assert c[0] in Elements(order);
      var k :| 0 <= k < |order| && order[k] == c[0];
      Descend(g, order, excused, c, k);
      assert false;
    }
  }

  ghost predicate HasSuccessor(g: Graph, u: string)
    requires u in g
  {
    exists v :: v in g[u] && v in g
  }

  lemma {:induction false} LongWalk(g: Graph, u: string, n: nat) returns (w: seq<string>)
    requires u in g && forall x :: x in g ==> HasSuccessor(g, x)
    ensures Walk(g, w) && |w| == n + 1 && w[0] == u
    decreases n
  {
    if n == 0 {
      w := [u];
    } else {
      assert HasSuccessor(g, u);
      var v :| v in g[u] && v in g;
      var rest := LongWalk(g, v, n - 1);
      w := [u] + rest;
    }
  }

  /** A nonempty finite graph in which every node has a successor contains a cycle. */
  lemma NoSinkHasCycle(g: Graph) returns (c: seq<string>)
    requires g.Keys != {} && forall x :: x in g ==> HasSuccessor(g, x)
    ensures Cycle(g, c)
  {
    var u :| u in g.Keys;
    var w := LongWalk(g, u, |g.Keys|);
    assert Elements(w) <= g.Keys;
    var i, j := Pigeonhole(w, g.Keys);
    c := w[i..j + 1];
    WalkSlice(g, w, i, j + 1);
  }

  lemma WalkSlice(g: Graph, w: seq<string>, i: nat, j: nat)
    requires Walk(g, w) && i < j <= |w|
    ensures Walk(g, w[i..j])
  {
  }
}
