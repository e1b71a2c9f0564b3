/**
 Directed graphs as the workflow validators and the deadlock detector see them: every node maps to
 the set of nodes it points at. The two notions of "has a cycle" used by the proofs are a closed
 walk, and its absence as witnessed by an order in which every node comes after its successors.
 */
module Digraph {
  import opened Sequences

  type Node = string
  type Graph = map<Node, set<Node>>

  /** Every successor is itself a node. */
  ghost predicate Closed(g: Graph) {
    forall x, y :: x in g && y in g[x] ==> y in g
  }

  ghost predicate Edge(g: Graph, x: Node, y: Node) {
    x in g && y in g[x]
  }

  ghost predicate Walk(g: Graph, p: seq<Node>) {
    forall i :: 0 <= i < |p| - 1 ==> Edge(g, p[i], p[i + 1])
  }

  ghost predicate ClosedWalk(g: Graph, p: seq<Node>) {
    |p| >= 2 && p[0] == p[|p| - 1] && Walk(g, p)
  }

  ghost predicate Acyclic(g: Graph) {
    forall p :: !ClosedWalk(g, p)
  }

  /** `order` lists exactly the nodes, each after all its successors. */
  ghost predicate Ordered(g: Graph, order: seq<Node>) {
    && Distinct(order)
    && Elements(order) == g.Keys
    && OrderedPrefix(g, order)
  }

  ghost predicate OrderedPrefix(g: Graph, order: seq<Node>) {
    forall i {:trigger After(g, order, i)} :: 0 <= i < |order| ==> After(g, order, i)
  }

  /** The node at position `i` comes after all its successors. */
  ghost predicate After(g: Graph, order: seq<Node>, i: nat)
    requires i < |order|
  {
    order[i] in g && g[order[i]] <= Elements(order[..i])
  }

  /** Extending an ordered prefix by a node whose successors are all listed. */
  lemma ExtendOrder(g: Graph, order: seq<Node>, x: Node)
    requires Distinct(order) && OrderedPrefix(g, order)
    requires x in g && x !in order && g[x] <= Elements(order)
    ensures Distinct(order + [x]) && OrderedPrefix(g, order + [x])
  {
    var longer := order + [x];
    forall i | 0 <= i < |longer| ensures After(g, longer, i) {
      assert longer[..i] == order[..i];
      if i < |order| { assert After(g, order, i); }
    }
  }

  /** Several nodes whose successors are all listed can be appended together. */
  lemma ExtendOrderMany(g: Graph, order: seq<Node>, xs: seq<Node>)
    requires OrderedPrefix(g, order)
    requires forall x :: x in xs ==> x in g && g[x] <= Elements(order)
    ensures OrderedPrefix(g, order + xs)
  {
    var longer := order + xs;
    forall i | 0 <= i < |longer| ensures After(g, longer, i) {
      if i < |order| {
        assert After(g, order, i) && longer[..i] == order[..i];
      } else {
        assert longer[..i][..|order|] == order;
        forall y | y in Elements(order) ensures y in longer[..i] {
          var k :| 0 <= k < |order| && order[k] == y;
          assert longer[..i][k] == y;
        }
      }
    }
  }

  lemma WalkTail(g: Graph, p: seq<Node>)
    requires p != [] && Walk(g, p)
    ensures Walk(g, p[1..])
  {
    forall i | 0 <= i < |p[1..]| - 1 ensures Edge(g, p[1..][i], p[1..][i + 1]) {
      assert Edge(g, p[i + 1], p[i + 2]);
    }
  }

  lemma WalkPrepend(g: Graph, x: Node, p: seq<Node>)
    requires p != [] && Edge(g, x, p[0]) && Walk(g, p)
    ensures Walk(g, [x] + p)
  {
    var q := [x] + p;
    forall i | 0 <= i < |q| - 1 ensures Edge(g, q[i], q[i + 1]) {
      if i > 0 { assert Edge(g, p[i - 1], p[i]); }
    }
  }

  lemma WalkExtends(g: Graph, p: seq<Node>, x: Node)
    requires p != [] && Walk(g, p) && Edge(g, p[|p| - 1], x)
    ensures Walk(g, p + [x])
  {
    var q := p + [x];
    forall i | 0 <= i < |q| - 1 ensures Edge(g, q[i], q[i + 1]) {
      if i < |p| - 1 { assert Edge(g, p[i], p[i + 1]); }
    }
  }

  lemma WalkPrefix(g: Graph, p: seq<Node>, q: seq<Node>)
    requires Walk(g, p + q)
    ensures Walk(g, p)
  {
    forall i | 0 <= i < |p| - 1 ensures Edge(g, p[i], p[i + 1]) {
      assert Edge(g, (p + q)[i], (p + q)[i + 1]);
    }
  }

  /** An edge from the end of a walk back into it closes a walk. */
  lemma BackEdge(g: Graph, p: seq<Node>, x: Node)
    requires x in p && Walk(g, p + [x])
    ensures !Acyclic(g)
  {
    var i :| 0 <= i < |p| && p[i] == x;
    var q := p + [x];
    var c := q[i..];
    forall k | 0 <= k < |c| - 1 ensures Edge(g, c[k], c[k + 1]) {
      assert Edge(g, q[i + k], q[i + k + 1]);
    }
    assert ClosedWalk(g, c);
  }

  /** A walk inside an ordered prefix goes strictly backwards in it. */
  lemma {:induction false} WalkDescends(g: Graph, order: seq<Node>, p: seq<Node>, i: nat) returns (k: nat)
    requires OrderedPrefix(g, order) && Distinct(order)
    requires |p| >= 1 && Walk(g, p) && i < |order| && p[0] == order[i]
    ensures k < |order| && p[|p| - 1] == order[k]
    ensures |p| > 1 ==> k < i
  {
    if |p| == 1 {
      k := i;
    } else {
      assert After(g, order, i) && Edge(g, p[0], p[1]);
      assert p[1] in Elements(order[..i]);
      var j :| 0 <= j < i && order[..i][j] == p[1];
      WalkTail(g, p);
      k := WalkDescends(g, order, p[1..], j);
    }
  }

  lemma OrderExcludesCycles(g: Graph, order: seq<Node>)
    requires Ordered(g, order)
    ensures Acyclic(g)
  {
    forall p ensures !ClosedWalk(g, p) {
      if ClosedWalk(g, p) {
        assert Edge(g, p[0], p[1]);
        assert p[0] in Elements(order);
        var i :| 0 <= i < |order| && order[i] == p[0];
        var k := WalkDescends(g, order, p, i);
      }
    }
  }

  /** In a set where everybody has a successor inside the set, one can walk forever. */
  lemma {:induction false} WalkInside(g: Graph, stuck: set<Node>, x: Node, n: nat) returns (p: seq<Node>)
    requires stuck <= g.Keys && x in stuck
    requires forall y :: y in stuck ==> g[y] * stuck != {}
    ensures |p| == n + 1 && Walk(g, p) && Elements(p) <= stuck && p[0] == x
    decreases n
  {
    if n == 0 {
      p := [x];
    } else {
      var y :| y in g[x] * stuck;
      var rest := WalkInside(g, stuck, y, n - 1);
      p := [x] + rest;
      WalkPrepend(g, x, rest);
      forall z | z in p ensures z in stuck {
        assert z == x || z in Elements(rest);
      }
    }
  }

  lemma StuckSetHasCycle(g: Graph, stuck: set<Node>) returns (c: seq<Node>)
    requires stuck <= g.Keys && stuck != {}
    requires forall y :: y in stuck ==> g[y] * stuck != {}
    ensures ClosedWalk(g, c)
    ensures Elements(c) <= stuck
  {
    var x :| x in stuck;
    var p := WalkInside(g, stuck, x, |stuck|);
    Pigeonhole(p, stuck);
    var i, j :| 0 <= i < j < |p| && p[i] == p[j];
    c := p[i..j + 1];
    forall k | 0 <= k < |c| - 1 ensures Edge(g, c[k], c[k + 1]) {
      assert Edge(g, p[i + k], p[i + k + 1]);
    }
    forall z | z in c ensures z in stuck {
      assert z in Elements(p);
    }
  }

  lemma PrefixNodes(g: Graph, order: seq<Node>)
    requires OrderedPrefix(g, order)
    ensures Elements(order) <= g.Keys
  {
    forall x | x in order ensures x in g {
      var i :| 0 <= i < |order| && order[i] == x;
      assert After(g, order, i);
    }
  }

  /** A graph without closed walks can be listed successors first. */
  lemma {:induction false} CompleteOrder(g: Graph, order: seq<Node>) returns (full: seq<Node>)
    requires Closed(g) && Acyclic(g)
    requires Distinct(order) && OrderedPrefix(g, order)
    ensures Ordered(g, full)
    decreases g.Keys - Elements(order)
  {
    var left := g.Keys - Elements(order);
    if left == {} {
      PrefixNodes(g, order);
      assert g.Keys <= Elements(order) by {
        forall x | x in g.Keys ensures x in Elements(order) {
          assert x !in left;
        }
      }
      full := order;
    } else if x :| x in left && g[x] * left == {} {
      forall y | y in g[x] ensures y in Elements(order) {
        assert y !in g[x] * left;
      }
      ExtendOrder(g, order, x);
      full := CompleteOrder(g, order + [x]);
    } else {
      var c := StuckSetHasCycle(g, left);
    }
  }

  /** The graph with every edge turned around. */
  ghost function Reversed(g: Graph): Graph {
    map x | x in g :: set y | y in g && x in g[y]
  }

  lemma ReversedEdge(g: Graph, x: Node, y: Node)
    requires Closed(g)
    ensures Edge(g, x, y) <==> Edge(Reversed(g), y, x)
  {
  }

  /** Turning all edges around neither makes nor breaks cycles. */
  lemma ReversedAcyclic(g: Graph)
    requires Closed(g)
    ensures Acyclic(g) <==> Acyclic(Reversed(g))
  {
    forall p | ClosedWalk(g, p) ensures !Acyclic(Reversed(g)) {
      var q := Backwards(p);
      forall i | 0 <= i < |q| - 1 ensures Edge(Reversed(g), q[i], q[i + 1]) {
        assert Edge(g, p[|p| - 2 - i], p[|p| - 1 - i]);
        ReversedEdge(g, p[|p| - 2 - i], p[|p| - 1 - i]);
      }
      assert ClosedWalk(Reversed(g), q);
    }
    forall p | ClosedWalk(Reversed(g), p) ensures !Acyclic(g) {
      var q := Backwards(p);
      forall i | 0 <= i < |q| - 1 ensures Edge(g, q[i], q[i + 1]) {
        assert Edge(Reversed(g), p[|p| - 2 - i], p[|p| - 1 - i]);
        ReversedEdge(g, p[|p| - 1 - i], p[|p| - 2 - i]);
      }
      assert ClosedWalk(g, q);
    }
  }

  ghost function Backwards(p: seq<Node>): seq<Node> {
    seq(|p|, i requires 0 <= i < |p| => p[|p| - 1 - i])
  }
}
