/**
 The wait-for graph with its two representations, an adjacency map and a log of edges, and detection
 of deadlocks on a snapshot of it.
 */
module DeadlockDetector {
  import opened Sequences
  import opened Digraph
  import opened Ordering
  import opened CycleSearch

  datatype WaitEdge = WaitEdge(waiter: Node, holder: Node, resourceId: string)

  datatype DeadlockResult = DeadlockResult(cycles: seq<seq<Node>>, nodeCount: nat, edgeCount: nat) {
    predicate HasDeadlock() {
      cycles != []
    }
  }

  // ---- What the operations do to the wait-for relation ------------------------------------------

  function HoldersOf(g: Graph, x: Node): set<Node> {
    if x in g then g[x] else {}
  }

  function AddEdge(g: Graph, waiter: Node, holder: Node): Graph {
    var g' := g[waiter := HoldersOf(g, waiter) + {holder}];
    g'[holder := HoldersOf(g', holder)]
  }

  function RemoveEdge(g: Graph, waiter: Node, holder: Node): Graph {
    if waiter in g then g[waiter := g[waiter] - {holder}] else g
  }

  function RemoveNode(g: Graph, x: Node): Graph {
    map y | y in g && y != x :: g[y] - {x}
  }

  function DiscardEverywhere(g: Graph, x: Node): Graph {
    map y | y in g :: g[y] - {x}
  }

  lemma PopAndDiscard(g: Graph, x: Node)
    ensures DiscardEverywhere(g - {x}, x) == RemoveNode(g, x)
    ensures RemoveNode(g, x).Keys == g.Keys - {x}
  {
  }

  /** What the log keeps when an edge is removed, and when an agent is cleared. */
  function NotEdge(waiter: Node, holder: Node): WaitEdge -> bool {
    (e: WaitEdge) => !(e.waiter == waiter && e.holder == holder)
  }

  function NotAt(agentId: Node): WaitEdge -> bool {
    (e: WaitEdge) => e.waiter != agentId && e.holder != agentId
  }

  function Drop(xs: seq<Node>, x: Node): seq<Node> {
    if xs == [] then []
    else (if xs[0] == x then [] else [xs[0]]) + Drop(xs[1..], x)
  }

  lemma {:induction false} DropMembers(xs: seq<Node>, x: Node)
    ensures Elements(Drop(xs, x)) == Elements(xs) - {x}
    ensures Distinct(xs) ==> Distinct(Drop(xs, x))
  {
    if xs != [] {
      DropMembers(xs[1..], x);
      assert Elements(xs) == {xs[0]} + Elements(xs[1..]);
      assert Elements(Drop(xs, x)) == (if xs[0] == x then {} else {xs[0]}) + Elements(Drop(xs[1..], x));
      if Distinct(xs) {
        assert xs[0] !in Elements(Drop(xs[1..], x));
      }
    }
  }

  // ---- The detector -----------------------------------------------------------------------------

  /** The log and the adjacency map describe the same edges. */
  ghost predicate SameEdges(g: Graph, edges: seq<WaitEdge>) {
    && (forall e :: e in edges ==> Edge(g, e.waiter, e.holder))
    && forall x, y :: Edge(g, x, y) ==> exists e :: e in edges && e.waiter == x && e.holder == y
  }

  /** The log of an absent edge holds nothing to remove. */
  lemma NothingToRemove(g: Graph, edges: seq<WaitEdge>, waiter: Node, holder: Node)
    requires SameEdges(g, edges) && !Edge(g, waiter, holder)
    ensures Filter(edges, NotEdge(waiter, holder)) == edges
  {
    FilterKeepsAll(edges, NotEdge(waiter, holder));
  }

  class DeadlockDetector {
    const maxCycleLength: nat
    var graph: Graph
    var nodeOrder: seq<Node>
    var edges: seq<WaitEdge>

    ghost predicate Valid()
      reads this
    {
      && maxCycleLength >= 2
      && Closed(graph) && NoSelfLoop(graph) && SameEdges(graph, edges)
      && Distinct(nodeOrder) && Elements(nodeOrder) == graph.Keys
    }

    constructor (maxCycleLength: nat)
      requires maxCycleLength >= 2
      ensures Valid() && graph == map[] && edges == [] && this.maxCycleLength == maxCycleLength
    {
      this.maxCycleLength := maxCycleLength;
      graph, nodeOrder, edges := map[], [], [];
    }

    /** Construction with the argument check: a cap below two is refused. */
    static method Create(maxCycleLength: int) returns (d: DeadlockDetector?)
      ensures d == null <==> maxCycleLength < 2
      ensures d != null ==> fresh(d) && d.Valid() && d.graph == map[] && d.maxCycleLength == maxCycleLength
    {
      if maxCycleLength < 2 {
        return null;
      }
      d := new DeadlockDetector(maxCycleLength);
    }

    /** Registers an edge; a wait for oneself is refused and changes nothing. */
    method AddWait(waiter: Node, holder: Node, resourceId: string) returns (ok: bool)
      requires Valid()
      modifies this
      ensures Valid()
      ensures ok == (waiter != holder)
      ensures graph == if ok then AddEdge(old(graph), waiter, holder) else old(graph)
      ensures edges == if ok then old(edges) + [WaitEdge(waiter, holder, resourceId)] else old(edges)
    {
      if waiter == holder {
        return false;
      }
      if waiter !in graph {
        DistinctAppend(nodeOrder, waiter);
        graph, nodeOrder := graph[waiter := {}], nodeOrder + [waiter];
      }
      if holder !in graph {
        DistinctAppend(nodeOrder, holder);
        graph, nodeOrder := graph[holder := {}], nodeOrder + [holder];
      }
      graph := graph[waiter := graph[waiter] + {holder}];
      edges := edges + [WaitEdge(waiter, holder, resourceId)];
      assert graph == AddEdge(old(graph), waiter, holder);
      AddKeepsLog(old(graph), old(edges), waiter, holder, resourceId);
      return true;
    }

    method RemoveWait(waiter: Node, holder: Node) returns (removed: bool)
      requires Valid()
      modifies this
      ensures Valid() && nodeOrder == old(nodeOrder)
      ensures removed == Edge(old(graph), waiter, holder)
      ensures graph == RemoveEdge(old(graph), waiter, holder)
      ensures edges == Filter(old(edges), NotEdge(waiter, holder))
    {
      if waiter !in graph {
        NothingToRemove(graph, edges, waiter, holder);
        return false;
      }
      if holder !in graph[waiter] {
        assert graph[waiter] - {holder} == graph[waiter];
        assert graph == RemoveEdge(graph, waiter, holder);
        NothingToRemove(graph, edges, waiter, holder);
        return false;
      }
      graph := graph[waiter := graph[waiter] - {holder}];
      FilterMembers(edges, NotEdge(waiter, holder));
      edges := Filter(edges, NotEdge(waiter, holder));
      RemoveKeepsLog(old(graph), old(edges), waiter, holder, edges);
      return true;
    }

    method ClearAgent(agentId: Node)
      requires Valid()
      modifies this
      ensures Valid()
      ensures graph == RemoveNode(old(graph), agentId)
      ensures edges == Filter(old(edges), NotAt(agentId)) && nodeOrder == Drop(old(nodeOrder), agentId)
    {
      DropMembers(nodeOrder, agentId);
      PopAndDiscard(graph, agentId);
      nodeOrder := Drop(nodeOrder, agentId);
      graph := DiscardEverywhere(graph - {agentId}, agentId);
      FilterMembers(edges, NotAt(agentId));
      edges := Filter(edges, NotAt(agentId));
      ClearKeepsLog(old(graph), old(edges), agentId, edges);
    }

    method Clear()
      requires Valid()
      modifies this
      ensures Valid() && graph == map[] && edges == []
    {
      graph, nodeOrder, edges := map[], [], [];
    }

    /**
     Detection: exactly the simple cycles within the cap, each once and written from its least node;
     deduplication drops nothing.
     */
    method Detect() returns (r: DeadlockResult)
      requires Valid()
      ensures Distinct(r.cycles)
      ensures forall c :: c in r.cycles <==> Reported(graph, maxCycleLength, c)
      ensures forall c :: c in r.cycles ==>
                2 < |c| <= maxCycleLength + 1 && c[|c| - 1] == c[0] && forall i :: 0 < i < |c| - 1 ==> Below(c[0], c[i])
      ensures |graph.Keys| <= maxCycleLength ==> (r.HasDeadlock() <==> !Acyclic(graph))
      ensures r.HasDeadlock() <==> exists c :: SimpleCycle(graph, c) && |c| - 1 <= maxCycleLength
      ensures r.nodeCount == |graph| && r.edgeCount == |EdgeSet(graph)|
    {
      var adj := Snapshot();
      assert GraphOf(adj) == graph;
      var edgeCount := CountEdges(adj);
      var cycles := FindAllCycles(adj, nodeOrder, maxCycleLength);
      var unique := Deduplicate(cycles);
      assert AllCanonical(cycles) by {
        forall c | c in cycles ensures Canonical(c) == c {
          CanonicalFixed(c);
        }
      }
      DeadlockUnderCap(graph, maxCycleLength);
      if |graph.Keys| <= maxCycleLength {
        DeadlockIffClosedWalk(graph, maxCycleLength);
      }
      r := DeadlockResult(unique, |graph|, edgeCount);
      assert r.HasDeadlock() ==> unique[0] in unique;
    }

    /** The adjacency lists in ascending order. */
    method Snapshot() returns (adj: Adjacency)
      requires Valid()
      ensures IsSnapshot(adj) && GraphOf(adj) == graph
      ensures forall x :: x in adj ==> Ascending(adj[x])
    {
      adj := map[];
      for i := 0 to |nodeOrder|
        invariant adj.Keys == Elements(nodeOrder[..i])
        invariant forall x :: x in adj ==>
                    x in graph && Distinct(adj[x]) && Ascending(adj[x]) && Elements(adj[x]) == graph[x]
      {
        PrefixStep(nodeOrder, i);
        assert nodeOrder[i] in Elements(nodeOrder);
        var neighbors := Sort(graph[nodeOrder[i]]);
        adj := adj[nodeOrder[i] := neighbors];
      }
      assert nodeOrder[..|nodeOrder|] == nodeOrder;
      assert adj.Keys == graph.Keys;
      forall x | x in adj ensures x !in adj[x] && Elements(adj[x]) <= adj.Keys {
        assert x !in Elements(adj[x]);
      }
    }

    method CountEdges(adj: Adjacency) returns (n: nat)
      requires Valid() && IsSnapshot(adj) && GraphOf(adj) == graph
      ensures n == |EdgeSet(graph)|
    {
      n := 0;
      ghost var counted: set<(Node, Node)> := {};
      for i := 0 to |nodeOrder|
        invariant counted == set x, y | x in Elements(nodeOrder[..i]) && x in graph && y in graph[x] :: (x, y)
        invariant n == |counted|
      {
        var x := nodeOrder[i];
        PrefixStep(nodeOrder, i);
        assert x in Elements(nodeOrder) && x !in nodeOrder[..i];
        ghost var row := set y | y in graph[x] :: (x, y);
        RowSize(x, graph[x]);
        DistinctSize(adj[x]);
        assert Elements(adj[x]) == graph[x];
        assert counted !! row;
        counted := counted + row;
        n := n + |adj[x]|;
      }
      assert nodeOrder[..|nodeOrder|] == nodeOrder;
      assert counted == EdgeSet(graph);
    }
  }

  ghost function EdgeSet(g: Graph): set<(Node, Node)> {
    set x, y | x in g && y in g[x] :: (x, y)
  }

  lemma {:induction false} RowSize(x: Node, ys: set<Node>)
    ensures |set y | y in ys :: (x, y)| == |ys|
    decreases ys
  {
    if ys != {} {
      var z :| z in ys;
      RowSize(x, ys - {z});
      assert (set y | y in ys :: (x, y)) == (set y | y in ys - {z} :: (x, y)) + {(x, z)};
    } else {
      assert (set y | y in ys :: (x, y)) == {};
    }
  }

  // ---- The two representations stay in step -----------------------------------------------------

  lemma AddKeepsLog(g: Graph, edges: seq<WaitEdge>, waiter: Node, holder: Node, resourceId: string)
    requires Closed(g) && NoSelfLoop(g) && SameEdges(g, edges) && waiter != holder
    ensures var g' := AddEdge(g, waiter, holder);
            Closed(g') && NoSelfLoop(g') && SameEdges(g', edges + [WaitEdge(waiter, holder, resourceId)])
  {
    var g', edges' := AddEdge(g, waiter, holder), edges + [WaitEdge(waiter, holder, resourceId)];
    forall x, y | Edge(g', x, y) ensures exists e :: e in edges' && e.waiter == x && e.holder == y {
      if Edge(g, x, y) {
        var e :| e in edges && e.waiter == x && e.holder == y;
        assert e in edges';
      } else {
        assert edges'[|edges|] in edges';
      }
    }
    forall e | e in edges' ensures Edge(g', e.waiter, e.holder) {
      assert e in edges ==> Edge(g, e.waiter, e.holder);
    }
  }

  lemma RemoveKeepsLog(g: Graph, edges: seq<WaitEdge>, waiter: Node, holder: Node, edges': seq<WaitEdge>)
    requires Closed(g) && NoSelfLoop(g) && SameEdges(g, edges)
    requires forall e :: e in edges' <==> e in edges && !(e.waiter == waiter && e.holder == holder)
    ensures var g' := RemoveEdge(g, waiter, holder); Closed(g') && NoSelfLoop(g') && SameEdges(g', edges')
  {
    var g' := RemoveEdge(g, waiter, holder);
    forall x, y | Edge(g', x, y) ensures exists e :: e in edges' && e.waiter == x && e.holder == y {
      assert Edge(g, x, y);
      var e :| e in edges && e.waiter == x && e.holder == y;
      assert e in edges';
    }
    forall e | e in edges' ensures Edge(g', e.waiter, e.holder) {
      assert e in edges && Edge(g, e.waiter, e.holder);
    }
  }

  lemma ClearKeepsLog(g: Graph, edges: seq<WaitEdge>, a: Node, edges': seq<WaitEdge>)
    requires Closed(g) && NoSelfLoop(g) && SameEdges(g, edges)
    requires forall e :: e in edges' <==> e in edges && e.waiter != a && e.holder != a
    ensures var g' := RemoveNode(g, a); Closed(g') && NoSelfLoop(g') && SameEdges(g', edges')
  {
    var g' := RemoveNode(g, a);
    forall x, y | Edge(g', x, y) ensures exists e :: e in edges' && e.waiter == x && e.holder == y {
      assert Edge(g, x, y);
      var e :| e in edges && e.waiter == x && e.holder == y;
      assert e in edges';
    }
    forall e | e in edges' ensures Edge(g', e.waiter, e.holder) {
      assert e in edges && Edge(g, e.waiter, e.holder);
    }
  }

  // ---- Consequences -----------------------------------------------------------------------------

  /** Clearing an agent leaves exactly the cycles that avoid it. */
  lemma CyclesAfterClear(g: Graph, cap: nat, a: Node, c: seq<Node>)
    ensures Reported(RemoveNode(g, a), cap, c) <==> Reported(g, cap, c) && a !in c
  {
    var h := RemoveNode(g, a);
    if Reported(h, cap, c) {
      forall i | 0 <= i < |c| ensures c[i] != a {
        if i < |c| - 1 { assert Edge(h, c[i], c[i + 1]); } else { assert Edge(h, c[i - 1], c[i]); }
      }
      forall i | 0 <= i < |c| - 1 ensures Edge(g, c[i], c[i + 1]) { assert Edge(h, c[i], c[i + 1]); }
    }
    if Reported(g, cap, c) && a !in c {
      forall i | 0 <= i < |c| - 1 ensures Edge(h, c[i], c[i + 1]) { assert Edge(g, c[i], c[i + 1]); }
    }
  }

  /** Removing an edge leaves exactly the cycles that do not use it. */
  lemma CyclesAfterRemove(g: Graph, cap: nat, waiter: Node, holder: Node, c: seq<Node>)
    ensures Reported(RemoveEdge(g, waiter, holder), cap, c) <==>
            Reported(g, cap, c) && forall i :: 0 <= i < |c| - 1 ==> !(c[i] == waiter && c[i + 1] == holder)
  {
    var h := RemoveEdge(g, waiter, holder);
    if Reported(h, cap, c) {
      forall i | 0 <= i < |c| - 1 ensures Edge(g, c[i], c[i + 1]) && !(c[i] == waiter && c[i + 1] == holder) {
        assert Edge(h, c[i], c[i + 1]);
      }
    }
    if Reported(g, cap, c) && forall i :: 0 <= i < |c| - 1 ==> !(c[i] == waiter && c[i + 1] == holder) {
      forall i | 0 <= i < |c| - 1 ensures Edge(h, c[i], c[i + 1]) { assert Edge(g, c[i], c[i + 1]); }
    }
  }

  datatype Op = Add(waiter: Node, holder: Node) | Remove(waiter: Node, holder: Node) | ClearOne(agent: Node) | ClearAll

  function Apply(g: Graph, op: Op): Graph {
    match op
    case Add(w, h) => if w == h then g else AddEdge(g, w, h)
    case Remove(w, h) => RemoveEdge(g, w, h)
    case ClearOne(a) => RemoveNode(g, a)
    case ClearAll => map[]
  }

  function GraphAfter(ops: seq<Op>): Graph {
    if ops == [] then map[] else Apply(GraphAfter(ops[..|ops| - 1]), ops[|ops| - 1])
  }

  predicate Cancels(op: Op, x: Node, y: Node) {
    op == Remove(x, y) || op == ClearOne(x) || op == ClearOne(y) || op == ClearAll
  }

  predicate Mentions(op: Op, x: Node) {
    op.Add? && op.waiter != op.holder && (op.waiter == x || op.holder == x)
  }

  predicate Forgets(op: Op, x: Node) {
    op == ClearOne(x) || op == ClearAll
  }

  /** Over a whole run: an agent is a node iff an accepted wait named it and it was not cleared since. */
  lemma {:induction false} NodeHistory(ops: seq<Op>, x: Node)
    ensures x in GraphAfter(ops) <==>
            exists i :: 0 <= i < |ops| && Mentions(ops[i], x) && forall j :: i < j < |ops| ==> !Forgets(ops[j], x)
  {
    if ops != [] {
      var n := |ops| - 1;
      var front, last := ops[..n], ops[n];
      NodeHistory(front, x);
      NodeStep(GraphAfter(front), last, x);
      if x in GraphAfter(ops) && !Mentions(last, x) {
        var i :| 0 <= i < n && Mentions(front[i], x) && forall j :: i < j < n ==> !Forgets(front[j], x);
        assert Mentions(ops[i], x);
        forall j | i < j < |ops| ensures !Forgets(ops[j], x) { assert j < n ==> ops[j] == front[j]; }
      }
      if i :| 0 <= i < n && Mentions(ops[i], x) && forall j :: i < j < |ops| ==> !Forgets(ops[j], x) {
        assert Mentions(front[i], x) && !Forgets(last, x);
        forall j | i < j < n ensures !Forgets(front[j], x) { assert front[j] == ops[j]; }
      }
    }
  }

  /** What one operation does to the agents known: a removal keeps both ends. */
  lemma NodeStep(g: Graph, op: Op, x: Node)
    ensures x in Apply(g, op) <==> Mentions(op, x) || (x in g && !Forgets(op, x))
  {
  }

  /** Over a whole run: an edge is present iff it was added and nothing cancelled it since. */
  lemma {:induction false} EdgeHistory(ops: seq<Op>, x: Node, y: Node)
    ensures Edge(GraphAfter(ops), x, y) <==>
            x != y && exists i :: 0 <= i < |ops| && ops[i] == Add(x, y)
                                  && forall j :: i < j < |ops| ==> !Cancels(ops[j], x, y)
  {
    if ops != [] {
      var n := |ops| - 1;
      var front, last := ops[..n], ops[n];
      EdgeHistory(front, x, y);
      assert Edge(GraphAfter(ops), x, y) <==>
             (Edge(GraphAfter(front), x, y) && !Cancels(last, x, y)) || (last == Add(x, y) && x != y);
      if Edge(GraphAfter(ops), x, y) {
        if last == Add(x, y) {
          assert ops[n] == Add(x, y);
        } else {
          var i :| 0 <= i < n && front[i] == Add(x, y) && forall j :: i < j < n ==> !Cancels(front[j], x, y);
          forall j | i < j < |ops| ensures !Cancels(ops[j], x, y) {
            assert j < n ==> ops[j] == front[j];
          }
          assert ops[i] == Add(x, y);
        }
      }
      if i :| 0 <= i < |ops| && ops[i] == Add(x, y) && x != y && forall j :: i < j < |ops| ==> !Cancels(ops[j], x, y) {
        if i < n {
          assert front[i] == Add(x, y) && !Cancels(last, x, y);
          forall j | i < j < n ensures !Cancels(front[j], x, y) { assert front[j] == ops[j]; }
        }
      }
    }
  }
}
