/**
 The explicit-stack search for simple cycles, and what it finds: exactly the simple cycles within the
 length cap, each once, starting at its least node.
 */
module CycleSearch {
  import opened Sequences
  import opened Digraph
  import opened Ordering

  type Adjacency = map<Node, seq<Node>>

  /** The set-based graph behind an adjacency list. */
  ghost function GraphOf(adj: Adjacency): Graph {
    map x | x in adj :: Elements(adj[x])
  }

  /** What a snapshot of the detector looks like: successors are nodes, listed once, never the node itself. */
  ghost predicate IsSnapshot(adj: Adjacency) {
    forall x :: x in adj ==> Distinct(adj[x]) && Elements(adj[x]) <= adj.Keys && x !in adj[x]
  }

  // ---- Cycles -----------------------------------------------------------------------------------

  /** A closed walk over at least two nodes that repeats only its first node, at the end. */
  ghost predicate SimpleCycle(g: Graph, c: seq<Node>) {
    |c| >= 3 && c[0] == c[|c| - 1] && Walk(g, c) && Distinct(c[..|c| - 1])
  }

  ghost predicate StartsLeast(c: seq<Node>) {
    forall i :: 0 < i < |c| - 1 ==> Below(c[0], c[i])
  }

  /** The cycles the detector promises: simple, within the cap, written from the least node. */
  ghost predicate Reported(g: Graph, cap: nat, c: seq<Node>) {
    SimpleCycle(g, c) && StartsLeast(c) && |c| - 1 <= cap
  }

  // ---- The search as a tree ---------------------------------------------------------------------

  /** A path the search may hold: simple, along edges, every later node above the start. */
  ghost predicate SearchPath(g: Graph, start: Node, path: seq<Node>) {
    && path != [] && path[0] == start
    && Distinct(path) && Elements(path) <= g.Keys
    && Walk(g, path)
    && forall i :: 0 < i < |path| ==> Below(start, path[i])
  }

  predicate Closes(start: Node, path: seq<Node>, neighbor: Node) {
    neighbor == start && |path| >= 2
  }

  predicate Extends(start: Node, path: seq<Node>, neighbor: Node) {
    !Closes(start, path, neighbor) && neighbor !in path && Below(start, neighbor)
  }

  /** The cycles closed, and the paths stacked, while scanning the successors of the path's end. */
  function Closings(ns: seq<Node>, start: Node, path: seq<Node>): seq<seq<Node>> {
    if ns == [] then []
    else Closings(ns[..|ns| - 1], start, path) +
         if Closes(start, path, ns[|ns| - 1]) then [path + [start]] else []
  }

  function Pushes(ns: seq<Node>, start: Node, path: seq<Node>): seq<seq<Node>> {
    if ns == [] then []
    else Pushes(ns[..|ns| - 1], start, path) +
         if Extends(start, path, ns[|ns| - 1]) then [path + [ns[|ns| - 1]]] else []
  }

  lemma {:induction false} ClosingsMembers(ns: seq<Node>, start: Node, path: seq<Node>)
    ensures forall c :: c in Closings(ns, start, path) <==> c == path + [start] && |path| >= 2 && start in ns
    ensures Distinct(ns) ==> Distinct(Closings(ns, start, path))
  {
    if ns != [] {
      var front, last := ns[..|ns| - 1], ns[|ns| - 1];
      ClosingsMembers(front, start, path);
      assert ns == front + [last];
      if Distinct(ns) && Closes(start, path, last) {
        SomeMember(Closings(front, start, path));
      }
    }
  }

  /** A stacked path is the current one plus a successor worth extending to. */
  ghost predicate IsPush(ns: seq<Node>, start: Node, path: seq<Node>, p: seq<Node>) {
    |p| == |path| + 1 && p[..|path|] == path && p[|path|] in ns && Extends(start, path, p[|path|])
  }

  lemma {:induction false} PushesMembers(ns: seq<Node>, start: Node, path: seq<Node>)
    ensures forall p :: p in Pushes(ns, start, path) <==> IsPush(ns, start, path, p)
  {
    if ns != [] {
      var front, last := ns[..|ns| - 1], ns[|ns| - 1];
      PushesMembers(front, start, path);
      assert ns == front + [last];
      forall p ensures p in Pushes(ns, start, path) <==> IsPush(ns, start, path, p) {
        PushStep(front, last, start, path, p);
      }
    }
  }

  lemma PushStep(front: seq<Node>, last: Node, start: Node, path: seq<Node>, p: seq<Node>)
    ensures IsPush(front + [last], start, path, p) <==>
            IsPush(front, start, path, p) || (p == path + [last] && Extends(start, path, last))
  {
    if |p| == |path| + 1 && p[..|path|] == path {
      assert p == path + [p[|path|]];
    }
  }

  lemma {:induction false} PushesDistinct(ns: seq<Node>, start: Node, path: seq<Node>)
    requires Distinct(ns)
    ensures Distinct(Pushes(ns, start, path))
  {
    if ns != [] {
      var front, last := ns[..|ns| - 1], ns[|ns| - 1];
      PushesDistinct(front, start, path);
      PushesMembers(front, start, path);
      assert path + [last] !in Pushes(front, start, path) by {
        assert (path + [last])[|path|] == last;
      }
    }
  }

  lemma PathIsBounded(adj: Adjacency, start: Node, path: seq<Node>)
    requires SearchPath(GraphOf(adj), start, path)
    ensures |path| <= |adj.Keys|
  {
    assert GraphOf(adj).Keys == adj.Keys;
    DistinctSize(path);
    SubsetSize(Elements(path), adj.Keys);
  }

  /** The successors scanned when a path is popped: those of its last node. */
  function Successors(adj: Adjacency, path: seq<Node>): seq<Node>
    requires path != []
  {
    var current := path[|path| - 1];
    if current in adj then adj[current] else []
  }

  /** Every stacked path stays simple, connected and above its start. */
  lemma PushKeepsPath(adj: Adjacency, start: Node, path: seq<Node>, p: seq<Node>)
    requires IsSnapshot(adj) && SearchPath(GraphOf(adj), start, path)
    requires p in Pushes(Successors(adj, path), start, path)
    ensures SearchPath(GraphOf(adj), start, p) && |p| == |path| + 1
  {
    PushesMembers(Successors(adj, path), start, path);
    var x := p[|path|];
    assert p == path + [x];
    assert path[|path| - 1] in Elements(path);
    assert x in Elements(adj[path[|path| - 1]]);
    WalkExtends(GraphOf(adj), path, x);
    DistinctAppend(path, x);
  }

  /** Paths of length at least `n` that the search may hold. */
  ghost predicate Stackable(adj: Adjacency, start: Node, n: nat, stack: seq<seq<Node>>) {
    forall p {:trigger SearchPath(GraphOf(adj), start, p)} :: p in stack ==>
        SearchPath(GraphOf(adj), start, p) && |p| >= n
  }

  /** The cycles found from one stacked path, in the order the search yields them. */
  ghost function Explore(adj: Adjacency, start: Node, cap: nat, path: seq<Node>): seq<seq<Node>>
    requires IsSnapshot(adj) && SearchPath(GraphOf(adj), start, path)
    decreases |adj.Keys| + 1 - |path|, 1
  {
    PathIsBounded(adj, start, path);
    if |path| > cap then []
    else
      var ns := Successors(adj, path);
      PushesAreSearchPaths(adj, start, path);
      Closings(ns, start, path) + Drain(adj, start, cap, |path| + 1, Pushes(ns, start, path))
  }

  /** The cycles found from a stack of paths of length at least `n`, its last element first. */
  ghost function Drain(adj: Adjacency, start: Node, cap: nat, n: nat, stack: seq<seq<Node>>): seq<seq<Node>>
    requires IsSnapshot(adj) && n <= |adj.Keys| + 1 && Stackable(adj, start, n, stack)
    decreases |adj.Keys| + 1 - n, 2, |stack|
  {
    if stack == [] then []
    else
      var top := stack[|stack| - 1];
      PathIsBounded(adj, start, top);
      Explore(adj, start, cap, top) + Drain(adj, start, cap, n, stack[..|stack| - 1])
  }

  lemma StackFront(adj: Adjacency, start: Node, n: nat, stack: seq<seq<Node>>)
    requires stack != [] && Stackable(adj, start, n, stack)
    ensures Stackable(adj, start, n, stack[..|stack| - 1])
    ensures SearchPath(GraphOf(adj), start, stack[|stack| - 1]) && |stack[|stack| - 1]| >= n
  {
    LastMember(stack);
    forall p | p in stack[..|stack| - 1] ensures SearchPath(GraphOf(adj), start, p) && |p| >= n {
      assert p in stack && SearchPath(GraphOf(adj), start, p);
    }
    assert SearchPath(GraphOf(adj), start, stack[|stack| - 1]);
  }

  lemma {:induction false} DrainAnyBound(adj: Adjacency, start: Node, cap: nat, n: nat, m: nat, stack: seq<seq<Node>>)
    requires IsSnapshot(adj) && n <= |adj.Keys| + 1 && m <= |adj.Keys| + 1
    requires Stackable(adj, start, n, stack) && Stackable(adj, start, m, stack)
    ensures Drain(adj, start, cap, n, stack) == Drain(adj, start, cap, m, stack)
  {
    if stack != [] {
      StackFront(adj, start, n, stack);
      StackFront(adj, start, m, stack);
      DrainAnyBound(adj, start, cap, n, m, stack[..|stack| - 1]);
    }
  }

  lemma SplitLast<T>(a: seq<T>, b: seq<T>)
    requires b != []
    ensures (a + b)[..|a + b| - 1] == a + b[..|b| - 1] && (a + b)[|a + b| - 1] == b[|b| - 1]
    ensures forall x :: x in b[..|b| - 1] ==> x in b
  {
  }

  lemma {:induction false} DrainConcat(adj: Adjacency, start: Node, cap: nat, n: nat, a: seq<seq<Node>>,
                                       b: seq<seq<Node>>)
    requires IsSnapshot(adj) && n <= |adj.Keys| + 1
    requires Stackable(adj, start, n, a) && Stackable(adj, start, n, b)
    ensures Stackable(adj, start, n, a + b)
    ensures Drain(adj, start, cap, n, a + b) == Drain(adj, start, cap, n, b) + Drain(adj, start, cap, n, a)
  {
    if b == [] {
      assert a + b == a;
    } else {
      SplitLast(a, b);
      StackFront(adj, start, n, b);
      DrainConcat(adj, start, cap, n, a, b[..|b| - 1]);
    }
  }

  /** How many pops a stacked path will cause, itself included. */
  ghost function Work(adj: Adjacency, start: Node, cap: nat, path: seq<Node>): (w: nat)
    requires IsSnapshot(adj) && SearchPath(GraphOf(adj), start, path)
    ensures w > 0
    decreases |adj.Keys| + 1 - |path|, 1
  {
    PathIsBounded(adj, start, path);
    if |path| > cap then 1
    else
      var ns := Successors(adj, path);
      PushesAreSearchPaths(adj, start, path);
      1 + WorkLeft(adj, start, cap, |path| + 1, Pushes(ns, start, path))
  }

  ghost function WorkLeft(adj: Adjacency, start: Node, cap: nat, n: nat, stack: seq<seq<Node>>): nat
    requires IsSnapshot(adj) && n <= |adj.Keys| + 1 && Stackable(adj, start, n, stack)
    decreases |adj.Keys| + 1 - n, 2, |stack|
  {
    if stack == [] then 0
    else
      var top := stack[|stack| - 1];
      PathIsBounded(adj, start, top);
      Work(adj, start, cap, top) + WorkLeft(adj, start, cap, n, stack[..|stack| - 1])
  }

  lemma {:induction false} WorkAnyBound(adj: Adjacency, start: Node, cap: nat, n: nat, m: nat, stack: seq<seq<Node>>)
    requires IsSnapshot(adj) && n <= |adj.Keys| + 1 && m <= |adj.Keys| + 1
    requires Stackable(adj, start, n, stack) && Stackable(adj, start, m, stack)
    ensures WorkLeft(adj, start, cap, n, stack) == WorkLeft(adj, start, cap, m, stack)
  {
    if stack != [] {
      StackFront(adj, start, n, stack);
      StackFront(adj, start, m, stack);
      WorkAnyBound(adj, start, cap, n, m, stack[..|stack| - 1]);
    }
  }

  lemma {:induction false} WorkConcat(adj: Adjacency, start: Node, cap: nat, n: nat, a: seq<seq<Node>>,
                                      b: seq<seq<Node>>)
    requires IsSnapshot(adj) && n <= |adj.Keys| + 1
    requires Stackable(adj, start, n, a) && Stackable(adj, start, n, b)
    ensures Stackable(adj, start, n, a + b)
    ensures WorkLeft(adj, start, cap, n, a + b) == WorkLeft(adj, start, cap, n, a) + WorkLeft(adj, start, cap, n, b)
  {
    if b == [] {
      assert a + b == a;
    } else {
      SplitLast(a, b);
      StackFront(adj, start, n, b);
      WorkConcat(adj, start, cap, n, a, b[..|b| - 1]);
    }
  }

  // ---- The stack loop ---------------------------------------------------------------------------

  /** A stack entry: the path with its end and its node set kept beside it. */
  datatype Entry = Entry(current: Node, path: seq<Node>, visited: set<Node>)

  function Paths(stack: seq<Entry>): seq<seq<Node>> {
    seq(|stack|, i requires 0 <= i < |stack| => stack[i].path)
  }

  ghost predicate EntryRight(e: Entry) {
    e.path != [] && e.current == e.path[|e.path| - 1] && e.visited == Elements(e.path)
  }

  ghost predicate StackRight(adj: Adjacency, start: Node, stack: seq<Entry>) {
    && (forall i :: 0 <= i < |stack| ==> EntryRight(stack[i]))
    && Stackable(adj, start, 0, Paths(stack))
  }

  /** Scans the successors of a popped path: yields the cycles it closes, stacks the paths it extends. */
  method Scan(ns: seq<Node>, start: Node, path: seq<Node>, visited: set<Node>)
    returns (cycles: seq<seq<Node>>, pushed: seq<Entry>)
    requires visited == Elements(path)
    ensures cycles == Closings(ns, start, path)
    ensures Paths(pushed) == Pushes(ns, start, path)
    ensures forall i :: 0 <= i < |pushed| ==> EntryRight(pushed[i])
  {
    cycles, pushed := [], [];
    for i := 0 to |ns|
      invariant cycles == Closings(ns[..i], start, path)
      invariant Paths(pushed) == Pushes(ns[..i], start, path)
      invariant forall k :: 0 <= k < |pushed| ==> EntryRight(pushed[k])
    {
      var neighbor := ns[i];
      assert ns[..i + 1][..i] == ns[..i];
      if neighbor == start && |path| >= 2 {
        cycles := cycles + [path + [start]];
      } else if neighbor !in visited && Below(start, neighbor) {
        ghost var before := pushed;
        pushed := pushed + [Entry(neighbor, path + [neighbor], visited + {neighbor})];
        assert Paths(pushed) == Paths(before) + [path + [neighbor]];
      }
    }
    assert ns[..|ns|] == ns;
  }

  /** Pops the top entry: yields what it closes and stacks what it extends. */
  method PopOne(adj: Adjacency, start: Node, cap: nat, stack: seq<Entry>)
    returns (found: seq<seq<Node>>, stack': seq<Entry>)
    requires IsSnapshot(adj) && StackRight(adj, start, stack) && stack != []
    ensures StackRight(adj, start, stack')
    ensures Drain(adj, start, cap, 0, Paths(stack)) == found + Drain(adj, start, cap, 0, Paths(stack'))
    ensures WorkLeft(adj, start, cap, 0, Paths(stack')) < WorkLeft(adj, start, cap, 0, Paths(stack))
  {
    var top, rest := stack[|stack| - 1], stack[..|stack| - 1];
    TopOfStack(adj, start, rest, top, stack);
    PopAndPush(adj, start, cap, Paths(rest), top.path);
    var pushed;
    found, pushed := [], [];
    if |top.path| <= cap {
      var ns := if top.current in adj then adj[top.current] else [];
      found, pushed := Scan(ns, start, top.path, top.visited);
    }
    stack' := rest + pushed;
    JoinStacks(adj, start, rest, pushed);
  }

  lemma JoinStacks(adj: Adjacency, start: Node, a: seq<Entry>, b: seq<Entry>)
    requires forall i :: 0 <= i < |a| ==> EntryRight(a[i])
    requires forall i :: 0 <= i < |b| ==> EntryRight(b[i])
    requires Stackable(adj, start, 0, Paths(a) + Paths(b))
    ensures Paths(a + b) == Paths(a) + Paths(b) && StackRight(adj, start, a + b)
  {
    assert Paths(a + b) == Paths(a) + Paths(b);
  }

  /** All cycles whose least node is `start`. */
  method CyclesFrom(adj: Adjacency, start: Node, cap: nat) returns (cycles: seq<seq<Node>>)
    requires IsSnapshot(adj) && start in adj
    ensures SearchPath(GraphOf(adj), start, [start]) && cycles == Explore(adj, start, cap, [start])
  {
    var stack := [Entry(start, [start], {start})];
    cycles := [];
    assert Paths(stack) == [[start]];
    while stack != []
      invariant StackRight(adj, start, stack)
      invariant cycles + Drain(adj, start, cap, 0, Paths(stack)) == Explore(adj, start, cap, [start])
      decreases WorkLeft(adj, start, cap, 0, Paths(stack))
    {
      var found;
      found, stack := PopOne(adj, start, cap, stack);
      cycles := cycles + found;
    }
  }

  lemma TopOfStack(adj: Adjacency, start: Node, rest: seq<Entry>, top: Entry, stack: seq<Entry>)
    requires StackRight(adj, start, stack) && stack == rest + [top]
    ensures EntryRight(top) && Paths(stack) == Paths(rest) + [top.path]
    ensures Stackable(adj, start, 0, Paths(rest) + [top.path])
    ensures forall i :: 0 <= i < |rest| ==> EntryRight(rest[i])
  {
    assert stack[|rest|] == top;
    forall i | 0 <= i < |rest| ensures EntryRight(rest[i]) { assert stack[i] == rest[i]; }
    assert Paths(stack) == Paths(rest) + [top.path];
  }

  /** One iteration: the output still to come is split correctly, and strictly less work is left. */
  lemma PopAndPush(adj: Adjacency, start: Node, cap: nat, below: seq<seq<Node>>, top: seq<Node>)
    requires IsSnapshot(adj) && top != []
    requires Stackable(adj, start, 0, below + [top])
    ensures var pushed := if |top| > cap then [] else Pushes(Successors(adj, top), start, top);
            var found := if |top| > cap then [] else Closings(Successors(adj, top), start, top);
            && Stackable(adj, start, 0, below + pushed)
            && Drain(adj, start, cap, 0, below + [top]) == found + Drain(adj, start, cap, 0, below + pushed)
            && WorkLeft(adj, start, cap, 0, below + pushed) < WorkLeft(adj, start, cap, 0, below + [top])
  {
    if |top| > cap {
      assert below + [] == below;
    } else {
      PushesAreSearchPaths(adj, start, top);
      PushedOutput(adj, start, cap, below, top);
      PushedWork(adj, start, cap, below, top);
    }
  }

  lemma PushesAreSearchPaths(adj: Adjacency, start: Node, path: seq<Node>)
    requires IsSnapshot(adj) && SearchPath(GraphOf(adj), start, path)
    ensures Stackable(adj, start, |path| + 1, Pushes(Successors(adj, path), start, path))
    ensures forall p :: p in Pushes(Successors(adj, path), start, path) ==> |p| == |path| + 1
  {
    forall p | p in Pushes(Successors(adj, path), start, path)
      ensures SearchPath(GraphOf(adj), start, p) && |p| == |path| + 1
    {
      PushKeepsPath(adj, start, path, p);
    }
  }

  lemma PushedStack(adj: Adjacency, start: Node, top: seq<Node>)
    requires IsSnapshot(adj) && SearchPath(GraphOf(adj), start, top)
    ensures |top| + 1 <= |adj.Keys| + 1
    ensures Stackable(adj, start, |top| + 1, Pushes(Successors(adj, top), start, top))
    ensures Stackable(adj, start, 0, Pushes(Successors(adj, top), start, top))
  {
    PathIsBounded(adj, start, top);
    PushesAreSearchPaths(adj, start, top);
  }

  lemma PushedOutput(adj: Adjacency, start: Node, cap: nat, below: seq<seq<Node>>, top: seq<Node>)
    requires IsSnapshot(adj) && SearchPath(GraphOf(adj), start, top) && |top| <= cap
    requires Stackable(adj, start, 0, below)
    ensures var pushed := Pushes(Successors(adj, top), start, top);
            && Stackable(adj, start, 0, below + pushed)
            && Closings(Successors(adj, top), start, top) + Drain(adj, start, cap, 0, below + pushed)
               == Explore(adj, start, cap, top) + Drain(adj, start, cap, 0, below)
  {
    var pushed := Pushes(Successors(adj, top), start, top);
    PushedStack(adj, start, top);
    DrainAnyBound(adj, start, cap, 0, |top| + 1, pushed);
    DrainConcat(adj, start, cap, 0, below, pushed);
    assert Drain(adj, start, cap, |top| + 1, pushed) == Drain(adj, start, cap, 0, pushed);
  }

  lemma PushedWork(adj: Adjacency, start: Node, cap: nat, below: seq<seq<Node>>, top: seq<Node>)
    requires IsSnapshot(adj) && SearchPath(GraphOf(adj), start, top) && |top| <= cap
    requires Stackable(adj, start, 0, below)
    ensures var pushed := Pushes(Successors(adj, top), start, top);
            && Stackable(adj, start, 0, below + pushed)
            && WorkLeft(adj, start, cap, 0, below + pushed) + 1
               == WorkLeft(adj, start, cap, 0, below) + Work(adj, start, cap, top)
  {
    var pushed := Pushes(Successors(adj, top), start, top);
    PathIsBounded(adj, start, top);
    PushesAreSearchPaths(adj, start, top);
    WorkAnyBound(adj, start, cap, 0, |top| + 1, pushed);
    WorkConcat(adj, start, cap, 0, below, pushed);
  }

  // ---- What the search finds --------------------------------------------------------------------

  /** `c` is `path` continued to a reportable cycle through `start`. */
  ghost predicate Completes(g: Graph, start: Node, cap: nat, path: seq<Node>, c: seq<Node>) {
    |c| > |path| && c[..|path|] == path && ClosesAt(g, start, cap, c)
  }

  ghost predicate ClosesAt(g: Graph, start: Node, cap: nat, c: seq<Node>) {
    && 3 <= |c| <= cap + 1 && c[|c| - 1] == start
    && SearchPath(g, start, c[..|c| - 1]) && Edge(g, c[|c| - 2], start)
  }

  lemma {:induction false} DrainMembers(adj: Adjacency, start: Node, cap: nat, n: nat, stack: seq<seq<Node>>,
                                        c: seq<Node>)
    requires IsSnapshot(adj) && n <= |adj.Keys| + 1 && Stackable(adj, start, n, stack)
    ensures c in Drain(adj, start, cap, n, stack) <==>
              exists p :: p in stack && SearchPath(GraphOf(adj), start, p) && c in Explore(adj, start, cap, p)
  {
    if stack != [] {
      var front, top := stack[..|stack| - 1], stack[|stack| - 1];
      LastMember(stack);
      StackFront(adj, start, n, stack);
      DrainMembers(adj, start, cap, n, front, c);
      assert c in Drain(adj, start, cap, n, stack) <==>
             c in Explore(adj, start, cap, top) || c in Drain(adj, start, cap, n, front);
      forall p | p in front && SearchPath(GraphOf(adj), start, p) ensures p in stack {}
    }
  }

  /** Soundness and completeness of exploring one path. */
  lemma {:induction false} ExploreMembers(adj: Adjacency, start: Node, cap: nat, path: seq<Node>, c: seq<Node>)
    requires IsSnapshot(adj) && SearchPath(GraphOf(adj), start, path)
    ensures c in Explore(adj, start, cap, path) <==> Completes(GraphOf(adj), start, cap, path, c)
    decreases |adj.Keys| + 1 - |path|, 1
  {
    PathIsBounded(adj, start, path);
    if |path| <= cap {
      var ns := Successors(adj, path);
      PushesAreSearchPaths(adj, start, path);
      ClosingsMembers(ns, start, path);
      ClosingCompletes(adj, start, cap, path, c);
      PushedMembers(adj, start, cap, path, c);
      assert c in Explore(adj, start, cap, path) <==>
             c in Closings(ns, start, path) || c in Drain(adj, start, cap, |path| + 1, Pushes(ns, start, path));
    }
  }

  lemma {:induction false} PushedMembers(adj: Adjacency, start: Node, cap: nat, path: seq<Node>, c: seq<Node>)
    requires IsSnapshot(adj) && SearchPath(GraphOf(adj), start, path) && |path| <= cap && |path| + 1 <= |adj.Keys| + 1
    requires Stackable(adj, start, |path| + 1, Pushes(Successors(adj, path), start, path))
    ensures c in Drain(adj, start, cap, |path| + 1, Pushes(Successors(adj, path), start, path)) <==>
            Completes(GraphOf(adj), start, cap, path, c) && |c| > |path| + 1
    decreases |adj.Keys| + 1 - |path|, 0
  {
    var pushes := Pushes(Successors(adj, path), start, path);
    DrainMembers(adj, start, cap, |path| + 1, pushes, c);
    PushCompletes(adj, start, cap, path, c);
    forall p | p in pushes && SearchPath(GraphOf(adj), start, p)
      ensures c in Explore(adj, start, cap, p) <==> Completes(GraphOf(adj), start, cap, p, c)
    {
      PushKeepsPath(adj, start, path, p);
      PathIsBounded(adj, start, p);
      ExploreMembers(adj, start, cap, p, c);
    }
    if p :| p in pushes && Completes(GraphOf(adj), start, cap, p, c) {
      PushKeepsPath(adj, start, path, p);
      assert c in Explore(adj, start, cap, p);
    }
  }

  lemma ClosingCompletes(adj: Adjacency, start: Node, cap: nat, path: seq<Node>, c: seq<Node>)
    requires IsSnapshot(adj) && SearchPath(GraphOf(adj), start, path) && |path| <= cap
    ensures c == path + [start] && |path| >= 2 && start in Successors(adj, path) <==>
            Completes(GraphOf(adj), start, cap, path, c) && |c| == |path| + 1
  {
    assert path[|path| - 1] in Elements(path);
    if |c| == |path| + 1 && c[..|path|] == path {
      assert c == path + [c[|path|]];
      assert c[..|c| - 1] == path;
    }
  }

  lemma PushCompletes(adj: Adjacency, start: Node, cap: nat, path: seq<Node>, c: seq<Node>)
    requires IsSnapshot(adj) && SearchPath(GraphOf(adj), start, path) && |path| <= cap
    ensures (exists p ::
               p in Pushes(Successors(adj, path), start, path) && Completes(GraphOf(adj), start, cap, p, c)) <==>
            Completes(GraphOf(adj), start, cap, path, c) && |c| > |path| + 1
  {
    var g, ns := GraphOf(adj), Successors(adj, path);
    PushesMembers(ns, start, path);
    if p :| p in Pushes(ns, start, path) && Completes(g, start, cap, p, c) {
      assert c[..|path|] == c[..|p|][..|path|];
    }
    if Completes(g, start, cap, path, c) && |c| > |path| + 1 {
      var p := c[..|path| + 1];
      assert p == c[..|c| - 1][..|path| + 1] && p[..|path|] == path;
      assert p in Pushes(ns, start, path);
    }
  }

  /** No cycle is found twice. */
  lemma {:induction false} ExploreDistinct(adj: Adjacency, start: Node, cap: nat, path: seq<Node>)
    requires IsSnapshot(adj) && SearchPath(GraphOf(adj), start, path)
    ensures Distinct(Explore(adj, start, cap, path))
    decreases |adj.Keys| + 1 - |path|, 1
  {
    PathIsBounded(adj, start, path);
    if |path| <= cap {
      var ns := Successors(adj, path);
      var pushes := Pushes(ns, start, path);
      PushesAreSearchPaths(adj, start, path);
      assert path[|path| - 1] in Elements(path);
      PushesDistinct(ns, start, path);
      ClosingsMembers(ns, start, path);
      DrainDistinct(adj, start, cap, |path| + 1, pushes);
      forall c | c in Drain(adj, start, cap, |path| + 1, pushes) ensures c !in Closings(ns, start, path) {
        DrainMembers(adj, start, cap, |path| + 1, pushes, c);
        var p :| p in pushes && c in Explore(adj, start, cap, p);
        ExploreMembers(adj, start, cap, p, c);
      }
      DistinctConcat(Closings(ns, start, path), Drain(adj, start, cap, |path| + 1, pushes));
    }
  }

  lemma {:induction false} DrainDistinct(adj: Adjacency, start: Node, cap: nat, n: nat, stack: seq<seq<Node>>)
    requires IsSnapshot(adj) && n <= |adj.Keys| + 1 && Distinct(stack)
    requires Stackable(adj, start, n, stack) && forall p :: p in stack ==> |p| == n
    ensures Distinct(Drain(adj, start, cap, n, stack))
    decreases |adj.Keys| + 1 - n, 2, |stack|
  {
    if stack != [] {
      var front, top := stack[..|stack| - 1], stack[|stack| - 1];
      StackFront(adj, start, n, stack);
      PathIsBounded(adj, start, top);
      ExploreDistinct(adj, start, cap, top);
      DrainDistinct(adj, start, cap, n, front);
      forall c | c in Explore(adj, start, cap, top) ensures c !in Drain(adj, start, cap, n, front) {
        ExploreMembers(adj, start, cap, top, c);
        DrainMembers(adj, start, cap, n, front, c);
        forall p | p in front ensures c !in Explore(adj, start, cap, p) {
          ExploreMembers(adj, start, cap, p, c);
        }
      }
      DistinctConcat(Explore(adj, start, cap, top), Drain(adj, start, cap, n, front));
    }
  }

  /** The cycles completed from the bare start are the reportable cycles that begin there. */
  lemma CompletesIsReported(g: Graph, start: Node, cap: nat, c: seq<Node>)
    requires start in g
    ensures Completes(g, start, cap, [start], c) <==> Reported(g, cap, c) && c[0] == start
  {
    if Completes(g, start, cap, [start], c) {
      var body := c[..|c| - 1];
      assert c == body + [start] && body[0] == start;
      WalkExtends(g, body, start);
      forall i | 0 < i < |c| - 1 ensures Below(c[0], c[i]) { assert body[i] == c[i]; }
    }
    if Reported(g, cap, c) && c[0] == start {
      var body := c[..|c| - 1];
      assert c == body + [start];
      WalkPrefix(g, body, [start]);
      assert Edge(g, c[|c| - 2], c[|c| - 1]);
      forall x | x in body ensures x in g {
        var i :| 0 <= i < |body| && body[i] == x;
        assert Edge(g, c[i], c[i + 1]);
      }
      assert c[..1] == [start];
    }
  }

  /** The generator run to its end: exactly the reportable cycles, each once. */
  method FindAllCycles(adj: Adjacency, nodes: seq<Node>, cap: nat) returns (cycles: seq<seq<Node>>)
    requires IsSnapshot(adj) && Distinct(nodes) && Elements(nodes) == adj.Keys
    ensures Distinct(cycles)
    ensures forall c :: c in cycles <==> Reported(GraphOf(adj), cap, c)
  {
    cycles := [];
    for i := 0 to |nodes|
      invariant Distinct(cycles)
      invariant forall c :: c in cycles <==> Reported(GraphOf(adj), cap, c) && c[0] in nodes[..i]
    {
      var start := nodes[i];
      assert start in adj by { assert start in Elements(nodes); }
      assert nodes[..i + 1] == nodes[..i] + [start] && start !in nodes[..i];
      var more := CyclesFrom(adj, start, cap);
      ExploreDistinct(adj, start, cap, [start]);
      forall c ensures c in more <==> Reported(GraphOf(adj), cap, c) && c[0] == start {
        ExploreMembers(adj, start, cap, [start], c);
        CompletesIsReported(GraphOf(adj), start, cap, c);
      }
      DistinctConcat(cycles, more);
      cycles := cycles + more;
    }
    assert nodes[..|nodes|] == nodes;
    forall c | Reported(GraphOf(adj), cap, c) ensures c[0] in nodes {
      assert Edge(GraphOf(adj), c[0], c[1]);
      assert c[0] in Elements(nodes);
    }
  }

  // ---- Canonical form and deduplication ---------------------------------------------------------

  /** The cycle rotated so that it starts, and closes, at its least node. */
  function Canonical(c: seq<Node>): seq<Node> {
    var path := if c == [] then [] else c[..|c| - 1];
    if path == [] then c
    else
      var i := IndexOf(path, Min(path));
      var rotated := path[i..] + path[..i];
      rotated + [rotated[0]]
  }

  /** The closed walk `c` begun at its `i`-th node instead. */
  function RotateAt(c: seq<Node>, i: nat): seq<Node>
    requires i < |c| - 1
  {
    c[i..|c| - 1] + c[..i + 1]
  }

  ghost predicate IsRotation(r: seq<Node>, c: seq<Node>) {
    exists i :: 0 <= i < |c| - 1 && r == RotateAt(c, i)
  }

  /** A cycle already written from its least node is its own canonical form. */
  lemma CanonicalFixed(c: seq<Node>)
    requires |c| >= 2 && c[0] == c[|c| - 1] && StartsLeast(c)
    ensures Canonical(c) == c
  {
    var path := c[..|c| - 1];
    forall y | y in Elements(path) ensures y == path[0] || Below(path[0], y) {
      var i :| 0 <= i < |path| && path[i] == y;
      assert c[i] == y;
    }
    LeastUnique(Min(path), path[0], Elements(path));
    assert IndexOf(path, Min(path)) == 0 by {
      assert path[0] !in path[..IndexOf(path, Min(path))];
    }
    assert path[0..] + path[..0] == path;
    assert c == path + [c[|c| - 1]];
  }

  /** Rotating a simple cycle to its least node keeps it a simple cycle of the same graph. */
  lemma CanonicalOfSimple(g: Graph, c: seq<Node>)
    requires SimpleCycle(g, c)
    ensures SimpleCycle(g, Canonical(c)) && StartsLeast(Canonical(c)) && IsRotation(Canonical(c), c)
    ensures |Canonical(c)| == |c| && Elements(Canonical(c)) == Elements(c)
  {
    var path, r := c[..|c| - 1], Canonical(c);
    var i := IndexOf(path, Min(path));
    assert path[i..] == c[i..|c| - 1] && path[..i] == c[..i];
    assert r == RotateAt(c, i);
    RotationIsSimple(g, c, i);
    forall k | 0 < k < |r| - 1 ensures Below(r[0], r[k]) {
      assert r[k] == if i + k < |path| then path[i + k] else path[i + k - |path|];
      assert r[k] in Elements(path) && r[0] == path[i];
      assert r[..|r| - 1][0] != r[..|r| - 1][k];
    }
    RotationMembers(c, i);
  }

  lemma RotationMembers(c: seq<Node>, i: nat)
    requires i < |c| - 1 && c[0] == c[|c| - 1]
    ensures Elements(RotateAt(c, i)) == Elements(c)
  {
    var n, r := |c| - 1, RotateAt(c, i);
    forall x | x in c ensures x in r {
      var k :| 0 <= k < |c| && c[k] == x;
      if i <= k < n {
        assert r[k - i] == x;
      } else if k < i {
        assert r[k + n - i] == x;
      } else {
        assert r[n - i] == c[0];
      }
    }
  }

  lemma RotationIsSimple(g: Graph, c: seq<Node>, i: nat)
    requires SimpleCycle(g, c) && i < |c| - 1
    ensures SimpleCycle(g, RotateAt(c, i))
  {
    var n, r := |c| - 1, RotateAt(c, i);
    forall k | 0 <= k < |r| - 1 ensures Edge(g, r[k], r[k + 1]) {
      if k < n - i - 1 {
        assert Edge(g, c[i + k], c[i + k + 1]);
      } else if k == n - i - 1 {
        assert Edge(g, c[n - 1], c[n]) && c[n] == c[0];
      } else {
        assert Edge(g, c[k - (n - i)], c[k - (n - i) + 1]);
      }
    }
    forall j, k | 0 <= j < k < |r| - 1 ensures r[j] != r[k] {
      var j' := if j < n - i then i + j else j - (n - i);
      var k' := if k < n - i then i + k else k - (n - i);
      assert c[..n][j'] == r[j] && c[..n][k'] == r[k] && j' != k';
    }
  }

  ghost predicate AllCanonical(cycles: seq<seq<Node>>) {
    forall c :: c in cycles ==> Canonical(c) == c
  }

  function CanonicalForms(cycles: seq<seq<Node>>): set<seq<Node>> {
    set c | c in cycles :: Canonical(c)
  }

  lemma FormsGrow(cycles: seq<seq<Node>>, c: seq<Node>)
    ensures CanonicalForms(cycles + [c]) == CanonicalForms(cycles) + {Canonical(c)}
  {
    assert c in cycles + [c];
  }

  /** In a duplicate-free list of canonical cycles every cycle is a form not seen before. */
  lemma NewForm(cycles: seq<seq<Node>>, i: nat)
    requires Distinct(cycles) && AllCanonical(cycles) && i < |cycles|
    ensures Canonical(cycles[i]) == cycles[i] && cycles[i] !in CanonicalForms(cycles[..i])
  {
    assert cycles[i] in cycles;
    forall c | c in cycles[..i] ensures Canonical(c) == c && c != cycles[i] {
      var k :| 0 <= k < i && cycles[k] == c;
    }
  }

  /** The state of deduplication after a prefix. */
  ghost predicate Deduplicated(prefix: seq<seq<Node>>, seen: set<seq<Node>>, result: seq<seq<Node>>) {
    Distinct(result) && seen == Elements(result) == CanonicalForms(prefix)
  }

  lemma DeduplicateOne(prefix: seq<seq<Node>>, seen: set<seq<Node>>, result: seq<seq<Node>>, c: seq<Node>)
    requires Deduplicated(prefix, seen, result)
    ensures var form := Canonical(c);
            if form in seen then Deduplicated(prefix + [c], seen, result)
            else Deduplicated(prefix + [c], seen + {form}, result + [form])
  {
    FormsGrow(prefix, c);
    if Canonical(c) !in seen {
      DistinctAppend(result, Canonical(c));
    } else {
      assert seen + {Canonical(c)} == seen;
    }
  }

  method Deduplicate(cycles: seq<seq<Node>>) returns (result: seq<seq<Node>>)
    ensures Distinct(result) && Elements(result) == CanonicalForms(cycles)
    ensures Distinct(cycles) && AllCanonical(cycles) ==> result == cycles
  {
    var seen: set<seq<Node>> := {};
    result := [];
    for i := 0 to |cycles|
      invariant Deduplicated(cycles[..i], seen, result)
      invariant Distinct(cycles) && AllCanonical(cycles) ==> result == cycles[..i]
    {
      var canonical := Canonical(cycles[i]);
      PrefixStep(cycles, i);
      DeduplicateOne(cycles[..i], seen, result, cycles[i]);
      if Distinct(cycles) && AllCanonical(cycles) {
        NewForm(cycles, i);
      }
      if canonical !in seen {
        seen := seen + {canonical};
        result := result + [canonical];
      }
    }
    assert cycles[..|cycles|] == cycles;
  }

  // ---- Deadlock means a closed walk -------------------------------------------------------------

  ghost predicate NoSelfLoop(g: Graph) {
    forall x :: x in g ==> x !in g[x]
  }

  /** Every closed walk contains a simple cycle. */
  lemma {:induction false} SimpleCycleInside(g: Graph, p: seq<Node>) returns (c: seq<Node>)
    requires NoSelfLoop(g) && ClosedWalk(g, p)
    ensures SimpleCycle(g, c) && Elements(c) <= Elements(p)
    decreases |p|
  {
    var body := p[..|p| - 1];
    if Distinct(body) {
      assert Edge(g, p[0], p[1]);
      c := p;
    } else {
      var i, j :| 0 <= i < j < |body| && body[i] == body[j];
      var q := p[i..j + 1];
      forall k | 0 <= k < |q| - 1 ensures Edge(g, q[k], q[k + 1]) {
        assert Edge(g, p[i + k], p[i + k + 1]);
      }
      c := SimpleCycleInside(g, q);
    }
  }

  lemma CycleIsBounded(g: Graph, c: seq<Node>)
    requires SimpleCycle(g, c)
    ensures |c| - 1 <= |g.Keys|
  {
    var body := c[..|c| - 1];
    forall x | x in body ensures x in g {
      var i :| 0 <= i < |body| && body[i] == x;
      assert Edge(g, c[i], c[i + 1]);
    }
    DistinctSize(body);
    SubsetSize(Elements(body), g.Keys);
  }

  /** With a cap at least the number of nodes, something is reported iff some closed walk exists. */
  lemma DeadlockIffClosedWalk(g: Graph, cap: nat)
    requires NoSelfLoop(g) && |g.Keys| <= cap
    ensures (exists c :: Reported(g, cap, c)) <==> !Acyclic(g)
  {
    if c :| Reported(g, cap, c) {
      assert ClosedWalk(g, c);
    }
    if p :| ClosedWalk(g, p) {
      var c := SimpleCycleInside(g, p);
      CanonicalOfSimple(g, c);
      CycleIsBounded(g, Canonical(c));
      assert Reported(g, cap, Canonical(c));
    }
  }

  /** With a smaller cap, something is reported iff some simple cycle fits under it. */
  lemma DeadlockUnderCap(g: Graph, cap: nat)
    ensures (exists c :: Reported(g, cap, c)) <==> exists c :: SimpleCycle(g, c) && |c| - 1 <= cap
  {
    if c :| SimpleCycle(g, c) && |c| - 1 <= cap {
      CanonicalOfSimple(g, c);
      assert Reported(g, cap, Canonical(c));
    }
  }

  /** Every simple cycle under the cap is reported as exactly one of its rotations. */
  lemma OneRotationReported(g: Graph, cap: nat, c: seq<Node>, r: seq<Node>)
    requires SimpleCycle(g, c) && |c| - 1 <= cap
    ensures Reported(g, cap, r) && IsRotation(r, c) <==> r == Canonical(c)
  {
    CanonicalOfSimple(g, c);
    if Reported(g, cap, r) && IsRotation(r, c) {
      var i :| 0 <= i < |c| - 1 && r == RotateAt(c, i);
      LeastRotation(c, i);
    }
  }

  lemma LeastRotation(c: seq<Node>, i: nat)
    requires |c| >= 2 && c[0] == c[|c| - 1] && Distinct(c[..|c| - 1]) && i < |c| - 1
    requires StartsLeast(RotateAt(c, i))
    ensures RotateAt(c, i) == Canonical(c)
  {
    var path, r := c[..|c| - 1], RotateAt(c, i);
    forall y | y in Elements(path) ensures y == path[i] || Below(path[i], y) {
      var k :| 0 <= k < |path| && path[k] == y;
      if k > i {
        assert r[k - i] == y && Below(r[0], r[k - i]);
      } else if k < i {
        assert r[k + |path| - i] == y && Below(r[0], r[k + |path| - i]);
      }
    }
    LeastUnique(Min(path), path[i], Elements(path));
    DistinctIndex(path, i);
    var rotated := path[i..] + path[..i];
    assert r == rotated + [rotated[0]];
  }
}
