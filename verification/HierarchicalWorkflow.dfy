/**
 The hierarchical executor: a three-colour depth-first search for validation, memoised longest-path
 levels, then one wave per level.
 */
module HierarchicalWorkflow {
  import opened Sequences
  import opened Digraph
  import opened Workflow
  import opened WorkflowOutcome
  import opened WorkflowProgress

  const PARENT_STEP_FAILED := "parent_step_failed"

  datatype Color = White | Gray | Black

  // ---- Three-colour depth-first search ----------------------------------------------------------

  /** The colours of a search along reversed dependencies, with the order in which nodes finished. */
  class ColorSearch {
    const index: map<StepId, seq<StepId>>
    ghost const graph: Graph
    var color: map<StepId, Color>
    ghost var finished: seq<StepId>

    ghost predicate Valid()
      reads this
    {
      && color.Keys == graph.Keys && Closed(graph)
      && (forall x :: x in graph ==> Elements(Dependents(index, x)) == graph[x])
      && Distinct(finished) && OrderedPrefix(graph, finished)
      && forall x :: x in color ==> (color[x] == Black <==> x in finished)
    }

    /** The gray nodes are exactly the ones on `path`. */
    ghost predicate GrayPath(path: seq<StepId>)
      reads this
    {
      && Walk(graph, path) && Distinct(path)
      && (forall x :: x in path ==> x in color)
      && forall x :: x in color ==> (color[x] == Gray <==> x in path)
    }

    ghost function Whites(): set<StepId>
      reads this
    {
      set x | x in color && color[x] == White
    }

    constructor (nodes: set<StepId>, index: map<StepId, seq<StepId>>, ghost graph: Graph)
      requires graph.Keys == nodes && Closed(graph)
      requires forall x :: x in graph ==> Elements(Dependents(index, x)) == graph[x]
      ensures Valid() && GrayPath([]) && finished == []
      ensures this.graph == graph
    {
      this.index := index;
      this.graph := graph;
      color := map x | x in nodes :: White;
      finished := [];
    }

    method Enter(node: StepId, ghost path: seq<StepId>)
      requires Valid() && GrayPath(path)
      requires node in color && color[node] == White && Walk(graph, path + [node])
      modifies `color
      ensures Valid() && GrayPath(path + [node]) && Whites() == old(Whites()) - {node}
    {
      DistinctAppend(path, node);
      color := color[node := Gray];
    }

    method Leave(node: StepId, ghost path: seq<StepId>)
      requires Valid() && GrayPath(path + [node])
      requires node in graph && graph[node] <= Elements(finished)
      modifies `color, `finished
      ensures Valid() && GrayPath(path) && Whites() <= old(Whites())
      ensures finished == old(finished) + [node]
    {
      LeavePath(graph, path, node);
      assert color[node] == Gray by { assert node in path + [node]; }
      ExtendOrder(graph, finished, node);
      color, finished := color[node := Black], finished + [node];
    }

    /** Explores from a white node; answers whether an edge back into the current path was found. */
    method Visit(node: StepId, ghost path: seq<StepId>) returns (cyclic: bool)
      requires Valid() && GrayPath(path)
      requires node in color && color[node] == White && Walk(graph, path + [node])
      modifies this
      decreases Whites()
      ensures cyclic ==> !Acyclic(graph)
      ensures !cyclic ==> Valid() && GrayPath(path) && Whites() <= old(Whites()) - {node}
      ensures !cyclic ==> Elements(old(finished)) + {node} <= Elements(finished)
    {
      ghost var here := path + [node];
      Enter(node, path);
      var ds := Dependents(index, node);
      for k := 0 to |ds|
        invariant Valid() && GrayPath(here)
        invariant Whites() <= old(Whites()) - {node}
        invariant Elements(old(finished)) <= Elements(finished)
        invariant Elements(ds[..k]) <= Elements(finished)
      {
        var neighbor := ds[k];
        assert Elements(ds[..k + 1]) == Elements(ds[..k]) + {neighbor};
        assert neighbor in graph[node] by { assert neighbor in Elements(ds); }
        WalkExtends(graph, here, neighbor);
        if color[neighbor] == Gray {
          BackEdge(graph, here, neighbor);
          return true;
        }
        if color[neighbor] == White {
          cyclic := Visit(neighbor, here);
          if cyclic {
            return;
          }
        }
      }
      assert ds[..|ds|] == ds;
      Leave(node, path);
      return false;
    }

    /** Starts a search from every node still white. */
    method FindCycle(nodes: seq<StepId>) returns (cyclic: bool)
      requires Valid() && GrayPath([]) && Elements(nodes) == color.Keys
      modifies this
      ensures cyclic <==> !Acyclic(graph)
    {
      for i := 0 to |nodes|
        invariant Valid() && GrayPath([])
        invariant Elements(nodes[..i]) <= Elements(finished)
      {
        assert Elements(nodes[..i + 1]) == Elements(nodes[..i]) + {nodes[i]};
        assert nodes[i] in color by { assert nodes[i] in Elements(nodes); }
        if color[nodes[i]] == White {
          cyclic := Visit(nodes[i], []);
          if cyclic {
            return;
          }
        }
        assert color[nodes[i]] == Black;
      }
      assert nodes[..|nodes|] == nodes;
      PrefixNodes(graph, finished);
      OrderExcludesCycles(graph, finished);
      return false;
    }
  }

  /** The reverse index lists exactly the dependents of every step. */
  lemma IndexIsReversed(steps: seq<Step>, index: map<StepId, seq<StepId>>)
    requires UniqueIds(steps) && Closed(DependencyGraph(steps))
    requires forall d, s :: s in steps ==> multiset(Dependents(index, d))[s.id] == multiset(s.dependsOn)[d]
    requires forall d :: Elements(Dependents(index, d)) <= Ids(steps)
    ensures Reversed(DependencyGraph(steps)).Keys == Ids(steps)
    ensures Closed(Reversed(DependencyGraph(steps)))
    ensures forall x :: x in Reversed(DependencyGraph(steps)) ==>
              Elements(Dependents(index, x)) == Reversed(DependencyGraph(steps))[x]
  {
    forall x | x in Ids(steps) ensures Elements(Dependents(index, x)) == Reversed(DependencyGraph(steps))[x] {
    }
  }

  lemma LeavePath(g: Graph, p: seq<Node>, x: Node)
    requires Walk(g, p + [x]) && Distinct(p + [x])
    ensures Walk(g, p) && Distinct(p) && x !in p
  {
    DistinctParts(p, [x]);
    assert x in [x];
    WalkPrefix(g, p, [x]);
  }

  method Validate(steps: seq<Step>) returns (r: Option<WorkflowError>)
    requires UniqueIds(steps)
    ensures r == Verdict(steps)
  {
    VerdictMeaning(steps);
    r := CheckReferences(steps);
    if r.Some? {
      return;
    }
    ReversedAcyclic(DependencyGraph(steps));
    var index := BuildDependents(steps);
    IndexIsReversed(steps, index);
    var search := new ColorSearch(Ids(steps), index, Reversed(DependencyGraph(steps)));
    IdsAreElements(steps);
    var cyclic := search.FindCycle(IdsInOrder(steps));
    return if cyclic then Some(CircularDependency) else None;
  }

  // ---- Longest-path levels ----------------------------------------------------------------------

  ghost predicate MapExtends(before: map<StepId, nat>, after: map<StepId, nat>) {
    before.Keys <= after.Keys && forall x :: x in before ==> after[x] == before[x]
  }

  /** A number per step that is smaller for its dependencies; a witness that recursion ends. */
  ghost predicate Ranked(stepMap: map<StepId, Step>, rank: map<StepId, nat>) {
    && rank.Keys == stepMap.Keys
    && forall x, d :: x in stepMap && d in stepMap[x].dependsOn ==> d in rank && rank[d] < rank[x]
  }

  ghost predicate Keyed(stepMap: map<StepId, Step>) {
    forall x :: x in stepMap ==> stepMap[x].id == x
  }

  /** The remembered depths satisfy the depth equation. */
  ghost predicate DepthsKnown(stepMap: map<StepId, Step>, depth: map<StepId, nat>) {
    && depth.Keys <= stepMap.Keys && Keyed(stepMap)
    && forall x {:trigger DepthAt(stepMap[x], depth)} :: x in depth ==> DepthAt(stepMap[x], depth)
  }

  /** The memo table of the depth computation. */
  class DepthMemo {
    const stepMap: map<StepId, Step>
    ghost const rank: map<StepId, nat>
    var depth: map<StepId, nat>

    ghost predicate Valid()
      reads this
    {
      Ranked(stepMap, rank) && DepthsKnown(stepMap, depth)
    }

    constructor (stepMap: map<StepId, Step>, ghost rank: map<StepId, nat>)
      requires Keyed(stepMap) && Ranked(stepMap, rank)
      ensures Valid() && depth == map[] && this.stepMap == stepMap
    {
      this.stepMap := stepMap;
      this.rank := rank;
      depth := map[];
    }

    /** The table only grew, and only by steps of rank below `bound`. */
    twostate predicate Grew(bound: nat)
      reads this
    {
      && MapExtends(old(depth), depth)
      && forall x :: x in depth && x !in old(depth) ==> x in rank && rank[x] < bound
    }

    method GetDepth(id: StepId) returns (d: nat)
      requires Valid() && id in stepMap
      modifies `depth
      decreases rank[id], 1
      ensures Valid() && id in depth && d == depth[id]
      ensures Grew(rank[id] + 1)
    {
      if id in depth {
        return depth[id];
      }
      var step := stepMap[id];
      if step.dependsOn == [] {
        Remember(stepMap, depth, step, 0);
        depth := depth[id := 0];
        return 0;
      }
      var maxParentDepth := DeepestParent(step);
      Remember(stepMap, depth, step, maxParentDepth + 1);
      depth := depth[id := maxParentDepth + 1];
      return depth[id];
    }

    method DeepestParent(step: Step) returns (maxParentDepth: nat)
      requires Valid() && step.id in stepMap && stepMap[step.id] == step && step.dependsOn != []
      modifies `depth
      decreases rank[step.id], 0
      ensures Valid() && Grew(rank[step.id])
      ensures forall x :: x in step.dependsOn ==> x in depth && depth[x] <= maxParentDepth
      ensures exists x :: x in step.dependsOn && x in depth && depth[x] == maxParentDepth
    {
      var deps := step.dependsOn;
      maxParentDepth := GetDepth(deps[0]);
      ghost var deepest := deps[0];
      for j := 1 to |deps|
        invariant Valid() && Grew(rank[step.id])
        invariant forall k :: 0 <= k < j ==> deps[k] in depth && depth[deps[k]] <= maxParentDepth
        invariant deepest in deps && deepest in depth && depth[deepest] == maxParentDepth
      {
        var d := GetDepth(deps[j]);
        if d > maxParentDepth {
          maxParentDepth := d;
          deepest := deps[j];
        }
      }
    }
  }

  /** In a validated workflow such ranks exist: positions in an order of the steps. */
  lemma RankExists(steps: seq<Step>) returns (rank: map<StepId, nat>)
    requires UniqueIds(steps) && Closed(DependencyGraph(steps)) && Acyclic(DependencyGraph(steps))
    ensures Ranked(StepMap(steps), rank)
  {
    var order := CompleteOrder(DependencyGraph(steps), []);
    rank := map x | x in Elements(order) :: IndexOf(order, x);
    OrderRanks(steps, order, rank);
  }

  lemma OrderRanks(steps: seq<Step>, order: seq<StepId>, rank: map<StepId, nat>)
    requires UniqueIds(steps) && Ordered(DependencyGraph(steps), order)
    requires rank.Keys == Elements(order) && forall x :: x in rank ==> rank[x] == IndexOf(order, x)
    ensures Ranked(StepMap(steps), rank)
  {
    GraphOfSteps(steps);
    RanksInGraph(DependencyGraph(steps), StepMap(steps), order, rank);
  }

  lemma GraphOfSteps(steps: seq<Step>)
    requires UniqueIds(steps)
    ensures DependencyGraph(steps).Keys == StepMap(steps).Keys
    ensures forall x :: x in StepMap(steps) ==> DependencyGraph(steps)[x] == Elements(StepMap(steps)[x].dependsOn)
  {
  }

  lemma RanksInGraph(g: Graph, stepMap: map<StepId, Step>, order: seq<StepId>, rank: map<StepId, nat>)
    requires Ordered(g, order) && g.Keys == stepMap.Keys
    requires forall x :: x in stepMap ==> g[x] == Elements(stepMap[x].dependsOn)
    requires rank.Keys == Elements(order) && forall x :: x in rank ==> rank[x] == IndexOf(order, x)
    ensures Ranked(stepMap, rank)
  {
    forall x, d | x in stepMap && d in stepMap[x].dependsOn ensures d in rank && rank[d] < rank[x] {
      assert d in g[x];
      EarlierIndex(g, order, x, d);
    }
  }

  lemma EarlierIndex(g: Graph, order: seq<Node>, x: Node, d: Node)
    requires Distinct(order) && OrderedPrefix(g, order) && x in order && x in g && d in g[x]
    ensures d in order && IndexOf(order, d) < IndexOf(order, x)
  {
    var k := IndexOf(order, x);
    assert After(g, order, k) && d in Elements(order[..k]);
    var i :| 0 <= i < k && order[..k][i] == d;
    assert order[i] == d;
  }

  lemma Remember(stepMap: map<StepId, Step>, depth: map<StepId, nat>, s: Step, d: nat)
    requires s.id in stepMap && stepMap[s.id] == s && s.id !in depth && DepthsKnown(stepMap, depth)
    requires forall x :: x in s.dependsOn ==> x in depth && depth[x] < d
    requires d > 0 ==> exists x :: x in s.dependsOn && x in depth && depth[x] + 1 == d
    ensures DepthsKnown(stepMap, depth[s.id := d])
  {
    var depth' := depth[s.id := d];
    forall x | x in depth' ensures DepthAt(stepMap[x], depth') {
      if x != s.id {
        assert DepthAt(stepMap[x], depth);
      }
    }
  }

  /** Below every inhabited depth, every smaller depth is inhabited. */
  lemma {:induction false} LevelInhabited(steps: seq<Step>, depth: map<StepId, nat>, s: Step, k: nat) returns (t: Step)
    requires IsDepthMap(steps, depth) && s in steps && k <= depth[s.id]
    ensures t in steps && depth[t.id] == k
    decreases depth[s.id]
  {
    if depth[s.id] == k {
      t := s;
    } else {
      assert DepthAt(s, depth);
      var d :| d in s.dependsOn && d in depth && depth[d] + 1 == depth[s.id];
      var u :| u in steps && u.id == d;
      t := LevelInhabited(steps, depth, u, k);
    }
  }

  /** Levels `0..` hold the first `i` steps at their depth. */
  ghost predicate Filled(steps: seq<Step>, depth: map<StepId, nat>, levels: seq<seq<Step>>, i: nat)
    requires i <= |steps|
  {
    forall k :: 0 <= k < |levels| ==>
      Distinct(levels[k]) && forall s :: s in levels[k] <==> s in steps[..i] && s.id in depth && depth[s.id] == k
  }

  method ComputeDepths(steps: seq<Step>) returns (depth: map<StepId, nat>)
    requires UniqueIds(steps) && Closed(DependencyGraph(steps)) && Acyclic(DependencyGraph(steps))
    ensures IsDepthMap(steps, depth)
  {
    ghost var rank := RankExists(steps);
    var memo := new DepthMemo(StepMap(steps), rank);
    var ids := IdsInOrder(steps);
    for i := 0 to |ids|
      invariant memo.Valid()
      invariant Elements(ids[..i]) <= memo.depth.Keys
    {
      PrefixStep(ids, i);
      var _ := memo.GetDepth(ids[i]);
    }
    assert ids[..|ids|] == ids;
    depth := memo.depth;
    IdsAreElements(steps);
    AllDepthsKnown(steps, depth);
  }

  lemma AllDepthsKnown(steps: seq<Step>, depth: map<StepId, nat>)
    requires UniqueIds(steps) && DepthsKnown(StepMap(steps), depth)
    requires Ids(steps) <= depth.Keys
    ensures IsDepthMap(steps, depth)
  {
    forall s | s in steps ensures DepthAt(s, depth) {
      assert StepMap(steps)[s.id] == s;
      assert DepthAt(StepMap(steps)[s.id], depth);
    }
  }

  method MaxDepth(steps: seq<Step>, depth: map<StepId, nat>) returns (maxDepth: nat)
    requires forall s :: s in steps ==> s.id in depth
    ensures forall s :: s in steps ==> depth[s.id] <= maxDepth
    ensures maxDepth == 0 || exists k :: 0 <= k < |steps| && depth[steps[k].id] == maxDepth
  {
    maxDepth := 0;
    for i := 0 to |steps|
      invariant forall k :: 0 <= k < i ==> depth[steps[k].id] <= maxDepth
      invariant maxDepth == 0 || exists k :: 0 <= k < i && depth[steps[k].id] == maxDepth
    {
      if depth[steps[i].id] > maxDepth {
        maxDepth := depth[steps[i].id];
      }
    }
  }

  /** Groups the steps by the length of their longest dependency path. */
  method ComputeLevels(steps: seq<Step>) returns (levels: seq<seq<Step>>, depth: map<StepId, nat>)
    requires UniqueIds(steps) && Closed(DependencyGraph(steps)) && Acyclic(DependencyGraph(steps))
    ensures IsDepthMap(steps, depth)
    ensures steps == [] ==> levels == [[]]
    ensures steps != [] ==> WavesAreLevels(steps, depth, levels)
  {
    depth := ComputeDepths(steps);
    var maxDepth := MaxDepth(steps, depth);
    levels := seq(maxDepth + 1, _ => []);
    for i := 0 to |steps|
      invariant |levels| == maxDepth + 1 && Filled(steps, depth, levels, i)
      invariant i == 0 ==> levels == seq(maxDepth + 1, _ => [])
    {
      var d := depth[steps[i].id];
      PlaceStep(steps, depth, levels, i);
      levels := levels[d := levels[d] + [steps[i]]];
    }
    if steps != [] {
      LevelsComplete(steps, depth, levels, maxDepth);
    }
  }

  lemma PlaceStep(steps: seq<Step>, depth: map<StepId, nat>, levels: seq<seq<Step>>, i: nat)
    requires UniqueIds(steps) && IsDepthMap(steps, depth) && i < |steps|
    requires Filled(steps, depth, levels, i) && depth[steps[i].id] < |levels|
    ensures var d := depth[steps[i].id]; Filled(steps, depth, levels[d := levels[d] + [steps[i]]], i + 1)
  {
    assert steps[..i + 1] == steps[..i] + [steps[i]];
    assert steps[i] !in steps[..i];
  }

  lemma LevelsComplete(steps: seq<Step>, depth: map<StepId, nat>, levels: seq<seq<Step>>, maxDepth: nat)
    requires IsDepthMap(steps, depth) && Filled(steps, depth, levels, |steps|) && |levels| == maxDepth + 1
    requires steps != []
    requires forall s :: s in steps ==> depth[s.id] <= maxDepth
    requires maxDepth == 0 || exists k :: 0 <= k < |steps| && depth[steps[k].id] == maxDepth
    ensures WavesAreLevels(steps, depth, levels)
  {
    assert steps[..|steps|] == steps;
    var top := if maxDepth == 0 then 0 else var k :| 0 <= k < |steps| && depth[steps[k].id] == maxDepth; k;
    forall k | 0 <= k < |levels| ensures IsLevel(steps, depth, levels[k], k) {
      var t := LevelInhabited(steps, depth, steps[top], k);
      assert t in levels[k];
    }
  }

  // ---- The level loop ---------------------------------------------------------------------------

  /** Splits a level by whether some dependency already failed. */
  method SplitLevel(level: seq<Step>, results: map<StepId, StepResult>)
    returns (toRun: seq<Step>, toSkip: seq<Step>)
    requires Distinct(level)
    requires forall s, d :: s in level && d in s.dependsOn ==> d in results
    ensures Distinct(toRun) && Distinct(toSkip)
    ensures forall s :: s in toRun <==> s in level && AllGood(s, Flags(results))
    ensures forall s :: s in toSkip <==> s in level && !AllGood(s, Flags(results))
  {
    toRun, toSkip := [], [];
    for i := 0 to |level|
      invariant Distinct(toRun) && Distinct(toSkip)
      invariant forall s :: s in toRun <==> s in level[..i] && AllGood(s, Flags(results))
      invariant forall s :: s in toSkip <==> s in level[..i] && !AllGood(s, Flags(results))
    {
      var step := level[i];
      assert level[..i + 1] == level[..i] + [step];
      assert step !in level[..i];
      if exists d :: d in step.dependsOn && d in results && !results[d].success {
        toSkip := toSkip + [step];
      } else {
        toRun := toRun + [step];
      }
    }
    assert level[..|level|] == level;
  }

  method Store(batch: seq<Step>, rs: seq<StepResult>, results: map<StepId, StepResult>)
    returns (results': map<StepId, StepResult>)
    requires |batch| == |rs| && UniqueIds(batch)
    ensures Recorded(results, results', batch, rs)
  {
    results' := results;
    for i := 0 to |batch|
      invariant Recorded(results, results', batch[..i], rs[..i])
    {
      RecordOne(batch, rs, results, results', i);
      results' := results'[batch[i].id := rs[i]];
    }
    assert batch[..|batch|] == batch && rs[..|rs|] == rs;
  }

  /** The steps of level `k` are the next wave once all lower levels are settled. */
  lemma LevelIsWave(steps: seq<Step>, depth: map<StepId, nat>, levels: seq<seq<Step>>,
                    results: map<StepId, StepResult>, k: nat)
    requires UniqueIds(steps) && IsDepthMap(steps, depth) && WavesAreLevels(steps, depth, levels) && k < |levels|
    requires forall s :: s in steps ==> (s.id in results <==> depth[s.id] < k)
    requires results.Keys <= Ids(steps)
    ensures levels[k] != [] && IsWave(steps, results, levels[k])
    ensures forall s :: s in levels[k] <==> s in steps && depth[s.id] == k
    ensures forall s, d :: s in levels[k] && d in s.dependsOn ==> d in results
  {
    assert IsLevel(steps, depth, levels[k], k);
    forall s ensures s in levels[k] <==> s in steps && Next(s, results) {
      if s in steps {
        NextMeansDepth(steps, depth, results, k, s);
      }
    }
    var level := levels[k];
    forall i, j | 0 <= i < j < |level| ensures level[i].id != level[j].id {
      assert level[i] in steps && level[j] in steps;
    }
    forall s, d | s in level && d in s.dependsOn ensures d in results {
      assert Next(s, results) && d in Elements(s.dependsOn);
    }
  }

  lemma NextMeansDepth(steps: seq<Step>, depth: map<StepId, nat>, results: map<StepId, StepResult>, k: nat, s: Step)
    requires IsDepthMap(steps, depth) && s in steps
    requires forall t :: t in steps ==> (t.id in results <==> depth[t.id] < k)
    ensures Next(s, results) <==> depth[s.id] == k
  {
    assert DepthAt(s, depth);
    forall d | d in s.dependsOn ensures d in results <==> depth[d] < k {
      var t :| t in steps && t.id == d;
    }
    if Next(s, results) && depth[s.id] > 0 {
      var d :| d in s.dependsOn && d in depth && depth[d] + 1 == depth[s.id];
      assert d in Elements(s.dependsOn);
    }
  }

  /** Settles one level: skips below failed parents, runs the rest. */
  method RunLevel(steps: seq<Step>, exec: Executor, level: seq<Step>, results: map<StepId, StepResult>)
    returns (results': map<StepId, StepResult>, toRun: seq<Step>)
    requires UniqueIds(steps) && IsWave(steps, results, level)
    requires forall s, d :: s in level && d in s.dependsOn ==> d in results
    ensures results' == SettleAll(exec, PARENT_STEP_FAILED, results, level)
    ensures UniqueIds(toRun) && forall s :: s in toRun <==> s in level && AllGood(s, Flags(results))
  {
    var toSkip;
    toRun, toSkip := SplitLevel(level, results);
    PartsAreUnique(level, toRun, toSkip);
    var mid := Store(toSkip, SkipResults(toSkip, PARENT_STEP_FAILED), results);
    results' := Store(toRun, RunResults(exec, toRun), mid);
    WaveIsSettled(exec, PARENT_STEP_FAILED, results, mid, results', toRun, toSkip);
    SameStepsSettleAlike(exec, PARENT_STEP_FAILED, results, toRun + toSkip, level);
  }

  lemma PartsAreUnique(level: seq<Step>, a: seq<Step>, b: seq<Step>)
    requires UniqueIds(level) && Distinct(a) && Distinct(b)
    requires forall s :: s in a ==> s in level && s !in b
    requires forall s :: s in b ==> s in level && s !in a
    ensures UniqueIds(a) && UniqueIds(b) && UniqueIds(a + b)
  {
    var ab := a + b;
    forall i, j | 0 <= i < j < |ab| ensures ab[i] != ab[j] {
      assert ab[i] in a <==> i < |a|;
    }
    forall i, j | 0 <= i < j < |ab| ensures ab[i].id != ab[j].id {
      assert ab[i] in level && ab[j] in level;
    }
    forall i, j | 0 <= i < j < |a| ensures a[i].id != a[j].id { assert ab[i].id != ab[j].id; }
    forall i, j | 0 <= i < j < |b| ensures b[i].id != b[j].id { assert ab[|a| + i].id != ab[|a| + j].id; }
  }

  lemma SameStepsSettleAlike(exec: Executor, reason: string, results: map<StepId, StepResult>, a: seq<Step>,
                             b: seq<Step>)
    requires UniqueIds(a) && UniqueIds(b) && forall s :: s in a <==> s in b
    ensures SettleAll(exec, reason, results, a) == SettleAll(exec, reason, results, b)
  {
    assert DueResults(exec, reason, Flags(results), a) == DueResults(exec, reason, Flags(results), b);
  }

  /** The state of the execution after the first `k` levels. */
  ghost predicate LevelsRun(steps: seq<Step>, exec: Executor, levels: seq<seq<Step>>, allDepths: map<StepId, nat>,
                            k: nat, results: map<StepId, StepResult>, depth: map<StepId, nat>, calls: seq<StepId>)
    requires UniqueIds(steps)
  {
    && k <= |levels| && IsDepthMap(steps, allDepths) && WavesAreLevels(steps, allDepths, levels)
    && Progress(steps, exec, PARENT_STEP_FAILED, results, depth, calls, levels[..k])
    && forall s :: s in steps ==> (s.id in results <==> allDepths[s.id] < k)
  }

  lemma LevelsStart(steps: seq<Step>, exec: Executor, levels: seq<seq<Step>>, allDepths: map<StepId, nat>)
    requires UniqueIds(steps) && IsDepthMap(steps, allDepths) && WavesAreLevels(steps, allDepths, levels)
    ensures LevelsRun(steps, exec, levels, allDepths, 0, map[], map[], [])
  {
    StartRun(steps, exec, PARENT_STEP_FAILED);
    assert levels[..0] == [];
  }

  /** Running the next level, the right steps of it, leads to the state after it. */
  lemma LevelAdvances(steps: seq<Step>, exec: Executor, levels: seq<seq<Step>>, allDepths: map<StepId, nat>, k: nat,
                      results: map<StepId, StepResult>, depth: map<StepId, nat>, calls: seq<StepId>, toRun: seq<Step>)
    requires UniqueIds(steps) && LevelsRun(steps, exec, levels, allDepths, k, results, depth, calls) && k < |levels|
    requires IsWave(steps, results, levels[k])
    requires UniqueIds(toRun) && forall s :: s in toRun <==> s in levels[k] && AllGood(s, Flags(results))
    ensures LevelsRun(steps, exec, levels, allDepths, k + 1, SettleAll(exec, PARENT_STEP_FAILED, results, levels[k]),
                      Deepen(depth, levels[k], k), calls + IdsInOrder(toRun))
  {
    LevelIsWave(steps, allDepths, levels, results, k);
    AdvanceWave(steps, exec, PARENT_STEP_FAILED, results, depth, calls, levels[..k], levels[k], toRun);
    PrefixStep(levels, k);
    SettleExtends(steps, exec, PARENT_STEP_FAILED, results, levels[k]);
  }

  lemma LevelsDone(steps: seq<Step>, exec: Executor, levels: seq<seq<Step>>, allDepths: map<StepId, nat>,
                   results: map<StepId, StepResult>, depth: map<StepId, nat>, calls: seq<StepId>)
    requires UniqueIds(steps) && LevelsRun(steps, exec, levels, allDepths, |levels|, results, depth, calls)
    ensures var ordered := Collect(steps, results);
            MeetsSpec(steps, exec, PARENT_STEP_FAILED, Run(WorkflowResult(ordered, Summarize(ordered)), calls, levels))
  {
    assert levels[..|levels|] == levels;
    assert results.Keys == Ids(steps);
    FinishRun(steps, exec, PARENT_STEP_FAILED, results, depth, calls, levels);
  }

  method RunLevels(steps: seq<Step>, exec: Executor, levels: seq<seq<Step>>, ghost allDepths: map<StepId, nat>)
    returns (run: Run)
    requires UniqueIds(steps) && IsDepthMap(steps, allDepths) && WavesAreLevels(steps, allDepths, levels)
    ensures MeetsSpec(steps, exec, PARENT_STEP_FAILED, run)
  {
    var results: map<StepId, StepResult> := map[];
    var calls: seq<StepId> := [];
    ghost var depth: map<StepId, nat> := map[];
    LevelsStart(steps, exec, levels, allDepths);
    for k := 0 to |levels|
      invariant LevelsRun(steps, exec, levels, allDepths, k, results, depth, calls)
    {
      LevelIsWave(steps, allDepths, levels, results, k);
      ghost var before := results;
      var toRun;
      results, toRun := RunLevel(steps, exec, levels[k], results);
      LevelAdvances(steps, exec, levels, allDepths, k, before, depth, calls, toRun);
      depth := Deepen(depth, levels[k], k);
      calls := calls + IdsInOrder(toRun);
    }
    LevelsDone(steps, exec, levels, allDepths, results, depth, calls);
    var ordered := Collect(steps, results);
    run := Run(WorkflowResult(ordered, Summarize(ordered)), calls, levels);
  }

  method Execute(steps: seq<Step>, exec: Executor) returns (r: Execution)
    requires UniqueIds(steps)
    ensures Verdict(steps).Some? ==> r == Rejected(Verdict(steps).value)
    ensures Verdict(steps).None? ==> r.Ran? && MeetsSpec(steps, exec, PARENT_STEP_FAILED, r.run)
    ensures r.Ran? ==> OutcomeRight(steps, exec, PARENT_STEP_FAILED, r.run)
  {
    if steps == [] {
      EmptyWorkflow(exec, PARENT_STEP_FAILED);
      r := Ran(Run(WorkflowResult([], Success), [], []));
      RunOutcome(steps, exec, PARENT_STEP_FAILED, r.run);
      return;
    }
    var invalid := Validate(steps);
    if invalid.Some? {
      return Rejected(invalid.value);
    }
    VerdictMeaning(steps);
    var levels, depth := ComputeLevels(steps);
    var run := RunLevels(steps, exec, levels, depth);
    r := Ran(run);
    RunOutcome(steps, exec, PARENT_STEP_FAILED, run);
  }
}
