/**
 Steps, results and the meaning of a workflow with dependencies. The meaning is a pair of equations
 over the step list: which steps succeed, and in which wave each step is settled. Executors are
 proved to solve the equations, and the equations are proved to have one solution.
 */
module Workflow {
  import opened Sequences
  import opened Digraph

  type StepId = string
  datatype Value = Text(text: string) | Number(number: int)
  type Output = map<string, Value>

  datatype Step = Step(id: StepId, agentId: string, action: string, dependsOn: seq<StepId>)

  /** What the agent executor does with a step: a timeout is a raised outcome. */
  datatype Outcome = Returned(output: Output) | Raised(error: string)
  type Executor = Step -> Outcome

  datatype StepResult = StepResult(stepId: StepId, success: bool, output: Option<Output>, error: Option<string>)
  datatype Status = Success | Partial | Failed
  datatype WorkflowResult = WorkflowResult(stepResults: seq<StepResult>, status: Status)
  datatype WorkflowError = UnknownDependency(step: StepId, dependency: StepId) | CircularDependency

  /** What an execution did: its result, the executor calls in order, and the steps settled per wave. */
  datatype Run = Run(result: WorkflowResult, calls: seq<StepId>, waves: seq<seq<Step>>)
  datatype Execution = Ran(run: Run) | Rejected(error: WorkflowError)

  predicate UniqueIds(steps: seq<Step>) {
    forall i, j :: 0 <= i < j < |steps| ==> steps[i].id != steps[j].id
  }

  function Ids(steps: seq<Step>): set<StepId> {
    set s | s in steps :: s.id
  }

  function IdsInOrder(steps: seq<Step>): seq<StepId> {
    seq(|steps|, i requires 0 <= i < |steps| => steps[i].id)
  }

  lemma IdsAreElements(steps: seq<Step>)
    ensures Elements(IdsInOrder(steps)) == Ids(steps)
  {
    forall x | x in Ids(steps) ensures x in IdsInOrder(steps) {
      var i :| 0 <= i < |steps| && steps[i].id == x;
      assert IdsInOrder(steps)[i] == x;
    }
  }

  lemma CountIds(steps: seq<Step>)
    requires UniqueIds(steps)
    ensures |Ids(steps)| == |steps|
  {
    IdsAreElements(steps);
    DistinctSize(IdsInOrder(steps));
  }

  function StepMap(steps: seq<Step>): map<StepId, Step>
    requires UniqueIds(steps)
  {
    map s | s in steps :: s.id := s
  }

  /** The dependency graph: every step points at the steps it depends on. */
  function DependencyGraph(steps: seq<Step>): Graph
    requires UniqueIds(steps)
  {
    map s | s in steps :: s.id := Elements(s.dependsOn)
  }

  lemma SameIdSameStep(steps: seq<Step>, s: Step, t: Step)
    requires UniqueIds(steps) && s in steps && t in steps && s.id == t.id
    ensures s == t
  {
  }

  // ---- Validation -------------------------------------------------------------------------------

  /** The first reference to a step that does not exist, scanning steps and their lists in order. */
  function UnknownIn(s: Step, known: set<StepId>, from: nat): (r: Option<WorkflowError>)
    requires from <= |s.dependsOn|
    ensures r.None? <==> forall j :: from <= j < |s.dependsOn| ==> s.dependsOn[j] in known
    ensures r.Some? ==> exists j ::
              && from <= j < |s.dependsOn| && r.value == UnknownDependency(s.id, s.dependsOn[j])
              && s.dependsOn[j] !in known && forall k :: from <= k < j ==> s.dependsOn[k] in known
    decreases |s.dependsOn| - from
  {
    if from == |s.dependsOn| then None
    else if s.dependsOn[from] !in known then Some(UnknownDependency(s.id, s.dependsOn[from]))
    else UnknownIn(s, known, from + 1)
  }

  function FirstUnknown(steps: seq<Step>, known: set<StepId>, from: nat): (r: Option<WorkflowError>)
    requires from <= |steps|
    ensures r.None? <==> forall i :: from <= i < |steps| ==> Elements(steps[i].dependsOn) <= known
    decreases |steps| - from
  {
    if from == |steps| then None
    else if UnknownIn(steps[from], known, 0).Some? then UnknownIn(steps[from], known, 0)
    else
      assert Elements(steps[from].dependsOn) <= known;
      FirstUnknown(steps, known, from + 1)
  }

  /** Entry `j` of step `i` names no step. */
  ghost predicate DanglingAt(steps: seq<Step>, i: int, j: int) {
    0 <= i < |steps| && 0 <= j < |steps[i].dependsOn| && forall s :: s in steps ==> s.id != steps[i].dependsOn[j]
  }

  /** Step `x` makes the first reference of the list that names no step, and it names `d`. */
  ghost predicate FirstDangling(steps: seq<Step>, x: StepId, d: StepId) {
    exists i, j {:trigger DanglingAt(steps, i, j)} ::
      && DanglingAt(steps, i, j) && x == steps[i].id && d == steps[i].dependsOn[j]
      && forall k, l :: DanglingAt(steps, k, l) ==> i < k || (i == k && j <= l)
  }

  lemma OneFirstDangling(steps: seq<Step>, x: StepId, d: StepId, x': StepId, d': StepId)
    requires FirstDangling(steps, x, d) && FirstDangling(steps, x', d')
    ensures x == x' && d == d'
  {
  }

  lemma {:induction false} FirstUnknownIsFirst(steps: seq<Step>, from: nat)
    requires from <= |steps| && FirstUnknown(steps, Ids(steps), from).Some?
    requires forall k, l :: DanglingAt(steps, k, l) ==> from <= k
    ensures var e := FirstUnknown(steps, Ids(steps), from).value;
            e.UnknownDependency? && FirstDangling(steps, e.step, e.dependency)
    decreases |steps| - from
  {
    var s := steps[from];
    if UnknownIn(s, Ids(steps), 0).None? {
      forall k, l | DanglingAt(steps, k, l) ensures k != from {}
      FirstUnknownIsFirst(steps, from + 1);
    } else {
      var j :| 0 <= j < |s.dependsOn| && UnknownIn(s, Ids(steps), 0).value == UnknownDependency(s.id, s.dependsOn[j])
               && s.dependsOn[j] !in Ids(steps) && forall k :: 0 <= k < j ==> s.dependsOn[k] in Ids(steps);
      assert DanglingAt(steps, from, j);
    }
  }

  /** What both validators must answer: the first dangling reference, else whether there is a cycle. */
  ghost function Verdict(steps: seq<Step>): Option<WorkflowError>
    requires UniqueIds(steps)
  {
    if FirstUnknown(steps, Ids(steps), 0).Some? then FirstUnknown(steps, Ids(steps), 0)
    else if Acyclic(DependencyGraph(steps)) then None
    else Some(CircularDependency)
  }

  lemma VerdictMeaning(steps: seq<Step>)
    requires UniqueIds(steps)
    ensures Verdict(steps).None? <==>
            Closed(DependencyGraph(steps)) && Acyclic(DependencyGraph(steps))
    ensures FirstUnknown(steps, Ids(steps), 0).None? <==> Closed(DependencyGraph(steps))
    ensures Verdict(steps) == Some(CircularDependency) <==>
            Closed(DependencyGraph(steps)) && !Acyclic(DependencyGraph(steps))
    ensures forall x, d :: Verdict(steps) == Some(UnknownDependency(x, d)) <==> FirstDangling(steps, x, d)
  {
    ClosedIffKnown(steps);
    ErrorNamesFirst(steps);
  }

  lemma ErrorNamesFirst(steps: seq<Step>)
    requires UniqueIds(steps)
    ensures forall x, d :: Verdict(steps) == Some(UnknownDependency(x, d)) <==> FirstDangling(steps, x, d)
    ensures FirstUnknown(steps, Ids(steps), 0).Some? ==> Verdict(steps).Some? && Verdict(steps).value.UnknownDependency?
  {
    var r := FirstUnknown(steps, Ids(steps), 0);
    if r.Some? {
      FirstUnknownIsFirst(steps, 0);
    }
    forall x, d ensures Verdict(steps) == Some(UnknownDependency(x, d)) <==> FirstDangling(steps, x, d) {
      if FirstDangling(steps, x, d) {
        var i, j :| DanglingAt(steps, i, j) && x == steps[i].id && d == steps[i].dependsOn[j];
        assert d in Elements(steps[i].dependsOn) && d !in Ids(steps);
        OneFirstDangling(steps, x, d, r.value.step, r.value.dependency);
      }
    }
  }

  lemma ClosedIffKnown(steps: seq<Step>)
    requires UniqueIds(steps)
    ensures FirstUnknown(steps, Ids(steps), 0).None? <==> Closed(DependencyGraph(steps))
  {
    var g := DependencyGraph(steps);
    assert g.Keys == Ids(steps);
    if FirstUnknown(steps, Ids(steps), 0).None? {
      forall x, y | x in g && y in g[x] ensures y in g {
        var s :| s in steps && s.id == x;
        assert g[x] == Elements(s.dependsOn);
      }
    } else {
      var i :| 0 <= i < |steps| && !(Elements(steps[i].dependsOn) <= Ids(steps));
      assert g[steps[i].id] == Elements(steps[i].dependsOn);
      var y :| y in Elements(steps[i].dependsOn) && y !in Ids(steps);
      assert y in g[steps[i].id];
    }
  }

  lemma NothingDangling(steps: seq<Step>)
    requires FirstUnknown(steps, Ids(steps), 0).None?
    ensures forall i, j :: !DanglingAt(steps, i, j)
  {
    forall i, j | 0 <= i < |steps| && 0 <= j < |steps[i].dependsOn| ensures steps[i].dependsOn[j] in Ids(steps) {
      assert steps[i].dependsOn[j] in Elements(steps[i].dependsOn);
    }
  }

  /** The scan reports the first reference that names no step. */
  method CheckReferences(steps: seq<Step>) returns (r: Option<WorkflowError>)
    ensures r == FirstUnknown(steps, Ids(steps), 0)
    ensures r.None? ==> forall i, j :: !DanglingAt(steps, i, j)
    ensures r.Some? ==> r.value.UnknownDependency? && FirstDangling(steps, r.value.step, r.value.dependency)
  {
    if FirstUnknown(steps, Ids(steps), 0).Some? {
      FirstUnknownIsFirst(steps, 0);
    } else {
      NothingDangling(steps);
    }
    var known := Ids(steps);
    for i := 0 to |steps|
      invariant FirstUnknown(steps, known, 0) == FirstUnknown(steps, known, i)
    {
      var s := steps[i];
      for j := 0 to |s.dependsOn|
        invariant UnknownIn(s, known, 0) == UnknownIn(s, known, j)
      {
        if s.dependsOn[j] !in known {
          return Some(UnknownDependency(s.id, s.dependsOn[j]));
        }
      }
    }
    return None;
  }

  /** The reverse index with a default: who lists `d` among its dependencies, with multiplicity. */
  function Dependents(index: map<StepId, seq<StepId>>, d: StepId): seq<StepId> {
    if d in index then index[d] else []
  }

  /** `index` holds the references of the first `i` steps and the first `j` of step `i`. */
  ghost predicate Indexed(steps: seq<Step>, index: map<StepId, seq<StepId>>, i: nat, j: nat)
    requires i < |steps| ==> j <= |steps[i].dependsOn|
  {
    forall d, k :: 0 <= k < |steps| ==>
      multiset(Dependents(index, d))[steps[k].id] == References(steps, i, j, k, d)
  }

  /** How often step `k` refers to `d` within the first `i` steps and the first `j` entries of step `i`. */
  ghost function References(steps: seq<Step>, i: nat, j: nat, k: nat, d: StepId): nat
    requires k < |steps| && (i < |steps| ==> j <= |steps[i].dependsOn|)
  {
    if k < i then multiset(steps[k].dependsOn)[d]
    else if k == i then multiset(steps[k].dependsOn[..j])[d] else 0
  }

  lemma RecordReference(steps: seq<Step>, index: map<StepId, seq<StepId>>, i: nat, j: nat)
    requires UniqueIds(steps) && i < |steps| && j < |steps[i].dependsOn| && Indexed(steps, index, i, j)
    ensures var dep := steps[i].dependsOn[j];
            Indexed(steps, index[dep := Dependents(index, dep) + [steps[i].id]], i, j + 1)
  {
    var dep := steps[i].dependsOn[j];
    var index' := index[dep := Dependents(index, dep) + [steps[i].id]];
    forall d, k | 0 <= k < |steps|
      ensures multiset(Dependents(index', d))[steps[k].id] == References(steps, i, j + 1, k, d)
    {
      assert multiset(Dependents(index, d))[steps[k].id] == References(steps, i, j, k, d);
      OneMoreReference(steps, i, j, k, d);
      CountAppended(Dependents(index, d), steps[i].id, steps[k].id);
    }
  }

  lemma OneMoreReference(steps: seq<Step>, i: nat, j: nat, k: nat, d: StepId)
    requires i < |steps| && j < |steps[i].dependsOn| && k < |steps|
    ensures References(steps, i, j + 1, k, d) ==
            References(steps, i, j, k, d) + if k == i && d == steps[i].dependsOn[j] then 1 else 0
  {
    TakeOneMore(steps[i].dependsOn, j);
  }

  lemma CountAppended<T>(xs: seq<T>, x: T, y: T)
    ensures multiset(xs + [x])[y] == multiset(xs)[y] + if x == y then 1 else 0
  {
  }

  lemma ReferenceStaysInside(steps: seq<Step>, index: map<StepId, seq<StepId>>, s: Step, dep: StepId)
    requires s in steps
    requires forall d :: Elements(Dependents(index, d)) <= Ids(steps)
    ensures var index' := index[dep := Dependents(index, dep) + [s.id]];
            forall d :: Elements(Dependents(index', d)) <= Ids(steps)
  {
    var index' := index[dep := Dependents(index, dep) + [s.id]];
    forall d ensures Elements(Dependents(index', d)) <= Ids(steps) {
      assert Elements(Dependents(index', d)) <= Elements(Dependents(index, d)) + {s.id};
    }
  }

  method BuildDependents(steps: seq<Step>) returns (index: map<StepId, seq<StepId>>)
    requires UniqueIds(steps)
    ensures forall d, s :: s in steps ==> multiset(Dependents(index, d))[s.id] == multiset(s.dependsOn)[d]
    ensures forall d :: Elements(Dependents(index, d)) <= Ids(steps)
  {
    index := map[];
    for i := 0 to |steps|
      invariant Indexed(steps, index, i, 0)
      invariant forall d :: Elements(Dependents(index, d)) <= Ids(steps)
    {
      var s := steps[i];
      for j := 0 to |s.dependsOn|
        invariant Indexed(steps, index, i, j)
        invariant forall d :: Elements(Dependents(index, d)) <= Ids(steps)
      {
        var dep := s.dependsOn[j];
        RecordReference(steps, index, i, j);
        ReferenceStaysInside(steps, index, s, dep);
        index := index[dep := Dependents(index, dep) + [s.id]];
      }
      NextStepReferences(steps, index, i);
    }
  }

  lemma NextStepReferences(steps: seq<Step>, index: map<StepId, seq<StepId>>, i: nat)
    requires i < |steps| && Indexed(steps, index, i, |steps[i].dependsOn|)
    ensures Indexed(steps, index, i + 1, 0)
  {
    assert steps[i].dependsOn[..|steps[i].dependsOn|] == steps[i].dependsOn;
    forall d, k | 0 <= k < |steps|
      ensures References(steps, i + 1, 0, k, d) == References(steps, i, |steps[i].dependsOn|, k, d) {}
  }

  // ---- Meaning ----------------------------------------------------------------------------------

  /** Every dependency of `s` is recorded as successful. */
  predicate AllGood(s: Step, good: map<StepId, bool>) {
    forall d :: d in s.dependsOn ==> d in good && good[d]
  }

  /** The meaning of a workflow: a step succeeds iff its dependencies do and its own call returns. */
  ghost predicate IsSolution(steps: seq<Step>, exec: Executor, good: map<StepId, bool>) {
    && good.Keys == Ids(steps)
    && forall s :: s in steps ==> (good[s.id] <==> AllGood(s, good) && exec(s).Returned?)
  }

  ghost predicate DepthAt(s: Step, depth: map<StepId, nat>)
    requires s.id in depth
  {
    && (forall d :: d in s.dependsOn ==> d in depth && depth[d] < depth[s.id])
    && (depth[s.id] > 0 ==> exists d :: d in s.dependsOn && d in depth && depth[d] + 1 == depth[s.id])
  }

  /** `depth` is zero for steps without dependencies and otherwise one more than the deepest one. */
  ghost predicate IsDepthMap(steps: seq<Step>, depth: map<StepId, nat>) {
    && depth.Keys == Ids(steps)
    && forall s {:trigger DepthAt(s, depth)} :: s in steps ==> DepthAt(s, depth)
  }

  lemma {:induction false} DepthsAgree(steps: seq<Step>, d1: map<StepId, nat>, d2: map<StepId, nat>, s: Step)
    requires IsDepthMap(steps, d1) && IsDepthMap(steps, d2) && s in steps
    ensures d1[s.id] == d2[s.id]
    decreases d1[s.id]
  {
    assert DepthAt(s, d1) && DepthAt(s, d2);
    forall d | d in s.dependsOn ensures d1[d] == d2[d] {
      var t :| t in steps && t.id == d;
      DepthsAgree(steps, d1, d2, t);
    }
  }

  lemma DepthUnique(steps: seq<Step>, d1: map<StepId, nat>, d2: map<StepId, nat>)
    requires IsDepthMap(steps, d1) && IsDepthMap(steps, d2)
    ensures d1 == d2
  {
    forall x | x in d1 ensures x in d2 && d1[x] == d2[x] {
      var s :| s in steps && s.id == x;
      DepthsAgree(steps, d1, d2, s);
    }
    assert d1.Keys == d2.Keys;
  }

  lemma {:induction false} SolutionsAgree(steps: seq<Step>, exec: Executor, depth: map<StepId, nat>,
                                          g1: map<StepId, bool>, g2: map<StepId, bool>, s: Step)
    requires IsDepthMap(steps, depth) && s in steps
    requires IsSolution(steps, exec, g1) && IsSolution(steps, exec, g2)
    ensures g1[s.id] == g2[s.id]
    decreases depth[s.id]
  {
    assert DepthAt(s, depth);
    forall d | d in s.dependsOn ensures d in g1 && d in g2 && g1[d] == g2[d] {
      var t :| t in steps && t.id == d;
      SolutionsAgree(steps, exec, depth, g1, g2, t);
    }
  }

  lemma SolutionUnique(steps: seq<Step>, exec: Executor, depth: map<StepId, nat>,
                       g1: map<StepId, bool>, g2: map<StepId, bool>)
    requires IsDepthMap(steps, depth)
    requires IsSolution(steps, exec, g1) && IsSolution(steps, exec, g2)
    ensures g1 == g2
  {
    forall x | x in g1 ensures x in g2 && g1[x] == g2[x] {
      var s :| s in steps && s.id == x;
      SolutionsAgree(steps, exec, depth, g1, g2, s);
    }
    assert g1.Keys == g2.Keys;
  }

  /** The depth of a step is the length of the longest dependency path starting at it. */
  lemma DepthIsLongestPath(steps: seq<Step>, depth: map<StepId, nat>, x: StepId)
    requires UniqueIds(steps) && IsDepthMap(steps, depth) && x in depth
    ensures forall p: seq<Node> :: p != [] && p[0] == x && Walk(DependencyGraph(steps), p) ==> |p| <= depth[x] + 1
    ensures exists p: seq<Node> :: p != [] && p[0] == x && Walk(DependencyGraph(steps), p) && |p| == depth[x] + 1
  {
    forall p: seq<Node> | p != [] && p[0] == x && Walk(DependencyGraph(steps), p) ensures |p| <= depth[x] + 1 {
      PathIsShort(steps, depth, p);
    }
    var p := LongPath(steps, depth, x);
  }

  lemma {:induction false} PathIsShort(steps: seq<Step>, depth: map<StepId, nat>, p: seq<Node>)
    requires UniqueIds(steps) && IsDepthMap(steps, depth)
    requires p != [] && p[0] in depth && Walk(DependencyGraph(steps), p)
    ensures |p| <= depth[p[0]] + 1
  {
    if |p| > 1 {
      var g := DependencyGraph(steps);
      assert Edge(g, p[0], p[1]);
      var s :| s in steps && s.id == p[0];
      assert g[p[0]] == Elements(s.dependsOn);
      assert DepthAt(s, depth) && p[1] in s.dependsOn;
      WalkTail(g, p);
      PathIsShort(steps, depth, p[1..]);
    }
  }

  lemma {:induction false} LongPath(steps: seq<Step>, depth: map<StepId, nat>, x: StepId) returns (p: seq<Node>)
    requires UniqueIds(steps) && IsDepthMap(steps, depth) && x in depth
    ensures p != [] && p[0] == x && Walk(DependencyGraph(steps), p) && |p| == depth[x] + 1
    decreases depth[x]
  {
    if depth[x] == 0 {
      p := [x];
    } else {
      var g := DependencyGraph(steps);
      var s :| s in steps && s.id == x;
      assert DepthAt(s, depth);
      var d :| d in s.dependsOn && d in depth && depth[d] + 1 == depth[x];
      var rest := LongPath(steps, depth, d);
      p := [x] + rest;
      assert g[x] == Elements(s.dependsOn);
      WalkPrepend(g, x, rest);
    }
  }

  // ---- Results ----------------------------------------------------------------------------------

  /** One executor call turned into a result. */
  function RunStep(exec: Executor, s: Step): StepResult {
    match exec(s)
    case Returned(output) => StepResult(s.id, true, Some(output), None)
    case Raised(error) => StepResult(s.id, false, None, Some(error))
  }

  /** What a result says of the call it stands for: the output of one that returned, the error of one that raised. */
  ghost predicate Reports(exec: Executor, s: Step, r: StepResult) {
    && r.stepId == s.id
    && (r.success <==> exec(s).Returned?)
    && (r.output.Some? <==> exec(s).Returned?) && (r.output.Some? ==> exec(s) == Returned(r.output.value))
    && (r.error.Some? <==> exec(s).Raised?) && (r.error.Some? ==> exec(s) == Raised(r.error.value))
  }

  /** The result of a step that was not called to its end, for the reason given. */
  ghost predicate NotRun(s: Step, reason: string, r: StepResult) {
    r.stepId == s.id && !r.success && r.output.None? && r.error == Some(reason)
  }

  function Skipped(s: Step, reason: string): StepResult {
    StepResult(s.id, false, None, Some(reason))
  }

  /** The result a step must get once its dependencies have theirs. */
  function Due(exec: Executor, s: Step, good: map<StepId, bool>, reason: string): StepResult {
    if AllGood(s, good) then RunStep(exec, s) else Skipped(s, reason)
  }

  function Summarize(rs: seq<StepResult>): Status {
    if forall i :: 0 <= i < |rs| ==> rs[i].success then Success
    else if exists i :: 0 <= i < |rs| && rs[i].success then Partial
    else Failed
  }

  function Flags(results: map<StepId, StepResult>): map<StepId, bool> {
    map x | x in results :: results[x].success
  }

  /** Results in the order of the input list, for the steps that have one. */
  function Collect(steps: seq<Step>, results: map<StepId, StepResult>): seq<StepResult> {
    if steps == [] then []
    else
      var last := steps[|steps| - 1].id;
      Collect(steps[..|steps| - 1], results) + if last in results then [results[last]] else []
  }

  lemma {:induction false} CollectAll(steps: seq<Step>, results: map<StepId, StepResult>)
    requires forall s :: s in steps ==> s.id in results
    ensures |Collect(steps, results)| == |steps|
    ensures forall i :: 0 <= i < |steps| ==> Collect(steps, results)[i] == results[steps[i].id]
  {
    if steps != [] {
      CollectAll(steps[..|steps| - 1], results);
      assert steps[|steps| - 1] in steps;
    }
  }

  /** The positions of the steps that have a result. */
  ghost function Finished(steps: seq<Step>, results: map<StepId, StepResult>): seq<nat> {
    Positions(Marks(steps, (s: Step) => s.id in results))
  }

  /** Collecting keeps the order of the input list. */
  lemma {:induction false} CollectPositions(steps: seq<Step>, results: map<StepId, StepResult>)
    ensures var at := Finished(steps, results);
            && |at| == |Collect(steps, results)|
            && forall k :: 0 <= k < |at| ==> at[k] < |steps| && steps[at[k]].id in results &&
                                             Collect(steps, results)[k] == results[steps[at[k]].id]
  {
    if steps != [] {
      var front, settled := steps[..|steps| - 1], (s: Step) => s.id in results;
      CollectPositions(front, results);
      assert Marks(steps, settled)[..|front|] == Marks(front, settled);
    }
  }

  // ---- What an execution must be ----------------------------------------------------------------

  /**
   `run` is explained by a solution and a depth map: one result per step in input order, the executor
   called once on exactly the steps whose dependencies all succeeded and after the calls of those
   dependencies, and wave k holding exactly the steps of depth k.
   */
  ghost predicate Explains(steps: seq<Step>, exec: Executor, reason: string, run: Run,
                           good: map<StepId, bool>, depth: map<StepId, nat>)
    requires UniqueIds(steps)
  {
    && IsSolution(steps, exec, good)
    && IsDepthMap(steps, depth)
    && |run.result.stepResults| == |steps|
    && (forall i :: 0 <= i < |steps| ==> run.result.stepResults[i] == Due(exec, steps[i], good, reason))
    && run.result.status == Summarize(run.result.stepResults)
    && Distinct(run.calls) && Elements(run.calls) <= Ids(steps)
    && (forall s :: s in steps ==> (s.id in run.calls <==> AllGood(s, good)))
    && OrderedPrefix(DependencyGraph(steps), run.calls)
    && WavesAreLevels(steps, depth, run.waves)
  }

  /** `wave` lists each step of depth `k` once. */
  ghost predicate IsLevel(steps: seq<Step>, depth: map<StepId, nat>, wave: seq<Step>, k: nat) {
    && wave != [] && Distinct(wave)
    && forall s :: s in wave <==> s in steps && s.id in depth && depth[s.id] == k
  }

  ghost predicate WavesAreLevels(steps: seq<Step>, depth: map<StepId, nat>, waves: seq<seq<Step>>) {
    && (forall k {:trigger IsLevel(steps, depth, waves[k], k)} :: 0 <= k < |waves| ==>
          IsLevel(steps, depth, waves[k], k))
    && (forall x :: x in depth ==> depth[x] < |waves|)
  }

  ghost predicate MeetsSpec(steps: seq<Step>, exec: Executor, reason: string, run: Run)
    requires UniqueIds(steps)
  {
    exists good, depth :: Explains(steps, exec, reason, run, good, depth)
  }
}
