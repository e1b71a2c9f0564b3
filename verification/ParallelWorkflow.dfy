/**
 The parallel executor: Kahn's count for validation, then waves over a shrinking list of open steps.
 */
module ParallelWorkflow {
  import opened Sequences
  import opened Digraph
  import opened Workflow
  import opened WorkflowOutcome
  import opened WorkflowProgress

  const DEPENDENCY_FAILED := "dependency_failed"

  // ---- Kahn's algorithm -------------------------------------------------------------------------

  /** How many entries of a dependency list, repetitions included, are not done yet. */
  ghost function Outstanding(deps: seq<StepId>, done: set<StepId>): (n: nat)
    ensures n == 0 <==> Elements(deps) <= done
  {
    if deps == [] then 0
    else
      assert Elements(deps) == {deps[0]} + Elements(deps[1..]);
      (if deps[0] in done then 0 else 1) + Outstanding(deps[1..], done)
  }

  /** Finishing one more step pays off all its entries at once. */
  lemma {:induction false} OutstandingDrops(deps: seq<StepId>, done: set<StepId>, x: StepId)
    requires x !in done
    ensures Outstanding(deps, done + {x}) == Outstanding(deps, done) - multiset(deps)[x]
  {
    if deps != [] {
      OutstandingDrops(deps[1..], done, x);
      assert deps == [deps[0]] + deps[1..];
    }
  }

  lemma {:induction false} NothingDone(deps: seq<StepId>)
    ensures Outstanding(deps, {}) == |deps|
  {
    if deps != [] {
      NothingDone(deps[1..]);
    }
  }

  /** The in-degree table agrees with the steps visited so far, whose queue holds the free ones. */
  ghost predicate KahnState(steps: seq<Step>, inDegree: map<StepId, int>, order: seq<StepId>, queue: seq<StepId>)
    requires UniqueIds(steps)
  {
    && inDegree.Keys == Ids(steps)
    && (forall s :: s in steps ==> inDegree[s.id] == Outstanding(s.dependsOn, Elements(order)))
    && FreeAreListed(steps, inDegree, order + queue)
    && OrderedPrefix(DependencyGraph(steps), order)
  }

  ghost predicate FreeAreListed(steps: seq<Step>, inDegree: map<StepId, int>, listed: seq<StepId>)
  {
    && inDegree.Keys == Ids(steps)
    && Distinct(listed) && Elements(listed) <= Ids(steps)
    && forall s :: s in steps ==> (inDegree[s.id] == 0 <==> s.id in listed)
  }

  method CountInDegrees(steps: seq<Step>) returns (inDegree: map<StepId, int>)
    requires UniqueIds(steps)
    ensures inDegree.Keys == Ids(steps)
    ensures forall s :: s in steps ==> inDegree[s.id] == |s.dependsOn|
  {
    inDegree := map[];
    for i := 0 to |steps|
      invariant inDegree.Keys == Ids(steps[..i])
      invariant forall k :: 0 <= k < i ==> inDegree[steps[k].id] == |steps[k].dependsOn|
    {
      var s := steps[i];
      assert steps[..i + 1] == steps[..i] + [s];
      assert s.id !in inDegree by {
        forall t | t in steps[..i] ensures t.id != s.id {}
      }
      if s.id !in inDegree {
        inDegree := inDegree[s.id := 0];
      }
      for j := 0 to |s.dependsOn|
        invariant inDegree.Keys == Ids(steps[..i]) + {s.id}
        invariant inDegree[s.id] == j
        invariant forall k :: 0 <= k < i ==> inDegree[steps[k].id] == |steps[k].dependsOn|
      {
        inDegree := inDegree[s.id := inDegree[s.id] + 1];
      }
    }
    assert steps[..|steps|] == steps;
  }

  method InitialQueue(steps: seq<Step>, inDegree: map<StepId, int>) returns (queue: seq<StepId>)
    requires UniqueIds(steps) && inDegree.Keys == Ids(steps)
    ensures FreeAreListed(steps, inDegree, queue)
  {
    queue := [];
    for i := 0 to |steps|
      invariant Distinct(queue) && Elements(queue) <= Ids(steps[..i])
      invariant forall k :: 0 <= k < i ==> (inDegree[steps[k].id] == 0 <==> steps[k].id in queue)
    {
      var s := steps[i];
      assert steps[..i + 1] == steps[..i] + [s];
      assert s.id !in queue by {
        forall t | t in steps[..i] ensures t.id != s.id {}
        assert s.id !in Elements(queue);
      }
      if inDegree[s.id] == 0 {
        queue := queue + [s.id];
      }
      forall x | x in queue ensures x in Ids(steps[..i + 1]) {
        assert x in Ids(steps[..i]) || x == s.id;
      }
    }
    assert steps[..|steps|] == steps;
  }

  /** `k` of the references to a step being visited have been paid off. */
  ghost predicate Paying(steps: seq<Step>, inDegree: map<StepId, int>, done: set<StepId>, ds: seq<StepId>, k: nat)
    requires k <= |ds| && inDegree.Keys == Ids(steps)
  {
    forall s :: s in steps ==> inDegree[s.id] == Outstanding(s.dependsOn, done) - multiset(ds[..k])[s.id]
  }

  /** One open entry of `x` is paid off; a step that becomes free joins the queue. */
  method Decrement(steps: seq<Step>, inDegree: map<StepId, int>, ghost visited: seq<StepId>, queue: seq<StepId>,
                   x: StepId)
    returns (inDegree': map<StepId, int>, queue': seq<StepId>)
    requires UniqueIds(steps) && FreeAreListed(steps, inDegree, visited + queue)
    requires x in inDegree && inDegree[x] > 0
    ensures FreeAreListed(steps, inDegree', visited + queue')
    ensures inDegree' == inDegree[x := inDegree[x] - 1]
    ensures queue' == if inDegree[x] == 1 then queue + [x] else queue
  {
    inDegree', queue' := inDegree[x := inDegree[x] - 1], queue;
    if inDegree'[x] == 0 {
      queue' := queue + [x];
      assert visited + queue' == visited + queue + [x];
    }
  }

  /** Visiting the head of the queue: its dependents lose one open entry per reference. */
  method Visit(steps: seq<Step>, index: map<StepId, seq<StepId>>, inDegree: map<StepId, int>,
               ghost order: seq<StepId>, queue: seq<StepId>)
    returns (inDegree': map<StepId, int>, queue': seq<StepId>)
    requires UniqueIds(steps) && queue != [] && KahnState(steps, inDegree, order, queue)
    requires forall s :: s in steps ==> multiset(Dependents(index, queue[0]))[s.id] == multiset(s.dependsOn)[queue[0]]
    requires Elements(Dependents(index, queue[0])) <= Ids(steps)
    ensures KahnState(steps, inDegree', order + [queue[0]], queue')
  {
    var node := queue[0];
    inDegree', queue' := inDegree, queue[1..];
    var ds := Dependents(index, node);
    ghost var visited, done := order + [node], Elements(order);
    NodeIsFree(steps, inDegree, order, queue);
    assert order + queue == visited + queue';
    for k := 0 to |ds|
      invariant FreeAreListed(steps, inDegree', visited + queue')
      invariant Paying(steps, inDegree', done, ds, k)
    {
      var x := ds[k];
      PayOne(steps, inDegree', done, node, ds, k);
      inDegree', queue' := Decrement(steps, inDegree', visited, queue', x);
    }
    AllPaid(steps, inDegree', order, node, ds);
  }

  lemma PayOne(steps: seq<Step>, inDegree: map<StepId, int>, done: set<StepId>, node: StepId, ds: seq<StepId>, k: nat)
    requires UniqueIds(steps) && k < |ds| && inDegree.Keys == Ids(steps) && Paying(steps, inDegree, done, ds, k)
    requires node !in done && Elements(ds) <= Ids(steps)
    requires forall s :: s in steps ==> multiset(ds)[s.id] == multiset(s.dependsOn)[node]
    ensures ds[k] in inDegree && inDegree[ds[k]] > 0
    ensures Paying(steps, inDegree[ds[k] := inDegree[ds[k]] - 1], done, ds, k + 1)
  {
    var x := ds[k];
    assert x in Elements(ds);
    var t :| t in steps && t.id == x;
    TakeOneMore(ds, k);
    OutstandingDrops(t.dependsOn, done, node);
  }

  lemma AllPaid(steps: seq<Step>, inDegree: map<StepId, int>, order: seq<StepId>, node: StepId, ds: seq<StepId>)
    requires inDegree.Keys == Ids(steps) && Paying(steps, inDegree, Elements(order), ds, |ds|)
    requires node !in order
    requires forall s :: s in steps ==> multiset(ds)[s.id] == multiset(s.dependsOn)[node]
    ensures forall s :: s in steps ==> inDegree[s.id] == Outstanding(s.dependsOn, Elements(order + [node]))
  {
    assert ds[..|ds|] == ds;
    assert Elements(order + [node]) == Elements(order) + {node};
    forall s | s in steps ensures inDegree[s.id] == Outstanding(s.dependsOn, Elements(order + [node])) {
      OutstandingDrops(s.dependsOn, Elements(order), node);
    }
  }

  lemma NodeIsFree(steps: seq<Step>, inDegree: map<StepId, int>, order: seq<StepId>, queue: seq<StepId>)
    requires UniqueIds(steps) && queue != [] && KahnState(steps, inDegree, order, queue)
    ensures OrderedPrefix(DependencyGraph(steps), order + [queue[0]])
    ensures queue[0] !in order
  {
    var node := queue[0];
    assert (order + queue)[|order|] == node;
    assert node in Elements(order + queue);
    var t :| t in steps && t.id == node;
    assert t.id in order + queue;
    DistinctParts(order, queue);
    ExtendOrder(DependencyGraph(steps), order, node);
  }

  lemma AllListedWhenDone(steps: seq<Step>, inDegree: map<StepId, int>, order: seq<StepId>)
    requires UniqueIds(steps) && KahnState(steps, inDegree, order, [])
    ensures Distinct(order) && Elements(order) <= Ids(steps)
    ensures |order| == |steps| <==> Elements(order) == Ids(steps)
    ensures forall s :: s in steps ==> (s.id in order <==> Elements(s.dependsOn) <= Elements(order))
  {
    assert order + [] == order;
    CountIds(steps);
    DistinctSize(order);
    SubsetSize(Elements(order), Ids(steps));
  }

  /** With an empty queue, whatever was not visited is stuck on itself. */
  lemma StuckBelow(steps: seq<Step>, order: seq<StepId>, y: StepId)
    requires UniqueIds(steps) && Closed(DependencyGraph(steps))
    requires forall s :: s in steps ==> (s.id in order <==> Elements(s.dependsOn) <= Elements(order))
    requires y in Ids(steps) && y !in order && DependencyGraph(steps).Keys == Ids(steps)
    ensures DependencyGraph(steps)[y] * (Ids(steps) - Elements(order)) != {}
  {
    var g := DependencyGraph(steps);
    var s :| s in steps && s.id == y;
    var d :| d in Elements(s.dependsOn) && d !in Elements(order);
    assert g[y] == Elements(s.dependsOn);
    assert d in g[y] * (Ids(steps) - Elements(order));
  }

  lemma StuckRest(steps: seq<Step>, order: seq<StepId>) returns (c: seq<Node>)
    requires UniqueIds(steps) && Closed(DependencyGraph(steps))
    requires Elements(order) < Ids(steps)
    requires forall s :: s in steps ==> (s.id in order <==> Elements(s.dependsOn) <= Elements(order))
    ensures ClosedWalk(DependencyGraph(steps), c)
  {
    var g, stuck := DependencyGraph(steps), Ids(steps) - Elements(order);
    assert stuck != {} by {
      var x :| x in Ids(steps) && x !in Elements(order);
      assert x in stuck;
    }
    assert forall y :: y in stuck ==> g[y] * stuck != {} by {
      forall y | y in stuck ensures g[y] * stuck != {} {
        StuckBelow(steps, order, y);
      }
    }
    c := StuckSetHasCycle(g, stuck);
  }

  /** The visited count reaches the number of steps exactly when there is no cycle. */
  lemma KahnDecides(steps: seq<Step>, inDegree: map<StepId, int>, order: seq<StepId>)
    requires UniqueIds(steps) && Closed(DependencyGraph(steps))
    requires KahnState(steps, inDegree, order, [])
    ensures |order| == |steps| <==> Acyclic(DependencyGraph(steps))
  {
    AllListedWhenDone(steps, inDegree, order);
    if |order| == |steps| {
      assert DependencyGraph(steps).Keys == Ids(steps);
      OrderExcludesCycles(DependencyGraph(steps), order);
    } else {
      var c := StuckRest(steps, order);
    }
  }

  method ValidateDependencies(steps: seq<Step>) returns (r: Option<WorkflowError>)
    requires UniqueIds(steps)
    ensures r == Verdict(steps)
  {
    VerdictMeaning(steps);
    r := CheckReferences(steps);
    if r.Some? {
      return;
    }
    var inDegree := CountInDegrees(steps);
    var queue := InitialQueue(steps, inDegree);
    var visitedCount := 0;
    var index := BuildDependents(steps);
    ghost var order: seq<StepId> := [];
    assert Elements(order) == {};
    forall s | s in steps ensures inDegree[s.id] == Outstanding(s.dependsOn, Elements(order)) {
      NothingDone(s.dependsOn);
    }
    assert order + queue == queue;
    while queue != []
      invariant KahnState(steps, inDegree, order, queue)
      invariant visitedCount == |order|
      decreases |steps| - |order|
    {
      OrderIsShort(steps, inDegree, order, queue);
      ghost var node := queue[0];
      inDegree, queue := Visit(steps, index, inDegree, order, queue);
      order := order + [node];
      visitedCount := visitedCount + 1;
    }
    KahnDecides(steps, inDegree, order);
    if visitedCount != |steps| {
      return Some(CircularDependency);
    }
    return None;
  }

  lemma OrderIsShort(steps: seq<Step>, inDegree: map<StepId, int>, order: seq<StepId>, queue: seq<StepId>)
    requires UniqueIds(steps) && KahnState(steps, inDegree, order, queue)
    ensures |order| + |queue| <= |steps|
  {
    CountIds(steps);
    DistinctSize(order + queue);
    SubsetSize(Elements(order + queue), Ids(steps));
  }

  // ---- The wave loop ----------------------------------------------------------------------------

  /** The dependencies of `s` all have results. */
  predicate DependenciesSettled(s: Step, results: map<StepId, StepResult>) {
    forall d :: d in s.dependsOn ==> d in results
  }

  /** Splits the open steps: dependencies all settled and successful, or settled with a failure. */
  method Classify(remaining: seq<Step>, results: map<StepId, StepResult>)
    returns (ready: seq<Step>, skipNow: seq<Step>)
    requires Distinct(remaining)
    ensures Distinct(ready) && Distinct(skipNow)
    ensures forall s :: s in ready <==>
      s in remaining && DependenciesSettled(s, results) && AllGood(s, Flags(results))
    ensures forall s :: s in skipNow <==>
      s in remaining && DependenciesSettled(s, results) && !AllGood(s, Flags(results))
  {
    ready, skipNow := [], [];
    for i := 0 to |remaining|
      invariant Distinct(ready) && Distinct(skipNow)
      invariant forall s :: s in ready <==>
        s in remaining[..i] && DependenciesSettled(s, results) && AllGood(s, Flags(results))
      invariant forall s :: s in skipNow <==>
        s in remaining[..i] && DependenciesSettled(s, results) && !AllGood(s, Flags(results))
    {
      var step := remaining[i];
      assert remaining[..i + 1] == remaining[..i] + [step];
      if DependenciesSettled(step, results) {
        if exists d :: d in step.dependsOn && !results[d].success {
          skipNow := skipNow + [step];
        } else {
          ready := ready + [step];
        }
      }
    }
    assert remaining[..|remaining|] == remaining;
  }

  /** Stores the results of a batch and takes its steps off the open list. */
  method Settle(batch: seq<Step>, rs: seq<StepResult>, results: map<StepId, StepResult>, remaining: seq<Step>)
    returns (results': map<StepId, StepResult>, remaining': seq<Step>)
    requires |batch| == |rs| && UniqueIds(batch)
    requires Distinct(remaining) && forall s :: s in batch ==> s in remaining
    ensures Recorded(results, results', batch, rs)
    ensures Distinct(remaining') && Elements(remaining') == Elements(remaining) - Elements(batch)
  {
    results', remaining' := results, remaining;
    for i := 0 to |batch|
      invariant Recorded(results, results', batch[..i], rs[..i])
      invariant Distinct(remaining') && Elements(remaining') == Elements(remaining) - Elements(batch[..i])
    {
      var step := batch[i];
      RecordOne(batch, rs, results, results', i);
      assert Elements(batch[..i + 1]) == Elements(batch[..i]) + {step};
      assert step in remaining' by {
        assert step !in batch[..i];
        assert step in Elements(remaining');
      }
      results' := results'[step.id := rs[i]];
      RemoveFirstDistinct(remaining', step);
      remaining' := RemoveFirst(remaining', step);
    }
    assert batch[..|batch|] == batch && rs[..|rs|] == rs;
  }

  ghost predicate Open(steps: seq<Step>, results: map<StepId, StepResult>, remaining: seq<Step>) {
    Distinct(remaining) && forall s :: s in remaining <==> s in steps && s.id !in results
  }

  lemma OpenAfter(steps: seq<Step>, exec: Executor, results: map<StepId, StepResult>, remaining: seq<Step>,
                  wave: seq<Step>, remaining': seq<Step>)
    requires UniqueIds(steps) && Open(steps, results, remaining) && IsWave(steps, results, wave)
    requires Distinct(remaining') && Elements(remaining') == Elements(remaining) - Elements(wave)
    ensures Open(steps, SettleAll(exec, DEPENDENCY_FAILED, results, wave), remaining')
    ensures wave != [] ==> |remaining'| < |remaining|
  {
    SettleExtends(steps, exec, DEPENDENCY_FAILED, results, wave);
    forall s ensures s in remaining' <==> s in remaining && s !in wave {
      assert s in Elements(remaining') <==> s in Elements(remaining) && s !in Elements(wave);
    }
    if wave != [] {
      assert Next(wave[0], results);
      assert wave[0] in Elements(remaining) - Elements(remaining');
      DistinctSize(remaining);
      DistinctSize(remaining');
      SubsetSize(Elements(remaining'), Elements(remaining) - {wave[0]});
    }
  }

  /** What Classify returns is the next wave, split in two. */
  lemma WaveFacts(steps: seq<Step>, results: map<StepId, StepResult>, remaining: seq<Step>,
                  ready: seq<Step>, skipNow: seq<Step>)
    requires UniqueIds(steps) && Open(steps, results, remaining) && Distinct(ready) && Distinct(skipNow)
    requires forall s :: s in ready <==>
      s in remaining && DependenciesSettled(s, results) && AllGood(s, Flags(results))
    requires forall s :: s in skipNow <==>
      s in remaining && DependenciesSettled(s, results) && !AllGood(s, Flags(results))
    ensures UniqueIds(ready) && UniqueIds(skipNow) && IsWave(steps, results, ready + skipNow)
    ensures Elements(ready + skipNow) == Elements(ready) + Elements(skipNow)
  {
    var wave := ready + skipNow;
    forall s ensures s in wave <==> s in steps && Next(s, results) {
      assert Elements(s.dependsOn) <= results.Keys <==> DependenciesSettled(s, results);
    }
    assert Distinct(wave);
    forall i, j | 0 <= i < j < |wave| ensures wave[i].id != wave[j].id {
      assert wave[i] in steps && wave[j] in steps;
    }
    forall i, j | 0 <= i < j < |ready| ensures ready[i].id != ready[j].id {
      assert ready[i] in steps && ready[j] in steps;
    }
    forall i, j | 0 <= i < j < |skipNow| ensures skipNow[i].id != skipNow[j].id {
      assert skipNow[i] in steps && skipNow[j] in steps;
    }
  }

  /** Runs one wave; `wave` is empty exactly when no open step could be settled. */
  method RunWave(steps: seq<Step>, exec: Executor, results: map<StepId, StepResult>, remaining: seq<Step>)
    returns (results': map<StepId, StepResult>, remaining': seq<Step>, wave: seq<Step>, ready: seq<Step>)
    requires UniqueIds(steps) && Open(steps, results, remaining)
    ensures IsWave(steps, results, wave) && UniqueIds(ready)
    ensures forall s :: s in ready <==> s in wave && AllGood(s, Flags(results))
    ensures results' == SettleAll(exec, DEPENDENCY_FAILED, results, wave)
    ensures Open(steps, results', remaining')
    ensures wave != [] ==> |remaining'| < |remaining|
  {
    var skipNow;
    ready, skipNow := Classify(remaining, results);
    WaveFacts(steps, results, remaining, ready, skipNow);
    wave := ready + skipNow;
    var mid, open := Settle(skipNow, SkipResults(skipNow, DEPENDENCY_FAILED), results, remaining);
    forall s | s in ready ensures s in open {
      assert s in Elements(open);
    }
    results', remaining' := Settle(ready, RunResults(exec, ready), mid, open);
    WaveIsSettled(exec, DEPENDENCY_FAILED, results, mid, results', ready, skipNow);
    assert Elements(remaining') == Elements(remaining) - Elements(wave);
    OpenAfter(steps, exec, results, remaining, wave, remaining');
  }

  method Execute(steps: seq<Step>, exec: Executor) returns (r: Execution, stalled: bool)
    requires UniqueIds(steps)
    ensures !stalled
    ensures Verdict(steps).Some? ==> r == Rejected(Verdict(steps).value)
    ensures Verdict(steps).None? ==> r.Ran? && MeetsSpec(steps, exec, DEPENDENCY_FAILED, r.run)
    ensures r.Ran? ==> OutcomeRight(steps, exec, DEPENDENCY_FAILED, r.run)
  {
    stalled := false;
    if steps == [] {
      EmptyWorkflow(exec, DEPENDENCY_FAILED);
      r := Ran(Run(WorkflowResult([], Success), [], []));
      RunOutcome(steps, exec, DEPENDENCY_FAILED, r.run);
      return;
    }
    var invalid := ValidateDependencies(steps);
    if invalid.Some? {
      return Rejected(invalid.value), false;
    }
    VerdictMeaning(steps);
    StartRun(steps, exec, DEPENDENCY_FAILED);
    var results: map<StepId, StepResult> := map[];
    var remaining := steps;
    var calls: seq<StepId> := [];
    var waves: seq<seq<Step>> := [];
    ghost var depth: map<StepId, nat> := map[];
    while remaining != []
      invariant Progress(steps, exec, DEPENDENCY_FAILED, results, depth, calls, waves)
      invariant Open(steps, results, remaining)
      decreases |remaining|
    {
      ghost var next := SomethingIsNext(steps, results, remaining[0]);
      ghost var before := results;
      var wave, ready;
      results, remaining, wave, ready := RunWave(steps, exec, results, remaining);
      if wave == [] {
        stalled := true;
        break;
      }
      AdvanceWave(steps, exec, DEPENDENCY_FAILED, before, depth, calls, waves, wave, ready);
      depth := Deepen(depth, wave, |waves|);
      calls := calls + IdsInOrder(ready);
      waves := waves + [wave];
    }
    assert results.Keys == Ids(steps);
    FinishRun(steps, exec, DEPENDENCY_FAILED, results, depth, calls, waves);
    var ordered := Collect(steps, results);
    r := Ran(Run(WorkflowResult(ordered, Summarize(ordered)), calls, waves));
    RunOutcome(steps, exec, DEPENDENCY_FAILED, r.run);
  }
}
