/**
 Two different algorithms, one meaning: whatever two runs satisfy the specification of a workflow, as
 every run of the parallel and of the hierarchical executor does, agree on everything but the wording
 of skipped steps.
 */
module WorkflowAgreement {
  import opened Sequences
  import opened Digraph
  import opened Workflow

  lemma ExecutionsAgree(steps: seq<Step>, exec: Executor, reason1: string, run1: Run, reason2: string, run2: Run)
    requires UniqueIds(steps) && MeetsSpec(steps, exec, reason1, run1) && MeetsSpec(steps, exec, reason2, run2)
    ensures |run1.result.stepResults| == |run2.result.stepResults| == |steps|
    ensures forall i :: 0 <= i < |steps| ==>
              var r1, r2 := run1.result.stepResults[i], run2.result.stepResults[i];
              r1.stepId == r2.stepId == steps[i].id && r1.success == r2.success && r1.output == r2.output
    ensures run1.result.status == run2.result.status
    ensures multiset(run1.calls) == multiset(run2.calls)
    ensures |run1.waves| == |run2.waves|
    ensures forall k :: 0 <= k < |run1.waves| ==> multiset(run1.waves[k]) == multiset(run2.waves[k])
  {
    var good1, depth1 :| Explains(steps, exec, reason1, run1, good1, depth1);
    var good2, depth2 :| Explains(steps, exec, reason2, run2, good2, depth2);
    SolutionUnique(steps, exec, depth1, good1, good2);
    DepthUnique(steps, depth1, depth2);
    StepsAgree(steps, exec, good1, reason1, run1.result.stepResults, reason2, run2.result.stepResults);
    SummariesAgree(run1.result.stepResults, run2.result.stepResults);
    forall x ensures x in run1.calls <==> x in run2.calls {
      if x in run1.calls || x in run2.calls {
        assert x in Elements(run1.calls) || x in Elements(run2.calls);
        var s :| s in steps && s.id == x;
      }
    }
    SameDistinct(run1.calls, run2.calls);
    WavesAgree(steps, depth1, run1.waves, run2.waves);
  }

  lemma StepsAgree(steps: seq<Step>, exec: Executor, good: map<StepId, bool>, reason1: string, a: seq<StepResult>,
                   reason2: string, b: seq<StepResult>)
    requires |a| == |b| == |steps|
    requires forall i :: 0 <= i < |steps| ==> a[i] == Due(exec, steps[i], good, reason1)
    requires forall i :: 0 <= i < |steps| ==> b[i] == Due(exec, steps[i], good, reason2)
    ensures forall i :: 0 <= i < |steps| ==>
              a[i].stepId == b[i].stepId == steps[i].id && a[i].success == b[i].success && a[i].output == b[i].output
  {
  }

  lemma SummariesAgree(a: seq<StepResult>, b: seq<StepResult>)
    requires |a| == |b| && forall i :: 0 <= i < |a| ==> a[i].success == b[i].success
    ensures Summarize(a) == Summarize(b)
  {
  }

  lemma SameDistinct<T>(a: seq<T>, b: seq<T>)
    requires Distinct(a) && Distinct(b) && forall x :: x in a <==> x in b
    ensures multiset(a) == multiset(b)
  {
    DistinctCounts(a);
    DistinctCounts(b);
  }

  lemma {:induction false} DistinctCounts<T>(xs: seq<T>)
    requires Distinct(xs)
    ensures forall x :: multiset(xs)[x] == if x in xs then 1 else 0
  {
    if xs != [] {
      DistinctCounts(xs[1..]);
      assert xs == [xs[0]] + xs[1..];
    }
  }

  lemma WavesAgree(steps: seq<Step>, depth: map<StepId, nat>, a: seq<seq<Step>>, b: seq<seq<Step>>)
    requires depth.Keys <= Ids(steps) && WavesAreLevels(steps, depth, a) && WavesAreLevels(steps, depth, b)
    ensures |a| == |b|
    ensures forall k :: 0 <= k < |a| ==> multiset(a[k]) == multiset(b[k])
  {
    WavesNotLonger(steps, depth, a, b);
    WavesNotLonger(steps, depth, b, a);
    forall k | 0 <= k < |a| ensures multiset(a[k]) == multiset(b[k]) {
      assert IsLevel(steps, depth, a[k], k) && IsLevel(steps, depth, b[k], k);
      SameDistinct(a[k], b[k]);
    }
  }

  lemma WavesNotLonger(steps: seq<Step>, depth: map<StepId, nat>, a: seq<seq<Step>>, b: seq<seq<Step>>)
    requires depth.Keys <= Ids(steps) && WavesAreLevels(steps, depth, a) && WavesAreLevels(steps, depth, b)
    ensures |a| <= |b|
  {
    if |a| > 0 {
      var last := |a| - 1;
      assert IsLevel(steps, depth, a[last], last);
      assert a[last][0] in a[last];
    }
  }

  /** The number of waves is the number of steps on the longest dependency path. */
  lemma WaveCount(steps: seq<Step>, exec: Executor, reason: string, run: Run)
    requires UniqueIds(steps) && steps != [] && MeetsSpec(steps, exec, reason, run)
    ensures forall p: seq<Node> :: p != [] && p[0] in Ids(steps) && Walk(DependencyGraph(steps), p) ==>
              |p| <= |run.waves|
    ensures exists p: seq<Node> ::
              p != [] && p[0] in Ids(steps) && Walk(DependencyGraph(steps), p) && |p| == |run.waves|
  {
    var good, depth :| Explains(steps, exec, reason, run, good, depth);
    var p := LongestPath(steps, depth, run.waves);
  }

  lemma LongestPath(steps: seq<Step>, depth: map<StepId, nat>, waves: seq<seq<Step>>) returns (p: seq<Node>)
    requires UniqueIds(steps) && steps != [] && IsDepthMap(steps, depth) && WavesAreLevels(steps, depth, waves)
    ensures forall q: seq<Node> :: q != [] && q[0] in Ids(steps) && Walk(DependencyGraph(steps), q) ==> |q| <= |waves|
    ensures p != [] && p[0] in Ids(steps) && Walk(DependencyGraph(steps), p) && |p| == |waves|
  {
    forall q: seq<Node> | q != [] && q[0] in Ids(steps) && Walk(DependencyGraph(steps), q) ensures |q| <= |waves| {
      PathIsShort(steps, depth, q);
    }
    assert steps[0].id in depth;
    var last := |waves| - 1;
    assert IsLevel(steps, depth, waves[last], last);
    var s := waves[last][0];
    assert s in waves[last];
    p := LongPath(steps, depth, s.id);
  }

  /** `s` is settled in exactly one wave, and its dependency `d` in an earlier one. */
  ghost predicate SettledOnceAfter(waves: seq<seq<Step>>, s: Step, d: StepId) {
    exists k, j, t :: 0 <= j < k < |waves| && s in waves[k] && t in waves[j] && t.id == d
                      && forall i :: 0 <= i < |waves| && s in waves[i] ==> i == k
  }

  lemma WavesRespectDependencies(steps: seq<Step>, exec: Executor, reason: string, run: Run, s: Step, d: StepId)
    requires UniqueIds(steps) && MeetsSpec(steps, exec, reason, run) && s in steps && d in s.dependsOn
    ensures SettledOnceAfter(run.waves, s, d)
  {
    var good, depth :| Explains(steps, exec, reason, run, good, depth);
    var k, j, t := LevelsRespect(steps, depth, run.waves, s, d);
  }

  lemma LevelsRespect(steps: seq<Step>, depth: map<StepId, nat>, waves: seq<seq<Step>>, s: Step, d: StepId)
    returns (k: nat, j: nat, t: Step)
    requires IsDepthMap(steps, depth) && WavesAreLevels(steps, depth, waves) && s in steps && d in s.dependsOn
    ensures 0 <= j < k < |waves| && s in waves[k] && t in waves[j] && t.id == d
    ensures forall i :: 0 <= i < |waves| && s in waves[i] ==> i == k
  {
    assert DepthAt(s, depth);
    t :| t in steps && t.id == d;
    k, j := depth[s.id], depth[d];
    assert IsLevel(steps, depth, waves[k], k) && IsLevel(steps, depth, waves[j], j);
    forall i | 0 <= i < |waves| && s in waves[i] ensures i == k {
      assert IsLevel(steps, depth, waves[i], i);
    }
  }
}
