/**
 How an execution moves towards the meaning of its workflow: what holds after some waves, why settling
 the next wave keeps it, and why holding it to the end is enough. Both executors run on these steps.
 */
module WorkflowProgress {
  import opened Sequences
  import opened Digraph
  import opened Workflow

  // ---- One wave at a time -----------------------------------------------------------------------

  /** Some dependency of `s` was still open when the last wave started. */
  ghost predicate HeldBack(s: Step, depth: map<StepId, nat>, waves: nat) {
    waves > 0 ==> exists d :: d in s.dependsOn && (d in depth ==> depth[d] + 1 == waves)
  }

  ghost predicate Settled(s: Step, exec: Executor, reason: string, results: map<StepId, StepResult>,
                          depth: map<StepId, nat>)
    requires s.id in results && s.id in depth
  {
    && DepthAt(s, depth)
    && results[s.id] == Due(exec, s, Flags(results), reason)
  }

  /**
   The executor was called once on exactly the settled steps whose dependencies all succeeded, each
   after its dependencies.
   */
  ghost predicate CallsAreDue(steps: seq<Step>, results: map<StepId, StepResult>, calls: seq<StepId>)
    requires UniqueIds(steps)
  {
    && Distinct(calls) && Elements(calls) <= Ids(steps)
    && OrderedPrefix(DependencyGraph(steps), calls)
    && forall s :: s in steps ==> (s.id in calls <==> s.id in results && AllGood(s, Flags(results)))
  }

  /** The state of an execution after some waves. */
  ghost predicate Progress(steps: seq<Step>, exec: Executor, reason: string, results: map<StepId, StepResult>,
                           depth: map<StepId, nat>, calls: seq<StepId>, waves: seq<seq<Step>>)
    requires UniqueIds(steps)
  {
    && results.Keys == depth.Keys <= Ids(steps)
    && (forall s {:trigger Settled(s, exec, reason, results, depth)} ::
          s in steps && s.id in results ==> Settled(s, exec, reason, results, depth))
    && (forall s {:trigger HeldBack(s, depth, |waves|)} ::
          s in steps && s.id !in results ==> HeldBack(s, depth, |waves|))
    && CallsAreDue(steps, results, calls)
    && WavesAreLevels(steps, depth, waves)
  }

  /** The steps that can be settled next: open ones whose dependencies are all settled. */
  ghost predicate Next(s: Step, results: map<StepId, StepResult>) {
    s.id !in results && Elements(s.dependsOn) <= results.Keys
  }

  function SettleAll(exec: Executor, reason: string, results: map<StepId, StepResult>, wave: seq<Step>):
    map<StepId, StepResult>
    requires UniqueIds(wave)
  {
    results + DueResults(exec, reason, Flags(results), wave)
  }

  function DueResults(exec: Executor, reason: string, good: map<StepId, bool>, wave: seq<Step>):
    map<StepId, StepResult>
    requires UniqueIds(wave)
  {
    map s | s in wave :: s.id := Due(exec, s, good, reason)
  }

  function Deepen(depth: map<StepId, nat>, wave: seq<Step>, k: nat): map<StepId, nat>
    requires UniqueIds(wave)
  {
    depth + map s | s in wave :: s.id := k
  }

  ghost predicate IsWave(steps: seq<Step>, results: map<StepId, StepResult>, wave: seq<Step>) {
    && UniqueIds(wave)
    && forall s :: s in wave <==> s in steps && Next(s, results)
  }

  ghost predicate ResultsExtend(before: map<StepId, StepResult>, after: map<StepId, StepResult>) {
    before.Keys <= after.Keys && forall x :: x in before ==> after[x] == before[x]
  }

  /** Settling a wave adds its ids and overwrites nothing. */
  lemma SettleExtends(steps: seq<Step>, exec: Executor, reason: string, results: map<StepId, StepResult>,
                      wave: seq<Step>)
    requires UniqueIds(steps) && IsWave(steps, results, wave)
    ensures ResultsExtend(results, SettleAll(exec, reason, results, wave))
    ensures forall s :: s in steps ==>
              (s.id in SettleAll(exec, reason, results, wave) <==> s.id in results || s in wave)
    ensures SettleAll(exec, reason, results, wave).Keys <= results.Keys + Ids(steps)
  {
    forall s | s in steps && (exists t :: t in wave && t.id == s.id) ensures s in wave {
      var t :| t in wave && t.id == s.id;
      SameIdSameStep(steps, s, t);
    }
    forall x | x in results ensures !exists t :: t in wave && t.id == x {
      forall t | t in wave ensures t.id != x { assert Next(t, results); }
    }
  }

  /** Whether a step's dependencies all succeeded does not change once they have results. */
  lemma GoodnessStable(s: Step, before: map<StepId, StepResult>, after: map<StepId, StepResult>)
    requires ResultsExtend(before, after) && Elements(s.dependsOn) <= before.Keys
    ensures AllGood(s, Flags(after)) == AllGood(s, Flags(before))
  {
    forall d | d in s.dependsOn ensures d in before && after[d] == before[d] {
      assert d in Elements(s.dependsOn);
    }
  }

  /** Settling exactly the next steps keeps the state of the execution right. */
  lemma AdvanceWave(steps: seq<Step>, exec: Executor, reason: string, results: map<StepId, StepResult>,
                    depth: map<StepId, nat>, calls: seq<StepId>, waves: seq<seq<Step>>,
                    wave: seq<Step>, ready: seq<Step>)
    requires UniqueIds(steps) && Progress(steps, exec, reason, results, depth, calls, waves)
    requires wave != [] && IsWave(steps, results, wave) && UniqueIds(ready)
    requires forall s :: s in ready <==> s in wave && AllGood(s, Flags(results))
    ensures Progress(steps, exec, reason, SettleAll(exec, reason, results, wave),
                     Deepen(depth, wave, |waves|), calls + IdsInOrder(ready), waves + [wave])
  {
    var k := |waves|;
    var results', depth' := SettleAll(exec, reason, results, wave), Deepen(depth, wave, k);
    SettleExtends(steps, exec, reason, results, wave);
    forall s | s in steps && s.id in results' ensures Settled(s, exec, reason, results', depth') {
      if s.id in results {
        assert Settled(s, exec, reason, results, depth);
        OldStepStaysSettled(s, exec, reason, results, depth, wave, k);
      } else {
        assert HeldBack(s, depth, k);
        NewStepSettled(s, exec, reason, results, depth, wave, k);
      }
    }
    forall s | s in steps && s.id !in results' ensures HeldBack(s, depth', k + 1) {
      StillHeldBack(steps, s, results, depth, wave, k);
    }
    CallsAdvance(steps, exec, reason, results, depth, calls, wave, ready);
    LevelsAdvance(steps, depth, waves, wave);
  }

  lemma WaveOverwritesNothing(exec: Executor, reason: string, results: map<StepId, StepResult>,
                              depth: map<StepId, nat>, wave: seq<Step>, k: nat)
    requires UniqueIds(wave) && forall t :: t in wave ==> Next(t, results)
    requires results.Keys == depth.Keys
    ensures ResultsExtend(results, SettleAll(exec, reason, results, wave))
    ensures forall x :: x in depth ==> Deepen(depth, wave, k)[x] == depth[x]
  {
    forall x | x in results ensures !exists t :: t in wave && t.id == x {
      forall t | t in wave ensures t.id != x { assert Next(t, results); }
    }
  }

  lemma OldStepStaysSettled(s: Step, exec: Executor, reason: string, results: map<StepId, StepResult>,
                            depth: map<StepId, nat>, wave: seq<Step>, k: nat)
    requires UniqueIds(wave) && forall t :: t in wave ==> Next(t, results)
    requires results.Keys == depth.Keys && s.id in results && Settled(s, exec, reason, results, depth)
    ensures Settled(s, exec, reason, SettleAll(exec, reason, results, wave), Deepen(depth, wave, k))
  {
    WaveOverwritesNothing(exec, reason, results, depth, wave, k);
    assert DepthAt(s, depth);
    GoodnessStable(s, results, SettleAll(exec, reason, results, wave));
  }

  lemma NewStepSettled(s: Step, exec: Executor, reason: string, results: map<StepId, StepResult>,
                       depth: map<StepId, nat>, wave: seq<Step>, k: nat)
    requires results.Keys == depth.Keys && UniqueIds(wave) && s in wave
    requires forall t :: t in wave ==> Next(t, results)
    requires forall x :: x in depth ==> depth[x] < k
    requires HeldBack(s, depth, k)
    ensures Settled(s, exec, reason, SettleAll(exec, reason, results, wave), Deepen(depth, wave, k))
  {
    WaveOverwritesNothing(exec, reason, results, depth, wave, k);
    assert Next(s, results);
    NewStepDepth(s, depth, Deepen(depth, wave, k), k);
    GoodnessStable(s, results, SettleAll(exec, reason, results, wave));
  }

  lemma NewStepDepth(s: Step, before: map<StepId, nat>, after: map<StepId, nat>, k: nat)
    requires Elements(s.dependsOn) <= before.Keys <= after.Keys
    requires forall x :: x in before ==> before[x] < k && after[x] == before[x]
    requires s.id in after && after[s.id] == k && HeldBack(s, before, k)
    ensures DepthAt(s, after)
  {
    forall d | d in s.dependsOn ensures d in before { assert d in Elements(s.dependsOn); }
  }

  lemma StillHeldBack(steps: seq<Step>, s: Step, results: map<StepId, StepResult>, depth: map<StepId, nat>,
                      wave: seq<Step>, k: nat)
    requires results.Keys == depth.Keys && IsWave(steps, results, wave)
    requires s in steps && s !in wave && s.id !in results
    ensures HeldBack(s, Deepen(depth, wave, k), k + 1)
  {
    assert !Next(s, results);
    var d :| d in s.dependsOn && d !in results;
    assert d in Deepen(depth, wave, k) ==> Deepen(depth, wave, k)[d] + 1 == k + 1;
  }

  lemma CallsAdvance(steps: seq<Step>, exec: Executor, reason: string, results: map<StepId, StepResult>,
                     depth: map<StepId, nat>, calls: seq<StepId>, wave: seq<Step>, ready: seq<Step>)
    requires UniqueIds(steps) && IsWave(steps, results, wave) && UniqueIds(ready)
    requires forall s :: s in ready <==> s in wave && AllGood(s, Flags(results))
    requires results.Keys == depth.Keys <= Ids(steps) && CallsAreDue(steps, results, calls)
    requires forall s :: s in steps && s.id in results ==> Settled(s, exec, reason, results, depth)
    ensures CallsAreDue(steps, SettleAll(exec, reason, results, wave), calls + IdsInOrder(ready))
  {
    var results', ids := SettleAll(exec, reason, results, wave), IdsInOrder(ready);
    SettleExtends(steps, exec, reason, results, wave);
    ReadyIds(steps, ready);
    CallsInOrder(steps, exec, reason, results, depth, calls, ready);
    forall s | s in ready ensures s.id !in calls { assert Next(s, results); }
    forall s | s in steps
      ensures s.id in calls + ids <==> s.id in results' && AllGood(s, Flags(results'))
    {
      if s.id in results {
        assert Settled(s, exec, reason, results, depth);
        GoodnessStable(s, results, results');
      } else if s in wave {
        assert Next(s, results);
        GoodnessStable(s, results, results');
      }
    }
    forall x | x in calls + ids ensures x in Ids(steps) {
      if x in calls { assert x in Elements(calls); }
    }
  }

  /** The dependencies of a ready step succeeded, so they have been called already. */
  lemma CallsInOrder(steps: seq<Step>, exec: Executor, reason: string, results: map<StepId, StepResult>,
                     depth: map<StepId, nat>, calls: seq<StepId>, ready: seq<Step>)
    requires UniqueIds(steps) && results.Keys == depth.Keys <= Ids(steps) && CallsAreDue(steps, results, calls)
    requires forall s :: s in ready ==> s in steps && AllGood(s, Flags(results))
    requires forall s :: s in steps && s.id in results ==> Settled(s, exec, reason, results, depth)
    ensures OrderedPrefix(DependencyGraph(steps), calls + IdsInOrder(ready))
  {
    var g := DependencyGraph(steps);
    forall x | x in IdsInOrder(ready) ensures x in g && g[x] <= Elements(calls) {
      var i :| 0 <= i < |ready| && ready[i].id == x;
      assert ready[i] in ready && g[x] == Elements(ready[i].dependsOn);
      forall d | d in ready[i].dependsOn ensures d in calls {
        assert d in Flags(results) && Flags(results)[d];
        var t :| t in steps && t.id == d;
        assert Settled(t, exec, reason, results, depth);
        assert AllGood(t, Flags(results));
      }
    }
    ExtendOrderMany(g, calls, IdsInOrder(ready));
  }

  lemma ReadyIds(steps: seq<Step>, ready: seq<Step>)
    requires UniqueIds(steps) && UniqueIds(ready) && forall s :: s in ready ==> s in steps
    ensures Distinct(IdsInOrder(ready))
    ensures forall s :: s in steps ==> (s.id in IdsInOrder(ready) <==> s in ready)
    ensures forall x :: x in IdsInOrder(ready) ==> x in Ids(steps) && exists s :: s in ready && s.id == x
  {
    var ids := IdsInOrder(ready);
    forall x | x in ids ensures exists s :: s in ready && s.id == x {
      var i :| 0 <= i < |ids| && ids[i] == x;
      assert ready[i] in ready;
    }
    forall s | s in ready ensures s.id in ids {
      var i :| 0 <= i < |ready| && ready[i] == s;
      assert ids[i] == s.id;
    }
  }

  lemma LevelsAdvance(steps: seq<Step>, depth: map<StepId, nat>, waves: seq<seq<Step>>, wave: seq<Step>)
    requires UniqueIds(steps) && UniqueIds(wave) && wave != []
    requires depth.Keys <= Ids(steps) && WavesAreLevels(steps, depth, waves)
    requires forall s :: s in wave ==> s in steps && s.id !in depth
    ensures Deepen(depth, wave, |waves|).Keys <= Ids(steps)
    ensures WavesAreLevels(steps, Deepen(depth, wave, |waves|), waves + [wave])
  {
    var k, depth', waves' := |waves|, Deepen(depth, wave, |waves|), waves + [wave];
    forall i | 0 <= i < |waves'| ensures IsLevel(steps, depth', waves'[i], i) {
      if i < k {
        assert IsLevel(steps, depth, waves[i], i);
        LevelStays(steps, depth, wave, waves[i], i, k);
      } else {
        NewLevel(steps, depth, wave, k);
      }
    }
  }

  lemma LevelStays(steps: seq<Step>, depth: map<StepId, nat>, wave: seq<Step>, level: seq<Step>, i: nat, k: nat)
    requires UniqueIds(wave) && i < k && IsLevel(steps, depth, level, i)
    requires forall s :: s in wave ==> s.id !in depth
    ensures IsLevel(steps, Deepen(depth, wave, k), level, i)
  {
  }

  lemma NewLevel(steps: seq<Step>, depth: map<StepId, nat>, wave: seq<Step>, k: nat)
    requires UniqueIds(steps) && UniqueIds(wave) && wave != []
    requires forall x :: x in depth ==> depth[x] < k
    requires forall s :: s in wave ==> s in steps && s.id !in depth
    ensures IsLevel(steps, Deepen(depth, wave, k), wave, k)
  {
    var depth' := Deepen(depth, wave, k);
    forall s | s in steps && s.id in depth' && depth'[s.id] == k ensures s in wave {
      var t :| t in wave && t.id == s.id;
      SameIdSameStep(steps, s, t);
    }
  }

  /** Once every step is settled, the collected results are what the workflow means. */
  lemma FinishRun(steps: seq<Step>, exec: Executor, reason: string, results: map<StepId, StepResult>,
                  depth: map<StepId, nat>, calls: seq<StepId>, waves: seq<seq<Step>>)
    requires UniqueIds(steps) && Progress(steps, exec, reason, results, depth, calls, waves)
    requires results.Keys == Ids(steps)
    ensures var ordered := Collect(steps, results);
            MeetsSpec(steps, exec, reason, Run(WorkflowResult(ordered, Summarize(ordered)), calls, waves))
  {
    var ordered, good := Collect(steps, results), Flags(results);
    SettledSolves(steps, exec, reason, results, depth);
    SettledResults(steps, exec, reason, results, depth);
    assert Explains(steps, exec, reason, Run(WorkflowResult(ordered, Summarize(ordered)), calls, waves), good, depth);
  }

  lemma SettledSolves(steps: seq<Step>, exec: Executor, reason: string, results: map<StepId, StepResult>,
                      depth: map<StepId, nat>)
    requires results.Keys == depth.Keys == Ids(steps)
    requires forall s {:trigger Settled(s, exec, reason, results, depth)} ::
               s in steps ==> Settled(s, exec, reason, results, depth)
    ensures IsSolution(steps, exec, Flags(results)) && IsDepthMap(steps, depth)
  {
    forall s | s in steps
      ensures DepthAt(s, depth) && (Flags(results)[s.id] <==> AllGood(s, Flags(results)) && exec(s).Returned?)
    {
      assert Settled(s, exec, reason, results, depth);
    }
  }

  lemma SettledResults(steps: seq<Step>, exec: Executor, reason: string, results: map<StepId, StepResult>,
                       depth: map<StepId, nat>)
    requires results.Keys == depth.Keys == Ids(steps)
    requires forall s {:trigger Settled(s, exec, reason, results, depth)} ::
               s in steps ==> Settled(s, exec, reason, results, depth)
    ensures var ordered := Collect(steps, results);
            |ordered| == |steps| &&
            forall i :: 0 <= i < |steps| ==> ordered[i] == Due(exec, steps[i], Flags(results), reason)
  {
    CollectAll(steps, results);
    forall i | 0 <= i < |steps| ensures Collect(steps, results)[i] == Due(exec, steps[i], Flags(results), reason) {
      assert Settled(steps[i], exec, reason, results, depth);
    }
  }

  // ---- Storing the results of a wave -----------------------------------------------------------

  /** `after` is `before` with the results `rs` of the steps `batch` written into it. */
  ghost predicate Recorded(before: map<StepId, StepResult>, after: map<StepId, StepResult>,
                           batch: seq<Step>, rs: seq<StepResult>)
    requires |batch| == |rs|
  {
    && after.Keys == before.Keys + Ids(batch)
    && (forall i :: 0 <= i < |batch| ==> after[batch[i].id] == rs[i])
    && (forall x :: x in before && x !in Ids(batch) ==> after[x] == before[x])
  }

  lemma RecordOne(batch: seq<Step>, rs: seq<StepResult>, before: map<StepId, StepResult>,
                  after: map<StepId, StepResult>, i: nat)
    requires |batch| == |rs| && UniqueIds(batch) && i < |batch|
    requires Recorded(before, after, batch[..i], rs[..i])
    ensures Recorded(before, after[batch[i].id := rs[i]], batch[..i + 1], rs[..i + 1])
  {
    var b, b' := batch[..i], batch[..i + 1];
    assert b' == b + [batch[i]];
    assert Ids(b') == Ids(b) + {batch[i].id};
    forall k | 0 <= k < i ensures batch[k].id != batch[i].id && after[batch[k].id] == rs[k] {
      assert b[k] == batch[k] && rs[..i][k] == rs[k];
    }
  }

  /** The two passes over a wave together give every step of it the result it is due. */
  lemma WaveIsSettled(exec: Executor, reason: string, results: map<StepId, StepResult>, mid: map<StepId, StepResult>,
                      after: map<StepId, StepResult>, ready: seq<Step>, skipNow: seq<Step>)
    requires UniqueIds(ready) && UniqueIds(skipNow) && UniqueIds(ready + skipNow)
    requires forall s :: s in ready ==> AllGood(s, Flags(results))
    requires forall s :: s in skipNow ==> !AllGood(s, Flags(results))
    requires Recorded(results, mid, skipNow, SkipResults(skipNow, reason))
    requires Recorded(mid, after, ready, RunResults(exec, ready))
    ensures after == SettleAll(exec, reason, results, ready + skipNow)
  {
    var wave := ready + skipNow;
    assert Ids(wave) == Ids(ready) + Ids(skipNow);
    forall s | s in wave ensures s.id in after && after[s.id] == Due(exec, s, Flags(results), reason) {
      DueInWave(exec, reason, results, mid, after, ready, skipNow, s);
    }
    IsSettleAll(exec, reason, results, after, wave);
  }

  lemma IsSettleAll(exec: Executor, reason: string, results: map<StepId, StepResult>, after: map<StepId, StepResult>,
                    wave: seq<Step>)
    requires UniqueIds(wave) && after.Keys == results.Keys + Ids(wave)
    requires forall s :: s in wave ==> after[s.id] == Due(exec, s, Flags(results), reason)
    requires forall x :: x in results && x !in Ids(wave) ==> after[x] == results[x]
    ensures after == SettleAll(exec, reason, results, wave)
  {
    var target := SettleAll(exec, reason, results, wave);
    forall x | x in after ensures x in target && target[x] == after[x] {
      if x in Ids(wave) {
        var s :| s in wave && s.id == x;
        assert target[s.id] == Due(exec, s, Flags(results), reason);
      }
    }
  }

  lemma DueInWave(exec: Executor, reason: string, results: map<StepId, StepResult>, mid: map<StepId, StepResult>,
                  after: map<StepId, StepResult>, ready: seq<Step>, skipNow: seq<Step>, s: Step)
    requires UniqueIds(ready + skipNow) && s in ready + skipNow && s.id in after
    requires forall t :: t in ready ==> AllGood(t, Flags(results))
    requires forall t :: t in skipNow ==> !AllGood(t, Flags(results))
    requires Recorded(results, mid, skipNow, SkipResults(skipNow, reason))
    requires Recorded(mid, after, ready, RunResults(exec, ready))
    ensures after[s.id] == Due(exec, s, Flags(results), reason)
  {
    if s in ready {
      var i :| 0 <= i < |ready| && ready[i] == s;
      assert after[ready[i].id] == RunResults(exec, ready)[i];
    } else {
      var j :| 0 <= j < |skipNow| && skipNow[j] == s;
      NotAmong(ready, skipNow, j);
      assert mid[skipNow[j].id] == SkipResults(skipNow, reason)[j];
    }
  }

  lemma NotAmong(a: seq<Step>, b: seq<Step>, j: nat)
    requires UniqueIds(a + b) && j < |b|
    ensures b[j].id !in Ids(a)
  {
    forall t | t in a ensures t.id != b[j].id {
      var i :| 0 <= i < |a| && a[i] == t;
      assert (a + b)[i] == t && (a + b)[|a| + j] == b[j];
    }
  }

  function SkipResults(skipNow: seq<Step>, reason: string): seq<StepResult> {
    seq(|skipNow|, i requires 0 <= i < |skipNow| => Skipped(skipNow[i], reason))
  }

  /** What gathering the calls of a batch returns: the results in batch order. */
  function RunResults(exec: Executor, ready: seq<Step>): seq<StepResult> {
    seq(|ready|, i requires 0 <= i < |ready| => RunStep(exec, ready[i]))
  }

  // ---- Starting and moving on -------------------------------------------------------------------

  /** While steps are open in a validated workflow, some of them can be settled. */
  lemma SomethingIsNext(steps: seq<Step>, results: map<StepId, StepResult>, open: Step) returns (s: Step)
    requires UniqueIds(steps) && Closed(DependencyGraph(steps)) && Acyclic(DependencyGraph(steps))
    requires open in steps && open.id !in results
    ensures s in steps && Next(s, results)
  {
    var g := DependencyGraph(steps);
    var left := g.Keys - results.Keys;
    assert open.id in left;
    if exists s :: s in steps && Next(s, results) {
      s :| s in steps && Next(s, results);
    } else {
      forall y | y in left ensures g[y] * left != {} {
        var t :| t in steps && t.id == y;
        assert !Next(t, results);
        var d :| d in Elements(t.dependsOn) && d !in results.Keys;
        assert g[y] == Elements(t.dependsOn);
        assert d in g[y] * left;
      }
      var c := StuckSetHasCycle(g, left);
    }
  }

  lemma StartRun(steps: seq<Step>, exec: Executor, reason: string)
    requires UniqueIds(steps)
    ensures Progress(steps, exec, reason, map[], map[], [], [])
  {
  }

  lemma EmptyWorkflow(exec: Executor, reason: string)
    ensures Verdict([]).None?
    ensures MeetsSpec([], exec, reason, Run(WorkflowResult([], Success), [], []))
  {
    VerdictMeaning([]);
    OrderExcludesCycles(DependencyGraph([]), []);
    assert Explains([], exec, reason, Run(WorkflowResult([], Success), [], []), map[], map[]);
  }
}
