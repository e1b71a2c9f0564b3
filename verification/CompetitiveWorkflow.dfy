/**
 The race executor. All steps run at once; completions arrive in arbitrary non-empty batches, and the
 first success ends the race.
 */
module CompetitiveWorkflow {
  import opened Sequences
  import opened Workflow
  import opened Completion

  ghost predicate StoppedAt(steps: seq<Step>, exec: Executor, all: map<StepId, StepResult>, i: nat)
    requires i < |steps|
  {
    steps[i].id in all ==> Stopped(exec, steps[i], all[steps[i].id])
  }

  ghost predicate WinsAt(steps: seq<Step>, exec: Executor, all: map<StepId, StepResult>, winner: StepResult, i: nat) {
    i < |steps| && steps[i].id in all && all[steps[i].id] == winner && Reports(exec, steps[i], winner)
  }

  /** Every result on record is what its task returned or a cancellation, and the winner's is there. */
  ghost predicate RaceRecord(steps: seq<Step>, exec: Executor, all: map<StepId, StepResult>, winner: StepResult) {
    (forall i: nat :: i < |steps| ==> StoppedAt(steps, exec, all, i)) && exists i :: WinsAt(steps, exec, all, winner, i)
  }

  /** The results of a won race with everything included: those on record, in input order, the winner's among them. */
  ghost predicate WonRace(steps: seq<Step>, exec: Executor, rs: seq<StepResult>) {
    exists all, winner: StepResult ::
        winner.success && RaceRecord(steps, exec, all, winner) && rs == Collect(steps, all)
  }

  /** Goes through one batch in any order, up to the first success; `seen` are the tasks it got to. */
  method FirstSuccess(steps: seq<Step>, exec: Executor, done: set<nat>, ghost finished: set<nat>,
                      all: map<StepId, StepResult>)
    returns (winner: Option<StepResult>, all': map<StepId, StepResult>, ghost seen: set<nat>)
    requires done <= Tasks(|steps|) && (UniqueIds(steps) ==> Records(steps, exec, all, finished))
    ensures winner.Some? <==> exists t :: t in done && exec(steps[t]).Returned?
    ensures seen <= done && (UniqueIds(steps) ==> Records(steps, exec, all', finished + seen))
    ensures match winner
            case None => seen == done
            case Some(w) => w.success && exists t :: t in seen && Reports(exec, steps[t], w)
  {
    winner, all' := None, all;
    var left := done;
    seen := {};
    assert finished + seen == finished;
    while left != {}
      invariant left !! seen && left + seen == done && winner.None?
      invariant forall t :: t in seen ==> !exec(steps[t]).Returned?
      invariant UniqueIds(steps) ==> Records(steps, exec, all', finished + seen)
      decreases left
    {
      var t :| t in left;
      var result := RunStep(exec, steps[t]);
      if UniqueIds(steps) {
        RecordsOneMore(steps, exec, all', finished + seen, t);
        assert finished + seen + {t} == finished + (seen + {t});
      }
      all' := all'[result.stepId := result];
      left, seen := left - {t}, seen + {t};
      if result.success {
        winner := Some(result);
        return;
      }
    }
  }

  /** The rest of a won race is cancelled. */
  method StopLosers(steps: seq<Step>, exec: Executor, ghost finished: set<nat>, pending: set<nat>,
                    all: map<StepId, StepResult>, ghost winner: StepResult)
    returns (all': map<StepId, StepResult>)
    requires finished + pending <= Tasks(|steps|) && finished !! pending
    requires UniqueIds(steps) ==> Records(steps, exec, all, finished)
    requires exists t :: t in finished && Reports(exec, steps[t], winner)
    ensures UniqueIds(steps) ==> RaceRecord(steps, exec, all', winner)
  {
    all' := Cancel(steps, exec, pending, all);
    if UniqueIds(steps) {
      RaceIsOn(steps, exec, finished, pending, all, all', winner);
    }
  }

  lemma RaceIsOn(steps: seq<Step>, exec: Executor, finished: set<nat>, pending: set<nat>,
                 before: map<StepId, StepResult>, after: map<StepId, StepResult>, winner: StepResult)
    requires UniqueIds(steps) && pending <= Tasks(|steps|) && finished <= Tasks(|steps|) && finished !! pending
    requires Records(steps, exec, before, finished) && OnlyPending(steps, pending, before, after)
    requires forall t :: t in pending ==> steps[t].id in after && Stopped(exec, steps[t], after[steps[t].id])
    requires exists t :: t in finished && Reports(exec, steps[t], winner)
    ensures RaceRecord(steps, exec, after, winner)
  {
    forall i: nat | i < |steps| ensures StoppedAt(steps, exec, after, i) {
      LoserStopped(steps, exec, finished, pending, before, after, winner, i);
    }
    var t :| t in finished && Reports(exec, steps[t], winner);
    LoserStopped(steps, exec, finished, pending, before, after, winner, t);
    assert WinsAt(steps, exec, after, winner, t);
  }

  lemma LoserStopped(steps: seq<Step>, exec: Executor, finished: set<nat>, pending: set<nat>,
                     before: map<StepId, StepResult>, after: map<StepId, StepResult>, winner: StepResult, i: nat)
    requires UniqueIds(steps) && i < |steps| && pending <= Tasks(|steps|) && finished !! pending
    requires Records(steps, exec, before, finished) && OnlyPending(steps, pending, before, after)
    requires forall t :: t in pending ==> steps[t].id in after && Stopped(exec, steps[t], after[steps[t].id])
    ensures StoppedAt(steps, exec, after, i)
    ensures i in finished && Reports(exec, steps[i], winner) ==> WinsAt(steps, exec, after, winner, i)
  {
    if i !in pending {
      OtherIds(steps, pending, i);
      if steps[i].id in before {
        var j :| j in finished && j < |steps| && steps[j].id == steps[i].id;
        assert j == i;
      }
    }
  }

  method Execute(steps: seq<Step>, exec: Executor, includeAll: bool) returns (r: WorkflowResult)
    ensures steps == [] ==> r == WorkflowResult([], Success)
    ensures steps != [] ==> (r.status == Success <==> Succeeding(steps, exec) != {})
    ensures r.status != Partial
    ensures steps != [] && r.status == Success && !includeAll ==>
              |r.stepResults| == 1 && IsSuccessOf(steps, exec, r.stepResults[0])
    ensures steps != [] && UniqueIds(steps) && r.status == Success && includeAll ==>
              WonRace(steps, exec, r.stepResults)
    ensures UniqueIds(steps) && r.status == Failed ==>
              |r.stepResults| == |steps| && forall i :: 0 <= i < |steps| ==> Reports(exec, steps[i], r.stepResults[i])
  {
    if steps == [] {
      return WorkflowResult([], Success);
    }
    assert forall t :: t in Succeeding(steps, exec) <==> 0 <= t < |steps| && exec(steps[t]).Returned?;
    if |steps| == 1 {
      r := ExecuteOne(steps, exec);
      return;
    }
    var winner, all := Race(steps, exec);
    if winner.Some? {
      r := WorkflowResult(if includeAll then Collect(steps, all) else [winner.value], Success);
      assert UniqueIds(steps) ==> RaceRecord(steps, exec, all, winner.value);
      return;
    }
    r := WorkflowResult(Collect(steps, all), Failed);
  }

  /** A single step has no competitors. */
  method ExecuteOne(steps: seq<Step>, exec: Executor) returns (r: WorkflowResult)
    requires |steps| == 1
    ensures r.status == if exec(steps[0]).Returned? then Success else Failed
    ensures |r.stepResults| == 1 && Reports(exec, steps[0], r.stepResults[0])
    ensures r.status == Success ==> IsSuccessOf(steps, exec, r.stepResults[0]) && WonRace(steps, exec, r.stepResults)
  {
    var result := RunStep(exec, steps[0]);
    r := WorkflowResult([result], if result.success then Success else Failed);
    if result.success {
      ghost var all := map[steps[0].id := result];
      assert Collect(steps, all) == [result];
      assert WinsAt(steps, exec, all, result, 0);
      assert RaceRecord(steps, exec, all, result);
    }
  }

  /** The completion loop: up to the first success, or to the end. */
  method Race(steps: seq<Step>, exec: Executor) returns (winner: Option<StepResult>, all: map<StepId, StepResult>)
    ensures winner.Some? <==> exists t :: t in Tasks(|steps|) && exec(steps[t]).Returned?
    ensures winner.Some? ==> IsSuccessOf(steps, exec, winner.value)
    ensures winner.Some? && UniqueIds(steps) ==> RaceRecord(steps, exec, all, winner.value)
    ensures winner.None? && UniqueIds(steps) ==>
              |Collect(steps, all)| == |steps| &&
              forall i :: 0 <= i < |steps| ==> Reports(exec, steps[i], Collect(steps, all)[i])
  {
    var pending := Tasks(|steps|);
    ghost var finished: set<nat> := {};
    winner, all := None, map[];
    while pending != {}
      invariant Divided(|steps|, finished, pending)
      invariant forall t :: t in finished ==> !exec(steps[t]).Returned?
      invariant winner.None? && (UniqueIds(steps) ==> Records(steps, exec, all, finished))
      decreases pending
    {
      var done: set<nat> :| done != {} && done <= pending;
      BatchDone(|steps|, finished, pending, done);
      pending := pending - done;
      ghost var seen;
      winner, all, seen := FirstSuccess(steps, exec, done, finished, all);
      finished := finished + seen;
      if winner.Some? {
        all := StopLosers(steps, exec, finished, pending, all, winner.value);
        return;
      }
    }
    if UniqueIds(steps) {
      CollectStopped(steps, exec, all, all, finished, pending);
    }
  }
}
