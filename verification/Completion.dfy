/** Concurrent tasks, one per step, as the early-stopping executors see them. */
module Completion {
  import opened Sequences
  import opened Workflow

  const CANCELLED := "cancelled"

  /** The tasks, one per step, named by position. */
  function Tasks(n: nat): (ts: set<nat>)
    ensures forall i: nat :: i in ts <==> i < n
  {
    if n == 0 then {} else Tasks(n - 1) + {n - 1}
  }

  /** Every task has finished or is pending, and none is both. */
  ghost predicate Divided(n: nat, finished: set<nat>, pending: set<nat>) {
    finished + pending == Tasks(n) && finished !! pending
  }

  lemma BatchDone(n: nat, finished: set<nat>, pending: set<nat>, done: set<nat>)
    requires Divided(n, finished, pending) && done <= pending
    ensures Divided(n, finished + done, pending - done)
  {
    assert (finished + done) + (pending - done) == finished + pending;
  }

  /** The steps that would succeed if left to finish. */
  ghost function Succeeding(steps: seq<Step>, exec: Executor): set<nat> {
    set i: nat | i in Tasks(|steps|) && exec(steps[i]).Returned?
  }

  ghost predicate IsSuccessOf(steps: seq<Step>, exec: Executor, r: StepResult) {
    r.success && exists i :: 0 <= i < |steps| && Reports(exec, steps[i], r)
  }

  /** The results recorded are those of the finished tasks, and nothing else is recorded. */
  ghost predicate Records(steps: seq<Step>, exec: Executor, all: map<StepId, StepResult>, finished: set<nat>) {
    && (forall i :: i in finished ==> i < |steps| && steps[i].id in all && Reports(exec, steps[i], all[steps[i].id]))
    && forall x :: x in all ==> exists i :: i in finished && i < |steps| && steps[i].id == x
  }

  /** What a task that was cancelled, perhaps too late, leaves behind. */
  ghost predicate Stopped(exec: Executor, s: Step, r: StepResult) {
    Reports(exec, s, r) || NotRun(s, CANCELLED, r)
  }

  lemma RecordsOneMore(steps: seq<Step>, exec: Executor, all: map<StepId, StepResult>, finished: set<nat>, t: nat)
    requires UniqueIds(steps) && Records(steps, exec, all, finished) && t < |steps|
    ensures Records(steps, exec, all[steps[t].id := RunStep(exec, steps[t])], finished + {t})
  {
    var all' := all[steps[t].id := RunStep(exec, steps[t])];
    forall x | x in all' ensures exists i :: i in finished + {t} && i < |steps| && steps[i].id == x {
      if x != steps[t].id {
        var i :| i in finished && i < |steps| && steps[i].id == x;
        assert i in finished + {t};
      }
    }
  }

  /** Nothing is recorded or changed but for pending tasks. */
  ghost predicate OnlyPending(steps: seq<Step>, pending: set<nat>, before: map<StepId, StepResult>,
                              after: map<StepId, StepResult>)
    requires pending <= Tasks(|steps|)
  {
    && (forall x :: x in before && (forall t :: t in pending ==> steps[t].id != x) ==>
          x in after && after[x] == before[x])
    && forall x :: x in after ==> x in before || exists t :: t in pending && steps[t].id == x
  }

  lemma OtherIds(steps: seq<Step>, others: set<nat>, i: nat)
    requires UniqueIds(steps) && i < |steps| && i !in others && others <= Tasks(|steps|)
    ensures forall t :: t in others ==> steps[t].id != steps[i].id
  {
    forall t | t in others ensures steps[t].id != steps[i].id {
      if t < i { assert steps[t].id != steps[i].id; } else { assert steps[i].id != steps[t].id; }
    }
  }

  lemma OneMorePending(steps: seq<Step>, pending: set<nat>, before: map<StepId, StepResult>,
                       after: map<StepId, StepResult>, t: nat, r: StepResult)
    requires pending <= Tasks(|steps|) && OnlyPending(steps, pending, before, after) && t in pending
    ensures OnlyPending(steps, pending, before, after[steps[t].id := r])
  {
  }

  /** Cancels what is still pending; a cancelled task may yet have finished. */
  method Cancel(steps: seq<Step>, exec: Executor, pending: set<nat>, all: map<StepId, StepResult>)
    returns (all': map<StepId, StepResult>)
    requires pending <= Tasks(|steps|)
    ensures OnlyPending(steps, pending, all, all')
    ensures forall t :: t in pending ==> steps[t].id in all'
    ensures UniqueIds(steps) ==> forall t :: t in pending ==> Stopped(exec, steps[t], all'[steps[t].id])
  {
    all' := all;
    var left := pending;
    while left != {}
      invariant left <= pending
      invariant OnlyPending(steps, pending, all, all')
      invariant forall t :: t in pending - left ==> steps[t].id in all'
      invariant UniqueIds(steps) ==> forall t :: t in pending - left ==> Stopped(exec, steps[t], all'[steps[t].id])
      decreases left
    {
      var t :| t in left;
      var finished := *;
      var outcome := if finished then RunStep(exec, steps[t]) else Skipped(steps[t], CANCELLED);
      OneMorePending(steps, pending, all, all', t, outcome);
      if UniqueIds(steps) {
        OtherIds(steps, pending - left, t);
      }
      all' := all'[steps[t].id := outcome];
      left := left - {t};
    }
  }

  lemma FinishedOrStopped(steps: seq<Step>, exec: Executor, before: map<StepId, StepResult>,
                          after: map<StepId, StepResult>, finished: set<nat>, pending: set<nat>, i: nat)
    requires UniqueIds(steps) && Divided(|steps|, finished, pending) && i < |steps|
    requires Records(steps, exec, before, finished) && OnlyPending(steps, pending, before, after)
    requires forall t :: t in pending ==> steps[t].id in after && Stopped(exec, steps[t], after[steps[t].id])
    ensures steps[i].id in after && Stopped(exec, steps[i], after[steps[i].id])
    ensures i in finished ==> Reports(exec, steps[i], after[steps[i].id])
  {
    assert i in finished || i in pending;
    if i in finished {
      OtherIds(steps, pending, i);
    }
  }

  /** With everything finished or stopped, collecting gives one result per step, the finished ones genuine. */
  lemma CollectStopped(steps: seq<Step>, exec: Executor, before: map<StepId, StepResult>,
                       after: map<StepId, StepResult>, finished: set<nat>, pending: set<nat>)
    requires UniqueIds(steps) && Divided(|steps|, finished, pending)
    requires Records(steps, exec, before, finished)
    requires OnlyPending(steps, pending, before, after)
    requires forall t :: t in pending ==> steps[t].id in after && Stopped(exec, steps[t], after[steps[t].id])
    ensures |Collect(steps, after)| == |steps|
    ensures forall i :: 0 <= i < |steps| ==> Stopped(exec, steps[i], Collect(steps, after)[i])
    ensures forall i :: i in finished ==> Reports(exec, steps[i], Collect(steps, after)[i])
  {
    forall i: nat | i < |steps|
      ensures steps[i].id in after && Stopped(exec, steps[i], after[steps[i].id])
      ensures i in finished ==> Reports(exec, steps[i], after[steps[i].id])
    {
      FinishedOrStopped(steps, exec, before, after, finished, pending, i);
    }
    forall s | s in steps ensures s.id in after {
      var i :| 0 <= i < |steps| && steps[i] == s;
    }
    CollectAll(steps, after);
  }
}
