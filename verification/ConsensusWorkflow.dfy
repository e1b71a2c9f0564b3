/**
 The quorum executor. All steps run at once; completions arrive in arbitrary non-empty batches, and the
 executor stops as soon as the quorum is met or out of reach.
 */
module ConsensusWorkflow {
  import opened Sequences
  import opened Workflow
  import opened Completion

  const CONSENSUS := "__consensus__"
  const QUORUM_SIZE := "__quorum_size__"

  function Ceiling(x: real): int {
    if x.Floor as real == x then x.Floor else x.Floor + 1
  }

  function Quorum(n: nat, fraction: real): int {
    Ceiling(n as real * fraction)
  }

  /** The least whole number of successes that is at least the fraction; between one and all steps. */
  lemma QuorumRange(n: nat, fraction: real)
    requires n > 0 && 0.0 < fraction <= 1.0
    ensures 1 <= Quorum(n, fraction) <= n
    ensures Quorum(n, fraction) as real >= n as real * fraction > (Quorum(n, fraction) - 1) as real
  {
    ScaleDown(n as real, fraction);
  }

  lemma ScaleDown(a: real, f: real)
    requires a > 0.0 && 0.0 < f <= 1.0
    ensures 0.0 < a * f <= a
  {
  }

  /** `successes` are the results of the calls that returned among the finished ones, in the order they came in. */
  ghost predicate InOrder(steps: seq<Step>, exec: Executor, successes: seq<StepResult>, finished: set<nat>,
                          order: seq<nat>)
  {
    && Distinct(order) && |order| == |successes|
    && Elements(order) == Succeeding(steps, exec) * finished
    && forall k :: 0 <= k < |order| ==> order[k] < |steps| && Reports(exec, steps[order[k]], successes[k])
  }

  /** The successes of the finished tasks are at hand, and with unique ids every result is on record. */
  ghost predicate Counted(steps: seq<Step>, exec: Executor, successes: seq<StepResult>, all: map<StepId, StepResult>,
                          finished: set<nat>, order: seq<nat>)
  {
    && InOrder(steps, exec, successes, finished, order)
    && (UniqueIds(steps) ==> Records(steps, exec, all, finished))
  }

  lemma OneMoreInOrder(steps: seq<Step>, exec: Executor, successes: seq<StepResult>, finished: set<nat>,
                       order: seq<nat>, t: nat)
    requires InOrder(steps, exec, successes, finished, order) && t < |steps| && t !in finished
    ensures var good, result := exec(steps[t]).Returned?, RunStep(exec, steps[t]);
            InOrder(steps, exec, if good then successes + [result] else successes, finished + {t},
                    if good then order + [t] else order)
  {
    assert t !in order by { assert t !in Elements(order); }
    assert Elements(order + [t]) == Elements(order) + {t};
    var good := Succeeding(steps, exec);
    assert good * (finished + {t}) == good * finished + if exec(steps[t]).Returned? then {t} else {};
  }

  /** Takes one batch of finished tasks, in any order. */
  method Absorb(steps: seq<Step>, exec: Executor, done: set<nat>, ghost earlier: set<nat>, ghost order: seq<nat>,
                successes: seq<StepResult>, all: map<StepId, StepResult>)
    returns (successes': seq<StepResult>, all': map<StepId, StepResult>, ghost order': seq<nat>)
    requires done <= Tasks(|steps|) && done !! earlier && Counted(steps, exec, successes, all, earlier, order)
    ensures Counted(steps, exec, successes', all', earlier + done, order')
  {
    successes', all', order' := successes, all, order;
    var left := done;
    ghost var seen := earlier;
    while left != {}
      invariant left <= done && seen + left == earlier + done && seen !! left
      invariant Counted(steps, exec, successes', all', seen, order')
      decreases left
    {
      var t :| t in left;
      var result := RunStep(exec, steps[t]);
      OneMoreInOrder(steps, exec, successes', seen, order', t);
      if UniqueIds(steps) {
        RecordsOneMore(steps, exec, all', seen, t);
      }
      all' := all'[result.stepId := result];
      if result.success {
        successes', order' := successes' + [result], order' + [t];
      }
      left := left - {t};
      seen := seen + {t};
    }
    assert seen == earlier + done;
  }

  // ---- Merging ----------------------------------------------------------------------------------

  function OutputOf(r: StepResult): Output {
    r.output.GetOr(map[])
  }

  function Outputs(rs: seq<StepResult>): seq<Output> {
    seq(|rs|, i requires 0 <= i < |rs| => OutputOf(rs[i]))
  }

  /** The last of the outputs that has the key, if any. */
  ghost predicate LastWriter(outs: seq<Output>, key: string, i: int) {
    0 <= i < |outs| && key in outs[i] && forall j :: i < j < |outs| ==> key !in outs[j]
  }

  /** Every key some output has, with the value of the last one that has it, and the number of outputs. */
  ghost predicate IsMerge(m: Output, outs: seq<Output>) {
    && QUORUM_SIZE in m && m[QUORUM_SIZE] == Number(|outs|)
    && forall key :: key != QUORUM_SIZE ==>
         && (key in m <==> exists i :: 0 <= i < |outs| && key in outs[i])
         && forall i :: LastWriter(outs, key, i) ==> key in m && m[key] == outs[i][key]
  }

  method MergeOutputs(rs: seq<StepResult>) returns (merged: Output)
    ensures IsMerge(merged, Outputs(rs))
  {
    merged := map[];
    ghost var outs := Outputs(rs);
    for n := 0 to |rs|
      invariant forall key :: key in merged <==> exists i :: 0 <= i < n && key in outs[i]
      invariant forall key, i :: LastWriter(outs[..n], key, i) ==> key in merged && merged[key] == outs[i][key]
    {
      ghost var before := merged;
      if rs[n].output.Some? && rs[n].output.value != map[] {
        merged := merged + rs[n].output.value;
      }
      assert merged == before + outs[n];
      forall key, i | LastWriter(outs[..n + 1], key, i) ensures key in merged && merged[key] == outs[i][key] {
        LastWriterStep(outs, n, key, i);
      }
    }
    assert outs[..|rs|] == outs;
    merged := merged[QUORUM_SIZE := Number(|rs|)];
  }

  lemma LastWriterStep(outs: seq<Output>, n: nat, key: string, i: int)
    requires n < |outs| && LastWriter(outs[..n + 1], key, i)
    ensures i == n || (LastWriter(outs[..n], key, i) && key !in outs[n])
  {
    if i < n {
      assert outs[..n + 1][n] == outs[n];
      forall j | i < j < n ensures key !in outs[..n][j] {
        assert outs[..n + 1][j] == outs[j];
      }
    }
  }

  lemma {:induction false} LastWriterExists(outs: seq<Output>, key: string, k: nat) returns (i: nat)
    requires k < |outs| && key in outs[k]
    ensures LastWriter(outs, key, i)
    decreases |outs| - k
  {
    if j :| k < j < |outs| && key in outs[j] {
      i := LastWriterExists(outs, key, j);
    } else {
      i := k;
    }
  }

  // ---- The executor -----------------------------------------------------------------------------

  /** What the calls of the steps named returned. */
  ghost function Returns(steps: seq<Step>, exec: Executor, order: seq<nat>): seq<Output>
    requires forall k :: 0 <= k < |order| ==> order[k] < |steps| && exec(steps[order[k]]).Returned?
  {
    seq(|order|, k requires 0 <= k < |order| => exec(steps[order[k]]).output)
  }

  /** Merged from what the calls of these steps returned, in this order. */
  ghost predicate MergedFrom(steps: seq<Step>, exec: Executor, order: seq<nat>, m: Output) {
    && Distinct(order) && (forall k :: 0 <= k < |order| ==> order[k] < |steps| && exec(steps[order[k]]).Returned?)
    && IsMerge(m, Returns(steps, exec, order))
  }

  /** The synthetic result: what the calls of a quorum of the steps returned, merged in the order they came in. */
  ghost predicate Consented(steps: seq<Step>, exec: Executor, required: int, r: StepResult) {
    && r.stepId == CONSENSUS && r.success && r.output.Some? && r.error.None?
    && exists order: seq<nat> :: MergedFrom(steps, exec, order, r.output.value) && |order| >= required
  }

  /** A merged value is what some call that returned gave that key. */
  lemma MergedValue(steps: seq<Step>, exec: Executor, order: seq<nat>, m: Output, key: string) returns (i: nat)
    requires MergedFrom(steps, exec, order, m) && key in m && key != QUORUM_SIZE
    ensures i < |steps| && exec(steps[i]).Returned?
    ensures key in exec(steps[i]).output && m[key] == exec(steps[i]).output[key]
  {
    var outs := Returns(steps, exec, order);
    var k :| 0 <= k < |outs| && key in outs[k];
    var last := LastWriterExists(outs, key, k);
    i := order[last];
  }

  lemma MergeOfSuccesses(steps: seq<Step>, exec: Executor, successes: seq<StepResult>, finished: set<nat>,
                         order: seq<nat>, m: Output)
    requires InOrder(steps, exec, successes, finished, order) && IsMerge(m, Outputs(successes))
    ensures MergedFrom(steps, exec, order, m)
  {
    forall k | 0 <= k < |order| ensures exec(steps[order[k]]).Returned? {
      assert order[k] in Elements(order);
    }
    assert Returns(steps, exec, order) == Outputs(successes);
  }

  /**
   The results of a met quorum: one per step in input order, those of a quorum of finished successes among
   them, and every other one what its call came to or a cancellation.
   */
  ghost predicate MetBy(steps: seq<Step>, exec: Executor, required: int, rs: seq<StepResult>, finished: set<nat>) {
    && |rs| == |steps| && finished <= Tasks(|steps|) && |Succeeding(steps, exec) * finished| >= required
    && (forall i :: 0 <= i < |steps| ==> Stopped(exec, steps[i], rs[i]))
    && forall i :: i in finished ==> Reports(exec, steps[i], rs[i])
  }

  /** The results of a missed quorum: those of the tasks that had finished, in input order, and too few to meet it. */
  ghost predicate MissedBy(steps: seq<Step>, exec: Executor, required: int, rs: seq<StepResult>, finished: set<nat>) {
    && finished <= Tasks(|steps|)
    && |Succeeding(steps, exec) * finished| + |Tasks(|steps|) - finished| < required
    && exists all :: Records(steps, exec, all, finished) && rs == Collect(steps, all)
  }

  /** All of it: the results, and the merge of the very successes among them. */
  ghost predicate Met(steps: seq<Step>, exec: Executor, required: int, rs: seq<StepResult>, m: Output) {
    exists finished: set<nat>, order: seq<nat> ::
      && MetBy(steps, exec, required, rs, finished) && MergedFrom(steps, exec, order, m)
      && Elements(order) == Succeeding(steps, exec) * finished
  }

  ghost predicate Missed(steps: seq<Step>, exec: Executor, required: int, rs: seq<StepResult>) {
    exists finished :: MissedBy(steps, exec, required, rs, finished)
  }

  /** The final number of successes lies between those counted so far and those plus all still pending. */
  lemma Remaining(good: set<nat>, finished: set<nat>, pending: set<nat>)
    requires good <= finished + pending && finished !! pending
    ensures |good * finished| <= |good| <= |good * finished| + |pending|
  {
    assert good == (good * finished) + (good * pending);
    SubsetSize(good * pending, pending);
  }

  /** With the quorum met, the rest is cancelled and every step gets its result. */
  method StopRest(steps: seq<Step>, exec: Executor, ghost required: int, ghost successes: seq<StepResult>,
                  ghost finished: set<nat>, ghost order: seq<nat>, pending: set<nat>, all: map<StepId, StepResult>)
    returns (all': map<StepId, StepResult>)
    requires Divided(|steps|, finished, pending) && Counted(steps, exec, successes, all, finished, order)
    requires |successes| >= required
    ensures UniqueIds(steps) ==> MetBy(steps, exec, required, Collect(steps, all'), finished)
  {
    all' := Cancel(steps, exec, pending, all);
    if UniqueIds(steps) {
      DistinctSize(order);
      CollectStopped(steps, exec, all, all', finished, pending);
    }
  }

  ghost predicate AnySuccess(rs: seq<StepResult>) {
    exists r :: r in rs && r.success
  }

  lemma {:induction false} CollectMembers(steps: seq<Step>, all: map<StepId, StepResult>, r: StepResult)
    ensures r in Collect(steps, all) <==> exists s :: s in steps && s.id in all && r == all[s.id]
  {
    if steps != [] {
      CollectMembers(steps[..|steps| - 1], all, r);
      LastMember(steps);
    }
  }

  /** A success was counted exactly when one is among the results. */
  lemma SuccessOnRecord(steps: seq<Step>, exec: Executor, successes: seq<StepResult>, all: map<StepId, StepResult>,
                        finished: set<nat>, order: seq<nat>)
    requires UniqueIds(steps) && Counted(steps, exec, successes, all, finished, order)
    ensures successes != [] <==> AnySuccess(Collect(steps, all))
  {
    if successes != [] {
      var i := order[0];
      assert i in Elements(order);
      CollectMembers(steps, all, all[steps[i].id]);
    }
    if r :| r in Collect(steps, all) && r.success {
      var i := FinishedWith(steps, exec, all, finished, r);
      assert i in Elements(order);
    }
  }

  lemma FinishedWith(steps: seq<Step>, exec: Executor, all: map<StepId, StepResult>, finished: set<nat>, r: StepResult)
    returns (i: nat)
    requires Records(steps, exec, all, finished) && r in Collect(steps, all)
    ensures i in finished && i < |steps| && Reports(exec, steps[i], r)
  {
    CollectMembers(steps, all, r);
    var s :| s in steps && s.id in all && r == all[s.id];
    i :| i in finished && i < |steps| && steps[i].id == s.id;
  }

  lemma QuorumMissed(steps: seq<Step>, exec: Executor, required: int, successes: seq<StepResult>,
                     all: map<StepId, StepResult>, finished: set<nat>, order: seq<nat>, pending: set<nat>)
    requires Divided(|steps|, finished, pending) && Counted(steps, exec, successes, all, finished, order)
    requires |successes| + |pending| < required
    ensures |Succeeding(steps, exec)| < required
    ensures UniqueIds(steps) ==> Missed(steps, exec, required, Collect(steps, all))
  {
    DistinctSize(order);
    Remaining(Succeeding(steps, exec), finished, pending);
    assert Tasks(|steps|) - finished == pending;
    assert UniqueIds(steps) ==> MissedBy(steps, exec, required, Collect(steps, all), finished);
  }

  /** The completion loop: stops when the quorum is met or can no longer be met. */
  method AwaitQuorum(steps: seq<Step>, exec: Executor, required: int)
    returns (quorumMet: bool, successes: seq<StepResult>, all: map<StepId, StepResult>, ghost finished: set<nat>,
             ghost order: seq<nat>)
    requires 1 <= required <= |steps|
    ensures quorumMet <==> |Succeeding(steps, exec)| >= required
    ensures quorumMet <==> |successes| >= required
    ensures InOrder(steps, exec, successes, finished, order)
    ensures UniqueIds(steps) && quorumMet ==> MetBy(steps, exec, required, Collect(steps, all), finished)
    ensures UniqueIds(steps) && !quorumMet ==> Missed(steps, exec, required, Collect(steps, all))
    ensures UniqueIds(steps) && !quorumMet ==> (successes != [] <==> AnySuccess(Collect(steps, all)))
  {
    var pending := Tasks(|steps|);
    quorumMet, successes, all, finished, order := false, [], map[], {}, [];
    while pending != {}
      invariant Divided(|steps|, finished, pending)
      invariant Counted(steps, exec, successes, all, finished, order) && |successes| < required
      decreases pending
    {
      var done: set<nat> :| done != {} && done <= pending;
      successes, all, order := Absorb(steps, exec, done, finished, order, successes, all);
      BatchDone(|steps|, finished, pending, done);
      pending, finished := pending - done, finished + done;
      var current, maxPossible := |successes|, |successes| + |pending|;
      if current >= required {
        quorumMet := true;
        EnoughSucceed(steps, exec, successes, finished, order, pending);
        all := StopRest(steps, exec, required, successes, finished, order, pending, all);
        return;
      }
      if maxPossible < required {
        break;
      }
    }
    QuorumMissed(steps, exec, required, successes, all, finished, order, pending);
    if UniqueIds(steps) {
      SuccessOnRecord(steps, exec, successes, all, finished, order);
    }
  }

  lemma EnoughSucceed(steps: seq<Step>, exec: Executor, successes: seq<StepResult>, finished: set<nat>,
                      order: seq<nat>, pending: set<nat>)
    requires Divided(|steps|, finished, pending) && InOrder(steps, exec, successes, finished, order)
    ensures |successes| <= |Succeeding(steps, exec)|
  {
    DistinctSize(order);
    Remaining(Succeeding(steps, exec), finished, pending);
  }

  /** The results of the steps themselves, without the synthetic one at the end. */
  function Individual(r: WorkflowResult): seq<StepResult> {
    if r.stepResults == [] then [] else r.stepResults[..|r.stepResults| - 1]
  }

  lemma ConsensusReached(steps: seq<Step>, exec: Executor, required: int, successes: seq<StepResult>,
                         finished: set<nat>, order: seq<nat>, rs: seq<StepResult>, m: Output, r: StepResult)
    requires InOrder(steps, exec, successes, finished, order) && IsMerge(m, Outputs(successes))
    requires |successes| >= required && r == StepResult(CONSENSUS, true, Some(m), None)
    ensures Consented(steps, exec, required, r)
    ensures MetBy(steps, exec, required, rs, finished) ==> Met(steps, exec, required, rs, m)
  {
    MergeOfSuccesses(steps, exec, successes, finished, order, m);
  }

  lemma SomeReturned(steps: seq<Step>, exec: Executor, successes: seq<StepResult>, finished: set<nat>,
                     order: seq<nat>)
    requires InOrder(steps, exec, successes, finished, order) && successes != []
    ensures Succeeding(steps, exec) != {}
  {
    assert order[0] in Elements(order);
  }

  method Execute(steps: seq<Step>, exec: Executor, fraction: real) returns (r: WorkflowResult)
    requires 0.0 < fraction <= 1.0
    ensures steps == [] ==> r == WorkflowResult([], Success)
    ensures steps != [] ==>
              (r.status == Success <==> |Succeeding(steps, exec)| >= Quorum(|steps|, fraction))
    ensures r.status == Partial ==> Succeeding(steps, exec) != {}
    ensures steps != [] && r.status == Success ==>
              r.stepResults != [] &&
              Consented(steps, exec, Quorum(|steps|, fraction), r.stepResults[|r.stepResults| - 1])
    ensures steps != [] && UniqueIds(steps) && r.status == Success ==>
              Met(steps, exec, Quorum(|steps|, fraction), Individual(r),
                  r.stepResults[|r.stepResults| - 1].output.value)
    ensures steps != [] && UniqueIds(steps) && r.status != Success ==>
              Missed(steps, exec, Quorum(|steps|, fraction), r.stepResults)
              && (r.status == Partial <==> AnySuccess(r.stepResults))
  {
    if steps == [] {
      return WorkflowResult([], Success);
    }
    var required := Quorum(|steps|, fraction);
    QuorumRange(|steps|, fraction);
    var quorumMet, successes, all;
    ghost var finished, order;
    quorumMet, successes, all, finished, order := AwaitQuorum(steps, exec, required);
    var ordered := Collect(steps, all);
    if quorumMet {
      var merged := MergeOutputs(successes);
      var consensus := StepResult(CONSENSUS, true, Some(merged), None);
      r := WorkflowResult(ordered + [consensus], Success);
      ConsensusReached(steps, exec, required, successes, finished, order, ordered, merged, consensus);
      assert Individual(r) == ordered && r.stepResults[|r.stepResults| - 1] == consensus;
      return;
    }
    r := WorkflowResult(ordered, if successes != [] then Partial else Failed);
    if successes != [] {
      SomeReturned(steps, exec, successes, finished, order);
    }
  }
}
