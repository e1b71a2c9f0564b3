/**
 What comes out of a workflow, said of the calls of its steps alone: which steps succeed, what each result
 carries and what the status is.
 */
module WorkflowOutcome {
  import opened Sequences
  import opened Digraph
  import opened Workflow

  /** All calls reachable from `x` along dependencies return, `x` included. */
  ghost predicate AllUpstreamReturn(steps: seq<Step>, exec: Executor, x: StepId)
    requires UniqueIds(steps)
  {
    forall p: seq<Node>, s ::
      p != [] && p[0] == x && Walk(DependencyGraph(steps), p) && s in steps && s.id == p[|p| - 1] ==>
        exec(s).Returned?
  }

  /** A closed form of the meaning: a step succeeds iff it and everything it rests on returns. */
  lemma SuccessIsUpstream(steps: seq<Step>, exec: Executor, depth: map<StepId, nat>, good: map<StepId, bool>, s: Step)
    requires UniqueIds(steps) && IsDepthMap(steps, depth) && IsSolution(steps, exec, good) && s in steps
    ensures good[s.id] <==> AllUpstreamReturn(steps, exec, s.id)
  {
    if good[s.id] {
      forall p: seq<Node>, t |
        p != [] && p[0] == s.id && Walk(DependencyGraph(steps), p) && t in steps && t.id == p[|p| - 1]
        ensures exec(t).Returned?
      {
        GoodThroughout(steps, exec, good, p, t);
      }
    } else {
      var p, t := BadUpstream(steps, exec, depth, good, s);
    }
  }

  lemma {:induction false} GoodThroughout(steps: seq<Step>, exec: Executor, good: map<StepId, bool>, p: seq<Node>,
                                          t: Step)
    requires UniqueIds(steps) && IsSolution(steps, exec, good)
    requires p != [] && p[0] in good && good[p[0]] && Walk(DependencyGraph(steps), p)
    requires t in steps && t.id == p[|p| - 1]
    ensures exec(t).Returned?
  {
    if |p| > 1 {
      var s :| s in steps && s.id == p[0];
      assert Edge(DependencyGraph(steps), p[0], p[1]);
      assert DependencyGraph(steps)[s.id] == Elements(s.dependsOn);
      assert p[1] in s.dependsOn && AllGood(s, good);
      WalkTail(DependencyGraph(steps), p);
      GoodThroughout(steps, exec, good, p[1..], t);
    }
  }

  lemma {:induction false} BadUpstream(steps: seq<Step>, exec: Executor, depth: map<StepId, nat>,
                                       good: map<StepId, bool>, s: Step)
    returns (p: seq<Node>, t: Step)
    requires UniqueIds(steps) && IsDepthMap(steps, depth) && IsSolution(steps, exec, good)
    requires s in steps && !good[s.id]
    ensures p != [] && p[0] == s.id && Walk(DependencyGraph(steps), p)
    ensures t in steps && t.id == p[|p| - 1] && !exec(t).Returned?
    decreases depth[s.id]
  {
    if exec(s).Returned? {
      assert DepthAt(s, depth) && DependencyGraph(steps)[s.id] == Elements(s.dependsOn);
      assert !AllGood(s, good);
      var d :| d in s.dependsOn && !(d in good && good[d]);
      var u :| u in steps && u.id == d;
      p, t := BadUpstream(steps, exec, depth, good, u);
      WalkPrepend(DependencyGraph(steps), s.id, p);
      p := [s.id] + p;
    } else {
      p, t := [s.id], s;
    }
  }

  // ---- Results and status -----------------------------------------------------------------------

  /**
   The executor is called on a step iff everything the step rests on returns. The result of a called step
   carries its output or its error, that of any other step only the reason for leaving it out.
   */
  ghost predicate ResultRight(steps: seq<Step>, exec: Executor, reason: string, calls: seq<StepId>, s: Step,
                              r: StepResult)
    requires UniqueIds(steps)
  {
    && (s.id in calls <==> forall d :: d in s.dependsOn ==> AllUpstreamReturn(steps, exec, d))
    && (r.success <==> AllUpstreamReturn(steps, exec, s.id))
    && if s.id in calls then Reports(exec, s, r) else NotRun(s, reason, r)
  }

  /** Which steps succeed, in input order. */
  ghost function Successes(steps: seq<Step>, exec: Executor): seq<bool>
    requires UniqueIds(steps)
  {
    seq(|steps|, i requires 0 <= i < |steps| => AllUpstreamReturn(steps, exec, steps[i].id))
  }

  /** SUCCESS if all steps succeed, FAILED if there are steps and none does, PARTIAL in between. */
  ghost predicate StatusRight(successes: seq<bool>, status: Status) {
    && (status == Success <==> false !in successes)
    && (status == Partial <==> true in successes && false in successes)
    && (status == Failed <==> successes != [] && true !in successes)
  }

  ghost predicate OutcomeRight(steps: seq<Step>, exec: Executor, reason: string, run: Run)
    requires UniqueIds(steps)
  {
    && |run.result.stepResults| == |steps|
    && (forall i :: 0 <= i < |steps| ==>
          ResultRight(steps, exec, reason, run.calls, steps[i], run.result.stepResults[i]))
    && StatusRight(Successes(steps, exec), run.result.status)
  }

  /** Every run that meets the specification comes out so. */
  lemma RunOutcome(steps: seq<Step>, exec: Executor, reason: string, run: Run)
    requires UniqueIds(steps) && MeetsSpec(steps, exec, reason, run)
    ensures OutcomeRight(steps, exec, reason, run)
  {
    var good, depth :| Explains(steps, exec, reason, run, good, depth);
    ResultsRight(steps, exec, reason, run.calls, good, depth, run.result.stepResults);
    SummaryIsRight(run.result.stepResults, Successes(steps, exec));
  }

  lemma ResultsRight(steps: seq<Step>, exec: Executor, reason: string, calls: seq<StepId>, good: map<StepId, bool>,
                     depth: map<StepId, nat>, rs: seq<StepResult>)
    requires UniqueIds(steps) && IsDepthMap(steps, depth) && IsSolution(steps, exec, good)
    requires forall s :: s in steps ==> (s.id in calls <==> AllGood(s, good))
    requires |rs| == |steps| && forall i :: 0 <= i < |steps| ==> rs[i] == Due(exec, steps[i], good, reason)
    ensures forall i :: 0 <= i < |steps| ==> ResultRight(steps, exec, reason, calls, steps[i], rs[i])
    ensures forall i :: 0 <= i < |steps| ==> (rs[i].success <==> Successes(steps, exec)[i])
  {
    forall i | 0 <= i < |steps|
      ensures ResultRight(steps, exec, reason, calls, steps[i], rs[i])
    {
      DueIsRight(steps, exec, reason, calls, good, depth, steps[i]);
    }
  }

  lemma DueIsRight(steps: seq<Step>, exec: Executor, reason: string, calls: seq<StepId>, good: map<StepId, bool>,
                   depth: map<StepId, nat>, s: Step)
    requires UniqueIds(steps) && IsDepthMap(steps, depth) && IsSolution(steps, exec, good) && s in steps
    requires s.id in calls <==> AllGood(s, good)
    ensures ResultRight(steps, exec, reason, calls, s, Due(exec, s, good, reason))
  {
    SuccessIsUpstream(steps, exec, depth, good, s);
    GoodIsUpstream(steps, exec, depth, good, s);
  }

  lemma GoodIsUpstream(steps: seq<Step>, exec: Executor, depth: map<StepId, nat>, good: map<StepId, bool>, s: Step)
    requires UniqueIds(steps) && IsDepthMap(steps, depth) && IsSolution(steps, exec, good) && s in steps
    ensures AllGood(s, good) <==> forall d :: d in s.dependsOn ==> AllUpstreamReturn(steps, exec, d)
  {
    assert DepthAt(s, depth);
    forall d | d in s.dependsOn ensures d in good && (good[d] <==> AllUpstreamReturn(steps, exec, d)) {
      var t :| t in steps && t.id == d;
      SuccessIsUpstream(steps, exec, depth, good, t);
    }
  }

  lemma SummaryIsRight(rs: seq<StepResult>, successes: seq<bool>)
    requires |rs| == |successes| && forall i :: 0 <= i < |rs| ==> (rs[i].success <==> successes[i])
    ensures StatusRight(successes, Summarize(rs))
  {
    if successes != [] {
      assert successes[0] in successes;
    }
  }
}
