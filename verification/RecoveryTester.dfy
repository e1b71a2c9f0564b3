/** The recovery tester, and how its recommendation compares with a real breaker fed the same probes. */
module RecoveryTester {
  import opened Sequences
  import opened CircuitBreaker

  datatype TestResult = TestResult(totalAttempts: nat, successes: nat, failures: nat, shouldClose: bool)

  datatype Tester = Tester(maxRequests: int, successThreshold: int, stopOnFirstFailure: bool) {
    /** The checks of the tester's constructor. */
    predicate Valid() {
      maxRequests >= 1 && 1 <= successThreshold <= maxRequests
    }
  }

  function CountTrue(outcomes: seq<bool>): nat {
    if outcomes == [] then 0 else CountTrue(outcomes[..|outcomes| - 1]) + if outcomes[|outcomes| - 1] then 1 else 0
  }

  lemma {:induction false} CountBound(outcomes: seq<bool>)
    ensures CountTrue(outcomes) <= |outcomes|
    ensures CountTrue(outcomes) == |outcomes| <==> false !in outcomes
  {
    if outcomes != [] {
      CountBound(outcomes[..|outcomes| - 1]);
      LastMember(outcomes);
    }
  }

  /** Probing stops after `k` outcomes: enough successes, or a failure that ends the test. */
  ghost predicate Stops(t: Tester, outcomes: seq<bool>, k: nat)
    requires 0 < k <= |outcomes|
  {
    if outcomes[k - 1] then CountTrue(outcomes[..k]) >= t.successThreshold else t.stopOnFirstFailure
  }

  /** No outcome so far stops the test. */
  ghost predicate Goes(t: Tester, outcomes: seq<bool>) {
    forall k :: 0 < k <= |outcomes| ==> !Stops(t, outcomes, k)
  }

  /** The probes a test makes: the shortest prefix that stops it, or all that are allowed. */
  ghost predicate Tested(t: Tester, probes: seq<bool>) {
    && 0 < |probes| <= t.maxRequests
    && (forall k :: 0 < k < |probes| ==> !Stops(t, probes, k))
    && (Stops(t, probes, |probes|) || |probes| == t.maxRequests)
  }

  /** One more outcome either stops the test or lets it go on. */
  lemma OneMoreProbe(t: Tester, outcomes: seq<bool>, next: bool)
    requires Goes(t, outcomes) && |outcomes| < t.maxRequests
    ensures var all := outcomes + [next];
            && CountTrue(all) == CountTrue(outcomes) + (if next then 1 else 0)
            && ((if next then CountTrue(all) >= t.successThreshold else t.stopOnFirstFailure) ==> Tested(t, all))
            && ((if next then CountTrue(all) < t.successThreshold else !t.stopOnFirstFailure) ==> Goes(t, all))
            && (Goes(t, all) && |all| == t.maxRequests ==> Tested(t, all))
  {
    var all := outcomes + [next];
    assert all[..|all| - 1] == outcomes && all[..|all|] == all;
    forall k | 0 < k <= |outcomes| ensures !Stops(t, all, k) {
      assert all[..k] == outcomes[..k] && !Stops(t, outcomes, k);
    }
  }

  /**
   Probes the service; `outcome` says what each attempt would do. The attempts made are the shortest
   prefix that stops the test, or all that are allowed.
   */
  method TestRecovery(t: Tester, outcome: nat -> bool) returns (r: TestResult, ghost probes: seq<bool>)
    requires t.Valid()
    ensures Tested(t, probes) && r.totalAttempts == |probes|
    ensures forall k :: 0 <= k < |probes| ==> probes[k] == outcome(k)
    ensures r.successes == CountTrue(probes) && r.successes + r.failures == r.totalAttempts
    ensures r.shouldClose <==> r.successes >= t.successThreshold
  {
    var successes, failures, attempt := 0, 0, 0;
    probes := [];
    while attempt < t.maxRequests
      invariant |probes| == attempt == successes + failures <= t.maxRequests
      invariant forall k :: 0 <= k < |probes| ==> probes[k] == outcome(k)
      invariant Goes(t, probes) && (attempt == t.maxRequests ==> Tested(t, probes))
      invariant successes == CountTrue(probes)
    {
      var succeeded := outcome(attempt);
      OneMoreProbe(t, probes, succeeded);
      probes, attempt := probes + [succeeded], attempt + 1;
      if succeeded {
        successes := successes + 1;
        if successes >= t.successThreshold {
          break;
        }
      } else {
        failures := failures + 1;
        if t.stopOnFirstFailure {
          break;
        }
      }
    }
    r := TestResult(successes + failures, successes, failures, successes >= t.successThreshold);
  }

  // ---- Against a real breaker -------------------------------------------------------------------

  /** The clock readings of one probe: at its admission and when its outcome is recorded. */
  datatype Reading = Reading(begin: real, end: real)

  /** A breaker fed the probes one after another, on a running clock. */
  function Feed(cfg: Config, b: Breaker, probes: seq<bool>, times: seq<Reading>): Breaker
    requires |probes| == |times|
  {
    if probes == [] then b
    else
      var n := |probes| - 1;
      Call(cfg, Feed(cfg, b, probes[..n], times[..n]), probes[n], times[n].begin, times[n].end)
  }

  lemma {:induction false} FeedInParts(cfg: Config, b: Breaker, probes: seq<bool>, times: seq<Reading>, k: nat)
    requires |probes| == |times| && k <= |probes|
    ensures Feed(cfg, b, probes, times) ==
            Feed(cfg, Feed(cfg, b, probes[..k], times[..k]), probes[k..], times[k..])
  {
    if k == |probes| {
      assert probes[..k] == probes && times[..k] == times;
    } else {
      var n := |probes| - 1;
      FeedInParts(cfg, b, probes[..n], times[..n], k);
      PartsOfFront(probes, k);
      PartsOfFront(times, k);
      var first := Feed(cfg, b, probes[..k], times[..k]);
      assert Feed(cfg, b, probes[..n], times[..n]) == Feed(cfg, first, probes[k..][..n - k], times[k..][..n - k]);
    }
  }

  /** The configuration with the tester's thresholds. */
  predicate SameThresholds(cfg: Config, t: Tester) {
    cfg.Valid() && cfg.halfOpenMaxCalls == t.maxRequests && cfg.successThreshold == t.successThreshold
  }

  predicate JustHalfOpen(b: Breaker) {
    b.state == HalfOpen && b.successCount == 0 && b.halfOpenCalls == 0
  }

  /** A test of a breaker that has just become half-open, with one reading per probe. */
  ghost predicate Testing(t: Tester, cfg: Config, b: Breaker, probes: seq<bool>, times: seq<Reading>) {
    t.Valid() && SameThresholds(cfg, t) && JustHalfOpen(b) && Tested(t, probes) && |times| == |probes|
  }

  /** The breaker that starts as `b` ends closed. */
  ghost predicate Closes(cfg: Config, b: Breaker, probes: seq<bool>, times: seq<Reading>)
    requires |probes| == |times|
  {
    Feed(cfg, b, probes, times).state == Closed
  }

  /** Only successes, fewer than the threshold: still half-open, every probe counted, none rejected. */
  lemma {:induction false} FeedSuccesses(cfg: Config, b: Breaker, probes: seq<bool>, times: seq<Reading>)
    requires cfg.Valid() && JustHalfOpen(b) && |times| == |probes|
    requires false !in probes && |probes| < cfg.successThreshold
    ensures var f := Feed(cfg, b, probes, times);
            && f.state == HalfOpen && f.successCount == f.halfOpenCalls == |probes|
            && f.totalRejected == b.totalRejected
  {
    if probes != [] {
      var n := |probes| - 1;
      LastMember(probes);
      FeedSuccesses(cfg, b, probes[..n], times[..n]);
    }
  }

  /** Too few successes to close: from open or half-open, the breaker stays one of the two. */
  lemma {:induction false} CannotClose(cfg: Config, b: Breaker, probes: seq<bool>, times: seq<Reading>)
    requires cfg.Valid() && b.state != Closed && |times| == |probes|
    requires b.successCount + CountTrue(probes) < cfg.successThreshold
    ensures var f := Feed(cfg, b, probes, times);
            f.state != Closed && f.successCount <= b.successCount + CountTrue(probes)
  {
    if probes != [] {
      CannotClose(cfg, b, probes[..|probes| - 1], times[..|probes| - 1]);
    }
  }

  /** None of these admission readings comes a recovery timeout or more after `since`. */
  predicate Early(cfg: Config, times: seq<Reading>, from: nat, to: nat, since: real)
    requires to <= |times|
  {
    forall i :: from <= i < to ==> times[i].begin - since < cfg.recoveryTimeout
  }

  /** Before the timeout an open breaker stays open and rejects every probe. */
  lemma {:induction false} FeedOpen(cfg: Config, b: Breaker, probes: seq<bool>, times: seq<Reading>)
    requires b.state == Open && b.openedAt.Some? && |times| == |probes|
    requires Early(cfg, times, 0, |times|, b.openedAt.value)
    ensures Feed(cfg, b, probes, times) == b.(totalRejected := b.totalRejected + |probes|)
  {
    if probes != [] {
      FeedOpen(cfg, b, probes[..|probes| - 1], times[..|probes| - 1]);
    }
  }

  /** The first failure opens the breaker at its own reading; nothing was rejected until then. */
  lemma FeedFirstFailure(cfg: Config, b: Breaker, probes: seq<bool>, times: seq<Reading>, k: nat)
    requires cfg.Valid() && JustHalfOpen(b) && k < |probes| == |times| && k < cfg.successThreshold
    requires !probes[k] && forall i :: 0 <= i < k ==> probes[i]
    ensures var f := Feed(cfg, b, probes[..k + 1], times[..k + 1]);
            && f.state == Open && f.openedAt == Some(times[k].end) && f.successCount == 0
            && f.totalRejected == b.totalRejected
  {
    var front, readings := probes[..k + 1], times[..k + 1];
    assert front[..k] == probes[..k] && readings[..k] == times[..k];
    assert false !in probes[..k];
    FeedSuccesses(cfg, b, probes[..k], times[..k]);
  }

  // ---- What a test comes to ---------------------------------------------------------------------

  lemma {:induction false} CountConcat(a: seq<bool>, b: seq<bool>)
    ensures CountTrue(a + b) == CountTrue(a) + CountTrue(b)
  {
    if b == [] {
      assert a + b == a;
    } else {
      assert (a + b)[..|a + b| - 1] == a + b[..|b| - 1];
      CountConcat(a, b[..|b| - 1]);
    }
  }

  /** Enough successes in a row from the start end the test. */
  lemma CleanPrefixStops(t: Tester, probes: seq<bool>)
    requires t.Valid() && t.successThreshold <= |probes| && forall i :: 0 <= i < t.successThreshold ==> probes[i]
    ensures Stops(t, probes, t.successThreshold)
  {
    CountBound(probes[..t.successThreshold]);
  }

  /** A test never counts more successes than the threshold. */
  lemma CountsToThreshold(t: Tester, probes: seq<bool>)
    requires t.Valid() && Tested(t, probes)
    ensures CountTrue(probes) <= t.successThreshold
  {
    UnstoppedCount(t, probes, |probes| - 1);
    assert probes[..|probes|] == probes;
  }

  /** As long as nothing stopped the test, the threshold is not reached. */
  lemma {:induction false} UnstoppedCount(t: Tester, probes: seq<bool>, k: nat)
    requires t.Valid() && k < |probes| && forall i :: 0 < i <= k ==> !Stops(t, probes, i)
    ensures CountTrue(probes[..k]) < t.successThreshold
  {
    if k > 0 {
      UnstoppedCount(t, probes, k - 1);
      assert probes[..k][..k - 1] == probes[..k - 1];
      assert !Stops(t, probes, k);
    }
  }

  /** Without a failure the test runs exactly to the threshold and the breaker closes on the same probe. */
  lemma CleanTestCloses(t: Tester, cfg: Config, b: Breaker, probes: seq<bool>, times: seq<Reading>)
    requires Testing(t, cfg, b, probes, times) && false !in probes
    ensures |probes| == CountTrue(probes) == t.successThreshold
    ensures Closes(cfg, b, probes, times) && Feed(cfg, b, probes, times).totalRejected == b.totalRejected
  {
    var n := |probes| - 1;
    CountBound(probes);
    assert probes[..|probes|] == probes && probes[n] in probes;
    if |probes| > t.successThreshold {
      CleanPrefixStops(t, probes);
    }
    LastMember(probes);
    FeedSuccesses(cfg, b, probes[..n], times[..n]);
  }

  /** A failure always comes before the threshold is reached. */
  lemma FirstFailure(t: Tester, probes: seq<bool>) returns (k: nat)
    requires t.Valid() && Tested(t, probes) && false in probes
    ensures k < |probes| && !probes[k] && forall i :: 0 <= i < k ==> probes[i]
    ensures k < t.successThreshold && CountTrue(probes[..k + 1]) == k
    ensures t.stopOnFirstFailure ==> k + 1 == |probes|
  {
    k := IndexOf(probes, false);
    forall i | 0 <= i < k ensures probes[i] {
      assert probes[..k][i] == probes[i];
    }
    if k >= t.successThreshold {
      CleanPrefixStops(t, probes);
    }
    assert probes[..k + 1][..k] == probes[..k] && false !in probes[..k];
    CountBound(probes[..k]);
    assert t.stopOnFirstFailure ==> Stops(t, probes, k + 1);
  }

  /** If no probe is admitted a timeout after the first failure, the breaker ends open. */
  lemma FailedTestOpens(t: Tester, cfg: Config, b: Breaker, probes: seq<bool>, times: seq<Reading>, k: nat)
    requires Testing(t, cfg, b, probes, times) && k < |probes|
    requires !probes[k] && forall i :: 0 <= i < k ==> probes[i]
    requires Early(cfg, times, k + 1, |times|, times[k].end)
    ensures Feed(cfg, b, probes, times).state == Open
    ensures Feed(cfg, b, probes, times).totalRejected == b.totalRejected + |probes| - k - 1
  {
    if k >= t.successThreshold {
      CleanPrefixStops(t, probes);
    }
    FeedFirstFailure(cfg, b, probes, times, k);
    FeedInParts(cfg, b, probes, times, k + 1);
    FeedOpen(cfg, Feed(cfg, b, probes[..k + 1], times[..k + 1]), probes[k + 1..], times[k + 1..]);
  }

  /** Stopping at the first failure, the tester recommends closing iff the breaker closes; no probe is rejected. */
  lemma TesterMatchesBreaker(t: Tester, cfg: Config, b: Breaker, probes: seq<bool>, times: seq<Reading>)
    requires Testing(t, cfg, b, probes, times) && t.stopOnFirstFailure
    ensures CountTrue(probes) >= t.successThreshold <==> Closes(cfg, b, probes, times)
    ensures Feed(cfg, b, probes, times).totalRejected == b.totalRejected
  {
    if false in probes {
      var k := FirstFailure(t, probes);
      assert probes[..k + 1] == probes;
      FailedTestOpens(t, cfg, b, probes, times, k);
    } else {
      CleanTestCloses(t, cfg, b, probes, times);
    }
  }

  // ---- Closing means no failure -----------------------------------------------------------------

  /** The readings for a whole test leave no room to recover from a failure of the first probe. */
  predicate NoRecovery(t: Tester, cfg: Config, times: seq<Reading>)
    requires t.Valid() && |times| == t.maxRequests
  {
    t.stopOnFirstFailure || Early(cfg, times, 1, t.maxRequests - t.successThreshold + 1, times[0].end)
  }

  /**
   On the given clock, the breaker closes exactly in the tests without a failure if and only if the tester
   stops at failures or no probe that could start a winning run of successes comes a recovery timeout after
   the first one. In particular it does when every allowed probe is needed.
   */
  lemma BreakerClosesIffClean(t: Tester, cfg: Config, b: Breaker, times: seq<Reading>)
    requires t.Valid() && SameThresholds(cfg, t) && JustHalfOpen(b) && |times| == t.maxRequests
    ensures NoRecovery(t, cfg, times) <==>
            forall probes :: Tested(t, probes) ==>
              (Closes(cfg, b, probes, times[..|probes|]) <==> false !in probes)
    ensures t.maxRequests == t.successThreshold ==> NoRecovery(t, cfg, times)
  {
    if NoRecovery(t, cfg, times) {
      forall probes | Tested(t, probes)
        ensures Closes(cfg, b, probes, times[..|probes|]) <==> false !in probes
      {
        if false in probes {
          FailureKeepsFromClosing(t, cfg, b, probes, times);
        } else {
          CleanTestCloses(t, cfg, b, probes, times[..|probes|]);
        }
      }
    } else {
      var probes := RecoversInTime(t, cfg, b, times);
    }
  }

  lemma FailureKeepsFromClosing(t: Tester, cfg: Config, b: Breaker, probes: seq<bool>, times: seq<Reading>)
    requires |times| == t.maxRequests && Tested(t, probes) && Testing(t, cfg, b, probes, times[..|probes|])
    requires NoRecovery(t, cfg, times) && false in probes
    ensures !Closes(cfg, b, probes, times[..|probes|])
  {
    var k := FirstFailure(t, probes);
    var readings := times[..|probes|];
    FeedFirstFailure(cfg, b, probes, readings, k);
    FeedInParts(cfg, b, probes, readings, k + 1);
    SuccessesLeft(t, probes, k);
    var failed := Feed(cfg, b, probes[..k + 1], readings[..k + 1]);
    if CountTrue(probes[k + 1..]) < t.successThreshold {
      CannotClose(cfg, failed, probes[k + 1..], readings[k + 1..]);
    } else {
      // All successes come after the first probe, and the last places are too few for them.
      var room := t.maxRequests - t.successThreshold;
      var m := if room < |probes| - 1 then room else |probes| - 1;
      NoRoomToRecover(cfg, failed, probes[1..], readings[1..], m);
    }
  }

  /** A test that has failed once can still reach the threshold afresh only if its first probe failed. */
  lemma SuccessesLeft(t: Tester, probes: seq<bool>, k: nat)
    requires t.Valid() && Tested(t, probes) && k < |probes| && CountTrue(probes[..k + 1]) == k
    requires t.stopOnFirstFailure ==> k + 1 == |probes|
    ensures k > 0 || t.stopOnFirstFailure ==> CountTrue(probes[k + 1..]) < t.successThreshold
  {
    CountsToThreshold(t, probes);
    assert probes == probes[..k + 1] + probes[k + 1..];
    CountConcat(probes[..k + 1], probes[k + 1..]);
  }

  /** Rejected for `m` probes, with fewer left than it takes, an open breaker does not close. */
  lemma NoRoomToRecover(cfg: Config, b: Breaker, probes: seq<bool>, times: seq<Reading>, m: nat)
    requires cfg.Valid() && b.state == Open && b.openedAt.Some? && b.successCount == 0 && m <= |times| == |probes|
    requires Early(cfg, times, 0, m, b.openedAt.value) && |probes| - m < cfg.successThreshold
    ensures !Closes(cfg, b, probes, times)
  {
    FeedOpen(cfg, b, probes[..m], times[..m]);
    FeedInParts(cfg, b, probes, times, m);
    CountBound(probes[m..]);
    CannotClose(cfg, Feed(cfg, b, probes[..m], times[..m]), probes[m..], times[m..]);
  }

  /** Failures up to the first probe admitted after the timeout, then successes: the breaker closes all the same. */
  lemma RecoversInTime(t: Tester, cfg: Config, b: Breaker, times: seq<Reading>) returns (probes: seq<bool>)
    requires t.Valid() && SameThresholds(cfg, t) && JustHalfOpen(b) && |times| == t.maxRequests
    requires !NoRecovery(t, cfg, times)
    ensures Tested(t, probes) && false in probes && Closes(cfg, b, probes, times[..|probes|])
  {
    var j := FirstLate(cfg, times, 1, t.maxRequests - t.successThreshold + 1, times[0].end);
    probes := LateStreak(t, j);
    var readings := times[..|probes|];
    FeedFirstFailure(cfg, b, probes, readings, 0);
    FeedInParts(cfg, b, probes, readings, 1);
    WaitsAndRecovers(cfg, Feed(cfg, b, probes[..1], readings[..1]), probes[1..], readings[1..], j - 1);
  }

  /** Rejected for `m` probes and admitted again, the breaker closes on as many successes as it takes. */
  lemma WaitsAndRecovers(cfg: Config, b: Breaker, probes: seq<bool>, times: seq<Reading>, m: nat)
    requires cfg.Valid() && b.state == Open && b.openedAt.Some? && |times| == |probes| == m + cfg.successThreshold
    requires Early(cfg, times, 0, m, b.openedAt.value)
    requires times[m].begin - b.openedAt.value >= cfg.recoveryTimeout && forall i :: m <= i < |probes| ==> probes[i]
    ensures Closes(cfg, b, probes, times)
  {
    FeedOpen(cfg, b, probes[..m], times[..m]);
    FeedInParts(cfg, b, probes, times, m);
    Reenters(cfg, Feed(cfg, b, probes[..m], times[..m]), probes[m..], times[m..]);
  }

  /** The position of the first reading that is not early. */
  lemma FirstLate(cfg: Config, times: seq<Reading>, from: nat, to: nat, since: real) returns (j: nat)
    requires to <= |times| && !Early(cfg, times, from, to, since)
    ensures from <= j < to && times[j].begin - since >= cfg.recoveryTimeout && Early(cfg, times, from, j, since)
  {
    var late :| from <= late < to && times[late].begin - since >= cfg.recoveryTimeout;
    j := from;
    while times[j].begin - since < cfg.recoveryTimeout
      invariant from <= j <= late && Early(cfg, times, from, j, since)
      decreases late - j
    {
      j := j + 1;
    }
  }

  /** A lenient test that fails `j` times and then succeeds up to the threshold. */
  lemma LateStreak(t: Tester, j: nat) returns (probes: seq<bool>)
    requires t.Valid() && !t.stopOnFirstFailure && 0 < j <= t.maxRequests - t.successThreshold
    ensures Tested(t, probes) && |probes| == j + t.successThreshold
    ensures forall i :: 0 <= i < |probes| ==> (probes[i] <==> i >= j)
    ensures CountTrue(probes) == t.successThreshold
  {
    probes := seq(j + t.successThreshold, i => i >= j);
    forall k | 0 <= k <= |probes| ensures CountTrue(probes[..k]) == if k < j then 0 else k - j {
      StreakCount(probes, j, k);
    }
    assert probes[..|probes|] == probes;
  }

  lemma {:induction false} StreakCount(probes: seq<bool>, j: nat, k: nat)
    requires k <= |probes| && forall i :: 0 <= i < |probes| ==> (probes[i] <==> i >= j)
    ensures CountTrue(probes[..k]) == if k < j then 0 else k - j
  {
    if k > 0 {
      StreakCount(probes, j, k - 1);
      assert probes[..k][..k - 1] == probes[..k - 1];
    }
  }

  /** A success admitted after the timeout starts a fresh half-open count, and enough of them close the breaker. */
  lemma Reenters(cfg: Config, b: Breaker, probes: seq<bool>, times: seq<Reading>)
    requires cfg.Valid() && |times| == |probes| == cfg.successThreshold
    requires RecoveryDue(cfg, b, times[0].begin) && false !in probes
    ensures Closes(cfg, b, probes, times)
  {
    var reopened := TransitionTo(b, HalfOpen, times[0].begin);
    FeedRefreshed(cfg, b, reopened, probes, times);
    var n := |probes| - 1;
    LastMember(probes);
    FeedSuccesses(cfg, reopened, probes[..n], times[..n]);
  }

  lemma {:induction false} FeedRefreshed(cfg: Config, b: Breaker, reopened: Breaker, probes: seq<bool>,
                                         times: seq<Reading>)
    requires 0 < |probes| == |times| && RecoveryDue(cfg, b, times[0].begin)
    requires reopened == TransitionTo(b, HalfOpen, times[0].begin)
    ensures Feed(cfg, b, probes, times) == Feed(cfg, reopened, probes, times)
  {
    if |probes| == 1 {
      assert Feed(cfg, b, probes[..0], times[..0]) == b && Feed(cfg, reopened, probes[..0], times[..0]) == reopened;
    } else {
      FeedRefreshed(cfg, b, reopened, probes[..|probes| - 1], times[..|probes| - 1]);
    }
  }

  // ---- When the tester can be trusted -----------------------------------------------------------

  /** Readings taken one after another on one clock. */
  predicate InOrder(times: seq<Reading>) {
    && (forall i :: 0 <= i < |times| ==> times[i].begin <= times[i].end)
    && forall i, j :: 0 <= i < j < |times| ==> times[i].end <= times[j].begin
  }

  /**
   The recommendation agrees with the breaker in every test, on every clock, exactly when the tester stops
   at failures or has no probe to spare.
   */
  lemma AgreesIff(t: Tester, cfg: Config, b: Breaker)
    requires t.Valid() && SameThresholds(cfg, t) && JustHalfOpen(b)
    ensures t.stopOnFirstFailure || t.maxRequests == t.successThreshold <==>
            forall probes, times :: Testing(t, cfg, b, probes, times) && InOrder(times) ==>
              (CountTrue(probes) >= t.successThreshold <==> Closes(cfg, b, probes, times))
  {
    if t.stopOnFirstFailure || t.maxRequests == t.successThreshold {
      forall probes, times | Testing(t, cfg, b, probes, times)
        ensures CountTrue(probes) >= t.successThreshold <==> Closes(cfg, b, probes, times)
      {
        if t.stopOnFirstFailure {
          TesterMatchesBreaker(t, cfg, b, probes, times);
        } else if false in probes {
          CountBound(probes);
          NoProbeToSpare(t, cfg, b, probes, times);
        } else {
          CleanTestCloses(t, cfg, b, probes, times);
        }
      }
    } else {
      var probes, times := LenientTesterDiffers(t, cfg, b);
    }
  }

  lemma NoProbeToSpare(t: Tester, cfg: Config, b: Breaker, probes: seq<bool>, times: seq<Reading>)
    requires Testing(t, cfg, b, probes, times) && t.maxRequests == t.successThreshold && false in probes
    ensures !Closes(cfg, b, probes, times)
  {
    var k := FirstFailure(t, probes);
    FeedFirstFailure(cfg, b, probes, times, k);
    FeedInParts(cfg, b, probes, times, k + 1);
    CountBound(probes[k + 1..]);
    CannotClose(cfg, Feed(cfg, b, probes[..k + 1], times[..k + 1]), probes[k + 1..], times[k + 1..]);
  }

  /** Otherwise one failure and then enough successes are recommended although the breaker is open. */
  lemma LenientTesterDiffers(t: Tester, cfg: Config, b: Breaker) returns (probes: seq<bool>, times: seq<Reading>)
    requires t.Valid() && SameThresholds(cfg, t) && JustHalfOpen(b)
    requires !t.stopOnFirstFailure && t.maxRequests > t.successThreshold
    ensures Testing(t, cfg, b, probes, times) && InOrder(times)
    ensures CountTrue(probes) >= t.successThreshold && !Closes(cfg, b, probes, times)
  {
    probes := LateStreak(t, 1);
    times := seq(|probes|, _ => Reading(0.0, 0.0));
    FailedTestOpens(t, cfg, b, probes, times, 0);
  }

  /** Some `n` probes in a row succeeded. */
  ghost predicate HasStreak(probes: seq<bool>, n: nat) {
    exists i: nat :: StreakAt(probes, i, n)
  }

  ghost predicate StreakAt(probes: seq<bool>, i: nat, n: nat) {
    i + n <= |probes| && forall k :: i <= k < i + n ==> probes[k]
  }

  /**
   A recommendation means `successThreshold` consecutive successes exactly when the tester stops at failures,
   has no probe to spare, or asks for one success only.
   */
  lemma ConsecutiveIff(t: Tester)
    requires t.Valid()
    ensures t.stopOnFirstFailure || t.maxRequests == t.successThreshold || t.successThreshold == 1 <==>
            forall probes :: Tested(t, probes) && CountTrue(probes) >= t.successThreshold ==>
              HasStreak(probes, t.successThreshold)
  {
    if t.stopOnFirstFailure || t.maxRequests == t.successThreshold || t.successThreshold == 1 {
      forall probes | Tested(t, probes) && CountTrue(probes) >= t.successThreshold
        ensures HasStreak(probes, t.successThreshold)
      {
        RecommendedStreak(t, probes);
      }
    } else {
      var probes := BrokenStreak(t);
    }
  }

  lemma RecommendedStreak(t: Tester, probes: seq<bool>)
    requires t.Valid() && Tested(t, probes) && CountTrue(probes) >= t.successThreshold
    requires t.stopOnFirstFailure || t.maxRequests == t.successThreshold || t.successThreshold == 1
    ensures HasStreak(probes, t.successThreshold)
  {
    if t.successThreshold == 1 {
      var i := SomeSuccess(probes);
      assert StreakAt(probes, i, 1);
    } else {
      if false in probes {
        var k := FirstFailure(t, probes);
        assert t.stopOnFirstFailure ==> probes[..k + 1] == probes;
      }
      CountBound(probes);
      assert StreakAt(probes, 0, t.successThreshold);
    }
  }

  lemma {:induction false} SomeSuccess(probes: seq<bool>) returns (i: nat)
    requires CountTrue(probes) > 0
    ensures i < |probes| && probes[i]
  {
    if probes[|probes| - 1] {
      i := |probes| - 1;
    } else {
      i := SomeSuccess(probes[..|probes| - 1]);
    }
  }

  /** Otherwise all successes but one, a failure and the last success are recommended without such a run. */
  lemma BrokenStreak(t: Tester) returns (probes: seq<bool>)
    requires t.Valid() && !t.stopOnFirstFailure && t.maxRequests > t.successThreshold > 1
    ensures Tested(t, probes) && CountTrue(probes) >= t.successThreshold && !HasStreak(probes, t.successThreshold)
  {
    var s := t.successThreshold;
    probes := seq(s + 1, i => i != s - 1);
    forall k | 0 <= k <= s + 1 ensures CountTrue(probes[..k]) == if k < s then k else k - 1 {
      BrokenCount(probes, s - 1, k);
    }
    assert probes[..s + 1] == probes;
    forall i: nat ensures !StreakAt(probes, i, s) {
      assert i + s <= |probes| ==> i <= s - 1 < i + s;
    }
  }

  lemma {:induction false} BrokenCount(probes: seq<bool>, gap: nat, k: nat)
    requires k <= |probes| && forall i :: 0 <= i < |probes| ==> (probes[i] <==> i != gap)
    ensures CountTrue(probes[..k]) == if k <= gap then k else k - 1
  {
    if k > 0 {
      BrokenCount(probes, gap, k - 1);
      assert probes[..k][..k - 1] == probes[..k - 1];
    }
  }
}
