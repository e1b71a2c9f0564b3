/**
 The breaker under concurrent callers. Every step is one critical section; between its admission and
 its recording a call is in flight, and any other sections may happen. Every admitted call is assumed
 to end by returning or by raising an exception the breaker records.
 */
module BreakerProtocol {
  import opened Sequences
  import opened CircuitBreaker

  /** Calls in flight carry the half-open episode that admitted them, or 0 when admitted closed. */
  datatype System = System(
    b: Breaker, now: real,
    inFlight: multiset<nat>,
    episode: nat,            // half-open episodes entered so far
    admissions: multiset<nat>, // admissions per half-open episode
    window: seq<bool>,       // outcomes recorded in the current closed window
    manual: nat)             // outcomes recorded without a call

  datatype Event =
    | Begin(now: real)
    | End(tag: nat, ok: bool, now: real)
    | Manual(ok: bool, now: real)
    | ForceClosed(now: real)
    | Look(now: real)

  const START := System(INITIAL, 0.0, multiset{}, 0, multiset{}, [], 0)

  predicate Enabled(s: System, e: Event) {
    e.now >= s.now && (e.End? ==> e.tag in s.inFlight)
  }

  function Record(cfg: Config, b: Breaker, ok: bool, now: real): Breaker {
    if ok then RecordSuccess(cfg, b, now) else RecordFailure(cfg, b, now)
  }

  /** The window after an outcome was recorded: it starts afresh whenever the circuit closes or opens. */
  function WindowAfter(before: Breaker, after: Breaker, window: seq<bool>, ok: bool): seq<bool> {
    if before.state == Closed && after.state == Closed then window + [ok] else []
  }

  function Episode(s: System, after: Breaker): nat {
    if after.state == HalfOpen && s.b.state != HalfOpen then s.episode + 1 else s.episode
  }

  /** The admission decision made: an admitted call joins those in flight. */
  function Enter(s: System, b: Breaker, admitted: bool): System {
    if !admitted then s.(b := b)
    else if b.state == HalfOpen then
      s.(b := b, inFlight := s.inFlight + multiset{s.episode}, admissions := s.admissions + multiset{s.episode})
    else s.(b := b, inFlight := s.inFlight + multiset{0})
  }

  function Step(cfg: Config, s: System, e: Event): System
    requires Enabled(s, e)
  {
    match e
    case Begin(now) =>
      var (b, admitted) := Admit(cfg, s.b, now);
      Enter(s.(now := now, episode := Episode(s, b)), b, admitted)
    case End(tag, ok, now) =>
      var b := Record(cfg, s.b, ok, now);
      s.(b := b, now := now, inFlight := s.inFlight - multiset{tag}, window := WindowAfter(s.b, b, s.window, ok))
    case Manual(ok, now) =>
      var b := Record(cfg, s.b, ok, now);
      s.(b := b, now := now, manual := s.manual + 1, window := WindowAfter(s.b, b, s.window, ok))
    case ForceClosed(now) =>
      s.(b := Reset(s.b, now), now := now, window := [])
    case Look(now) =>
      var b := Refresh(cfg, s.b, now);
      s.(b := b, now := now, episode := Episode(s, b))
  }

  /** The number of failures at the end of a record of outcomes. */
  function Trailing(window: seq<bool>): nat {
    if window == [] || window[|window| - 1] then 0 else 1 + Trailing(window[..|window| - 1])
  }

  // ---- The invariant ----------------------------------------------------------------------------

  ghost predicate Inv(cfg: Config, s: System) {
    && StateInv(cfg, s)
    && EpisodeInv(cfg, s)
    && s.b.totalSuccesses + s.b.totalFailures + |s.inFlight| == s.b.totalCalls + s.manual
  }

  ghost predicate StateInv(cfg: Config, s: System) {
    match s.b.state
    case Closed =>
      && s.b.openedAt.None? && s.b.successCount == 0 && s.b.halfOpenCalls == 0
      && s.b.failureCount == Trailing(s.window) < cfg.failureThreshold
    case Open =>
      && s.b.openedAt.Some? && s.b.openedAt.value <= s.now
      && s.b.failureCount == 0 && s.b.successCount == 0 && s.b.halfOpenCalls == 0
    case HalfOpen =>
      && s.b.openedAt.Some? && s.b.openedAt.value + cfg.recoveryTimeout <= s.now
      && s.b.failureCount == 0 && s.b.successCount < cfg.successThreshold
      && s.episode >= 1 && s.b.halfOpenCalls == s.admissions[s.episode]
      // Every probe counted against the quota either succeeded or is still in flight.
      && s.b.halfOpenCalls <= s.b.successCount + s.inFlight[s.episode]
  }

  ghost predicate EpisodeInv(cfg: Config, s: System) {
    && (forall e :: e > s.episode ==> s.admissions[e] == 0 && s.inFlight[e] == 0)
    && (forall e :: s.admissions[e] <= cfg.halfOpenMaxCalls)
  }

  lemma StartInv(cfg: Config)
    requires cfg.Valid()
    ensures Inv(cfg, START)
  {
  }

  lemma StepKeepsInv(cfg: Config, s: System, e: Event)
    requires cfg.Valid() && Inv(cfg, s) && Enabled(s, e)
    ensures Inv(cfg, Step(cfg, s, e))
  {
    match e
    case Begin(now) => BeginKeepsInv(cfg, s, now);
    case End(tag, ok, now) =>
      assert |s.inFlight - multiset{tag}| == |s.inFlight| - 1;
      RecordKeepsState(cfg, s, ok, now, s.inFlight - multiset{tag}, s.manual);
    case Manual(ok, now) => RecordKeepsState(cfg, s, ok, now, s.inFlight, s.manual + 1);
    case ForceClosed(now) =>
    case Look(now) => LookKeepsInv(cfg, s, now);
  }

  lemma LookKeepsInv(cfg: Config, s: System, now: real)
    requires cfg.Valid() && Inv(cfg, s) && now >= s.now
    ensures Inv(cfg, Step(cfg, s, Look(now)))
  {
    assert s.admissions[s.episode + 1] == 0;
  }

  /** Admission is a look at the state followed by counting the call. */
  lemma BeginKeepsInv(cfg: Config, s: System, now: real)
    requires cfg.Valid() && Inv(cfg, s) && now >= s.now
    ensures Inv(cfg, Step(cfg, s, Begin(now)))
  {
    LookKeepsInv(cfg, s, now);
    BeginIsLookThenCount(cfg, s, now);
  }

  lemma BeginIsLookThenCount(cfg: Config, s: System, now: real)
    requires now >= s.now
    ensures Step(cfg, s, Begin(now)) == Counted(cfg, Step(cfg, s, Look(now)))
  {
    assert Admit(cfg, s.b, now).0.state == Refresh(cfg, s.b, now).state;
  }

  /** The admission decision on a refreshed breaker. */
  function Counted(cfg: Config, s: System): System {
    var (b, admitted) := Decide(cfg, s.b);
    Enter(s, b, admitted)
  }

  /** Recording an outcome, while at most one call of the episode leaves the flight. */
  lemma RecordKeepsState(cfg: Config, s: System, ok: bool, now: real, inFlight: multiset<nat>, manual: nat)
    requires cfg.Valid() && Inv(cfg, s) && now >= s.now
    requires inFlight <= s.inFlight && inFlight[s.episode] + 1 >= s.inFlight[s.episode]
    requires |inFlight| + 1 + s.manual == |s.inFlight| + manual
    ensures var b := Record(cfg, s.b, ok, now);
            Inv(cfg, s.(b := b, now := now, inFlight := inFlight, manual := manual,
                        window := WindowAfter(s.b, b, s.window, ok)))
  {
    RecordKeepsEpisodes(cfg, s, ok, now, inFlight, manual);
  }

  lemma RecordKeepsEpisodes(cfg: Config, s: System, ok: bool, now: real, inFlight: multiset<nat>, manual: nat)
    requires EpisodeInv(cfg, s) && inFlight <= s.inFlight
    ensures var b := Record(cfg, s.b, ok, now);
            EpisodeInv(cfg, s.(b := b, now := now, inFlight := inFlight, manual := manual,
                               window := WindowAfter(s.b, b, s.window, ok)))
  {
  }

  lemma TrailingStep(window: seq<bool>, ok: bool)
    ensures Trailing(window + [ok]) == if ok then 0 else Trailing(window) + 1
  {
    assert (window + [ok])[..|window|] == window;
  }

  // ---- Whole runs -------------------------------------------------------------------------------

  ghost predicate IsRun(cfg: Config, states: seq<System>, events: seq<Event>) {
    && cfg.Valid() && |states| == |events| + 1 && states[0] == START
    && forall i {:trigger events[i]} :: 0 <= i < |events| ==>
         Enabled(states[i], events[i]) && states[i + 1] == Step(cfg, states[i], events[i])
  }

  lemma {:induction false} RunKeepsInv(cfg: Config, states: seq<System>, events: seq<Event>, i: nat)
    requires IsRun(cfg, states, events) && i < |states|
    ensures Inv(cfg, states[i])
  {
    if i == 0 {
      StartInv(cfg);
    } else {
      RunKeepsInv(cfg, states, events, i - 1);
      StepKeepsInv(cfg, states[i - 1], events[i - 1]);
    }
  }

  predicate Admitted(s: System, t: System) {
    t.b.totalCalls == s.b.totalCalls + 1
  }

  /** In half-open, every probe counted against the quota has succeeded or is still in flight. */
  lemma ProbesAccountedFor(cfg: Config, states: seq<System>, events: seq<Event>, i: nat)
    requires IsRun(cfg, states, events) && i < |states| && states[i].b.state == HalfOpen
    ensures states[i].b.halfOpenCalls <= states[i].b.successCount + states[i].inFlight[states[i].episode]
    ensures states[i].b.successCount < cfg.successThreshold
  {
    RunKeepsInv(cfg, states, events, i);
  }

  /** Half-open never wedges: with no probe of this episode in flight, the next call is admitted. */
  lemma NeverWedged(cfg: Config, states: seq<System>, events: seq<Event>, i: nat, now: real)
    requires IsRun(cfg, states, events) && i < |states| && now >= states[i].now
    requires states[i].b.state == HalfOpen && states[i].inFlight[states[i].episode] == 0
    ensures Admitted(states[i], Step(cfg, states[i], Begin(now)))
  {
    RunKeepsInv(cfg, states, events, i);
  }

  /** A rejected call met an open circuit before its timeout, or a probe quota still in use. */
  lemma RejectedMeans(cfg: Config, states: seq<System>, events: seq<Event>, i: nat, now: real)
    requires IsRun(cfg, states, events) && i < |states| && now >= states[i].now
    ensures !Admitted(states[i], Step(cfg, states[i], Begin(now))) <==>
            || (states[i].b.state == Open && now < states[i].b.openedAt.GetOr(now) + cfg.recoveryTimeout)
            || (states[i].b.state == HalfOpen && states[i].admissions[states[i].episode] == cfg.halfOpenMaxCalls)
    ensures !Admitted(states[i], Step(cfg, states[i], Begin(now))) && states[i].b.state == HalfOpen ==>
            states[i].inFlight[states[i].episode] > 0
  {
    RunKeepsInv(cfg, states, events, i);
  }

  /** A call can be rejected while the circuit is half-open: its only probe is still in flight. */
  lemma HalfOpenRejects() returns (cfg: Config, states: seq<System>, events: seq<Event>)
    ensures IsRun(cfg, states, events) && |events| == 3 && events[2].Begin?
    ensures states[2].b.state == states[3].b.state == HalfOpen && !Admitted(states[2], states[3])
  {
    cfg := Config(1, 1.0, 1, 1);
    events := [Manual(false, 0.0), Begin(1.0), Begin(1.0)];
    var s1 := Step(cfg, START, events[0]);
    var s2 := Step(cfg, s1, events[1]);
    states := [START, s1, s2, Step(cfg, s2, events[2])];
  }

  /** No half-open episode of a whole run admits more probes than configured. */
  lemma EpisodeQuota(cfg: Config, states: seq<System>, events: seq<Event>, e: nat)
    requires IsRun(cfg, states, events)
    ensures states[|events|].admissions[e] <= cfg.halfOpenMaxCalls
  {
    RunKeepsInv(cfg, states, events, |events|);
  }

  /** While closed, the failure count is the trailing run of failures of the current window. */
  lemma FailureCountMeaning(cfg: Config, states: seq<System>, events: seq<Event>, i: nat)
    requires IsRun(cfg, states, events) && i < |states| && states[i].b.state == Closed
    ensures states[i].b.failureCount == Trailing(states[i].window) < cfg.failureThreshold
  {
    RunKeepsInv(cfg, states, events, i);
  }

  /** A closed circuit opens exactly on the failure that completes a run of threshold failures. */
  lemma OpensOnThreshold(cfg: Config, states: seq<System>, events: seq<Event>, i: nat)
    requires IsRun(cfg, states, events) && i < |events| && states[i].b.state == Closed
    ensures states[i + 1].b.state != Closed <==>
            && (events[i].End? || events[i].Manual?) && !events[i].ok
            && Trailing(states[i].window + [false]) == cfg.failureThreshold
    ensures states[i + 1].b.state != HalfOpen
  {
    FailureCountMeaning(cfg, states, events, i);
    TrailingStep(states[i].window, false);
  }

  /** Every outcome belongs to an ended call or a manual record; nothing is lost between sections. */
  lemma OutcomesConserved(cfg: Config, states: seq<System>, events: seq<Event>, i: nat)
    requires IsRun(cfg, states, events) && i < |states|
    ensures var s := states[i];
            s.b.totalSuccesses + s.b.totalFailures + |s.inFlight| == s.b.totalCalls + s.manual
  {
    RunKeepsInv(cfg, states, events, i);
  }

  // ---- What a reset does ------------------------------------------------------------------------

  /** A reset closes the circuit afresh from any state, keeps the lifetime counters and the calls in flight. */
  lemma ResetCloses(cfg: Config, states: seq<System>, events: seq<Event>, i: nat)
    requires IsRun(cfg, states, events) && i < |events| && events[i].ForceClosed?
    ensures var b, b' := states[i].b, states[i + 1].b;
            && b' == Breaker(Closed, 0, 0, 0, None, b.totalCalls, b.totalSuccesses, b.totalFailures, b.totalRejected)
            && states[i + 1].inFlight == states[i].inFlight && states[i + 1].window == []
  {
  }

  /** The outcome an event records, if any. */
  function Outcome(e: Event): seq<bool> {
    if e.End? || e.Manual? then [e.ok] else []
  }

  /** The outcomes recorded by events `from` to `to - 1`, in order. */
  ghost function Outcomes(events: seq<Event>, from: nat, to: nat): seq<bool>
    requires from <= to <= |events|
  {
    if from == to then []
    else
      Outcomes(events, from, to - 1) + Outcome(events[to - 1])
  }

  /** After event `i`, at no moment up to `j` have the last `failureThreshold` outcomes all been failures. */
  ghost predicate NoStreak(cfg: Config, events: seq<Event>, i: nat, j: nat)
    requires i < j <= |events|
  {
    forall k {:trigger Outcomes(events, i + 1, k)} :: i < k <= j ==>
      Trailing(Outcomes(events, i + 1, k)) < cfg.failureThreshold
  }

  /** The circuit is closed, and these outcomes were recorded since it was. */
  ghost predicate ClosedWith(s: System, window: seq<bool>) {
    s.b.state == Closed && s.window == window && s.b.failureCount == Trailing(window)
  }

  lemma ClosedGoesOn(cfg: Config, s: System, e: Event, window: seq<bool>)
    requires Enabled(s, e) && !e.ForceClosed? && ClosedWith(s, window)
    requires Trailing(window + Outcome(e)) < cfg.failureThreshold
    ensures ClosedWith(Step(cfg, s, e), window + Outcome(e))
  {
    if e.End? || e.Manual? {
      TrailingStep(window, e.ok);
    } else {
      assert window + [] == window;
    }
  }

  lemma RunStep(cfg: Config, states: seq<System>, events: seq<Event>, i: nat)
    requires IsRun(cfg, states, events) && i < |events|
    ensures Enabled(states[i], events[i]) && states[i + 1] == Step(cfg, states[i], events[i])
  {
  }

  /** What was recorded between two events, step by step. */
  lemma {:induction false} ClosedSince(cfg: Config, states: seq<System>, events: seq<Event>, i: nat, j: nat)
    requires |states| == |events| + 1 && i < j <= |events| && NoStreak(cfg, events, i, j)
    requires forall k {:trigger events[k]} :: i < k < j ==> !events[k].ForceClosed?
    requires forall k {:trigger events[k]} :: i < k < j ==>
               Enabled(states[k], events[k]) && states[k + 1] == Step(cfg, states[k], events[k])
    requires ClosedWith(states[i + 1], [])
    ensures ClosedWith(states[j], Outcomes(events, i + 1, j))
  {
    if i + 1 < j {
      ClosedSince(cfg, states, events, i, j - 1);
      assert Outcomes(events, i + 1, j) == Outcomes(events, i + 1, j - 1) + Outcome(events[j - 1]);
      ClosedGoesOn(cfg, states[j - 1], events[j - 1], Outcomes(events, i + 1, j - 1));
    }
  }

  /** Until that many failures are recorded in a row after a reset, the circuit is closed and every call admitted. */
  lemma ResetAdmits(cfg: Config, states: seq<System>, events: seq<Event>, i: nat, j: nat)
    requires IsRun(cfg, states, events) && i < j < |states| && events[i].ForceClosed?
    requires NoStreak(cfg, events, i, j) && forall k {:trigger events[k]} :: i < k < j ==> !events[k].ForceClosed?
    ensures ClosedWith(states[j], Outcomes(events, i + 1, j))
    ensures j < |events| && events[j].Begin? ==> Admitted(states[j], states[j + 1])
  {
    ResetCloses(cfg, states, events, i);
    ClosedSince(cfg, states, events, i, j);
    if j < |events| {
      RunStep(cfg, states, events, j);
    }
  }

  // ---- The lifetime counters --------------------------------------------------------------------

  function Recording(ok: bool): Event -> bool {
    (e: Event) => (e.End? || e.Manual?) && e.ok == ok
  }

  /** The counters count these events: outcomes as what they were, calls begun as admitted or rejected. */
  ghost predicate Counts(s: System, past: seq<Event>) {
    && s.b.totalSuccesses == |Filter(past, Recording(true))|
    && s.b.totalFailures == |Filter(past, Recording(false))|
    && s.b.totalCalls + s.b.totalRejected == |Filter(past, (e: Event) => e.Begin?)|
    && s.b.totalCalls == |s.inFlight| + |Filter(past, (e: Event) => e.End?)|
  }

  /** In every run they do, and a call is in flight from its admission to its end. */
  lemma {:induction false} CountersMean(cfg: Config, states: seq<System>, events: seq<Event>, i: nat)
    requires IsRun(cfg, states, events) && i < |states|
    ensures Counts(states[i], events[..i])
  {
    if i > 0 {
      CountersMean(cfg, states, events, i - 1);
      RunStep(cfg, states, events, i - 1);
      OneMoreCounted(cfg, states[i - 1], events[..i - 1], events[i - 1]);
      assert events[..i - 1] + [events[i - 1]] == events[..i];
    }
  }

  lemma OneMoreCounted(cfg: Config, s: System, past: seq<Event>, e: Event)
    requires Enabled(s, e) && Counts(s, past)
    ensures Counts(Step(cfg, s, e), past + [e])
  {
    assert (past + [e])[..|past|] == past;
    CountersStep(cfg, s, e);
  }

  lemma CountersStep(cfg: Config, s: System, e: Event)
    requires Enabled(s, e)
    ensures var b, b' := s.b, Step(cfg, s, e).b;
            && b'.totalSuccesses == b.totalSuccesses + (if Recording(true)(e) then 1 else 0)
            && b'.totalFailures == b.totalFailures + (if Recording(false)(e) then 1 else 0)
            && b'.totalCalls + b'.totalRejected == b.totalCalls + b.totalRejected + (if e.Begin? then 1 else 0)
            && b'.totalCalls - |Step(cfg, s, e).inFlight| == b.totalCalls - |s.inFlight| + if e.End? then 1 else 0
  {
    if e.End? {
      assert |s.inFlight - multiset{e.tag}| == |s.inFlight| - 1;
    }
  }

  // ---- Nothing is admitted before the timeout ---------------------------------------------------

  lemma {:induction false} StaysOpen(cfg: Config, states: seq<System>, events: seq<Event>, i: nat, j: nat, since: real)
    requires IsRun(cfg, states, events) && i <= j < |states|
    requires states[i].b.state == Open && states[i].b.openedAt == Some(since)
    requires forall k :: i <= k < j ==> !events[k].ForceClosed?
    requires j > i ==> events[j - 1].now < since + cfg.recoveryTimeout
    ensures states[j].b.state == Open && states[j].b.openedAt == Some(since)
  {
    if i < j {
      if i < j - 1 {
        assert states[j - 1].now == events[j - 2].now;
      }
      StaysOpen(cfg, states, events, i, j - 1, since);
      OneStepOpen(cfg, states[j - 1], events[j - 1], since);
    }
  }

  lemma OneStepOpen(cfg: Config, s: System, e: Event, since: real)
    requires Enabled(s, e) && s.b.state == Open && s.b.openedAt == Some(since)
    requires !e.ForceClosed? && e.now < since + cfg.recoveryTimeout
    ensures var b := Step(cfg, s, e).b; b.state == Open && b.openedAt == Some(since)
  {
  }

  /** A step that opens the circuit notes its own time. */
  lemma OpeningTime(cfg: Config, states: seq<System>, events: seq<Event>, i: nat)
    requires IsRun(cfg, states, events) && i < |events|
    requires states[i].b.state != Open && states[i + 1].b.state == Open
    ensures states[i + 1].b.openedAt == Some(events[i].now)
  {
    RunKeepsInv(cfg, states, events, i);
    OpeningStep(cfg, states[i], events[i]);
  }

  lemma OpeningStep(cfg: Config, s: System, e: Event)
    requires Inv(cfg, s) && Enabled(s, e) && s.b.state != Open && Step(cfg, s, e).b.state == Open
    ensures Step(cfg, s, e).b.openedAt == Some(e.now)
  {
  }

  /** After opening at time T, a call admitted before T plus the timeout is preceded by a reset. */
  lemma NoAdmissionBeforeTimeout(cfg: Config, states: seq<System>, events: seq<Event>, i: nat, j: nat)
    requires IsRun(cfg, states, events) && i < j < |events|
    requires states[i].b.state != Open && states[i + 1].b.state == Open
    requires events[j].Begin? && Admitted(states[j], states[j + 1])
    requires events[j].now < events[i].now + cfg.recoveryTimeout
    ensures exists k :: i < k < j && events[k].ForceClosed?
  {
    OpeningTime(cfg, states, events, i);
    if forall k :: i < k < j ==> !events[k].ForceClosed? {
      Clock(cfg, states, events, j);
      StaysOpen(cfg, states, events, i + 1, j, events[i].now);
    }
  }

  lemma Clock(cfg: Config, states: seq<System>, events: seq<Event>, j: nat)
    requires IsRun(cfg, states, events) && 0 < j < |events|
    ensures events[j - 1].now == states[j].now <= events[j].now
  {
    assert states[j] == Step(cfg, states[j - 1], events[j - 1]);
  }
}
