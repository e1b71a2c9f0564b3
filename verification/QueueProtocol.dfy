/**
 The bounded queue under concurrent use. Each operation is two or more steps: the atomic put or get,
 taking the lock and reading the size, and releasing the lock with the flags written. Other threads
 may put and get at any moment in between, also while the lock is held.
 */
module QueueProtocol {
  import opened Sequences
  import opened Sums
  import opened TaskQueue

  datatype Booking = Putting | Getting
  datatype Lock = Free | Held(booking: Booking, seen: nat)

  datatype System<T> = System(
    q: Queue<T>,
    puts: nat,             // puts whose bookkeeping has not begun
    gets: nat,             // gets whose bookkeeping has not begun
    refusals: nat,         // refused puts not yet counted
    draining: seq<nat>,    // drains still taking tasks: how many each has taken
    drained: seq<nat>,     // drains that found the queue empty and wait for the lock
    lock: Lock,
    accepted: seq<T>,      // every task ever put, in order
    taken: seq<T>)         // every task ever taken, in order

  datatype Event<T> =
    | Put(task: T)
    | Refuse
    | Get
    | BeginBookPut
    | BeginBookGet
    | EndBook
    | CountRefusal
    | BeginDrain
    | DrainOne(i: nat)
    | DrainEmpty(i: nat)
    | EndDrain(i: nat)

  function Initial<T>(): System<T> {
    System(Queue([], 0, 0, 0, false, 0), 0, 0, 0, [], [], Free, [], [])
  }

  predicate Enabled<T>(cfg: Config, s: System<T>, e: Event<T>) {
    match e
    case Put(_) => |s.q.contents| < cfg.maxSize
    case Refuse => |s.q.contents| >= cfg.maxSize
    case Get => s.q.contents != []
    case BeginBookPut => s.lock == Free && s.puts > 0
    case BeginBookGet => s.lock == Free && s.gets > 0
    case EndBook => s.lock.Held?
    case CountRefusal => s.lock == Free && s.refusals > 0
    case BeginDrain => true
    case DrainOne(i) => i < |s.draining| && s.q.contents != []
    case DrainEmpty(i) => i < |s.draining| && s.q.contents == []
    case EndDrain(i) => i < |s.drained| && s.lock == Free
  }

  function Without(xs: seq<nat>, i: nat): seq<nat>
    requires i < |xs|
  {
    xs[..i] + xs[i + 1..]
  }

  function Step<T>(cfg: Config, s: System<T>, e: Event<T>): System<T>
    requires cfg.Valid() && Enabled(cfg, s, e)
  {
    match e
    case Put(task) => s.(q := PutTask(s.q, task), puts := s.puts + 1, accepted := s.accepted + [task])
    case Refuse => s.(refusals := s.refusals + 1)
    case Get => s.(q := TakeTask(s.q), gets := s.gets + 1, taken := s.taken + [s.q.contents[0]])
    case BeginBookPut =>
      s.(q := s.q.(enqueued := s.q.enqueued + 1), puts := s.puts - 1, lock := Held(Putting, |s.q.contents|))
    case BeginBookGet =>
      s.(q := s.q.(dequeued := s.q.dequeued + 1), gets := s.gets - 1, lock := Held(Getting, |s.q.contents|))
    case EndBook =>
      s.(q := if s.lock.booking == Putting then BookPut(cfg, s.q, s.lock.seen) else BookGet(cfg, s.q, s.lock.seen),
         lock := Free)
    case CountRefusal => s.(q := s.q.(dropped := s.q.dropped + 1), refusals := s.refusals - 1)
    case BeginDrain => s.(draining := s.draining + [0])
    case DrainOne(i) =>
      s.(q := TakeTask(s.q), draining := s.draining[i := s.draining[i] + 1], taken := s.taken + [s.q.contents[0]])
    case DrainEmpty(i) => s.(draining := Without(s.draining, i), drained := s.drained + [s.draining[i]])
    case EndDrain(i) => s.(q := BookDrain(s.q, s.drained[i]), drained := Without(s.drained, i))
  }

  lemma {:induction false} TotalWithout(xs: seq<nat>, i: nat)
    requires i < |xs|
    ensures Total(Without(xs, i)) == Total(xs) - xs[i]
  {
    var n := |xs| - 1;
    if i == n {
      assert Without(xs, i) == xs[..n];
    } else {
      TotalWithout(xs[..n], i);
      assert Without(xs, i)[..n - 1] == Without(xs[..n], i);
    }
  }

  lemma TotalAppend(xs: seq<nat>, v: nat)
    ensures Total(xs + [v]) == Total(xs) + v
  {
    assert (xs + [v])[..|xs|] == xs;
  }

  // ---- Conservation, with drains ----------------------------------------------------------------

  /** Tasks leave in the order they came, none lost or doubled, and the counters lag by what is pending. */
  ghost predicate Conserved<T>(cfg: Config, s: System<T>) {
    && s.taken + s.q.contents == s.accepted
    && |s.q.contents| <= cfg.maxSize
    && s.q.enqueued + s.puts == |s.accepted|
    && s.q.dequeued + s.gets + Total(s.draining) + Total(s.drained) == |s.taken|
  }

  lemma StepConserves<T>(cfg: Config, s: System<T>, e: Event<T>)
    requires cfg.Valid() && Enabled(cfg, s, e) && Conserved(cfg, s)
    ensures Conserved(cfg, Step(cfg, s, e))
  {
    if e.BeginDrain? || e.DrainOne? || e.DrainEmpty? || e.EndDrain? {
      DrainConserves(cfg, s, e);
    } else if e.Put? || e.Get? {
      MoveConserves(cfg, s, e);
    }
  }

  lemma MoveConserves<T>(cfg: Config, s: System<T>, e: Event<T>)
    requires cfg.Valid() && Enabled(cfg, s, e) && Conserved(cfg, s) && (e.Put? || e.Get?)
    ensures Conserved(cfg, Step(cfg, s, e))
  {
    var t := Step(cfg, s, e);
    assert t.taken + t.q.contents == t.accepted;
  }

  lemma DrainConserves<T>(cfg: Config, s: System<T>, e: Event<T>)
    requires cfg.Valid() && Enabled(cfg, s, e) && Conserved(cfg, s)
    requires e.BeginDrain? || e.DrainOne? || e.DrainEmpty? || e.EndDrain?
    ensures Conserved(cfg, Step(cfg, s, e))
  {
    match e
    case BeginDrain => TotalAppend(s.draining, 0);
    case DrainOne(i) => TotalUpdate(s.draining, i, s.draining[i] + 1);
    case DrainEmpty(i) =>
      TotalWithout(s.draining, i);
      TotalAppend(s.drained, s.draining[i]);
    case EndDrain(i) => TotalWithout(s.drained, i);
  }

  // ---- Depth and pressure, with drains ----------------------------------------------------------

  ghost predicate NoDrain<T>(s: System<T>) {
    s.draining == [] && s.drained == []
  }

  /** Some bookkeeping that will read, or has read, a size of at least the high mark is outstanding. */
  ghost predicate RiseOutstanding<T>(cfg: Config, s: System<T>)
    requires cfg.Valid()
  {
    s.puts > 0 || (s.lock.Held? && s.lock.booking == Putting && Fill(cfg, s.lock.seen) >= cfg.high)
  }

  ghost predicate FallOutstanding<T>(cfg: Config, s: System<T>)
    requires cfg.Valid()
  {
    s.gets > 0 || !NoDrain(s) || (s.lock.Held? && s.lock.booking == Getting && Fill(cfg, s.lock.seen) < cfg.low)
  }

  /** A drain writes down a queue that is not empty. */
  predicate DrainsOver<T>(s: System<T>, e: Event<T>) {
    e.EndDrain? && s.q.contents != []
  }

  /** Bookkeeping of a put that read a size of at least the high mark ends. */
  predicate RiseBooked<T>(cfg: Config, s: System<T>, e: Event<T>)
    requires cfg.Valid()
  {
    e.EndBook? && s.lock.Held? && s.lock.booking == Putting && Fill(cfg, s.lock.seen) >= cfg.high
  }

  /** Whether a drain wrote down a queue that was not empty, and nothing has been written down since. */
  predicate StaleNext<T>(s: System<T>, e: Event<T>, stale: bool) {
    if e.EndDrain? then DrainsOver(s, e) else stale && !e.EndBook?
  }

  /**
   Whether a drain did so, and neither a drain of an empty queue nor a put that read a high size was
   written down since.
   */
  predicate LostNext<T>(cfg: Config, s: System<T>, e: Event<T>, lost: bool)
    requires cfg.Valid()
  {
    if e.EndDrain? then DrainsOver(s, e) else lost && !RiseBooked(cfg, s, e)
  }

  ghost predicate Tracks<T>(cfg: Config, s: System<T>, stale: bool, lost: bool)
    requires cfg.Valid()
  {
    TracksPressure(cfg, s, lost) && TracksDepth(s, stale)
  }

  ghost predicate TracksPressure<T>(cfg: Config, s: System<T>, lost: bool)
    requires cfg.Valid()
  {
    var size := |s.q.contents|;
    && (lost ==> !s.q.underPressure)
    && (!lost && Fill(cfg, size) >= cfg.high ==> s.q.underPressure || RiseOutstanding(cfg, s))
    && (Fill(cfg, size) < cfg.low ==> !s.q.underPressure || FallOutstanding(cfg, s))
    // A size read under the lock is outdated only by operations whose bookkeeping is still to come.
    && (s.lock.Held? ==> size <= s.lock.seen || s.puts > 0)
    && (s.lock.Held? ==> s.lock.seen <= size || s.gets > 0 || !NoDrain(s))
  }

  ghost predicate TracksDepth<T>(s: System<T>, stale: bool) {
    var size := |s.q.contents|;
    && (s.lock.Held? ==> size <= s.lock.seen || s.puts > 0)
    && (s.lock.Held? ==> s.lock.seen <= size || s.gets > 0 || !NoDrain(s))
    && (stale ==> s.q.depth == 0 && (size > 0 || s.gets > 0 || !NoDrain(s) || s.lock.Held?))
    && (!stale && s.lock == Free ==> s.q.depth == size || s.puts > 0 || s.gets > 0 || !NoDrain(s))
  }

  lemma StepTracks<T>(cfg: Config, s: System<T>, e: Event<T>, stale: bool, lost: bool)
    requires cfg.Valid() && Enabled(cfg, s, e) && Tracks(cfg, s, stale, lost)
    ensures Tracks(cfg, Step(cfg, s, e), StaleNext(s, e, stale), LostNext(cfg, s, e, lost))
  {
    StepTracksPressure(cfg, s, e, lost);
    StepTracksDepth(cfg, s, e, stale);
  }

  lemma StepTracksPressure<T>(cfg: Config, s: System<T>, e: Event<T>, lost: bool)
    requires cfg.Valid() && Enabled(cfg, s, e) && TracksPressure(cfg, s, lost)
    ensures TracksPressure(cfg, Step(cfg, s, e), LostNext(cfg, s, e, lost))
  {
    var size := |s.q.contents|;
    match e
    case Put(_) => FillMonotone(cfg, size, size + 1);
    case Get => FillMonotone(cfg, size - 1, size);
    case DrainOne(_) => FillMonotone(cfg, size - 1, size);
    case EndBook =>
      if s.lock.seen <= size { FillMonotone(cfg, s.lock.seen, size); }
      if size <= s.lock.seen { FillMonotone(cfg, size, s.lock.seen); }
    case EndDrain(_) => EmptyFill(cfg);
    case _ =>
  }

  lemma StepTracksDepth<T>(cfg: Config, s: System<T>, e: Event<T>, stale: bool)
    requires cfg.Valid() && Enabled(cfg, s, e) && TracksDepth(s, stale)
    ensures TracksDepth(Step(cfg, s, e), StaleNext(s, e, stale))
  {
  }

  // ---- Whole runs -------------------------------------------------------------------------------

  ghost predicate IsRun<T>(cfg: Config, states: seq<System<T>>, events: seq<Event<T>>) {
    && cfg.Valid() && |states| == |events| + 1 && states[0] == Initial()
    && forall i :: 0 <= i < |events| ==>
         Enabled(cfg, states[i], events[i]) && states[i + 1] == Step(cfg, states[i], events[i])
  }

  lemma {:induction false} RunConserves<T>(cfg: Config, states: seq<System<T>>, events: seq<Event<T>>, i: nat)
    requires IsRun(cfg, states, events) && i < |states|
    ensures Conserved(cfg, states[i])
  {
    if i > 0 {
      RunConserves(cfg, states, events, i - 1);
      StepConserves(cfg, states[i - 1], events[i - 1]);
    }
  }

  /** The depth was last written by a drain that found tasks in the queue. */
  ghost predicate Stale<T>(states: seq<System<T>>, events: seq<Event<T>>, i: nat)
    requires i <= |events| <= |states|
  {
    i > 0 && StaleNext(states[i - 1], events[i - 1], Stale(states, events, i - 1))
  }

  /** A drain that found tasks in the queue cleared the pressure flag, and nothing has put that right since. */
  ghost predicate Lost<T>(cfg: Config, states: seq<System<T>>, events: seq<Event<T>>, i: nat)
    requires cfg.Valid() && i <= |events| <= |states|
  {
    i > 0 && LostNext(cfg, states[i - 1], events[i - 1], Lost(cfg, states, events, i - 1))
  }

  lemma {:induction false} RunTracks<T>(cfg: Config, states: seq<System<T>>, events: seq<Event<T>>, i: nat)
    requires IsRun(cfg, states, events) && i < |states|
    ensures Tracks(cfg, states[i], Stale(states, events, i), Lost(cfg, states, events, i))
  {
    if i > 0 {
      RunTracks(cfg, states, events, i - 1);
      StepTracks(cfg, states[i - 1], events[i - 1], Stale(states, events, i - 1), Lost(cfg, states, events, i - 1));
    } else {
      EmptyFill(cfg);
    }
  }

  /** Without a drain that found tasks, neither can happen. */
  lemma {:induction false} NothingDrainedOver<T>(cfg: Config, states: seq<System<T>>, events: seq<Event<T>>, i: nat)
    requires cfg.Valid() && i <= |events| <= |states|
    requires forall k :: 0 <= k < i ==> !DrainsOver(states[k], events[k])
    ensures !Stale(states, events, i) && !Lost(cfg, states, events, i)
  {
    if i > 0 { NothingDrainedOver(cfg, states, events, i - 1); }
  }

  /** The tasks put by these events, in order. */
  ghost function TasksPut<T>(events: seq<Event<T>>): seq<T> {
    if events == [] then []
    else
      var last := events[|events| - 1];
      TasksPut(events[..|events| - 1]) + if last.Put? then [last.task] else []
  }

  ghost predicate EventsIn<T>(s: System<T>, past: seq<Event<T>>) {
    && s.accepted == TasksPut(past)
    && s.q.dropped + s.refusals == |Filter(past, (e: Event<T>) => e.Refuse?)|
    && |s.taken| == |Filter(past, (e: Event<T>) => e.Get? || e.DrainOne?)|
  }

  /** In every run the record holds the tasks that were put, and every refusal is counted or about to be. */
  lemma {:induction false} EventsCounted<T>(cfg: Config, states: seq<System<T>>, events: seq<Event<T>>, i: nat)
    requires IsRun(cfg, states, events) && i < |states|
    ensures EventsIn(states[i], events[..i])
  {
    if i > 0 {
      EventsCounted(cfg, states, events, i - 1);
      assert events[..i] == events[..i - 1] + [events[i - 1]];
      OneMoreEvent(cfg, states[i - 1], events[..i - 1], events[i - 1]);
    }
  }

  lemma OneMoreEvent<T>(cfg: Config, s: System<T>, events: seq<Event<T>>, e: Event<T>)
    requires cfg.Valid() && Enabled(cfg, s, e) && EventsIn(s, events)
    ensures EventsIn(Step(cfg, s, e), events + [e])
  {
    assert (events + [e])[..|events|] == events;
    assert s.accepted + [] == s.accepted;
  }

  /** No operation is between its put or get and the end of its bookkeeping. */
  ghost predicate Quiet<T>(s: System<T>) {
    s.puts == 0 && s.gets == 0 && s.lock == Free && NoDrain(s)
  }

  /** In every run the totals are exact whenever nothing is pending, drains included, and order is kept. */
  lemma TotalsAtQuiescence<T>(cfg: Config, states: seq<System<T>>, events: seq<Event<T>>, i: nat)
    requires IsRun(cfg, states, events) && i < |states| && Quiet(states[i])
    ensures states[i].q.enqueued - states[i].q.dequeued == |states[i].q.contents| <= cfg.maxSize
    ensures states[i].taken + states[i].q.contents == states[i].accepted
  {
    RunConserves(cfg, states, events, i);
  }

  /**
   In every run, drains included, a quiet moment shows the right depth and the right pressure exactly when
   no stale depth and no lost pressure is left over from a drain that found tasks in the queue.
   */
  lemma SettledIff<T>(cfg: Config, states: seq<System<T>>, events: seq<Event<T>>, i: nat)
    requires IsRun(cfg, states, events) && i < |states| && Quiet(states[i])
    ensures var q := states[i].q;
            && (q.depth == |q.contents| <==> !Stale(states, events, i))
            && (Fill(cfg, |q.contents|) >= cfg.high ==> (q.underPressure <==> !Lost(cfg, states, events, i)))
            && (Fill(cfg, |q.contents|) < cfg.low ==> !q.underPressure)
            && (Settled(cfg, q) <==> !Stale(states, events, i) &&
                                     (Lost(cfg, states, events, i) ==> Fill(cfg, |q.contents|) < cfg.high))
  {
    RunConserves(cfg, states, events, i);
    RunTracks(cfg, states, events, i);
  }

  /** In every run whose drains are written down on an empty queue, every quiet moment is settled. */
  lemma SettledAtQuiescence<T>(cfg: Config, states: seq<System<T>>, events: seq<Event<T>>, i: nat)
    requires IsRun(cfg, states, events) && i < |states| && Quiet(states[i])
    requires forall k :: 0 <= k < i ==> !DrainsOver(states[k], events[k])
    ensures Settled(cfg, states[i].q)
  {
    NothingDrainedOver(cfg, states, events, i);
    SettledIff(cfg, states, events, i);
  }

  // ---- Runs that a drain spoils -----------------------------------------------------------------

  function Last<T>(states: seq<System<T>>): System<T>
    requires states != []
  {
    states[|states| - 1]
  }

  /** A run goes on with any event that is possible. */
  lemma Continue<T>(cfg: Config, states: seq<System<T>>, events: seq<Event<T>>, e: Event<T>)
    returns (states': seq<System<T>>, events': seq<Event<T>>)
    requires IsRun(cfg, states, events) && Enabled(cfg, Last(states), e)
    ensures IsRun(cfg, states', events') && Last(states') == Step(cfg, Last(states), e)
  {
    states', events' := states + [Step(cfg, Last(states), e)], events + [e];
  }

  /** An enqueue with its bookkeeping, and nothing in between. */
  lemma EnqueueAlone<T>(cfg: Config, states: seq<System<T>>, events: seq<Event<T>>, task: T)
    returns (states': seq<System<T>>, events': seq<Event<T>>)
    requires IsRun(cfg, states, events)
    requires Last(states).lock == Free && Last(states).puts == 0 && |Last(states).q.contents| < cfg.maxSize
    ensures IsRun(cfg, states', events')
    ensures var s := Last(states);
            var q := PutTask(s.q, task).(enqueued := s.q.enqueued + 1);
            Last(states') == s.(q := BookPut(cfg, q, |q.contents|), accepted := s.accepted + [task])
  {
    states', events' := Continue(cfg, states, events, Put(task));
    states', events' := Continue(cfg, states', events', BeginBookPut);
    states', events' := Continue(cfg, states', events', EndBook);
  }

  /** A dequeue with its bookkeeping, and nothing in between. */
  lemma DequeueAlone<T>(cfg: Config, states: seq<System<T>>, events: seq<Event<T>>)
    returns (states': seq<System<T>>, events': seq<Event<T>>)
    requires IsRun(cfg, states, events)
    requires Last(states).lock == Free && Last(states).gets == 0 && Last(states).q.contents != []
    ensures IsRun(cfg, states', events')
    ensures var s := Last(states);
            var q := TakeTask(s.q).(dequeued := s.q.dequeued + 1);
            Last(states') == s.(q := BookGet(cfg, q, |q.contents|), taken := s.taken + [s.q.contents[0]])
  {
    states', events' := Continue(cfg, states, events, Get);
    states', events' := Continue(cfg, states', events', BeginBookGet);
    states', events' := Continue(cfg, states', events', EndBook);
  }

  /** A drain of an empty queue that has yet to write anything down. */
  lemma DrainRunsDry<T>(cfg: Config) returns (states: seq<System<T>>, events: seq<Event<T>>)
    requires cfg.Valid()
    ensures IsRun(cfg, states, events) && Last(states) == Initial<T>().(drained := [0])
  {
    states, events := [Initial()], [];
    states, events := Continue(cfg, states, events, BeginDrain);
    assert Last(states).draining == [0];
    states, events := Continue(cfg, states, events, DrainEmpty(0));
  }

  /** A drain that overlaps one enqueue can leave the reported depth wrong for good. */
  lemma DrainCanMisreport<T>(cfg: Config, task: T) returns (states: seq<System<T>>, events: seq<Event<T>>)
    requires cfg.Valid()
    ensures IsRun(cfg, states, events) && Quiet(Last(states))
    ensures Last(states).q.contents == [task] && Last(states).q.depth == 0
  {
    states, events := DrainRunsDry(cfg);
    states, events := EnqueueAlone(cfg, states, events, task);
    states, events := Continue(cfg, states, events, EndDrain(0));
  }

  /**
   A drain that overlaps two enqueues can also lose the pressure flag for good: after one more dequeue the
   depth is right and the queue is at its high mark, but the flag is down.
   */
  lemma DrainCanLosePressure<T>(a: T, b: T) returns (cfg: Config, states: seq<System<T>>, events: seq<Event<T>>)
    ensures IsRun(cfg, states, events) && Quiet(Last(states))
    ensures Last(states).q.contents == [b] && Last(states).q.depth == 1
    ensures Fill(cfg, 1) >= cfg.high && !Last(states).q.underPressure
  {
    cfg := Config(2, 0.5, 0.0);
    states, events := DrainRunsDry(cfg);
    states, events := EnqueueAlone(cfg, states, events, a);
    states, events := EnqueueAlone(cfg, states, events, b);
    states, events := Continue(cfg, states, events, EndDrain(0));
    assert Last(states).q.contents == [a, b];
    states, events := DequeueAlone(cfg, states, events);
  }

  /** If everything else is written down, a drain's bookkeeping settles the queue exactly when it is empty. */
  lemma DrainSettlesIffEmpty<T>(cfg: Config, s: System<T>)
    requires cfg.Valid() && Conserved(cfg, s) && |s.drained| == 1 && s.draining == [] && s.puts == s.gets == 0
    requires s.lock == Free
    ensures Quiet(Step(cfg, s, EndDrain(0)))
    ensures Settled(cfg, Step(cfg, s, EndDrain(0)).q) <==> s.q.contents == []
  {
    StepConserves(cfg, s, EndDrain(0));
    EmptyFill(cfg);
  }
}
