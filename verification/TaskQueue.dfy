/**
 The bounded queue with two pressure watermarks: its sections as functions on a queue value, and the
 class whose operations compose them. Putting or taking a task is atomic, and so is the read of the
 size inside the bookkeeping lock; the rest of the bookkeeping uses the size that was read.
 */
module TaskQueue {
  import opened Quotients

  datatype Config = Config(maxSize: int, high: real, low: real) {
    /** The checks of the constructor. */
    predicate Valid() {
      maxSize >= 1 && 0.0 < high <= 1.0 && 0.0 <= low < high
    }
  }

  datatype Queue<T> = Queue(contents: seq<T>, enqueued: nat, dequeued: nat, dropped: nat, underPressure: bool,
                            depth: nat)

  function Fill(cfg: Config, size: nat): real
    requires cfg.Valid()
  {
    size as real / cfg.maxSize as real
  }

  function PutTask<T>(q: Queue<T>, task: T): Queue<T> {
    q.(contents := q.contents + [task])
  }

  function TakeTask<T>(q: Queue<T>): Queue<T>
    requires q.contents != []
  {
    q.(contents := q.contents[1..])
  }

  /** Bookkeeping after a put, given the size that was read. */
  function BookPut<T>(cfg: Config, q: Queue<T>, seen: nat): Queue<T>
    requires cfg.Valid()
  {
    q.(underPressure := q.underPressure || Fill(cfg, seen) >= cfg.high, depth := seen)
  }

  /** Bookkeeping after a get, given the size that was read. */
  function BookGet<T>(cfg: Config, q: Queue<T>, seen: nat): Queue<T>
    requires cfg.Valid()
  {
    q.(underPressure := q.underPressure && !(Fill(cfg, seen) < cfg.low), depth := seen)
  }

  /** Bookkeeping after a drain of `count` tasks: the depth is reported as zero, whatever it is. */
  function BookDrain<T>(q: Queue<T>, count: nat): Queue<T> {
    q.(dequeued := q.dequeued + count, depth := 0, underPressure := false)
  }

  /** The fill is the fraction of the capacity in use. */
  lemma FillIsFraction(cfg: Config, size: nat)
    requires cfg.Valid()
    ensures Fill(cfg, size) * cfg.maxSize as real == size as real
    ensures Fill(cfg, size) == 1.0 <==> size == cfg.maxSize
  {
    var m := cfg.maxSize as real;
    assert Fill(cfg, size) == 1.0 ==> 1.0 * m == size as real;
    assert m / m == 1.0;
  }

  lemma FillMonotone(cfg: Config, a: nat, b: nat)
    requires cfg.Valid() && a <= b
    ensures Fill(cfg, a) <= Fill(cfg, b)
  {
    QuotientRises(a as real, b as real, cfg.maxSize as real);
  }

  /** Everything an observer may rely on when no operation is under way. */
  ghost predicate Settled<T>(cfg: Config, q: Queue<T>)
    requires cfg.Valid()
  {
    && |q.contents| <= cfg.maxSize
    && q.enqueued == q.dequeued + |q.contents|
    && q.depth == |q.contents|
    && (Fill(cfg, |q.contents|) >= cfg.high ==> q.underPressure)
    && (Fill(cfg, |q.contents|) < cfg.low ==> !q.underPressure)
  }

  class BackpressureQueue<T> {
    const config: Config
    var contents: seq<T>
    var enqueuedTotal: nat
    var dequeuedTotal: nat
    var droppedTotal: nat
    var underPressure: bool
    var reportedDepth: nat

    function View(): Queue<T>
      reads this
    {
      Queue(contents, enqueuedTotal, dequeuedTotal, droppedTotal, underPressure, reportedDepth)
    }

    constructor (config: Config)
      requires config.Valid()
      ensures this.config == config && View() == Queue([], 0, 0, 0, false, 0) && Settled(config, View())
    {
      this.config := config;
      contents, enqueuedTotal, dequeuedTotal, droppedTotal, underPressure, reportedDepth := [], 0, 0, 0, false, 0;
      new;
      FillMonotone(config, 0, 0);
    }

    method BookkeepPut()
      requires config.Valid()
      modifies this
      ensures var q := old(View()); View() == BookPut(config, q.(enqueued := q.enqueued + 1), |q.contents|)
    {
      enqueuedTotal := enqueuedTotal + 1;
      var currentSize := |contents|;
      var fill := currentSize as real / config.maxSize as real;
      if fill >= config.high && !underPressure {
        underPressure := true;
      }
      reportedDepth := currentSize;
    }

    method BookkeepGet()
      requires config.Valid()
      modifies this
      ensures var q := old(View()); View() == BookGet(config, q.(dequeued := q.dequeued + 1), |q.contents|)
    {
      dequeuedTotal := dequeuedTotal + 1;
      var currentSize := |contents|;
      var fill := currentSize as real / config.maxSize as real;
      if fill < config.low && underPressure {
        underPressure := false;
      }
      reportedDepth := currentSize;
    }

    /** Adds a task without waiting; a full queue refuses it and counts the refusal. */
    method EnqueueNowait(task: T) returns (ok: bool)
      requires config.Valid()
      modifies this
      ensures old(Settled(config, View())) ==> Settled(config, View())
      ensures ok == (|old(contents)| < config.maxSize)
      ensures contents == if ok then old(contents) + [task] else old(contents)
      ensures enqueuedTotal == old(enqueuedTotal) + (if ok then 1 else 0) && dequeuedTotal == old(dequeuedTotal)
      ensures droppedTotal == old(droppedTotal) + if ok then 0 else 1
      ensures ok ==> (underPressure <==> old(underPressure) || Fill(config, |contents|) >= config.high)
      ensures ok ==> reportedDepth == |contents|
      ensures !ok ==> underPressure == old(underPressure) && reportedDepth == old(reportedDepth)
    {
      if |contents| >= config.maxSize {
        droppedTotal := droppedTotal + 1;
        return false;
      }
      FillMonotone(config, |contents|, |contents| + 1);
      contents := contents + [task];
      BookkeepPut();
      return true;
    }

    /** Takes the oldest task without waiting; an empty queue has none. */
    method DequeueNowait() returns (ok: bool, task: seq<T>)
      requires config.Valid()
      modifies this
      ensures old(Settled(config, View())) ==> Settled(config, View())
      ensures ok == (old(contents) != [])
      ensures task + contents == old(contents) && |task| == if ok then 1 else 0
      ensures dequeuedTotal == old(dequeuedTotal) + |task| && enqueuedTotal == old(enqueuedTotal)
      ensures droppedTotal == old(droppedTotal)
      ensures ok ==> (underPressure <==> old(underPressure) && Fill(config, |contents|) >= config.low)
      ensures ok ==> reportedDepth == |contents|
      ensures !ok ==> View() == old(View())
    {
      if contents == [] {
        return false, [];
      }
      FillMonotone(config, |contents| - 1, |contents|);
      task := [contents[0]];
      contents := contents[1..];
      BookkeepGet();
      return true, task;
    }

    /** Empties the queue, oldest task first. */
    method DrainAll() returns (tasks: seq<T>)
      requires config.Valid()
      modifies this
      ensures old(Settled(config, View())) ==> Settled(config, View())
      ensures tasks == old(contents) && contents == [] && !underPressure && reportedDepth == 0
      ensures dequeuedTotal == old(dequeuedTotal) + |tasks| && enqueuedTotal == old(enqueuedTotal)
      ensures droppedTotal == old(droppedTotal)
    {
      tasks := [];
      while contents != []
        invariant tasks + contents == old(contents)
        invariant enqueuedTotal == old(enqueuedTotal) && dequeuedTotal == old(dequeuedTotal)
        invariant droppedTotal == old(droppedTotal)
        decreases |contents|
      {
        tasks := tasks + [contents[0]];
        contents := contents[1..];
      }
      dequeuedTotal := dequeuedTotal + |tasks|;
      reportedDepth := 0;
      if underPressure {
        underPressure := false;
      }
      EmptyFill(config);
    }
  }

  lemma EmptyFill(cfg: Config)
    requires cfg.Valid()
    ensures Fill(cfg, 0) == 0.0
  {
  }
}
