/** The backpressure monitor: registered queues and the weighted mean of how full they are. */
module Monitor {
  import opened Quotients
  import opened Totals

  datatype QueueMetrics = QueueMetrics(currentDepth: int, maxDepth: int, weight: real) {
    /** The fill fraction; an unbounded queue never counts as full. */
    function Utilization(): (u: real)
      ensures currentDepth >= 0 ==> 0.0 <= u <= 1.0
      ensures u >= 1.0 <==> 0 < maxDepth <= currentDepth
      ensures currentDepth >= 0 ==> (u == 0.0 <==> maxDepth <= 0 || currentDepth == 0)
    {
      if maxDepth <= 0 then 0.0
      else
        var fill := currentDepth as real / maxDepth as real;
        if fill < 1.0 then fill else 1.0
    }

    /** What the queue contributes to the score. */
    function Load(): real {
      Utilization() * weight
    }
  }

  datatype Outcome = Done | ValueError | KeyError

  ghost predicate WellFormed(qs: map<string, QueueMetrics>) {
    forall n :: n in qs ==> qs[n].currentDepth >= 0 && qs[n].maxDepth >= 0 && qs[n].weight >= 0.0
  }

  ghost function Weights(qs: map<string, QueueMetrics>): map<string, real> {
    map n | n in qs :: qs[n].weight
  }

  ghost function Loads(qs: map<string, QueueMetrics>): map<string, real> {
    map n | n in qs :: qs[n].Load()
  }

  ghost function Pressure(qs: map<string, QueueMetrics>): real {
    var total := Sum(Weights(qs), qs.Keys);
    if total == 0.0 then 0.0 else Sum(Loads(qs), qs.Keys) / total
  }

  /** One pass over the queues for both sums. */
  method SumUp(qs: map<string, QueueMetrics>) returns (totalWeight: real, weightedSum: real)
    ensures totalWeight == Sum(Weights(qs), qs.Keys)
    ensures weightedSum == Sum(Loads(qs), qs.Keys)
  {
    totalWeight, weightedSum := 0.0, 0.0;
    ghost var weights, loads, done := Weights(qs), Loads(qs), {};
    var left := qs.Keys;
    while left != {}
      invariant left !! done && left + done == qs.Keys
      invariant weights == Weights(qs) && loads == Loads(qs)
      invariant totalWeight == Sum(weights, done) && weightedSum == Sum(loads, done)
      decreases left
    {
      var n :| n in left;
      SumJoin(weights, done, n);
      SumJoin(loads, done, n);
      totalWeight := totalWeight + qs[n].weight;
      weightedSum := weightedSum + qs[n].Load();
      left, done := left - {n}, done + {n};
    }
    assert done == qs.Keys;
  }

  datatype Thresholds = Thresholds(warn: real, critical: real) {
    /** The checks of the constructor. */
    predicate Valid() {
      0.0 <= warn < critical <= 1.0
    }
  }

  class BackpressureMonitor {
    const thresholds: Thresholds
    var queues: map<string, QueueMetrics>

    ghost predicate Valid()
      reads this
    {
      thresholds.Valid() && WellFormed(queues)
    }

    constructor (thresholds: Thresholds)
      requires thresholds.Valid()
      ensures Valid() && queues == map[] && this.thresholds == thresholds
    {
      this.thresholds := thresholds;
      queues := map[];
    }

    method RegisterQueue(name: string, maxDepth: int, weight: real) returns (r: Outcome)
      requires Valid()
      modifies this
      ensures Valid()
      ensures r == if weight < 0.0 || maxDepth < 0 then ValueError else Done
      ensures queues == if r == Done then old(queues)[name := QueueMetrics(0, maxDepth, weight)] else old(queues)
    {
      if weight < 0.0 || maxDepth < 0 { return ValueError; }
      queues := queues[name := QueueMetrics(0, maxDepth, weight)];
      r := Done;
    }

    method DeregisterQueue(name: string)
      requires Valid()
      modifies this
      ensures Valid() && queues == old(queues) - {name}
    {
      queues := queues - {name};
    }

    method UpdateDepth(name: string, depth: int) returns (r: Outcome)
      requires Valid()
      modifies this
      ensures Valid()
      ensures r == if depth < 0 then ValueError else if name !in old(queues) then KeyError else Done
      ensures queues ==
              if r == Done then old(queues)[name := old(queues)[name].(currentDepth := depth)] else old(queues)
    {
      if depth < 0 { return ValueError; }
      if name !in queues { return KeyError; }
      queues := queues[name := queues[name].(currentDepth := depth)];
      r := Done;
    }

    /** The bulk form skips unknown names and reads a negative depth as zero. */
    method UpdateDepths(depths: map<string, int>)
      requires Valid()
      modifies this
      ensures Valid() && queues.Keys == old(queues).Keys
      ensures forall n :: n in queues ==>
                queues[n] == if n in depths then old(queues)[n].(currentDepth := if depths[n] > 0 then depths[n] else 0)
                             else old(queues)[n]
    {
      var left := depths.Keys;
      while left != {}
        invariant left <= depths.Keys && WellFormed(queues) && queues.Keys == old(queues).Keys
        invariant forall n :: n in queues ==>
                    queues[n] == if n in depths && n !in left
                                 then old(queues)[n].(currentDepth := if depths[n] > 0 then depths[n] else 0)
                                 else old(queues)[n]
        decreases left
      {
        var n :| n in left;
        if n in queues {
          queues := queues[n := queues[n].(currentDepth := if depths[n] > 0 then depths[n] else 0)];
        }
        left := left - {n};
      }
    }

    method PressureScore() returns (p: real)
      requires Valid()
      ensures p == Pressure(queues)
      ensures 0.0 <= p <= 1.0
    {
      PressureRange(queues);
      if queues == map[] { return 0.0; }
      var totalWeight, weightedSum := SumUp(queues);
      if totalWeight == 0.0 { return 0.0; }
      p := weightedSum / totalWeight;
    }

    method IsWarn() returns (b: bool)
      requires Valid()
      ensures b <==> Pressure(queues) >= thresholds.warn
    {
      var p := PressureScore();
      b := p >= thresholds.warn;
    }

    method IsCritical() returns (b: bool)
      requires Valid()
      ensures b <==> Pressure(queues) >= thresholds.critical
      ensures b ==> Pressure(queues) >= thresholds.warn
    {
      var p := PressureScore();
      b := p >= thresholds.critical;
    }
  }

  // ---- What the score means ---------------------------------------------------------------------

  lemma LoadWithinWeight(q: QueueMetrics)
    requires q.currentDepth >= 0 && q.weight >= 0.0
    ensures 0.0 <= q.Load() <= q.weight
    ensures q.Load() == 0.0 <==> q.Utilization() == 0.0 || q.weight == 0.0
    ensures q.Load() == q.weight <==> q.Utilization() == 1.0 || q.weight == 0.0
  {
    var u := q.Utilization();
    assert (1.0 - u) * q.weight == q.weight - u * q.weight;
  }

  ghost function Zeros(qs: map<string, QueueMetrics>): map<string, real> {
    map n | n in qs :: 0.0
  }

  /** The load is nothing exactly when everything that weighs is empty. */
  lemma LoadFloor(qs: map<string, QueueMetrics>)
    requires WellFormed(qs)
    ensures 0.0 <= Sum(Loads(qs), qs.Keys)
    ensures Sum(Loads(qs), qs.Keys) == 0.0 <==>
            forall n :: n in qs ==> qs[n].Utilization() == 0.0 || qs[n].weight == 0.0
  {
    var zeros, loads := Zeros(qs), Loads(qs);
    forall n | n in qs
      ensures zeros[n] <= loads[n]
      ensures zeros[n] == loads[n] <==> qs[n].Utilization() == 0.0 || qs[n].weight == 0.0
    {
      LoadWithinWeight(qs[n]);
    }
    SumZero(zeros, qs.Keys);
    SumOrder(zeros, loads, qs.Keys);
  }

  /** The load is the whole weight exactly when everything that weighs is full. */
  lemma LoadCeiling(qs: map<string, QueueMetrics>)
    requires WellFormed(qs)
    ensures Sum(Loads(qs), qs.Keys) <= Sum(Weights(qs), qs.Keys)
    ensures Sum(Loads(qs), qs.Keys) == Sum(Weights(qs), qs.Keys) <==>
            forall n :: n in qs ==> qs[n].Utilization() == 1.0 || qs[n].weight == 0.0
  {
    var loads, weights := Loads(qs), Weights(qs);
    forall n | n in qs
      ensures loads[n] <= weights[n]
      ensures loads[n] == weights[n] <==> qs[n].Utilization() == 1.0 || qs[n].weight == 0.0
    {
      LoadWithinWeight(qs[n]);
    }
    SumOrder(loads, weights, qs.Keys);
  }

  /** The total weight is nothing exactly when no queue weighs anything. */
  lemma WeightFloor(qs: map<string, QueueMetrics>)
    requires WellFormed(qs)
    ensures Sum(Weights(qs), qs.Keys) == 0.0 <==> forall n :: n in qs ==> qs[n].weight == 0.0
  {
    var zeros, weights := Zeros(qs), Weights(qs);
    forall n | n in qs ensures zeros[n] <= weights[n] && (zeros[n] == weights[n] <==> qs[n].weight == 0.0) {}
    SumZero(zeros, qs.Keys);
    SumOrder(zeros, weights, qs.Keys);
  }

  /** The score is a mean: between 0 and 1, 0 only when every queue that weighs anything is empty or unbounded. */
  lemma PressureRange(qs: map<string, QueueMetrics>)
    requires WellFormed(qs)
    ensures 0.0 <= Pressure(qs) <= 1.0
    ensures Pressure(qs) == 0.0 <==> forall n :: n in qs ==> qs[n].Utilization() == 0.0 || qs[n].weight == 0.0
  {
    LoadFloor(qs);
    LoadCeiling(qs);
    var total, load := Sum(Weights(qs), qs.Keys), Sum(Loads(qs), qs.Keys);
    if total > 0.0 { PartOfWhole(load, total); }
  }

  /** Up to a full queue the utilization is the part of the depth in use. */
  lemma UtilizationIsFraction(q: QueueMetrics)
    requires 0 <= q.currentDepth <= q.maxDepth
    ensures q.Utilization() * q.maxDepth as real == q.currentDepth as real
  {
    if q.maxDepth > 0 {
      QuotientTimes(q.currentDepth as real, q.maxDepth as real);
      PartOfWhole(q.currentDepth as real, q.maxDepth as real);
    }
  }

  /** Up to a full queue its load is the part of its weight that is the part of its depth in use. */
  lemma LoadIsShare(q: QueueMetrics)
    requires 0 <= q.currentDepth <= q.maxDepth
    ensures q.Load() * q.maxDepth as real == q.currentDepth as real * q.weight
  {
    UtilizationIsFraction(q);
    var u, m := q.Utilization(), q.maxDepth as real;
    assert u * q.weight * m == u * m * q.weight;
  }

  /** Another queue adds its weight to the total weight and its load to the total load. */
  lemma OneMoreQueue(qs: map<string, QueueMetrics>, name: string, q: QueueMetrics)
    requires name !in qs
    ensures Sum(Weights(qs[name := q]), qs.Keys + {name}) == Sum(Weights(qs), qs.Keys) + q.weight
    ensures Sum(Loads(qs[name := q]), qs.Keys + {name}) == Sum(Loads(qs), qs.Keys) + q.Load()
  {
    assert Weights(qs[name := q]) == Weights(qs)[name := q.weight];
    assert Loads(qs[name := q]) == Loads(qs)[name := q.Load()];
    SumGrows(Weights(qs), qs.Keys, name, q.weight);
    SumGrows(Loads(qs), qs.Keys, name, q.Load());
  }

  /** The score times the total weight is the total load. */
  lemma PressureTimesWeight(qs: map<string, QueueMetrics>, total: real)
    requires WellFormed(qs) && total == Sum(Weights(qs), qs.Keys)
    ensures Pressure(qs) * total == Sum(Loads(qs), qs.Keys)
  {
    if total == 0.0 {
      NoWeightNoLoad(qs);
    } else {
      QuotientTimes(Sum(Loads(qs), qs.Keys), total);
    }
  }

  lemma NoWeightNoLoad(qs: map<string, QueueMetrics>)
    requires WellFormed(qs) && Sum(Weights(qs), qs.Keys) == 0.0
    ensures Sum(Loads(qs), qs.Keys) == 0.0
  {
    LoadFloor(qs);
    LoadCeiling(qs);
  }

  lemma SumGrows(values: map<string, real>, names: set<string>, x: string, v: real)
    requires names <= values.Keys && x !in names
    ensures Sum(values[x := v], names + {x}) == Sum(values, names) + v
  {
    SumJoin(values[x := v], names, x);
    SumOrder(values, values[x := v], names);
  }

  /** The score is 1 exactly when something weighs and everything that weighs is full. */
  lemma FullPressure(qs: map<string, QueueMetrics>)
    requires WellFormed(qs)
    ensures Pressure(qs) == 1.0 <==>
            && (exists n :: n in qs && qs[n].weight > 0.0)
            && (forall n :: n in qs ==> qs[n].Utilization() == 1.0 || qs[n].weight == 0.0)
  {
    LoadFloor(qs);
    LoadCeiling(qs);
    WeightFloor(qs);
    var total, load := Sum(Weights(qs), qs.Keys), Sum(Loads(qs), qs.Keys);
    if total > 0.0 { PartOfWhole(load, total); }
  }

  /** Fuller queues never lower the score. */
  lemma PressureRises(qs: map<string, QueueMetrics>, qs': map<string, QueueMetrics>)
    requires WellFormed(qs) && WellFormed(qs') && qs.Keys == qs'.Keys
    requires forall n :: n in qs ==> qs[n].weight == qs'[n].weight && qs[n].maxDepth == qs'[n].maxDepth
    requires forall n :: n in qs ==> qs[n].currentDepth <= qs'[n].currentDepth
    ensures Pressure(qs) <= Pressure(qs')
  {
    assert Weights(qs) == Weights(qs');
    forall n | n in qs ensures Loads(qs)[n] <= Loads(qs')[n] { LoadRises(qs[n], qs'[n]); }
    SumOrder(Loads(qs), Loads(qs'), qs.Keys);
    LoadFloor(qs);
    LoadCeiling(qs);
    var total := Sum(Weights(qs), qs.Keys);
    if total > 0.0 { QuotientRises(Sum(Loads(qs), qs.Keys), Sum(Loads(qs'), qs.Keys), total); }
  }

  lemma LoadRises(q: QueueMetrics, q': QueueMetrics)
    requires q.weight == q'.weight >= 0.0 && q.maxDepth == q'.maxDepth && q.currentDepth <= q'.currentDepth
    ensures q.Load() <= q'.Load()
  {
    if q.maxDepth > 0 { QuotientRises(q.currentDepth as real, q'.currentDepth as real, q.maxDepth as real); }
    var d := q'.Utilization() - q.Utilization();
    assert d * q.weight == q'.Utilization() * q.weight - q.Utilization() * q.weight;
  }
}
