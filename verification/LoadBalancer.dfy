/** The load balancer: a pool of endpoints in registration order and four ways of choosing one. */
module LoadBalancer {
  import opened Sequences
  import opened SmoothWeights
  import opened Sums

  datatype EndpointData = EndpointData(name: string, host: string, port: int, weight: real, healthy: bool)

  /** An endpoint passed its constructor's checks: a positive weight and a port in range. */
  type Endpoint = e: EndpointData | e.weight > 0.0 && 0 < e.port <= 65535
    witness EndpointData("", "", 1, 1.0, true)

  datatype Strategy = RoundRobin | WeightedRoundRobin | LeastConnections | Random

  ghost predicate UniqueNames(eps: seq<Endpoint>) {
    forall i, j :: 0 <= i < j < |eps| ==> eps[i].name != eps[j].name
  }

  function Names(eps: seq<Endpoint>): set<string> {
    if eps == [] then {} else {eps[0].name} + Names(eps[1..])
  }

  lemma {:induction false} NamesMember(eps: seq<Endpoint>)
    ensures forall x :: x in Names(eps) <==> exists i :: 0 <= i < |eps| && eps[i].name == x
  {
    if eps != [] {
      NamesMember(eps[1..]);
      forall x ensures x in Names(eps) <==> exists i :: 0 <= i < |eps| && eps[i].name == x {
        if i :| 0 <= i < |eps| && eps[i].name == x {
          if i > 0 { assert eps[1..][i - 1].name == x; }
        }
        if x in Names(eps[1..]) {
          var i :| 0 <= i < |eps[1..]| && eps[1..][i].name == x;
          assert eps[i + 1].name == x;
        }
      }
    }
  }

  /** The position of the endpoint of that name, or the length of the list. */
  function FindName(eps: seq<Endpoint>, name: string): (k: nat)
    ensures k <= |eps| && (k < |eps| ==> eps[k].name == name)
    ensures forall i :: 0 <= i < k ==> eps[i].name != name
  {
    if eps == [] || eps[0].name == name then 0 else 1 + FindName(eps[1..], name)
  }

  /** Replaces the endpoint of that name in place, or appends it: insertion into an ordered dictionary. */
  function Put(eps: seq<Endpoint>, e: Endpoint): seq<Endpoint> {
    var k := FindName(eps, e.name);
    if k < |eps| then eps[k := e] else eps + [e]
  }

  lemma PutEffect(eps: seq<Endpoint>, e: Endpoint)
    requires UniqueNames(eps)
    ensures UniqueNames(Put(eps, e)) && Names(Put(eps, e)) == Names(eps) + {e.name}
    ensures forall x :: x in Put(eps, e) <==> x == e || (x in eps && x.name != e.name)
  {
    var k, r := FindName(eps, e.name), Put(eps, e);
    assert r[k] == e;
    NamesMember(eps);
    NamesMember(r);
    forall x ensures x in Names(r) <==> x in Names(eps) + {e.name} {
      if i :| 0 <= i < |eps| && eps[i].name == x {
        assert r[i].name == x;
      }
      if i :| 0 <= i < |r| && r[i].name == x && i < |eps| {
        assert eps[i].name == x;
      }
    }
    forall x | x in eps && x.name != e.name ensures x in r {
      var i :| 0 <= i < |eps| && eps[i] == x;
      assert r[i] == x;
    }
    assert k < |eps| ==> eps[k] in eps;
  }

  lemma {:induction false} FilterEffect(eps: seq<Endpoint>, keep: Endpoint -> bool)
    requires UniqueNames(eps)
    ensures UniqueNames(Filter(eps, keep))
    ensures forall x :: x in Filter(eps, keep) <==> x in eps && keep(x)
  {
    FilterMembers(eps, keep);
    if eps != [] {
      var front, last := eps[..|eps| - 1], eps[|eps| - 1];
      FilterEffect(front, keep);
      forall x | x in Filter(front, keep) ensures x.name != last.name {
        var i :| 0 <= i < |front| && front[i] == x;
        assert eps[i].name != eps[|eps| - 1].name;
      }
    }
  }

  function IsNot(name: string): Endpoint -> bool {
    (e: Endpoint) => e.name != name
  }

  lemma NamedMember(eps: seq<Endpoint>)
    ensures forall x :: x in Names(eps) <==> exists e :: e in eps && e.name == x
  {
    NamesMember(eps);
    forall x ensures x in Names(eps) <==> exists e :: e in eps && e.name == x {
      if i :| 0 <= i < |eps| && eps[i].name == x { assert eps[i] in eps; }
    }
  }

  lemma RemoveName(eps: seq<Endpoint>, name: string)
    requires UniqueNames(eps)
    ensures Names(Filter(eps, IsNot(name))) == Names(eps) - {name}
  {
    FilterMembers(eps, IsNot(name));
    NamedMember(eps);
    NamedMember(Filter(eps, IsNot(name)));
  }

  lemma SomeNames(eps: seq<Endpoint>, some: seq<Endpoint>)
    requires forall e :: e in some ==> e in eps
    ensures Names(some) <= Names(eps)
    ensures forall e :: e in some ==> e.name in Names(some)
  {
    NamesMember(eps);
    NamesMember(some);
    forall x | x in Names(some) ensures x in Names(eps) {
      var i :| 0 <= i < |some| && some[i].name == x;
      assert some[i] in eps;
    }
  }

  function Weights(eps: seq<Endpoint>): (ws: seq<real>)
    ensures |ws| == |eps| && forall i :: 0 <= i < |eps| ==> ws[i] == eps[i].weight
  {
    seq(|eps|, i requires 0 <= i < |eps| => eps[i].weight)
  }

  /** The current weights of a list of endpoints, zero where there is no record. */
  function CurrentOf(eps: seq<Endpoint>, current: map<string, real>): seq<real> {
    seq(|eps|, i requires 0 <= i < |eps| => if eps[i].name in current then current[eps[i].name] else 0.0)
  }

  /** Nothing outside `names` differs between two records. */
  ghost predicate SameOutside(current: map<string, real>, before: map<string, real>, names: set<string>) {
    forall x :: x in current && x !in names ==> x in before && current[x] == before[x]
  }

  lemma OutsideStep(current: map<string, real>, before: map<string, real>, names: set<string>, name: string, v: real)
    requires SameOutside(current, before, names) && name in names
    ensures SameOutside(current[name := v], before, names)
  {
  }

  // ---- Health -----------------------------------------------------------------------------------

  predicate IsHealthy(health: map<string, bool>, e: Endpoint) {
    e.name in health && health[e.name]
  }

  function HealthyOf(eps: seq<Endpoint>, health: map<string, bool>): seq<Endpoint> {
    Filter(eps, (e: Endpoint) => IsHealthy(health, e))
  }

  /** The list holds the healthy ones of the registered endpoints, each at its place in the registration order. */
  ghost predicate HealthyAt(eps: seq<Endpoint>, health: map<string, bool>, list: seq<Endpoint>, at: seq<nat>) {
    && |at| == |list|
    && (forall k :: 0 <= k < |at| ==> at[k] < |eps| && list[k] == eps[at[k]])
    && (forall j, k :: 0 <= j < k < |at| ==> at[j] < at[k])
    && forall e :: e in list <==> e in eps && e.name in health && health[e.name]
  }

  ghost predicate AllHealthy(eps: seq<Endpoint>, health: map<string, bool>, list: seq<Endpoint>) {
    exists at :: HealthyAt(eps, health, list, at)
  }

  lemma HealthyInOrder(eps: seq<Endpoint>, health: map<string, bool>)
    requires UniqueNames(eps)
    ensures UniqueNames(HealthyOf(eps, health)) && AllHealthy(eps, health, HealthyOf(eps, health))
  {
    var keep := (e: Endpoint) => IsHealthy(health, e);
    FilterEffect(eps, keep);
    FilterPositions(eps, keep);
    PositionsRise(Marks(eps, keep));
    assert HealthyAt(eps, health, HealthyOf(eps, health), Positions(Marks(eps, keep)));
  }

  lemma NoneHealthy(eps: seq<Endpoint>, health: map<string, bool>)
    requires AllHealthy(eps, health, HealthyOf(eps, health))
    ensures HealthyOf(eps, health) == [] <==> forall e :: e in eps ==> !(e.name in health && health[e.name])
  {
    SomeMember(HealthyOf(eps, health));
  }

  /** The endpoint is the pick of the smooth weights, and the current weights take their next step. */
  ghost predicate WeightedChoice(healthy: seq<Endpoint>, before: map<string, real>, after: map<string, real>,
                                 best: Endpoint)
    requires healthy != []
  {
    var cw, ws := CurrentOf(healthy, before), Weights(healthy);
    && best == healthy[Pick(cw, ws)] && CurrentOf(healthy, after) == Next(cw, ws)
    && SameOutside(after, before, Names(healthy))
  }

  class LoadBalancer {
    var endpoints: seq<Endpoint>
    var health: map<string, bool>
    var connections: map<string, nat>
    var current: map<string, real>
    var rrCounter: nat

    ghost predicate Valid()
      reads this
    {
      && UniqueNames(endpoints)
      && health.Keys == connections.Keys == current.Keys == Names(endpoints)
    }

    constructor ()
      ensures Valid() && endpoints == [] && rrCounter == 0
    {
      endpoints, health, connections, current, rrCounter := [], map[], map[], map[], 0;
    }

    /** Registers an endpoint with a zero current weight; a known name keeps its connection count. */
    method AddEndpoint(e: Endpoint)
      requires Valid()
      modifies this
      ensures Valid() && endpoints == Put(old(endpoints), e) && rrCounter == old(rrCounter)
      ensures health == old(health)[e.name := e.healthy] && current == old(current)[e.name := 0.0]
      ensures connections ==
              old(connections)[e.name := if e.name in old(connections) then old(connections)[e.name] else 0]
      ensures forall k :: 0 <= k < |old(endpoints)| && old(endpoints)[k].name == e.name ==>
                endpoints == old(endpoints)[k := e]
      ensures (forall k :: 0 <= k < |old(endpoints)| ==> old(endpoints)[k].name != e.name) ==>
                endpoints == old(endpoints) + [e]
    {
      PutEffect(endpoints, e);
      var existing := if e.name in connections then connections[e.name] else 0;
      endpoints := Put(endpoints, e);
      health, connections := health[e.name := e.healthy], connections[e.name := existing];
      current := current[e.name := 0.0];
    }

    method RemoveEndpoint(name: string)
      requires Valid()
      modifies this
      ensures Valid() && rrCounter == old(rrCounter)
      ensures endpoints == Filter(old(endpoints), IsNot(name))
      ensures forall x :: x in endpoints <==> x in old(endpoints) && x.name != name
      ensures health == old(health) - {name} && connections == old(connections) - {name}
      ensures current == old(current) - {name}
    {
      FilterEffect(endpoints, IsNot(name));
      RemoveName(endpoints, name);
      endpoints := Filter(endpoints, IsNot(name));
      health, connections, current := health - {name}, connections - {name}, current - {name};
    }

    method SetHealth(name: string, healthy: bool) returns (known: bool)
      requires Valid()
      modifies `health
      ensures Valid() && known == (name in Names(endpoints))
      ensures health == if known then old(health)[name := healthy] else old(health)
    {
      if name !in Names(endpoints) {
        return false;
      }
      health := health[name := healthy];
      return true;
    }

    method RecordOpen(name: string) returns (known: bool)
      requires Valid()
      modifies `connections
      ensures Valid() && known == (name in old(connections))
      ensures connections == if known then old(connections)[name := old(connections)[name] + 1] else old(connections)
    {
      if name !in connections {
        return false;
      }
      connections := connections[name := connections[name] + 1];
      return true;
    }

    method RecordClose(name: string) returns (known: bool)
      requires Valid()
      modifies `connections
      ensures Valid() && known == (name in old(connections))
      ensures !known ==> connections == old(connections)
      ensures known ==>
                var open := old(connections)[name];
                connections == old(connections)[name := if open > 0 then open - 1 else 0]
    {
      if name !in connections {
        return false;
      }
      connections := connections[name := if connections[name] > 0 then connections[name] - 1 else 0];
      return true;
    }

    function HealthyList(): seq<Endpoint>
      reads `endpoints, `health
    {
      HealthyOf(endpoints, health)
    }

    /** The first endpoint of the list that nobody undercuts. */
    ghost predicate FewestIn(healthy: seq<Endpoint>, best: Endpoint)
      requires forall e :: e in healthy ==> e.name in connections
      reads this
    {
      exists k :: 0 <= k < |healthy| && best == healthy[k] && FirstFewest(healthy, k)
    }

    ghost predicate FirstFewest(healthy: seq<Endpoint>, k: nat)
      requires k < |healthy| && forall e :: e in healthy ==> e.name in connections
      reads this
    {
      && (forall i :: 0 <= i < |healthy| ==> connections[healthy[k].name] <= connections[healthy[i].name])
      && (forall i :: 0 <= i < k ==> connections[healthy[k].name] < connections[healthy[i].name])
    }

    /** What each strategy does to the state and which endpoint it chooses from all those that are healthy. */
    method Select(strategy: Strategy) returns (r: Option<Endpoint>)
      requires Valid()
      modifies `rrCounter, `current
      ensures Valid()
      ensures AllHealthy(endpoints, health, HealthyList())
      ensures r.None? <==> HealthyList() == []
      ensures r.None? <==> forall e :: e in endpoints ==> !(e.name in health && health[e.name])
      ensures r.Some? ==> r.value in HealthyList()
      ensures r.Some? ==> r.value in endpoints && r.value.name in health && health[r.value.name]
      ensures strategy != RoundRobin || r.None? ==> rrCounter == old(rrCounter)
      ensures strategy != WeightedRoundRobin || r.None? ==> current == old(current)
      ensures strategy == RoundRobin && r.Some? ==>
                r.value == HealthyList()[old(rrCounter) % |HealthyList()|] && rrCounter == old(rrCounter) + 1
      ensures strategy == WeightedRoundRobin && r.Some? ==>
                WeightedChoice(HealthyList(), old(current), current, r.value)
      ensures strategy == LeastConnections && r.Some? ==>
                (forall e :: e in HealthyList() ==> e.name in connections) && FewestIn(HealthyList(), r.value)
    {
      HealthyInOrder(endpoints, health);
      NoneHealthy(endpoints, health);
      var healthy := HealthyList();
      if healthy == [] {
        return None;
      }
      var best := Choose(strategy, healthy);
      return Some(best);
    }

    /** One choice among healthy endpoints. */
    method Choose(strategy: Strategy, healthy: seq<Endpoint>) returns (best: Endpoint)
      requires Valid() && healthy != [] && UniqueNames(healthy) && forall e :: e in healthy ==> e in endpoints
      modifies `rrCounter, `current
      ensures Valid() && best in healthy
      ensures strategy != RoundRobin ==> rrCounter == old(rrCounter)
      ensures strategy != WeightedRoundRobin ==> current == old(current)
      ensures strategy == RoundRobin ==>
                best == healthy[old(rrCounter) % |healthy|] && rrCounter == old(rrCounter) + 1
      ensures strategy == WeightedRoundRobin ==> WeightedChoice(healthy, old(current), current, best)
      ensures strategy == LeastConnections ==>
                (forall e :: e in healthy ==> e.name in connections) && FewestIn(healthy, best)
    {
      SomeNames(endpoints, healthy);
      match strategy
      case RoundRobin =>
        var index := rrCounter % |healthy|;
        rrCounter := rrCounter + 1;
        best := healthy[index];
      case WeightedRoundRobin =>
        best := SelectWeighted(healthy);
      case LeastConnections =>
        best := FewestConnections(healthy);
      case Random =>
        var index :| 0 <= index < |healthy|;
        best := healthy[index];
    }

    method SelectWeighted(healthy: seq<Endpoint>) returns (best: Endpoint)
      requires Valid() && healthy != [] && UniqueNames(healthy) && Names(healthy) <= Names(endpoints)
      modifies `current
      ensures Valid()
      ensures WeightedChoice(healthy, old(current), current, best)
    {
      SomeNames(healthy, healthy);
      var totalWeight := TotalWeight(healthy);
      ghost var cw, ws := CurrentOf(healthy, current), Weights(healthy);
      var bestIndex, bestWeight;
      bestIndex, bestWeight := GainAll(healthy);
      best := healthy[bestIndex];
      PayTotal(healthy, bestIndex, totalWeight);
      NextFromBest(cw, ws, bestIndex, CurrentOf(healthy, current));
    }

    /** The winner pays the total weight. */
    method PayTotal(healthy: seq<Endpoint>, index: nat, total: real)
      requires Valid() && index < |healthy| && UniqueNames(healthy) && Names(healthy) <= Names(endpoints)
      modifies `current
      ensures Valid()
      ensures CurrentOf(healthy, current) ==
              CurrentOf(healthy, old(current))[index := CurrentOf(healthy, old(current))[index] - total]
      ensures SameOutside(current, old(current), Names(healthy))
    {
      var name := healthy[index].name;
      SomeNames(healthy, healthy);
      UpdateCurrent(healthy, current, index, current[name] - total);
      OutsideStep(current, current, Names(healthy), name, current[name] - total);
      current := current[name := current[name] - total];
    }

    /** The scan: every healthy endpoint gains its weight while the best so far is kept. */
    method GainAll(healthy: seq<Endpoint>) returns (bestIndex: nat, bestWeight: real)
      requires Valid() && healthy != [] && UniqueNames(healthy) && Names(healthy) <= Names(endpoints)
      modifies `current
      ensures Valid()
      ensures var bumped := Bumped(CurrentOf(healthy, old(current)), Weights(healthy));
              && CurrentOf(healthy, current) == bumped
              && IsBest(bumped, bestIndex) && bestWeight == bumped[bestIndex]
      ensures SameOutside(current, old(current), Names(healthy))
    {
      ghost var cw := CurrentOf(healthy, current);
      ghost var bumped := Bumped(cw, Weights(healthy));
      bestIndex, bestWeight := 0, 0.0;
      SomeNames(healthy, healthy);
      assert SameOutside(current, current, Names(healthy));
      for i := 0 to |healthy|
        invariant current.Keys == Names(endpoints)
        invariant CurrentOf(healthy, current) == Mixed(bumped, cw, i)
        invariant i > 0 ==> IsBest(bumped[..i], bestIndex) && bestWeight == bumped[bestIndex]
        invariant SameOutside(current, old(current), Names(healthy))
      {
        var ep := healthy[i];
        assert CurrentOf(healthy, current)[i] == cw[i];
        var gained := (if ep.name in current then current[ep.name] else 0.0) + ep.weight;
        assert gained == bumped[i];
        UpdateCurrent(healthy, current, i, gained);
        MixedStep(bumped, cw, i);
        OutsideStep(current, old(current), Names(healthy), ep.name, gained);
        current := current[ep.name := gained];
        BestStep(bumped, i, bestIndex);
        if i == 0 || gained > bestWeight {
          bestIndex, bestWeight := i, gained;
        }
      }
      assert bumped[..|healthy|] == bumped;
    }

    method FewestConnections(healthy: seq<Endpoint>) returns (best: Endpoint)
      requires healthy != [] && forall e :: e in healthy ==> e.name in connections
      ensures best in healthy && FewestIn(healthy, best)
    {
      best := healthy[0];
      ghost var k := 0;
      for i := 1 to |healthy|
        invariant 0 <= k < i && best == healthy[k]
        invariant forall j :: 0 <= j < i ==> connections[best.name] <= connections[healthy[j].name]
        invariant forall j :: 0 <= j < k ==> connections[best.name] < connections[healthy[j].name]
      {
        if connections[healthy[i].name] < connections[best.name] {
          best, k := healthy[i], i;
        }
      }
    }
  }

  method OneSelection(lb: LoadBalancer) returns (chosen: Endpoint)
    requires lb.Valid() && lb.HealthyList() != []
    modifies lb`current, lb`rrCounter
    ensures lb.Valid() && WeightedChoice(lb.HealthyList(), old(lb.current), lb.current, chosen)
  {
    var r := lb.Select(WeightedRoundRobin);
    chosen := r.value;
  }

  /**
   A caller that keeps selecting by weight, from zero current weights and with health unchanged, makes a record
   of selections, so that the fairness of every full window holds of the endpoints it is given.
   */
  method SelectRepeatedly(lb: LoadBalancer, n: nat)
    returns (chosen: seq<Endpoint>, ghost states: seq<seq<real>>, ghost picks: seq<nat>)
    requires lb.Valid() && lb.HealthyList() != []
    requires forall e :: e in lb.HealthyList() ==> e.name in lb.current && lb.current[e.name] == 0.0
    modifies lb`current, lb`rrCounter
    ensures |chosen| == |picks| == n && Selections(Weights(lb.HealthyList()), states, picks)
    ensures forall k :: 0 <= k < n ==> picks[k] < |lb.HealthyList()| && chosen[k] == lb.HealthyList()[picks[k]]
  {
    ghost var healthy := lb.HealthyList();
    ghost var weights, current := Weights(healthy), CurrentOf(healthy, lb.current);
    chosen, states, picks := [], [current], [];
    assert current == seq(|weights|, _ => 0.0) by {
      assert forall i :: 0 <= i < |healthy| ==> healthy[i] in healthy;
    }
    for k := 0 to n
      invariant lb.Valid() && lb.HealthyList() == healthy && current == CurrentOf(healthy, lb.current)
      invariant |chosen| == |picks| == k && Selections(weights, states, picks) && states[k] == current
      invariant forall j :: 0 <= j < k ==> picks[j] < |healthy| && chosen[j] == healthy[picks[j]]
    {
      var next := OneSelection(lb);
      OneMorePick(weights, states, picks);
      picks, states := picks + [Pick(current, weights)], states + [Next(current, weights)];
      current := Next(current, weights);
      chosen := chosen + [next];
    }
  }

  method TotalWeight(eps: seq<Endpoint>) returns (total: real)
    ensures total == Sum(Weights(eps))
  {
    total := 0.0;
    for i := 0 to |eps|
      invariant total == Sum(Weights(eps)[..i])
    {
      assert Weights(eps)[..i + 1][..i] == Weights(eps)[..i];
      total := total + eps[i].weight;
    }
    assert Weights(eps)[..|eps|] == Weights(eps);
  }

  lemma UpdateCurrent(eps: seq<Endpoint>, current: map<string, real>, i: nat, v: real)
    requires UniqueNames(eps) && i < |eps|
    ensures CurrentOf(eps, current[eps[i].name := v]) == CurrentOf(eps, current)[i := v]
  {
  }

  /** The first `i` entries of one list and the rest of another. */
  ghost function Mixed(xs: seq<real>, ys: seq<real>, i: nat): seq<real>
    requires |xs| == |ys|
  {
    seq(|xs|, k requires 0 <= k < |xs| => if k < i then xs[k] else ys[k])
  }

  lemma MixedStep(xs: seq<real>, ys: seq<real>, i: nat)
    requires |xs| == |ys| && i < |xs|
    ensures Mixed(xs, ys, i)[i := xs[i]] == Mixed(xs, ys, i + 1)
  {
  }

  /** Comparing strictly while scanning keeps the first maximum. */
  lemma BestStep(xs: seq<real>, i: nat, b: nat)
    requires i < |xs| && (i > 0 ==> IsBest(xs[..i], b))
    ensures IsBest(xs[..i + 1], if i == 0 || xs[i] > xs[b] then i else b)
  {
  }
}
