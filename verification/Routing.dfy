/**
 Routing strategies over a snapshot of the routing table, and the weighted combination of their
 rankings. Loads, costs, weights and scores are exact reals.
 */
module Routing {
  import opened Sequences
  import opened Ordering
  import opened Rotation

  datatype AgentRecord = AgentRecord(agentId: string, capabilities: set<string>, costPerToken: real,
                                     currentLoad: real, healthy: bool)

  datatype Request = Request(requiredCapabilities: set<string>, costBudget: Option<real>, estimatedTokens: int)

  /** The table is keyed by agent id, in registration order. */
  ghost predicate UniqueAgents(rs: seq<AgentRecord>) {
    forall i, j :: 0 <= i < j < |rs| ==> rs[i].agentId != rs[j].agentId
  }

  lemma {:induction false} FilterAgents(rs: seq<AgentRecord>, keep: AgentRecord -> bool)
    ensures forall r :: r in Filter(rs, keep) <==> r in rs && keep(r)
    ensures UniqueAgents(rs) ==> UniqueAgents(Filter(rs, keep))
  {
    FilterMembers(rs, keep);
    if rs != [] && UniqueAgents(rs) {
      var front, last := rs[..|rs| - 1], rs[|rs| - 1];
      FilterAgents(front, keep);
      forall r | r in front ensures r.agentId != last.agentId {
        var i :| 0 <= i < |front| && front[i] == r;
        assert rs[i].agentId != rs[|rs| - 1].agentId;
      }
    }
  }

  lemma {:induction false} FilterKeepsOrder(rs: seq<AgentRecord>, keep: AgentRecord -> bool, a: AgentRecord,
                                            b: AgentRecord)
    requires Precedes(rs, a, b) && keep(a) && keep(b)
    ensures Precedes(Filter(rs, keep), a, b)
  {
    var i, j :| 0 <= i < j < |rs| && rs[i] == a && rs[j] == b;
    var front := rs[..|rs| - 1];
    FilterAgents(front, keep);
    if j < |front| {
      assert front[i] == a && front[j] == b;
      FilterKeepsOrder(front, keep, a, b);
      var x, y :| 0 <= x < y < |Filter(front, keep)| && Filter(front, keep)[x] == a && Filter(front, keep)[y] == b;
      assert Filter(rs, keep)[x] == a && Filter(rs, keep)[y] == b;
    } else {
      assert front[i] == a;
      var x :| 0 <= x < |Filter(front, keep)| && Filter(front, keep)[x] == a;
      assert Filter(rs, keep)[x] == a && Filter(rs, keep)[|Filter(front, keep)|] == b;
    }
  }

  // ---- Stable sorting ---------------------------------------------------------------------------

  type Key = AgentRecord -> real

  /** Inserts after everything that is not larger. */
  function InsertBy(ys: seq<AgentRecord>, x: AgentRecord, key: Key): seq<AgentRecord> {
    if ys == [] || key(x) < key(ys[0]) then [x] + ys else [ys[0]] + InsertBy(ys[1..], x, key)
  }

  /** The stable ascending sort; a descending one sorts by the negated key. */
  function SortBy(xs: seq<AgentRecord>, key: Key): seq<AgentRecord> {
    if xs == [] then [] else InsertBy(SortBy(xs[..|xs| - 1], key), xs[|xs| - 1], key)
  }

  ghost predicate Ascending(ys: seq<AgentRecord>, key: Key) {
    forall i, j :: 0 <= i < j < |ys| ==> key(ys[i]) <= key(ys[j])
  }

  ghost predicate Precedes(ys: seq<AgentRecord>, a: AgentRecord, b: AgentRecord) {
    exists i, j :: 0 <= i < j < |ys| && ys[i] == a && ys[j] == b
  }

  /** Insertion lands right after the last key that is not larger. */
  lemma {:induction false} InsertPosition(ys: seq<AgentRecord>, x: AgentRecord, key: Key) returns (k: nat)
    requires Ascending(ys, key)
    ensures k <= |ys| && InsertBy(ys, x, key) == ys[..k] + [x] + ys[k..]
    ensures forall i :: 0 <= i < |ys| ==> (i < k <==> key(ys[i]) <= key(x))
  {
    if ys == [] || key(x) < key(ys[0]) {
      k := 0;
    } else {
      var rest := ys[1..];
      var inner := InsertPosition(rest, x, key);
      k := inner + 1;
      assert ys == [ys[0]] + rest;
      assert ys[..k] == [ys[0]] + rest[..inner];
      forall i | 0 <= i < |ys| ensures i < k <==> key(ys[i]) <= key(x) {
        if i > 0 { assert ys[i] == rest[i - 1]; }
      }
    }
  }

  lemma InsertEffect(ys: seq<AgentRecord>, x: AgentRecord, key: Key)
    requires Ascending(ys, key)
    ensures Ascending(InsertBy(ys, x, key), key)
    ensures multiset(InsertBy(ys, x, key)) == multiset(ys) + multiset{x}
  {
    var k := InsertPosition(ys, x, key);
    InsertedAt(ys, x, k, InsertBy(ys, x, key), key);
  }

  lemma InsertedAt(ys: seq<AgentRecord>, x: AgentRecord, k: nat, r: seq<AgentRecord>, key: Key)
    requires Ascending(ys, key) && k <= |ys| && r == ys[..k] + [x] + ys[k..]
    requires forall i :: 0 <= i < |ys| ==> (i < k <==> key(ys[i]) <= key(x))
    ensures Ascending(r, key) && multiset(r) == multiset(ys) + multiset{x}
  {
    assert multiset(r) == multiset(ys) + multiset{x} by { assert ys == ys[..k] + ys[k..]; }
    forall i, j | 0 <= i < j < |r| ensures key(r[i]) <= key(r[j]) {
      var p, q := if i < k then i else i - 1, if j < k then j else j - 1;
      if i == k {
        assert r[i] == x && r[j] == ys[q];
      } else if j == k {
        assert r[i] == ys[p] && r[j] == x;
      } else {
        assert r[i] == ys[p] && r[j] == ys[q];
        assert p < q;
      }
    }
  }

  /** Insertion keeps the order of what was there and comes after everything not larger. */
  lemma InsertIsStable(ys: seq<AgentRecord>, x: AgentRecord, key: Key, a: AgentRecord, b: AgentRecord)
    requires Ascending(ys, key)
    ensures Precedes(ys, a, b) ==> Precedes(InsertBy(ys, x, key), a, b)
    ensures a in ys && key(a) <= key(x) ==> Precedes(InsertBy(ys, x, key), a, x)
  {
    var k := InsertPosition(ys, x, key);
    if Precedes(ys, a, b) {
      var i, j :| 0 <= i < j < |ys| && ys[i] == a && ys[j] == b;
      StillPrecedes(ys, x, k, i, j);
    }
    if a in ys && key(a) <= key(x) {
      var i :| 0 <= i < |ys| && ys[i] == a;
      assert (ys[..k] + [x] + ys[k..])[i] == a && (ys[..k] + [x] + ys[k..])[k] == x;
    }
  }

  lemma StillPrecedes(ys: seq<AgentRecord>, x: AgentRecord, k: nat, i: nat, j: nat)
    requires i < j < |ys| && k <= |ys|
    ensures Precedes(ys[..k] + [x] + ys[k..], ys[i], ys[j])
  {
    var r := ys[..k] + [x] + ys[k..];
    var p, q := if i < k then i else i + 1, if j < k then j else j + 1;
    assert r[p] == ys[i] && r[q] == ys[j];
  }

  /** Sorting permutes, orders, and keeps the order of equal keys. */
  lemma {:induction false} SortEffect(xs: seq<AgentRecord>, key: Key)
    ensures Ascending(SortBy(xs, key), key)
    ensures multiset(SortBy(xs, key)) == multiset(xs)
  {
    if xs != [] {
      SortEffect(xs[..|xs| - 1], key);
      InsertEffect(SortBy(xs[..|xs| - 1], key), xs[|xs| - 1], key);
      assert xs == xs[..|xs| - 1] + [xs[|xs| - 1]];
    }
  }

  lemma {:induction false} SortIsStable(xs: seq<AgentRecord>, key: Key, a: AgentRecord, b: AgentRecord)
    requires Precedes(xs, a, b) && key(a) <= key(b)
    ensures Precedes(SortBy(xs, key), a, b)
  {
    var i, j :| 0 <= i < j < |xs| && xs[i] == a && xs[j] == b;
    var front, last := xs[..|xs| - 1], xs[|xs| - 1];
    SortEffect(front, key);
    InsertIsStable(SortBy(front, key), last, key, a, b);
    if j < |front| {
      assert front[i] == a && front[j] == b;
      SortIsStable(front, key, a, b);
    } else {
      assert front[i] == a;
      assert a in multiset(SortBy(front, key));
    }
  }

  lemma SmallerKeyFirst(xs: seq<AgentRecord>, key: Key, a: AgentRecord, b: AgentRecord)
    requires a in xs && b in xs && key(a) < key(b)
    ensures Precedes(SortBy(xs, key), a, b)
  {
    var ys := SortBy(xs, key);
    SortEffect(xs, key);
    assert a in multiset(ys) && b in multiset(ys);
    var i, j :| 0 <= i < |ys| && 0 <= j < |ys| && ys[i] == a && ys[j] == b;
    assert i < j;
  }

  /** The sort looks at the keys of the listed agents only. */
  lemma {:induction false} SortByAgrees(xs: seq<AgentRecord>, key: Key, key': Key)
    requires forall r :: r in xs ==> key(r) == key'(r)
    ensures SortBy(xs, key) == SortBy(xs, key')
  {
    if xs != [] {
      var front := xs[..|xs| - 1];
      SortByAgrees(front, key, key');
      SortEffect(front, key);
      forall r | r in SortBy(front, key) ensures key(r) == key'(r) {
        assert r in multiset(SortBy(front, key));
        assert r in front;
      }
      InsertByAgrees(SortBy(front, key), xs[|xs| - 1], key, key');
    }
  }

  lemma {:induction false} InsertByAgrees(ys: seq<AgentRecord>, x: AgentRecord, key: Key, key': Key)
    requires key(x) == key'(x) && forall r :: r in ys ==> key(r) == key'(r)
    ensures InsertBy(ys, x, key) == InsertBy(ys, x, key')
  {
    if ys != [] { InsertByAgrees(ys[1..], x, key, key'); }
  }

  lemma SameAgents(xs: seq<AgentRecord>, ys: seq<AgentRecord>)
    requires UniqueAgents(xs) && multiset(xs) == multiset(ys)
    ensures UniqueAgents(ys) && forall r :: r in ys <==> r in xs
  {
    forall r ensures r in ys <==> r in xs { assert r in multiset(ys) <==> r in multiset(xs); }
    DistinctMultiset(xs);
    MultisetDistinct(ys);
    forall i, j | 0 <= i < j < |ys| ensures ys[i].agentId != ys[j].agentId {
      assert ys[i] in xs && ys[j] in xs && ys[i] != ys[j];
    }
  }

  lemma SortKeepsUnique(xs: seq<AgentRecord>, key: Key)
    requires UniqueAgents(xs)
    ensures UniqueAgents(SortBy(xs, key)) && forall r :: r in SortBy(xs, key) <==> r in xs
  {
    SortEffect(xs, key);
    SameAgents(xs, SortBy(xs, key));
  }

  // ---- Strategies -------------------------------------------------------------------------------

  datatype Strategy =
    | CapabilityMatch(requireAll: bool, tieBreakByLoad: bool)
    | CostAware(safetyMargin: real)
    | LeastLoaded(loadCeiling: real)
    | RoundRobin(counter: nat)
    | Custom(rank: (seq<AgentRecord>, Request) -> seq<AgentRecord>)

  function HealthyAgents(table: seq<AgentRecord>): seq<AgentRecord> {
    Filter(table, (r: AgentRecord) => r.healthy)
  }

  predicate Matches(r: AgentRecord, required: set<string>, requireAll: bool) {
    if required == {} then true
    else if requireAll then required <= r.capabilities
    else required * r.capabilities != {}
  }

  predicate Affordable(r: AgentRecord, request: Request, margin: real) {
    request.costBudget.None? ||
    r.costPerToken * request.estimatedTokens as real <= request.costBudget.value * (1.0 - margin)
  }

  /** The insertion sort by agent id that makes round robin deterministic. */
  function InsertById(ys: seq<AgentRecord>, x: AgentRecord): seq<AgentRecord> {
    if ys == [] || Below(x.agentId, ys[0].agentId) then [x] + ys else [ys[0]] + InsertById(ys[1..], x)
  }

  function SortById(xs: seq<AgentRecord>): seq<AgentRecord> {
    if xs == [] then [] else InsertById(SortById(xs[..|xs| - 1]), xs[|xs| - 1])
  }

  function Rotate(xs: seq<AgentRecord>, k: nat): seq<AgentRecord>
    requires k <= |xs|
  {
    xs[k..] + xs[..k]
  }

  predicate FilterAndSort(s: Strategy) {
    s.CapabilityMatch? || s.CostAware? || s.LeastLoaded?
  }

  /** Whether a built-in strategy considers an agent at all. */
  predicate Passes(s: Strategy, request: Request, r: AgentRecord) {
    match s
    case CapabilityMatch(requireAll, _) => Matches(r, request.requiredCapabilities, requireAll)
    case CostAware(margin) => Affordable(r, request, margin)
    case LeastLoaded(ceiling) => r.currentLoad <= ceiling
    case RoundRobin(_) => true
    case Custom(_) => true
  }

  function Keeps(s: Strategy, request: Request): AgentRecord -> bool {
    (r: AgentRecord) => Passes(s, request, r)
  }

  /** What it orders by; capability matching without the tie-break keeps table order. */
  function OrderKey(s: Strategy): Key
    requires FilterAndSort(s)
  {
    match s
    case CapabilityMatch(_, byLoad) => ((r: AgentRecord) => if byLoad then r.currentLoad else 0.0)
    case CostAware(_) => ((r: AgentRecord) => r.costPerToken)
    case LeastLoaded(_) => ((r: AgentRecord) => r.currentLoad)
  }

  function Rank(s: Strategy, table: seq<AgentRecord>, request: Request): seq<AgentRecord> {
    var healthy := HealthyAgents(table);
    match s
    case RoundRobin(counter) =>
      var sorted := SortById(healthy);
      if sorted == [] then [] else Rotate(sorted, counter % |sorted|)
    case Custom(rank) => rank(table, request)
    case _ =>
      var found := Filter(healthy, Keeps(s, request));
      if s.CapabilityMatch? && !s.tieBreakByLoad then found else SortBy(found, OrderKey(s))
  }

  ghost predicate IdAscending(ys: seq<AgentRecord>) {
    forall i, j :: 0 <= i < j < |ys| ==> !Below(ys[j].agentId, ys[i].agentId)
  }

  /** Sorting by id permutes and puts the ids in order. */
  lemma {:induction false} SortByIdEffect(xs: seq<AgentRecord>)
    ensures multiset(SortById(xs)) == multiset(xs)
    ensures IdAscending(SortById(xs))
  {
    if xs != [] {
      SortByIdEffect(xs[..|xs| - 1]);
      InsertByIdEffect(SortById(xs[..|xs| - 1]), xs[|xs| - 1]);
      assert xs == xs[..|xs| - 1] + [xs[|xs| - 1]];
    }
  }

  lemma {:induction false} InsertByIdEffect(ys: seq<AgentRecord>, x: AgentRecord)
    requires IdAscending(ys)
    ensures multiset(InsertById(ys, x)) == multiset(ys) + multiset{x}
    ensures IdAscending(InsertById(ys, x))
  {
    if ys == [] {
    } else if Below(x.agentId, ys[0].agentId) {
      forall r | r in ys ensures !Below(r.agentId, x.agentId) {
        Trichotomy(r.agentId, x.agentId);
        if Below(r.agentId, x.agentId) { Transitive(r.agentId, x.agentId, ys[0].agentId); }
      }
      PrependAscending(x, ys);
    } else {
      var rest := ys[1..];
      InsertByIdEffect(rest, x);
      assert ys == [ys[0]] + rest;
      forall r | r in InsertById(rest, x) ensures !Below(r.agentId, ys[0].agentId) {
        assert r in multiset(InsertById(rest, x));
        assert r == x || r in rest;
      }
      PrependAscending(ys[0], InsertById(rest, x));
    }
  }

  lemma PrependAscending(x: AgentRecord, ys: seq<AgentRecord>)
    requires IdAscending(ys) && forall r :: r in ys ==> !Below(r.agentId, x.agentId)
    ensures IdAscending([x] + ys)
  {
  }

  /** A ranking the composite may rely on: healthy agents of the table, none twice. */
  ghost predicate IsRanking(table: seq<AgentRecord>, ranked: seq<AgentRecord>) {
    UniqueAgents(ranked) && forall r :: r in ranked ==> r in table && r.healthy
  }

  /** Every built-in strategy returns such a ranking, and names exactly the agents that pass its filter. */
  lemma BuiltInRanks(s: Strategy, table: seq<AgentRecord>, request: Request)
    requires UniqueAgents(table) && !s.Custom?
    ensures IsRanking(table, Rank(s, table, request))
    ensures forall r :: r in Rank(s, table, request) <==> r in table && r.healthy && Passes(s, request, r)
  {
    if s.RoundRobin? {
      RoundRobinRanks(table, request, s.counter);
    } else {
      FilterAndSortRanks(s, table, request);
    }
  }

  lemma FilterAndSortRanks(s: Strategy, table: seq<AgentRecord>, request: Request)
    requires UniqueAgents(table) && FilterAndSort(s)
    ensures UniqueAgents(Rank(s, table, request))
    ensures forall r :: r in Rank(s, table, request) <==> r in table && r.healthy && Passes(s, request, r)
  {
    var healthy := HealthyAgents(table);
    FilterAgents(table, (r: AgentRecord) => r.healthy);
    FilterAgents(healthy, Keeps(s, request));
    SortKeepsUnique(Filter(healthy, Keeps(s, request)), OrderKey(s));
  }

  /** Filter-and-sort rankings are by key, and equal keys stay in table order. */
  lemma RankOrder(s: Strategy, table: seq<AgentRecord>, request: Request, a: AgentRecord, b: AgentRecord)
    requires UniqueAgents(table) && FilterAndSort(s)
    requires a in Rank(s, table, request) && b in Rank(s, table, request)
    requires OrderKey(s)(a) < OrderKey(s)(b) || (OrderKey(s)(a) == OrderKey(s)(b) && Precedes(table, a, b))
    ensures Precedes(Rank(s, table, request), a, b)
  {
    var healthy := HealthyAgents(table);
    var found := Filter(healthy, Keeps(s, request));
    SortKeepsUnique(found, OrderKey(s)) by {
      FilterAgents(table, (r: AgentRecord) => r.healthy);
      FilterAgents(healthy, Keeps(s, request));
    }
    assert a in found && b in found;
    if Precedes(table, a, b) {
      FoundInOrder(table, Keeps(s, request), a, b);
    }
    if !s.CapabilityMatch? || s.tieBreakByLoad {
      if OrderKey(s)(a) < OrderKey(s)(b) {
        SmallerKeyFirst(found, OrderKey(s), a, b);
      } else {
        SortIsStable(found, OrderKey(s), a, b);
      }
    }
  }

  lemma FoundInOrder(table: seq<AgentRecord>, keep: AgentRecord -> bool, a: AgentRecord, b: AgentRecord)
    requires Precedes(table, a, b)
    requires a in Filter(HealthyAgents(table), keep) && b in Filter(HealthyAgents(table), keep)
    ensures Precedes(Filter(HealthyAgents(table), keep), a, b)
  {
    FilterAgents(HealthyAgents(table), keep);
    FilterAgents(table, (r: AgentRecord) => r.healthy);
    FilterKeepsOrder(table, (r: AgentRecord) => r.healthy, a, b);
    FilterKeepsOrder(HealthyAgents(table), keep, a, b);
  }

  // ---- What the filter-and-sort strategies rank -------------------------------------------------

  /** Capability matching ranks the healthy agents that have all, or some, of the capabilities asked for. */
  lemma CapableAgents(requireAll: bool, byLoad: bool, table: seq<AgentRecord>, request: Request, r: AgentRecord)
    requires UniqueAgents(table)
    ensures r in Rank(CapabilityMatch(requireAll, byLoad), table, request) <==>
            && r in table && r.healthy
            && (request.requiredCapabilities != {} ==>
                  if requireAll then forall c :: c in request.requiredCapabilities ==> c in r.capabilities
                  else exists c :: c in request.requiredCapabilities && c in r.capabilities)
  {
    BuiltInRanks(CapabilityMatch(requireAll, byLoad), table, request);
    var common := request.requiredCapabilities * r.capabilities;
    if c :| c in request.requiredCapabilities && c in r.capabilities { assert c in common; }
    if common != {} { var c :| c in common; }
  }

  /** Cost-aware routing ranks the healthy agents whose estimated cost is within the budget less its margin. */
  lemma AffordableAgents(margin: real, table: seq<AgentRecord>, request: Request, r: AgentRecord)
    requires UniqueAgents(table)
    ensures r in Rank(CostAware(margin), table, request) <==>
            && r in table && r.healthy
            && (request.costBudget.Some? ==>
                  var budget := request.costBudget.value;
                  r.costPerToken * request.estimatedTokens as real <= budget - budget * margin)
  {
    BuiltInRanks(CostAware(margin), table, request);
    if request.costBudget.Some? {
      var budget := request.costBudget.value;
      assert budget * (1.0 - margin) == budget - budget * margin;
    }
  }

  /** Least-loaded routing ranks the healthy agents up to the ceiling. */
  lemma UnloadedAgents(ceiling: real, table: seq<AgentRecord>, request: Request, r: AgentRecord)
    requires UniqueAgents(table)
    ensures r in Rank(LeastLoaded(ceiling), table, request) <==> r in table && r.healthy && r.currentLoad <= ceiling
  {
    BuiltInRanks(LeastLoaded(ceiling), table, request);
  }

  /** `a` is to come before `b`: its value is smaller, or equal and it is earlier in the table. */
  ghost predicate Goes(table: seq<AgentRecord>, a: AgentRecord, b: AgentRecord, x: real, y: real) {
    x < y || (x == y && Precedes(table, a, b))
  }

  /** The cheapest come first; the least loaded do when load decides; else table order stays. */
  lemma BestFirst(s: Strategy, table: seq<AgentRecord>, request: Request, a: AgentRecord, b: AgentRecord)
    requires UniqueAgents(table) && a in Rank(s, table, request) && b in Rank(s, table, request)
    ensures s.CostAware? && Goes(table, a, b, a.costPerToken, b.costPerToken) ==>
              Precedes(Rank(s, table, request), a, b)
    ensures s.LeastLoaded? && Goes(table, a, b, a.currentLoad, b.currentLoad) ==>
              Precedes(Rank(s, table, request), a, b)
    ensures s.CapabilityMatch? && s.tieBreakByLoad && Goes(table, a, b, a.currentLoad, b.currentLoad) ==>
              Precedes(Rank(s, table, request), a, b)
    ensures s.CapabilityMatch? && !s.tieBreakByLoad && Precedes(table, a, b) ==>
              Precedes(Rank(s, table, request), a, b)
  {
    if FilterAndSort(s) && Goes(table, a, b, OrderKey(s)(a), OrderKey(s)(b)) {
      RankOrder(s, table, request, a, b);
    }
  }

  // ---- Round robin ------------------------------------------------------------------------------

  lemma RoundRobinRanks(table: seq<AgentRecord>, request: Request, counter: nat)
    requires UniqueAgents(table)
    ensures UniqueAgents(Rank(RoundRobin(counter), table, request))
    ensures forall r :: r in Rank(RoundRobin(counter), table, request) <==> r in table && r.healthy
  {
    var healthy := HealthyAgents(table);
    FilterAgents(table, (r: AgentRecord) => r.healthy);
    SortedAgents(healthy);
    if healthy != [] {
      RotatedAgents(SortById(healthy), counter % |healthy|);
    }
  }

  lemma SortedAgents(healthy: seq<AgentRecord>)
    requires UniqueAgents(healthy)
    ensures UniqueAgents(SortById(healthy)) && |SortById(healthy)| == |healthy|
    ensures forall r :: r in SortById(healthy) <==> r in healthy
  {
    var sorted := SortById(healthy);
    SortByIdEffect(healthy);
    assert |sorted| == |multiset(sorted)| == |multiset(healthy)| == |healthy|;
    SameAgents(healthy, sorted);
  }

  lemma RotatedAgents(xs: seq<AgentRecord>, k: nat)
    requires UniqueAgents(xs) && k <= |xs|
    ensures UniqueAgents(Rotate(xs, k)) && forall r :: r in Rotate(xs, k) <==> r in xs
  {
    assert xs == xs[..k] + xs[k..];
    assert multiset(Rotate(xs, k)) == multiset(xs);
    SameAgents(xs, Rotate(xs, k));
  }

  /** The ranking runs through the agents in the order of their ids, round and round, from the one the counter is at. */
  lemma RoundRobinOrder(table: seq<AgentRecord>, request: Request, counter: nat) returns (sorted: seq<AgentRecord>)
    requires UniqueAgents(table)
    ensures var ranked := Rank(RoundRobin(counter), table, request);
            && |ranked| == |sorted| && IdAscending(sorted)
            && (forall r :: r in sorted <==> r in table && r.healthy)
            && forall j :: 0 <= j < |ranked| ==> ranked[j] == sorted[(counter + j) % |sorted|]
  {
    var healthy := HealthyAgents(table);
    sorted := SortById(healthy);
    FilterAgents(table, (r: AgentRecord) => r.healthy);
    SortedAgents(healthy);
    SortByIdEffect(healthy);
    var ranked, n := Rank(RoundRobin(counter), table, request), |sorted|;
    forall j | 0 <= j < |ranked| ensures ranked[j] == sorted[(counter + j) % n] {
      ModShift(counter, n, j);
    }
  }

  /** Over as many rankings of one table as it has healthy agents, each of them comes first exactly once. */
  lemma EachComesFirstOnce(table: seq<AgentRecord>, request: Request, start: nat, a: AgentRecord) returns (t: nat)
    requires UniqueAgents(table) && a in HealthyAgents(table)
    ensures start <= t < start + |HealthyAgents(table)|
    ensures forall u :: start <= u < start + |HealthyAgents(table)| ==>
              var ranked := Rank(RoundRobin(u), table, request);
              ranked != [] && (ranked[0] == a <==> u == t)
  {
    var healthy := HealthyAgents(table);
    var sorted := SortById(healthy);
    FilterAgents(table, (r: AgentRecord) => r.healthy);
    SortedAgents(healthy);
    var i :| 0 <= i < |sorted| && sorted[i] == a;
    t := RoundRobinWindow(|sorted|, start, i);
    forall u | start <= u < start + |healthy|
      ensures var ranked := Rank(RoundRobin(u), table, request); ranked != [] && (ranked[0] == a <==> u == t)
    {
      assert Rank(RoundRobin(u), table, request)[0] == sorted[u % |sorted|];
    }
  }

  /** What the router is documented to return: the healthy agents in registration order, rotated by the counter. */
  function InRegistrationOrder(table: seq<AgentRecord>, counter: nat): seq<AgentRecord> {
    var healthy := HealthyAgents(table);
    if healthy == [] then [] else Rotate(healthy, counter % |healthy|)
  }

  /** At any counter value it does so exactly when the healthy agents registered in the order of their ids. */
  lemma RegistrationOrderIff(table: seq<AgentRecord>, request: Request, counter: nat)
    ensures Rank(RoundRobin(counter), table, request) == InRegistrationOrder(table, counter) <==>
            IdAscending(HealthyAgents(table))
  {
    var healthy := HealthyAgents(table);
    var sorted := SortById(healthy);
    SortByIdEffect(healthy);
    assert |sorted| == |multiset(sorted)| == |multiset(healthy)| == |healthy|;
    if IdAscending(healthy) {
      SortedStays(healthy);
    } else if Rank(RoundRobin(counter), table, request) == InRegistrationOrder(table, counter) {
      RotateInjective(sorted, healthy, counter % |healthy|);
    }
  }

  lemma RotateInjective(xs: seq<AgentRecord>, ys: seq<AgentRecord>, k: nat)
    requires |xs| == |ys| && k <= |xs| && Rotate(xs, k) == Rotate(ys, k)
    ensures xs == ys
  {
    assert xs[k..] == Rotate(xs, k)[..|xs| - k] && xs[..k] == Rotate(xs, k)[|xs| - k..];
    assert ys[k..] == Rotate(ys, k)[..|ys| - k] && ys[..k] == Rotate(ys, k)[|ys| - k..];
    assert xs == xs[..k] + xs[k..] && ys == ys[..k] + ys[k..];
  }

  /** Sorting leaves a list alone whose ids are in order. */
  lemma {:induction false} SortedStays(xs: seq<AgentRecord>)
    requires IdAscending(xs)
    ensures SortById(xs) == xs
  {
    if xs != [] {
      var n := |xs| - 1;
      SortedStays(xs[..n]);
      InsertLast(xs[..n], xs[n]);
    }
  }

  lemma {:induction false} InsertLast(ys: seq<AgentRecord>, x: AgentRecord)
    requires forall i :: 0 <= i < |ys| ==> !Below(x.agentId, ys[i].agentId)
    ensures InsertById(ys, x) == ys + [x]
  {
    if ys != [] { InsertLast(ys[1..], x); }
  }

  /** Two healthy agents registered against the order of their ids never come out in registration order. */
  lemma RegistrationOrderFails(a: AgentRecord, b: AgentRecord, request: Request, counter: nat)
    requires a.healthy && b.healthy && Below(a.agentId, b.agentId)
    ensures UniqueAgents([b, a])
    ensures Rank(RoundRobin(counter), [b, a], request) != InRegistrationOrder([b, a], counter)
  {
    Trichotomy(a.agentId, b.agentId);
    FilterKeepsAll([b, a], (r: AgentRecord) => r.healthy);
    assert Below([b, a][1].agentId, [b, a][0].agentId);
    RegistrationOrderIff([b, a], request, counter);
  }

  /** The router that advances its own counter with every ranking of a non-empty table. */
  class RoundRobinRouter {
    var counter: nat

    constructor ()
      ensures counter == 0
    {
      counter := 0;
    }

    method RankCandidates(table: seq<AgentRecord>, request: Request) returns (ranked: seq<AgentRecord>)
      modifies this
      ensures ranked == Rank(RoundRobin(old(counter)), table, request)
      ensures counter == old(counter) + if ranked == [] then 0 else 1
    {
      var sorted := SortById(HealthyAgents(table));
      if sorted == [] {
        return [];
      }
      var index := counter % |sorted|;
      counter := counter + 1;
      return sorted[index..] + sorted[..index];
    }
  }
}
