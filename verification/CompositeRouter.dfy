/**
 The composite router: every strategy's ranking turns into scores that fall with the position,
 scaled by the strategy's weight; agents come out by total score, best first.
 */
module CompositeRouter {
  import opened Sequences
  import opened Sums
  import opened Routing

  datatype Weighted = Weighted(strategy: Strategy, weight: real)

  datatype Check = Accepted | NoStrategies | NegativeWeight(at: nat)

  ghost predicate NonNegative(ws: seq<Weighted>) {
    forall i :: 0 <= i < |ws| ==> ws[i].weight >= 0.0
  }

  /** The constructor refuses an empty list and names the first negative weight. */
  method CheckStrategies(ws: seq<Weighted>) returns (r: Check)
    ensures r == Accepted <==> ws != [] && NonNegative(ws)
    ensures r == NoStrategies <==> ws == []
    ensures r.NegativeWeight? ==> r.at < |ws| && ws[r.at].weight < 0.0 && NonNegative(ws[..r.at])
  {
    if ws == [] { return NoStrategies; }
    for i := 0 to |ws|
      invariant NonNegative(ws[..i])
    {
      if ws[i].weight < 0.0 { return NegativeWeight(i); }
    }
    r := Accepted;
  }

  // ---- Scores -----------------------------------------------------------------------------------

  /** What position `p` of a ranking of `total` agents is worth. */
  function PositionScore(total: nat, p: nat, weight: real): real
    requires p < total
  {
    (total - p) as real / total as real * weight
  }

  lemma PositionScorePositive(total: nat, p: nat, weight: real)
    requires p < total && weight >= 0.0
    ensures PositionScore(total, p, weight) >= 0.0
    ensures PositionScore(total, p, weight) > 0.0 <==> weight > 0.0
  {
    var share := (total - p) as real / total as real;
    assert share > 0.0;
  }

  lemma PositionScoreFalls(total: nat, p: nat, q: nat, weight: real)
    requires p < q < total && weight >= 0.0
    ensures PositionScore(total, p, weight) >= PositionScore(total, q, weight)
    ensures weight > 0.0 ==> PositionScore(total, p, weight) > PositionScore(total, q, weight)
  {
    var n := total as real;
    var high, low := (total - p) as real / n, (total - q) as real / n;
    assert high - low == (q - p) as real / n;
    assert high - low > 0.0;
    assert high * weight - low * weight == (high - low) * weight;
  }

  /** First place earns the whole weight, and every place below it one equal share of the weight less. */
  lemma EvenSteps(total: nat, p: nat, weight: real)
    requires p < total
    ensures PositionScore(total, 0, weight) == weight
    ensures p + 1 < total ==>
              PositionScore(total, p, weight) - PositionScore(total, p + 1, weight) == weight / total as real
    ensures PositionScore(total, total - 1, weight) == weight / total as real
  {
    var n := total as real;
    assert n / n == 1.0;
    assert 1.0 / n * weight == weight / n;
    if p + 1 < total {
      var high, low := (total - p) as real / n, (total - (p + 1)) as real / n;
      assert high - low == 1.0 / n;
      assert high * weight - low * weight == (high - low) * weight;
    }
  }

  /** An agent's score from the first `n` positions of one ranking. */
  ghost function Points(ranked: seq<AgentRecord>, weight: real, id: string, n: nat): real
    requires n <= |ranked|
  {
    if n == 0 then 0.0
    else
      Points(ranked, weight, id, n - 1) +
      if ranked[n - 1].agentId == id then PositionScore(|ranked|, n - 1, weight) else 0.0
  }

  ghost function PointsOf(w: Weighted, table: seq<AgentRecord>, request: Request, id: string): real {
    var ranked := Rank(w.strategy, table, request);
    Points(ranked, w.weight, id, |ranked|)
  }

  /** What an agent gains from each strategy. */
  ghost function Gains(ws: seq<Weighted>, table: seq<AgentRecord>, request: Request, id: string): (g: seq<real>)
    ensures |g| == |ws| && forall i :: 0 <= i < |ws| ==> g[i] == PointsOf(ws[i], table, request, id)
  {
    seq(|ws|, i requires 0 <= i < |ws| => PointsOf(ws[i], table, request, id))
  }

  ghost function Score(ws: seq<Weighted>, table: seq<AgentRecord>, request: Request, id: string): real {
    Sum(Gains(ws, table, request, id))
  }

  ghost function ByScore(ws: seq<Weighted>, table: seq<AgentRecord>, request: Request): AgentRecord -> real {
    (r: AgentRecord) => -Score(ws, table, request, r.agentId)
  }

  ghost function HasScore(ws: seq<Weighted>, table: seq<AgentRecord>, request: Request): AgentRecord -> bool {
    (r: AgentRecord) => Score(ws, table, request, r.agentId) > 0.0
  }

  /** Healthy agents by falling score, ties in table order, without those that scored nothing. */
  ghost function Combined(ws: seq<Weighted>, table: seq<AgentRecord>, request: Request): seq<AgentRecord> {
    Filter(SortBy(HealthyAgents(table), ByScore(ws, table, request)), HasScore(ws, table, request))
  }

  // ---- The ranking ------------------------------------------------------------------------------

  ghost predicate HasIds(scores: map<string, real>, healthy: seq<AgentRecord>) {
    forall id :: id in scores <==> exists r :: r in healthy && r.agentId == id
  }

  /** The running scores after the first `m` strategies. */
  ghost predicate Accumulated(scores: map<string, real>, ws: seq<Weighted>, table: seq<AgentRecord>, request: Request,
                              m: nat)
  {
    m <= |ws| && forall id :: id in scores ==> scores[id] == Sum(Gains(ws, table, request, id)[..m])
  }

  lemma RankingAdded(scores: map<string, real>, grown: map<string, real>, ws: seq<Weighted>, table: seq<AgentRecord>,
                     request: Request, m: nat)
    requires m < |ws| && Accumulated(scores, ws, table, request, m) && grown.Keys == scores.Keys
    requires forall id :: id in scores ==> grown[id] == scores[id] + PointsOf(ws[m], table, request, id)
    ensures Accumulated(grown, ws, table, request, m + 1)
  {
    forall id | id in grown ensures grown[id] == Sum(Gains(ws, table, request, id)[..m + 1]) {
      SumPrefix(Gains(ws, table, request, id), m);
    }
  }

  method RankCandidates(ws: seq<Weighted>, table: seq<AgentRecord>, request: Request) returns (out: seq<AgentRecord>)
    requires UniqueAgents(table)
    ensures out == Combined(ws, table, request)
  {
    var healthy := HealthyAgents(table);
    if healthy == [] { return []; }
    var scores := StartScores(healthy);
    for m := 0 to |ws|
      invariant HasIds(scores, healthy)
      invariant Accumulated(scores, ws, table, request, m)
    {
      var ranked := Rank(ws[m].strategy, table, request);
      var grown := AddRanking(scores, ranked, ws[m].weight);
      RankingAdded(scores, grown, ws, table, request, m);
      scores := grown;
    }
    out := Filter(SortBy(healthy, Falling(scores)), Scored(scores));
    LookupAgrees(healthy, ws, table, request, scores);
  }

  function Lookup(scores: map<string, real>, id: string): real {
    if id in scores then scores[id] else 0.0
  }

  function Falling(scores: map<string, real>): AgentRecord -> real {
    (r: AgentRecord) => -Lookup(scores, r.agentId)
  }

  function Scored(scores: map<string, real>): AgentRecord -> bool {
    (r: AgentRecord) => Lookup(scores, r.agentId) > 0.0
  }

  method StartScores(healthy: seq<AgentRecord>) returns (scores: map<string, real>)
    ensures HasIds(scores, healthy)
    ensures forall ws, table, request :: Accumulated(scores, ws, table, request, 0)
  {
    scores := map[];
    for i := 0 to |healthy|
      invariant forall id :: id in scores ==> scores[id] == 0.0 && exists r :: r in healthy && r.agentId == id
      invariant forall r :: r in healthy[..i] ==> r.agentId in scores
    {
      PrefixStep(healthy, i);
      assert healthy[i] in healthy;
      scores := scores[healthy[i].agentId := 0.0];
    }
    assert healthy[..|healthy|] == healthy;
  }

  lemma AllStrategies(gains: seq<real>, n: nat)
    requires |gains| == n
    ensures Sum(gains[..n]) == Sum(gains)
  {
    assert gains[..n] == gains;
  }

  lemma LookupAgrees(healthy: seq<AgentRecord>, ws: seq<Weighted>, table: seq<AgentRecord>, request: Request,
                     scores: map<string, real>)
    requires HasIds(scores, healthy) && healthy == HealthyAgents(table)
    requires Accumulated(scores, ws, table, request, |ws|)
    ensures Filter(SortBy(healthy, Falling(scores)), Scored(scores)) == Combined(ws, table, request)
  {
    var sorted := SortBy(healthy, Falling(scores));
    forall r | r in healthy ensures Lookup(scores, r.agentId) == Score(ws, table, request, r.agentId) {
      assert r.agentId in scores;
      AllStrategies(Gains(ws, table, request, r.agentId), |ws|);
    }
    SortByAgrees(healthy, Falling(scores), ByScore(ws, table, request));
    forall r | r in sorted ensures r in healthy {
      SortEffect(healthy, Falling(scores));
      assert r in multiset(sorted);
    }
    FilterAgrees(sorted, Scored(scores), HasScore(ws, table, request));
  }

  /** One strategy's contribution to the running scores; agents it invents are ignored. */
  method AddRanking(scores: map<string, real>, ranked: seq<AgentRecord>, weight: real)
    returns (scores': map<string, real>)
    ensures scores'.Keys == scores.Keys
    ensures forall id :: id in scores ==> scores'[id] == scores[id] + Points(ranked, weight, id, |ranked|)
  {
    scores' := scores;
    var total := |ranked|;
    for p := 0 to total
      invariant scores'.Keys == scores.Keys
      invariant forall id :: id in scores ==> scores'[id] == scores[id] + Points(ranked, weight, id, p)
    {
      var id := ranked[p].agentId;
      if id in scores' {
        scores' := scores'[id := scores'[id] + PositionScore(total, p, weight)];
      }
    }
  }

  // ---- What a combined ranking means ------------------------------------------------------------

  ghost predicate Names(ranked: seq<AgentRecord>, id: string) {
    exists p :: 0 <= p < |ranked| && ranked[p].agentId == id
  }

  /** A ranking gives points exactly to the agents it names, unless its weight is zero. */
  lemma {:induction false} PointsSign(ranked: seq<AgentRecord>, weight: real, id: string, n: nat)
    requires n <= |ranked| && weight >= 0.0
    ensures Points(ranked, weight, id, n) >= 0.0
    ensures Points(ranked, weight, id, n) > 0.0 <==> weight > 0.0 && Names(ranked[..n], id)
  {
    if n > 0 {
      PointsSign(ranked, weight, id, n - 1);
      PositionScorePositive(|ranked|, n - 1, weight);
      assert ranked[..n] == ranked[..n - 1] + [ranked[n - 1]];
      if Names(ranked[..n - 1], id) {
        var p :| 0 <= p < n - 1 && ranked[..n - 1][p].agentId == id;
        assert ranked[..n][p].agentId == id;
      }
      if ranked[n - 1].agentId == id {
        assert ranked[..n][n - 1].agentId == id;
      } else if Names(ranked[..n], id) {
        var p :| 0 <= p < n && ranked[..n][p].agentId == id;
        assert ranked[..n - 1][p].agentId == id;
      }
    }
  }

  lemma PointsOfSign(w: Weighted, table: seq<AgentRecord>, request: Request, id: string)
    requires w.weight >= 0.0
    ensures PointsOf(w, table, request, id) >= 0.0
    ensures PointsOf(w, table, request, id) > 0.0 <==> w.weight > 0.0 && Names(Rank(w.strategy, table, request), id)
  {
    var ranked := Rank(w.strategy, table, request);
    PointsSign(ranked, w.weight, id, |ranked|);
    assert ranked[..|ranked|] == ranked;
  }

  ghost predicate RankedBySome(ws: seq<Weighted>, table: seq<AgentRecord>, request: Request, id: string) {
    exists i :: 0 <= i < |ws| && RanksWithWeight(ws[i], table, request, id)
  }

  ghost predicate RanksWithWeight(w: Weighted, table: seq<AgentRecord>, request: Request, id: string) {
    w.weight > 0.0 && Names(Rank(w.strategy, table, request), id)
  }

  lemma ScoreSign(ws: seq<Weighted>, table: seq<AgentRecord>, request: Request, id: string)
    requires NonNegative(ws)
    ensures Score(ws, table, request, id) > 0.0 <==> RankedBySome(ws, table, request, id)
  {
    var gains := Gains(ws, table, request, id);
    forall i | 0 <= i < |ws|
      ensures gains[i] >= 0.0 && (gains[i] > 0.0 <==> RanksWithWeight(ws[i], table, request, id))
    {
      PointsOfSign(ws[i], table, request, id);
    }
    SumPositive(gains);
  }

  lemma CombinedMembers(ws: seq<Weighted>, table: seq<AgentRecord>, request: Request)
    requires UniqueAgents(table)
    ensures UniqueAgents(Combined(ws, table, request))
    ensures forall r :: r in Combined(ws, table, request) <==>
              r in table && r.healthy && Score(ws, table, request, r.agentId) > 0.0
  {
    FilterAgents(table, (r: AgentRecord) => r.healthy);
    SortKeepsUnique(HealthyAgents(table), ByScore(ws, table, request));
    FilterAgents(SortBy(HealthyAgents(table), ByScore(ws, table, request)), HasScore(ws, table, request));
  }

  /** The output is exactly the healthy agents that some strategy of positive weight ranks, each once. */
  lemma ExactlyTheRanked(ws: seq<Weighted>, table: seq<AgentRecord>, request: Request)
    requires UniqueAgents(table) && NonNegative(ws)
    ensures UniqueAgents(Combined(ws, table, request))
    ensures forall r :: r in Combined(ws, table, request) <==>
              r in table && r.healthy && RankedBySome(ws, table, request, r.agentId)
  {
    CombinedMembers(ws, table, request);
    forall r: AgentRecord
      ensures Score(ws, table, request, r.agentId) > 0.0 <==> RankedBySome(ws, table, request, r.agentId)
    {
      ScoreSign(ws, table, request, r.agentId);
    }
  }

  lemma HigherScoreFirst(ws: seq<Weighted>, table: seq<AgentRecord>, request: Request, a: AgentRecord, b: AgentRecord)
    requires UniqueAgents(table)
    requires a in Combined(ws, table, request) && b in Combined(ws, table, request)
    requires Score(ws, table, request, a.agentId) > Score(ws, table, request, b.agentId)
    ensures Precedes(Combined(ws, table, request), a, b)
  {
    CombinedMembers(ws, table, request);
    FilterAgents(table, (r: AgentRecord) => r.healthy);
    SmallerKeyFirst(HealthyAgents(table), ByScore(ws, table, request), a, b);
    FilterKeepsOrder(SortBy(HealthyAgents(table), ByScore(ws, table, request)), HasScore(ws, table, request), a, b);
  }

  /** The output goes by falling score, equal scores in table order. */
  lemma CombinedOrder(ws: seq<Weighted>, table: seq<AgentRecord>, request: Request, a: AgentRecord, b: AgentRecord)
    requires UniqueAgents(table)
    requires a in Combined(ws, table, request) && b in Combined(ws, table, request)
    requires var x, y := Score(ws, table, request, a.agentId), Score(ws, table, request, b.agentId);
             x > y || (x == y && Precedes(table, a, b))
    ensures Precedes(Combined(ws, table, request), a, b)
  {
    if Score(ws, table, request, a.agentId) > Score(ws, table, request, b.agentId) {
      HigherScoreFirst(ws, table, request, a, b);
    } else {
      CombinedMembers(ws, table, request);
      FilterKeepsOrder(table, (r: AgentRecord) => r.healthy, a, b);
      SortIsStable(HealthyAgents(table), ByScore(ws, table, request), a, b);
      FilterKeepsOrder(SortBy(HealthyAgents(table), ByScore(ws, table, request)), HasScore(ws, table, request), a, b);
    }
  }

  // ---- What weights mean ------------------------------------------------------------------------

  /** Place `p` of `n` earns the part `(n - p) / n` of the weight. */
  lemma PlacePoints(w: Weighted, table: seq<AgentRecord>, request: Request, p: nat)
    requires var ranked := Rank(w.strategy, table, request); UniqueAgents(ranked) && p < |ranked|
    ensures var ranked := Rank(w.strategy, table, request);
            PointsOf(w, table, request, ranked[p].agentId) == PositionScore(|ranked|, p, w.weight)
  {
    var ranked := Rank(w.strategy, table, request);
    PointsAt(ranked, w.weight, p, |ranked|);
  }

  lemma PositionShare(total: nat, p: nat, weight: real)
    requires p < total
    ensures PositionScore(total, p, weight) * total as real == weight * (total - p) as real
  {
    ShareOfWhole((total - p) as real, total as real, weight);
  }

  /** An agent that is not ranked earns nothing. */
  lemma NoPlaceNoPoints(w: Weighted, table: seq<AgentRecord>, request: Request, id: string)
    requires !Names(Rank(w.strategy, table, request), id)
    ensures PointsOf(w, table, request, id) == 0.0
  {
    var ranked := Rank(w.strategy, table, request);
    NoPoints(ranked, w.weight, id, |ranked|);
  }

  lemma ShareOfWhole(x: real, n: real, w: real)
    requires n > 0.0
    ensures x / n * w * n == w * x
  {
    var share := x / n;
    assert share * n == x;
    assert share * w * n == w * (share * n);
  }

  lemma {:induction false} NoPoints(ranked: seq<AgentRecord>, weight: real, id: string, n: nat)
    requires n <= |ranked| && !Names(ranked, id)
    ensures Points(ranked, weight, id, n) == 0.0
  {
    if n > 0 { NoPoints(ranked, weight, id, n - 1); }
  }

  /** Scores add up over the strategies. */
  lemma ScoreAdds(ws: seq<Weighted>, w: Weighted, table: seq<AgentRecord>, request: Request, id: string)
    ensures Score(ws + [w], table, request, id) == Score(ws, table, request, id) + PointsOf(w, table, request, id)
  {
    assert Gains(ws + [w], table, request, id) == Gains(ws, table, request, id) + [PointsOf(w, table, request, id)];
    SumAppend(Gains(ws, table, request, id), PointsOf(w, table, request, id));
  }

  lemma {:induction false} PointsAdd(ranked: seq<AgentRecord>, x: real, y: real, id: string, n: nat)
    requires n <= |ranked|
    ensures Points(ranked, x + y, id, n) == Points(ranked, x, id, n) + Points(ranked, y, id, n)
  {
    if n > 0 {
      PointsAdd(ranked, x, y, id, n - 1);
      var share := (|ranked| - (n - 1)) as real / |ranked| as real;
      assert share * (x + y) == share * x + share * y;
    }
  }

  /** A strategy listed twice counts as one with the two weights added. */
  lemma SplitWeight(ws: seq<Weighted>, s: Strategy, x: real, y: real, table: seq<AgentRecord>, request: Request)
    ensures Combined(ws + [Weighted(s, x)] + [Weighted(s, y)], table, request) ==
            Combined(ws + [Weighted(s, x + y)], table, request)
  {
    var split, whole := ws + [Weighted(s, x)] + [Weighted(s, y)], ws + [Weighted(s, x + y)];
    forall id ensures Score(split, table, request, id) == Score(whole, table, request, id) {
      ScoreAdds(ws + [Weighted(s, x)], Weighted(s, y), table, request, id);
      ScoreAdds(ws, Weighted(s, x), table, request, id);
      ScoreAdds(ws, Weighted(s, x + y), table, request, id);
      var ranked := Rank(s, table, request);
      PointsAdd(ranked, x, y, id, |ranked|);
    }
    SameScores(split, whole, table, request);
  }

  lemma SameScores(ws: seq<Weighted>, ws': seq<Weighted>, table: seq<AgentRecord>, request: Request)
    requires forall id :: Score(ws, table, request, id) == Score(ws', table, request, id)
    ensures Combined(ws, table, request) == Combined(ws', table, request)
  {
    SortByAgrees(HealthyAgents(table), ByScore(ws, table, request), ByScore(ws', table, request));
    FilterAgrees(SortBy(HealthyAgents(table), ByScore(ws, table, request)),
                 HasScore(ws, table, request), HasScore(ws', table, request));
  }

  // ---- Unanimity --------------------------------------------------------------------------------

  /** Every place the ranking gives to `b` comes after a place it gives to `a`. */
  ghost predicate Prefers(ranked: seq<AgentRecord>, a: string, b: string) {
    forall q :: 0 <= q < |ranked| && ranked[q].agentId == b ==> Names(ranked[..q], a)
  }

  /** An agent named once scores its one position. */
  lemma {:induction false} PointsAt(ranked: seq<AgentRecord>, weight: real, p: nat, n: nat)
    requires UniqueAgents(ranked) && p < |ranked| && n <= |ranked|
    ensures Points(ranked, weight, ranked[p].agentId, n) ==
            if p < n then PositionScore(|ranked|, p, weight) else 0.0
  {
    if n > 0 {
      PointsAt(ranked, weight, p, n - 1);
    }
  }

  lemma PreferredScoresMore(ranked: seq<AgentRecord>, weight: real, a: string, b: string)
    requires UniqueAgents(ranked) && weight >= 0.0 && Prefers(ranked, a, b)
    ensures var n := |ranked|;
            Points(ranked, weight, a, n) >= Points(ranked, weight, b, n) &&
            (weight > 0.0 && Names(ranked, a) ==> Points(ranked, weight, a, n) > Points(ranked, weight, b, n))
  {
    var n := |ranked|;
    assert ranked[..n] == ranked;
    PointsSign(ranked, weight, a, n);
    PointsSign(ranked, weight, b, n);
    if Names(ranked, b) {
      var q :| 0 <= q < n && ranked[q].agentId == b;
      var p :| 0 <= p < |ranked[..q]| && ranked[..q][p].agentId == a;
      PointsAt(ranked, weight, p, n);
      PointsAt(ranked, weight, q, n);
      PositionScoreFalls(n, p, q, weight);
    }
  }

  ghost predicate AllPrefer(ws: seq<Weighted>, table: seq<AgentRecord>, request: Request, a: string, b: string) {
    forall i :: 0 <= i < |ws| ==>
      UniqueAgents(Rank(ws[i].strategy, table, request)) && Prefers(Rank(ws[i].strategy, table, request), a, b)
  }

  lemma PreferredScore(ws: seq<Weighted>, table: seq<AgentRecord>, request: Request, a: string, b: string)
    requires NonNegative(ws) && AllPrefer(ws, table, request, a, b) && RankedBySome(ws, table, request, a)
    ensures Score(ws, table, request, a) > Score(ws, table, request, b)
  {
    var high, low := Gains(ws, table, request, a), Gains(ws, table, request, b);
    forall i | 0 <= i < |ws|
      ensures low[i] <= high[i] && (RanksWithWeight(ws[i], table, request, a) ==> low[i] < high[i])
    {
      PreferredScoresMore(Rank(ws[i].strategy, table, request), ws[i].weight, a, b);
    }
    SumOrder(low, high);
  }

  /** If every strategy that ranks `b` ranks `a` earlier, and a weighted one ranks `a`, then `a` comes first. */
  lemma RespectsUnanimity(ws: seq<Weighted>, table: seq<AgentRecord>, request: Request, a: AgentRecord, b: AgentRecord)
    requires UniqueAgents(table) && NonNegative(ws) && a in table && a.healthy
    requires AllPrefer(ws, table, request, a.agentId, b.agentId)
    requires RankedBySome(ws, table, request, a.agentId)
    ensures a in Combined(ws, table, request)
    ensures b in Combined(ws, table, request) ==> Precedes(Combined(ws, table, request), a, b)
  {
    ExactlyTheRanked(ws, table, request);
    PreferredScore(ws, table, request, a.agentId, b.agentId);
    if b in Combined(ws, table, request) {
      HigherScoreFirst(ws, table, request, a, b);
    }
  }

  // ---- One strategy -----------------------------------------------------------------------------

  ghost predicate OnlyWeighted(ws: seq<Weighted>, k: nat)
    requires k < |ws|
  {
    ws[k].weight > 0.0 && forall i :: 0 <= i < |ws| && i != k ==> ws[i].weight == 0.0
  }

  lemma OnlyScore(ws: seq<Weighted>, table: seq<AgentRecord>, request: Request, k: nat, id: string)
    requires k < |ws| && OnlyWeighted(ws, k)
    ensures Score(ws, table, request, id) == PointsOf(ws[k], table, request, id)
  {
    var gains := Gains(ws, table, request, id);
    forall i | 0 <= i < |ws| && i != k ensures gains[i] == 0.0 {
      PointsOfSign(ws[i], table, request, id);
    }
    SumSingle(gains, k);
  }

  /** With a single strategy of positive weight the composite returns that strategy's ranking unchanged. */
  lemma OneStrategyUnchanged(ws: seq<Weighted>, table: seq<AgentRecord>, request: Request, k: nat)
    requires UniqueAgents(table) && k < |ws| && OnlyWeighted(ws, k)
    requires IsRanking(table, Rank(ws[k].strategy, table, request))
    ensures Combined(ws, table, request) == Rank(ws[k].strategy, table, request)
  {
    var ranked, w := Rank(ws[k].strategy, table, request), ws[k].weight;
    var out := Combined(ws, table, request);
    CombinedMembers(ws, table, request);
    forall r | r in table && r.healthy ensures r in out <==> r in ranked {
      OnlyScore(ws, table, request, k, r.agentId);
      PointsSign(ranked, w, r.agentId, |ranked|);
      NamesMember(table, ranked, r);
    }
    forall p, q | 0 <= p < q < |ranked| ensures Precedes(out, ranked[p], ranked[q]) {
      OnlyScore(ws, table, request, k, ranked[p].agentId);
      OnlyScore(ws, table, request, k, ranked[q].agentId);
      PointsAt(ranked, w, p, |ranked|);
      PointsAt(ranked, w, q, |ranked|);
      PositionScoreFalls(|ranked|, p, q, w);
      HigherScoreFirst(ws, table, request, ranked[p], ranked[q]);
    }
    SameOrder(ranked, out);
  }

  lemma NamesMember(table: seq<AgentRecord>, ranked: seq<AgentRecord>, r: AgentRecord)
    requires UniqueAgents(table) && IsRanking(table, ranked) && r in table
    ensures Names(ranked[..|ranked|], r.agentId) <==> r in ranked
  {
    assert ranked[..|ranked|] == ranked;
    if Names(ranked, r.agentId) {
      var p :| 0 <= p < |ranked| && ranked[p].agentId == r.agentId;
      assert ranked[p] in table;
    }
  }

  /** A duplicate-free list is determined by its members and their order. */
  lemma {:induction false} SameOrder(xs: seq<AgentRecord>, ys: seq<AgentRecord>)
    requires UniqueAgents(xs) && UniqueAgents(ys)
    requires forall r :: r in xs <==> r in ys
    requires forall p, q :: 0 <= p < q < |xs| ==> Precedes(ys, xs[p], xs[q])
    ensures xs == ys
  {
    if xs == [] {
      SomeMember(ys);
    } else {
      SameHead(xs, ys);
      var tail, tail' := xs[1..], ys[1..];
      assert xs == [xs[0]] + tail && ys == [ys[0]] + tail';
      forall r ensures r in tail <==> r in tail' {
        assert r in xs <==> r == xs[0] || r in tail;
        assert r in ys <==> r == ys[0] || r in tail';
      }
      forall p, q | 0 <= p < q < |tail| ensures Precedes(tail', tail[p], tail[q]) {
        assert Precedes(ys, xs[p + 1], xs[q + 1]);
      }
      SameOrder(tail, tail');
    }
  }

  lemma SameHead(xs: seq<AgentRecord>, ys: seq<AgentRecord>)
    requires UniqueAgents(ys) && xs != []
    requires forall r :: r in xs <==> r in ys
    requires forall p, q :: 0 <= p < q < |xs| ==> Precedes(ys, xs[p], xs[q])
    ensures ys != [] && xs[0] == ys[0]
  {
    assert xs[0] in ys;
    assert ys[0] in xs;
    var q :| 0 <= q < |xs| && xs[q] == ys[0];
    assert q == 0 || Precedes(ys, xs[0], xs[q]);
  }

}
