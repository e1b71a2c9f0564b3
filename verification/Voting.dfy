/**
 The three ways of settling a vote. Confidences and ratios are exact reals.
 */
module Voting {
  import opened Sequences
  import opened Ordering
  import Sums
  import Totals

  datatype VoteData = VoteData(agentId: string, option: string, confidence: real)

  /** A vote passed its constructor's range check. */
  type Vote = v: VoteData | 0.0 <= v.confidence <= 1.0 witness VoteData("", "", 1.0)

  datatype Result = Result(winner: string, counts: map<string, nat>, total: nat, agreement: real, reached: bool)

  const NO_VOTES := Result("", map[], 0, 0.0, false)

  /** The options named, in the order of their first mention: the keys of the tally. */
  function Options(votes: seq<Vote>): seq<string> {
    if votes == [] then []
    else
      var front, o := Options(votes[..|votes| - 1]), votes[|votes| - 1].option;
      if o in front then front else front + [o]
  }

  function Count(votes: seq<Vote>, o: string): nat {
    if votes == [] then 0
    else Count(votes[..|votes| - 1], o) + if votes[|votes| - 1].option == o then 1 else 0
  }

  function Counts(votes: seq<Vote>): map<string, nat> {
    map o | o in Options(votes) :: Count(votes, o)
  }

  // ---- Choosing the winner ----------------------------------------------------------------------

  type Score = string -> real

  function Largest(options: seq<string>, score: Score): real
    requires options != []
  {
    if |options| == 1 then score(options[0])
    else
      var rest := Largest(options[1..], score);
      if score(options[0]) > rest then score(options[0]) else rest
  }

  function Top(options: seq<string>, score: Score, best: real): seq<string> {
    if options == [] then []
    else (if score(options[0]) == best then [options[0]] else []) + Top(options[1..], score, best)
  }

  /** No option scores more, and those that score as much come later in the order of strings. */
  ghost predicate Wins(x: string, options: set<string>, score: Score) {
    && x in options
    && (forall o :: o in options ==> score(o) <= score(x))
    && (forall o :: o in options && score(o) == score(x) ==> o == x || Below(x, o))
  }

  lemma {:induction false} LargestIsReached(options: seq<string>, score: Score)
    requires options != []
    ensures forall o :: o in options ==> score(o) <= Largest(options, score)
    ensures exists o :: o in options && score(o) == Largest(options, score)
  {
    assert options[0] in options;
    if |options| > 1 {
      LargestIsReached(options[1..], score);
      assert options == [options[0]] + options[1..];
      var o :| o in options[1..] && score(o) == Largest(options[1..], score);
      assert o in options;
    }
  }

  lemma {:induction false} TopMembers(options: seq<string>, score: Score, best: real)
    ensures forall o :: o in Top(options, score, best) <==> o in options && score(o) == best
  {
    if options != [] {
      TopMembers(options[1..], score, best);
      assert options == [options[0]] + options[1..];
    }
  }

  lemma TopNonEmpty(options: seq<string>, score: Score)
    requires options != []
    ensures Top(options, score, Largest(options, score)) != []
  {
    LargestIsReached(options, score);
    TopMembers(options, score, Largest(options, score));
    var o :| o in options && score(o) == Largest(options, score);
    assert o in Top(options, score, Largest(options, score));
  }

  /** The least of the options with the largest score. */
  function Winner(options: seq<string>, score: Score): string
    requires options != []
  {
    var best := Largest(options, score);
    TopNonEmpty(options, score);
    Min(Top(options, score, best))
  }

  lemma WinnerWins(options: seq<string>, score: Score)
    requires options != []
    ensures Wins(Winner(options, score), Elements(options), score)
    ensures score(Winner(options, score)) == Largest(options, score)
  {
    var best := Largest(options, score);
    LargestIsReached(options, score);
    TopMembers(options, score, best);
    TopNonEmpty(options, score);
    assert IsLeast(Winner(options, score), Elements(Top(options, score, best)));
  }

  lemma OneWinner(x: string, y: string, options: set<string>, score: Score, score': Score)
    requires Wins(x, options, score) && Wins(y, options, score')
    requires forall a, b :: a in options && b in options ==> (score(a) <= score(b) <==> score'(a) <= score'(b))
    ensures x == y
  {
    Trichotomy(x, y);
    assert score(x) <= score(y) && score'(y) <= score'(x);
  }

  // ---- Tallies ----------------------------------------------------------------------------------

  lemma {:induction false} OptionsAreNamed(votes: seq<Vote>)
    ensures Distinct(Options(votes))
    ensures forall o :: o in Options(votes) <==> exists v :: v in votes && v.option == o
    ensures forall o :: o in Options(votes) <==> Count(votes, o) > 0
  {
    if votes != [] {
      var front, last := votes[..|votes| - 1], votes[|votes| - 1];
      OptionsAreNamed(front);
      LastMember(votes);
      assert last in votes;
    }
  }

  lemma {:induction false} CountConcat(a: seq<Vote>, b: seq<Vote>, o: string)
    ensures Count(a + b, o) == Count(a, o) + Count(b, o)
  {
    if b == [] {
      assert a + b == a;
    } else {
      assert (a + b)[..|a + b| - 1] == a + b[..|b| - 1];
      CountConcat(a, b[..|b| - 1], o);
    }
  }

  lemma {:induction false} CountBound(votes: seq<Vote>, o: string, p: string)
    ensures Count(votes, o) <= |votes|
    ensures o != p ==> Count(votes, o) + Count(votes, p) <= |votes|
  {
    if votes != [] { CountBound(votes[..|votes| - 1], o, p); }
  }

  /** A rearrangement's last vote can be taken out of the other list. */
  lemma TakeOut(a: seq<Vote>, b: seq<Vote>) returns (j: nat)
    requires a != [] && multiset(a) == multiset(b)
    ensures j < |b| && b[j] == a[|a| - 1] && b == b[..j] + [b[j]] + b[j + 1..]
    ensures multiset(a[..|a| - 1]) == multiset(b[..j] + b[j + 1..])
  {
    var x := a[|a| - 1];
    assert a == a[..|a| - 1] + [x];
    assert x in multiset(b);
    j :| 0 <= j < |b| && b[j] == x;
    TakenOut(b, j);
    CancelOne(multiset(a[..|a| - 1]), multiset(b[..j] + b[j + 1..]), x);
  }

  lemma CancelOne(m: multiset<Vote>, n: multiset<Vote>, x: Vote)
    requires m + multiset{x} == n + multiset{x}
    ensures m == n
  {
    assert m == m + multiset{x} - multiset{x};
    assert n == n + multiset{x} - multiset{x};
  }

  lemma TakenOut(b: seq<Vote>, j: nat)
    requires j < |b|
    ensures b == b[..j] + [b[j]] + b[j + 1..]
    ensures multiset(b) == multiset(b[..j] + b[j + 1..]) + multiset{b[j]}
  {
    assert b == b[..j] + [b[j]] + b[j + 1..];
  }

  lemma {:induction false} SameCount(a: seq<Vote>, b: seq<Vote>, o: string)
    requires multiset(a) == multiset(b)
    ensures Count(a, o) == Count(b, o)
    decreases |a|
  {
    if a == [] {
      assert multiset(b) == multiset{};
      assert |b| == |multiset(b)|;
    } else {
      var j := TakeOut(a, b);
      SameCount(a[..|a| - 1], b[..j] + b[j + 1..], o);
      CountConcat(b[..j], b[j + 1..], o);
      CountConcat(b[..j] + [b[j]], b[j + 1..], o);
    }
  }

  lemma SameTally(a: seq<Vote>, b: seq<Vote>)
    requires multiset(a) == multiset(b)
    ensures |a| == |b| && Elements(Options(a)) == Elements(Options(b)) && Counts(a) == Counts(b)
  {
    assert |multiset(a)| == |a| && |multiset(b)| == |b|;
    OptionsAreNamed(a);
    OptionsAreNamed(b);
    forall o ensures Count(a, o) == Count(b, o) { SameCount(a, b, o); }
  }

  function Share(part: real, whole: real): real
    requires whole > 0.0
  {
    part / whole
  }

  // ---- What the tallies count -------------------------------------------------------------------

  function Cast(votes: seq<Vote>): seq<string> {
    seq(|votes|, i requires 0 <= i < |votes| => votes[i].option)
  }

  lemma {:induction false} CountMeaning(votes: seq<Vote>, o: string)
    ensures Count(votes, o) == multiset(Cast(votes))[o]
  {
    if votes != [] {
      var n := |votes| - 1;
      CountMeaning(votes[..n], o);
      assert Cast(votes) == Cast(votes[..n]) + [votes[n].option];
    }
  }

  /** The confidence each vote lends to an option. */
  function Confidences(votes: seq<Vote>, o: string): seq<real> {
    seq(|votes|, i requires 0 <= i < |votes| => if votes[i].option == o then votes[i].confidence else 0.0)
  }

  lemma {:induction false} WeightMeaning(votes: seq<Vote>, o: string)
    ensures Weight(votes, o) == Sums.Sum(Confidences(votes, o))
    ensures TotalWeight(votes) == Sums.Sum(seq(|votes|, i requires 0 <= i < |votes| => votes[i].confidence))
  {
    if votes != [] {
      var n := |votes| - 1;
      WeightMeaning(votes[..n], o);
      assert Confidences(votes, o)[..n] == Confidences(votes[..n], o);
      var all := seq(|votes|, i requires 0 <= i < |votes| => votes[i].confidence);
      assert all[..n] == seq(n, i requires 0 <= i < n => votes[..n][i].confidence);
    }
  }

  /** The counts published with a result: how often each option that was voted for was cast. */
  ghost predicate Published(votes: seq<Vote>, r: Result) {
    && r.total == |votes|
    && (forall o :: o in r.counts <==> o in Cast(votes))
    && forall o :: o in r.counts ==> r.counts[o] == multiset(Cast(votes))[o]
  }

  lemma CountsArePublished(votes: seq<Vote>, requireMajority: bool, minRatio: real, authority: string)
    ensures Published(votes, Majority(requireMajority, votes))
    ensures Published(votes, Weighted(minRatio, votes))
    ensures Published(votes, Hierarchical(authority, votes))
  {
    OptionsAreNamed(votes);
    forall o ensures Count(votes, o) == multiset(Cast(votes))[o] && (o in Options(votes) <==> o in Cast(votes)) {
      CountMeaning(votes, o);
      assert o in Cast(votes) <==> o in multiset(Cast(votes));
    }
  }

  // ---- Majority vote ----------------------------------------------------------------------------

  function CountScore(votes: seq<Vote>): Score {
    (o: string) => Count(votes, o) as real
  }

  function Majority(requireMajority: bool, votes: seq<Vote>): Result {
    if votes == [] then NO_VOTES
    else
      var winner := Winner(Options(votes), CountScore(votes));
      var agreement := Share(Largest(Options(votes), CountScore(votes)), |votes| as real);
      Result(winner, Counts(votes), |votes|, agreement, !(requireMajority && agreement <= 0.5 && |votes| > 1))
  }

  ghost predicate HasMajority(votes: seq<Vote>, o: string) {
    2 * Count(votes, o) > |votes|
  }

  /** The winner has the most votes, the least such option on a tie, and the ratio is its share of them. */
  lemma MajorityMeaning(requireMajority: bool, votes: seq<Vote>)
    requires votes != []
    ensures var r := Majority(requireMajority, votes);
            && Wins(r.winner, Elements(Options(votes)), CountScore(votes))
            && r.total == |votes| && r.agreement == Share(Count(votes, r.winner) as real, |votes| as real)
  {
    WinnerWins(Options(votes), CountScore(votes));
  }

  lemma ShareAgainst(x: real, y: real, m: real)
    requires y > 0.0
    ensures Share(x, y) >= m <==> x >= m * y
    ensures Share(x, y) <= m <==> x <= m * y
  {
    var q := Share(x, y);
    assert q * y == x;
    assert (q - m) * y == x - m * y;
  }

  lemma Half(k: nat, n: nat)
    requires n > 0
    ensures Share(k as real, n as real) <= 0.5 <==> 2 * k <= n
  {
    ShareAgainst(k as real, n as real, 0.5);
  }

  /** Consensus is reached exactly when some option has more than half the votes, and that option wins. */
  lemma MajorityDecides(votes: seq<Vote>)
    ensures Majority(true, votes).reached <==> exists o :: HasMajority(votes, o)
    ensures forall o :: HasMajority(votes, o) ==> Majority(true, votes).winner == o
  {
    if votes != [] {
      var r := Majority(true, votes);
      MajorityMeaning(true, votes);
      OptionsAreNamed(votes);
      Half(Count(votes, r.winner), |votes|);
      forall o | HasMajority(votes, o) ensures r.winner == o && HasMajority(votes, r.winner) {
        CountBound(votes, r.winner, o);
        assert o in Options(votes);
        assert CountScore(votes)(o) <= CountScore(votes)(r.winner);
      }
      if r.reached { assert HasMajority(votes, r.winner); }
    }
  }

  /** When a plurality is enough, any vote at all settles the matter. */
  lemma PluralityDecides(votes: seq<Vote>)
    ensures Majority(false, votes).reached <==> votes != []
    ensures forall o :: HasMajority(votes, o) ==> Majority(false, votes).winner == o
    ensures forall required :: Majority(required, []) == Result("", map[], 0, 0.0, false)
  {
    if votes != [] {
      MajorityMeaning(false, votes);
      MajorityMeaning(true, votes);
      MajorityDecides(votes);
    }
  }

  /** Rearranging the votes changes nothing. */
  lemma MajorityIgnoresOrder(requireMajority: bool, a: seq<Vote>, b: seq<Vote>)
    requires multiset(a) == multiset(b)
    ensures Majority(requireMajority, a) == Majority(requireMajority, b)
  {
    SameTally(a, b);
    if a != [] {
      var x, y := Majority(requireMajority, a), Majority(requireMajority, b);
      MajorityMeaning(requireMajority, a);
      MajorityMeaning(requireMajority, b);
      forall o ensures CountScore(a)(o) == CountScore(b)(o) { SameCount(a, b, o); }
      OneWinner(x.winner, y.winner, Elements(Options(a)), CountScore(a), CountScore(b));
    }
  }

  // ---- Confidence-weighted vote -----------------------------------------------------------------

  function Weight(votes: seq<Vote>, o: string): real {
    if votes == [] then 0.0
    else Weight(votes[..|votes| - 1], o) + if votes[|votes| - 1].option == o then votes[|votes| - 1].confidence else 0.0
  }

  function TotalWeight(votes: seq<Vote>): real {
    if votes == [] then 0.0 else TotalWeight(votes[..|votes| - 1]) + votes[|votes| - 1].confidence
  }

  function WeightScore(votes: seq<Vote>): Score {
    (o: string) => Weight(votes, o)
  }

  lemma {:induction false} TotalWeightSign(votes: seq<Vote>)
    ensures TotalWeight(votes) >= 0.0
  {
    if votes != [] { TotalWeightSign(votes[..|votes| - 1]); }
  }

  /** What the weighted vote decides: by weight, or by count when nobody is confident at all. */
  function Weighted(minRatio: real, votes: seq<Vote>): Result {
    if votes == [] then NO_VOTES
    else
      var flat := TotalWeight(votes) == 0.0;
      var score := if flat then CountScore(votes) else WeightScore(votes);
      var total := if flat then |votes| as real else TotalWeight(votes);
      TotalWeightSign(votes);
      var agreement := Share(Largest(Options(votes), score), total);
      Result(Winner(Options(votes), score), Counts(votes), |votes|, agreement, agreement >= minRatio)
  }

  /** The running maps of the accumulation loop. */
  ghost predicate Tallied(votes: seq<Vote>, weights: map<string, real>, counts: map<string, nat>) {
    && weights.Keys == counts.Keys == Elements(Options(votes))
    && forall o :: o in weights ==> weights[o] == Weight(votes, o) && counts[o] == Count(votes, o)
  }

  method ResolveWeighted(minRatio: real, votes: seq<Vote>) returns (r: Result)
    ensures r == Weighted(minRatio, votes)
  {
    if votes == [] { return NO_VOTES; }
    var order, weights, counts := Accumulate(votes);
    var total := SumValues(weights);
    SumOfWeights(votes, weights);
    if total == 0.0 {
      weights := map o | o in counts :: counts[o] as real;
      total := |votes| as real;
    }
    var score := (o: string) => if o in weights then weights[o] else 0.0;
    ghost var meant := if TotalWeight(votes) == 0.0 then CountScore(votes) else WeightScore(votes);
    ScoresAgree(order, score, meant);
    TotalWeightSign(votes);
    var agreement := Share(Largest(order, score), total);
    assert counts == Counts(votes);
    r := Result(Winner(order, score), counts, |votes|, agreement, agreement >= minRatio);
  }

  method Accumulate(votes: seq<Vote>) returns (order: seq<string>, weights: map<string, real>, counts: map<string, nat>)
    ensures order == Options(votes) && Tallied(votes, weights, counts)
  {
    order, weights, counts := [], map[], map[];
    for i := 0 to |votes|
      invariant order == Options(votes[..i]) && Tallied(votes[..i], weights, counts)
    {
      var o := votes[i].option;
      TallyStep(votes, i);
      if o !in weights { order := order + [o]; }
      weights := weights[o := (if o in weights then weights[o] else 0.0) + votes[i].confidence];
      counts := counts[o := (if o in counts then counts[o] else 0) + 1];
    }
    assert votes[..|votes|] == votes;
  }

  lemma TallyStep(votes: seq<Vote>, i: nat)
    requires i < |votes|
    ensures var prefix, next := votes[..i], votes[..i + 1];
            && Options(next) == (if votes[i].option in Options(prefix) then Options(prefix)
                                 else Options(prefix) + [votes[i].option])
            && (forall o ::
                  Weight(next, o) == Weight(prefix, o) + if votes[i].option == o then votes[i].confidence else 0.0)
            && (forall o :: Count(next, o) == Count(prefix, o) + if votes[i].option == o then 1 else 0)
            && (forall o :: o !in Options(prefix) ==> Weight(prefix, o) == 0.0 && Count(prefix, o) == 0)
  {
    assert votes[..i + 1][..i] == votes[..i];
    OptionsAreNamed(votes[..i]);
    forall o | o !in Options(votes[..i]) ensures Weight(votes[..i], o) == 0.0 { Unnamed(votes[..i], o); }
  }

  lemma {:induction false} Unnamed(votes: seq<Vote>, o: string)
    requires Count(votes, o) == 0
    ensures Weight(votes, o) == 0.0
  {
    if votes != [] { Unnamed(votes[..|votes| - 1], o); }
  }

  method SumValues(values: map<string, real>) returns (total: real)
    ensures total == Totals.Sum(values, values.Keys)
  {
    total := 0.0;
    var left := values.Keys;
    ghost var done := {};
    while left != {}
      invariant left !! done && left + done == values.Keys && total == Totals.Sum(values, done)
      decreases left
    {
      var o :| o in left;
      Totals.SumJoin(values, done, o);
      total := total + values[o];
      left, done := left - {o}, done + {o};
    }
    assert done == values.Keys;
  }

  ghost function WeightMap(votes: seq<Vote>, options: set<string>): map<string, real> {
    map o | o in options :: Weight(votes, o)
  }

  /** Summing over options gives the same as summing over votes. */
  lemma {:induction false} SumByOption(votes: seq<Vote>, options: set<string>)
    requires Elements(Options(votes)) <= options
    ensures Totals.Sum(WeightMap(votes, options), options) == TotalWeight(votes)
  {
    if votes == [] {
      Totals.SumZero(WeightMap(votes, options), options);
    } else {
      var front, last := votes[..|votes| - 1], votes[|votes| - 1];
      var before, after := WeightMap(front, options), WeightMap(votes, options);
      SumByOption(front, options);
      assert last.option in options;
      Totals.SumSplit(before, options, last.option);
      Totals.SumSplit(after, options, last.option);
      Totals.SumOrder(before, after, options - {last.option});
    }
  }

  lemma SumOfWeights(votes: seq<Vote>, weights: map<string, real>)
    requires weights.Keys == Elements(Options(votes)) && forall o :: o in weights ==> weights[o] == Weight(votes, o)
    ensures Totals.Sum(weights, weights.Keys) == TotalWeight(votes)
  {
    SumByOption(votes, weights.Keys);
    assert weights == WeightMap(votes, weights.Keys);
  }

  /** Only the scores of the listed options matter. */
  lemma ScoresAgree(options: seq<string>, score: Score, score': Score)
    requires options != [] && forall o :: o in options ==> score(o) == score'(o)
    ensures Largest(options, score) == Largest(options, score') && Winner(options, score) == Winner(options, score')
  {
    LargestIsReached(options, score);
    LargestIsReached(options, score');
    WinnerWins(options, score);
    WinnerWins(options, score');
    OneWinner(Winner(options, score), Winner(options, score'), Elements(options), score, score');
  }

  /** The weighted winner carries the most confidence, and the ratio is its share of all confidence. */
  lemma WeightedMeaning(minRatio: real, votes: seq<Vote>)
    requires votes != [] && TotalWeight(votes) > 0.0
    ensures var r := Weighted(minRatio, votes);
            && Wins(r.winner, Elements(Options(votes)), WeightScore(votes))
            && r.agreement == Share(Weight(votes, r.winner), TotalWeight(votes))
            && (r.reached <==> r.agreement >= minRatio)
  {
    var winner := Winner(Options(votes), WeightScore(votes));
    WinnerWins(Options(votes), WeightScore(votes));
    assert WeightScore(votes)(winner) == Weight(votes, winner);
  }

  lemma {:induction false} WeightConcat(a: seq<Vote>, b: seq<Vote>, o: string)
    ensures Weight(a + b, o) == Weight(a, o) + Weight(b, o)
    ensures TotalWeight(a + b) == TotalWeight(a) + TotalWeight(b)
  {
    if b == [] {
      assert a + b == a;
    } else {
      assert (a + b)[..|a + b| - 1] == a + b[..|b| - 1];
      WeightConcat(a, b[..|b| - 1], o);
    }
  }

  lemma {:induction false} SameWeight(a: seq<Vote>, b: seq<Vote>, o: string)
    requires multiset(a) == multiset(b)
    ensures Weight(a, o) == Weight(b, o) && TotalWeight(a) == TotalWeight(b)
    decreases |a|
  {
    if a == [] {
      assert multiset(b) == multiset{};
      assert |b| == |multiset(b)|;
    } else {
      var j := TakeOut(a, b);
      SameWeight(a[..|a| - 1], b[..j] + b[j + 1..], o);
      WeightConcat(b[..j], b[j + 1..], o);
      WeightConcat(b[..j] + [b[j]], b[j + 1..], o);
    }
  }

  lemma WeightedIgnoresOrder(minRatio: real, a: seq<Vote>, b: seq<Vote>)
    requires multiset(a) == multiset(b)
    ensures Weighted(minRatio, a) == Weighted(minRatio, b)
  {
    SameTally(a, b);
    if a != [] {
      SameWeight(a, b, "");
      if TotalWeight(a) == 0.0 {
        forall o ensures CountScore(a)(o) == CountScore(b)(o) { SameCount(a, b, o); }
        SameChoice(Options(a), Options(b), CountScore(a), CountScore(b));
      } else {
        forall o ensures WeightScore(a)(o) == WeightScore(b)(o) { SameWeight(a, b, o); }
        SameChoice(Options(a), Options(b), WeightScore(a), WeightScore(b));
      }
    }
  }

  /** Two listings of one set of options, scored alike, give one winner and one best score. */
  lemma SameChoice(xs: seq<string>, ys: seq<string>, score: Score, score': Score)
    requires xs != [] && ys != [] && Elements(xs) == Elements(ys)
    requires forall o :: o in xs ==> score(o) == score'(o)
    ensures Winner(xs, score) == Winner(ys, score') && Largest(xs, score) == Largest(ys, score')
  {
    WinnerWins(xs, score);
    WinnerWins(ys, score');
    forall o | o in Elements(xs) ensures score(o) == score'(o) {}
    OneWinner(Winner(xs, score), Winner(ys, score'), Elements(xs), score, score');
  }

  // ---- Weighted vote against plurality ----------------------------------------------------------

  /** With one confidence throughout, weights are counts in another unit. */
  lemma {:induction false} EqualConfidence(votes: seq<Vote>, c: real, o: string)
    requires forall v :: v in votes ==> v.confidence == c
    ensures Weight(votes, o) == Multiple(c, Count(votes, o))
    ensures TotalWeight(votes) == Multiple(c, |votes|)
  {
    if votes != [] {
      EqualConfidence(votes[..|votes| - 1], c, o);
      assert votes[|votes| - 1] in votes;
    }
  }

  /** `c` added up `k` times. */
  ghost function Multiple(c: real, k: nat): real {
    if k == 0 then 0.0 else Multiple(c, k - 1) + c
  }

  lemma {:induction false} MultipleOrder(c: real, k: nat, m: nat)
    requires c > 0.0
    ensures Multiple(c, k) <= Multiple(c, m) <==> k <= m
  {
    if k > 0 && m > 0 {
      MultipleOrder(c, k - 1, m - 1);
    } else if k > 0 {
      MultiplePositive(c, k);
    } else if m > 0 {
      MultiplePositive(c, m);
    }
  }

  lemma {:induction false} MultiplePositive(c: real, k: nat)
    requires c > 0.0 && k > 0
    ensures Multiple(c, k) > 0.0
  {
    if k > 1 { MultiplePositive(c, k - 1); }
  }

  lemma {:induction false} MultipleIsProduct(c: real, k: nat)
    ensures Multiple(c, k) == c * k as real
  {
    if k > 0 {
      MultipleIsProduct(c, k - 1);
      var x := (k - 1) as real;
      assert k as real == x + 1.0;
      assert c * (x + 1.0) == c * x + c;
    }
  }

  lemma {:induction false} MultipleZero(k: nat)
    ensures Multiple(0.0, k) == 0.0
  {
    if k > 0 { MultipleZero(k - 1); }
  }

  /** If all voters are equally confident, even not at all, the weighted vote is the plurality vote. */
  lemma EqualConfidenceIsPlurality(minRatio: real, votes: seq<Vote>, c: real)
    requires votes != [] && forall v :: v in votes ==> v.confidence == c
    ensures var weighted, plurality := Weighted(minRatio, votes), Majority(false, votes);
            weighted == plurality.(reached := plurality.agreement >= minRatio)
  {
    EqualConfidence(votes, c, "");
    assert votes[0] in votes;
    if c == 0.0 {
      MultipleZero(|votes|);
    } else {
      MultiplePositive(c, |votes|);
      var options := Options(votes);
      WinnerWins(options, CountScore(votes));
      WinnerWins(options, WeightScore(votes));
      forall a, b
        ensures CountScore(votes)(a) <= CountScore(votes)(b) <==> WeightScore(votes)(a) <= WeightScore(votes)(b)
      {
        EqualConfidence(votes, c, a);
        EqualConfidence(votes, c, b);
        MultipleOrder(c, Count(votes, a), Count(votes, b));
      }
      var winner := Winner(options, CountScore(votes));
      OneWinner(winner, Winner(options, WeightScore(votes)), Elements(options), CountScore(votes), WeightScore(votes));
      EqualConfidence(votes, c, winner);
      SameShare(c, Count(votes, winner), |votes|);
    }
  }

  lemma SameShare(c: real, k: nat, n: nat)
    requires c > 0.0 && n > 0 && Multiple(c, n) > 0.0
    ensures Share(Multiple(c, k), Multiple(c, n)) == Share(k as real, n as real)
  {
    MultipleIsProduct(c, k);
    MultipleIsProduct(c, n);
    Cancel(c, k as real, n as real);
  }

  lemma Cancel(c: real, x: real, y: real)
    requires c > 0.0 && y > 0.0 && c * y > 0.0
    ensures Share(c * x, c * y) == Share(x, y)
  {
    var q := Share(x, y);
    assert q * y == x;
    assert q * (c * y) == c * x;
  }

  // ---- Hierarchical vote ------------------------------------------------------------------------

  /** The votes cast by one agent, in order. */
  function VotesBy(votes: seq<Vote>, id: string): seq<Vote> {
    if votes == [] then []
    else
      var last := votes[|votes| - 1];
      VotesBy(votes[..|votes| - 1], id) + if last.agentId == id then [last] else []
  }

  function Hierarchical(authority: string, votes: seq<Vote>): Result {
    if votes == [] then NO_VOTES
    else
      var own := VotesBy(votes, authority);
      if own != [] then
        var winner := own[|own| - 1].option;
        Result(winner, Counts(votes), |votes|, Share(Count(votes, winner) as real, |votes| as real), true)
      else Majority(false, votes)
  }

  ghost predicate HasVoted(votes: seq<Vote>, id: string) {
    exists v :: v in votes && v.agentId == id
  }

  lemma {:induction false} VotesByMembers(votes: seq<Vote>, id: string)
    ensures forall v :: v in VotesBy(votes, id) <==> v in votes && v.agentId == id
  {
    if votes != [] {
      VotesByMembers(votes[..|votes| - 1], id);
      LastMember(votes);
    }
  }

  /** Without a vote of the authority the outcome is the plurality vote. */
  lemma NoAuthorityIsPlurality(authority: string, votes: seq<Vote>)
    requires !HasVoted(votes, authority)
    ensures Hierarchical(authority, votes) == Majority(false, votes)
  {
    VotesByMembers(votes, authority);
    if votes != [] && VotesBy(votes, authority) != [] {
      assert VotesBy(votes, authority)[0] in VotesBy(votes, authority);
    }
  }

  /** Appending a vote of the authority settles the matter; appending anyone else's vote does not unsettle it. */
  lemma LastWordOfAuthority(authority: string, votes: seq<Vote>, others: seq<Vote>, word: Vote)
    requires word.agentId == authority && !HasVoted(others, authority)
    ensures var all := votes + [word] + others;
            Hierarchical(authority, all) ==
            Result(word.option, Counts(all), |all|, Share(Count(all, word.option) as real, |all| as real), true)
  {
    var all := votes + [word] + others;
    LastVoteBy(authority, votes, others, word);
  }

  lemma {:induction false} LastVoteBy(id: string, votes: seq<Vote>, others: seq<Vote>, word: Vote)
    requires word.agentId == id && !HasVoted(others, id)
    ensures VotesBy(votes + [word] + others, id) == VotesBy(votes, id) + [word]
  {
    var all := votes + [word] + others;
    if others == [] {
      assert all == votes + [word];
      assert all[..|all| - 1] == votes;
    } else {
      var rest := others[..|others| - 1];
      assert all[..|all| - 1] == votes + [word] + rest;
      assert others[|others| - 1] in others;
      LastVoteBy(id, votes, rest, word);
    }
  }

  /** The authority's votes, if any, all name one option. */
  ghost predicate SpeaksWithOneVoice(authority: string, votes: seq<Vote>) {
    forall v, w :: v in votes && w in votes && v.agentId == authority && w.agentId == authority ==> v.option == w.option
  }

  /** Order matters exactly when the authority voted for two different options. */
  lemma HierarchicalIgnoresOrderIff(authority: string, votes: seq<Vote>)
    ensures SpeaksWithOneVoice(authority, votes) <==>
            forall other: seq<Vote> :: multiset(other) == multiset(votes) ==>
              Hierarchical(authority, other) == Hierarchical(authority, votes)
  {
    if SpeaksWithOneVoice(authority, votes) {
      forall other: seq<Vote> | multiset(other) == multiset(votes)
        ensures Hierarchical(authority, other) == Hierarchical(authority, votes)
      {
        OneVoiceAnyOrder(authority, votes, other);
      }
    } else {
      var other := Contradict(authority, votes);
      assert multiset(other) == multiset(votes) && Hierarchical(authority, other) != Hierarchical(authority, votes);
    }
  }

  lemma OneVoiceAnyOrder(authority: string, votes: seq<Vote>, other: seq<Vote>)
    requires SpeaksWithOneVoice(authority, votes) && multiset(other) == multiset(votes)
    ensures Hierarchical(authority, other) == Hierarchical(authority, votes)
  {
    SameTally(votes, other);
    SameMembers(votes, other);
    VotesByMembers(votes, authority);
    VotesByMembers(other, authority);
    var own, own' := VotesBy(votes, authority), VotesBy(other, authority);
    if own != [] {
      assert own[|own| - 1] in own;
      assert own[|own| - 1] in own';
      assert own'[|own'| - 1] in own';
      SameCount(votes, other, own[|own| - 1].option);
    } else {
      SomeMember(own');
      MajorityIgnoresOrder(false, votes, other);
    }
  }

  lemma SameMembers(a: seq<Vote>, b: seq<Vote>)
    requires multiset(a) == multiset(b)
    ensures forall v :: v in a <==> v in b
  {
    forall v ensures v in a <==> v in b { assert v in multiset(a) <==> v in multiset(b); }
  }

  /** Moving a dissenting vote of the authority to the end changes the winner. */
  lemma Contradict(authority: string, votes: seq<Vote>) returns (other: seq<Vote>)
    requires !SpeaksWithOneVoice(authority, votes)
    ensures multiset(other) == multiset(votes)
    ensures Hierarchical(authority, other) != Hierarchical(authority, votes)
  {
    var v, w :| v in votes && w in votes && v.agentId == authority && w.agentId == authority && v.option != w.option;
    var winner := Hierarchical(authority, votes).winner;
    var word := if v.option == winner then w else v;
    var rest := MoveToEnd(votes, word);
    other := rest + [word];
    LastWordOfAuthority(authority, rest, [], word);
    assert rest + [word] + [] == other;
  }

  lemma MoveToEnd(votes: seq<Vote>, word: Vote) returns (rest: seq<Vote>)
    requires word in votes
    ensures multiset(rest + [word]) == multiset(votes)
  {
    var j :| 0 <= j < |votes| && votes[j] == word;
    TakenOut(votes, j);
    rest := votes[..j] + votes[j + 1..];
  }
}
