/**
 Smooth weighted round robin as a sequence of states, with its exact fairness. Current weights are
 kept as exact reals. Weights need only be commensurable, whole multiples of a common unit, which
 every list of finite floating-point weights is.
 */
module SmoothWeights {
  import opened Sequences
  import opened Sums

  /** `b` is the position of the first maximum. */
  ghost predicate IsBest(xs: seq<real>, b: nat) {
    && b < |xs|
    && (forall i :: 0 <= i < |xs| ==> xs[i] <= xs[b])
    && forall i :: 0 <= i < b ==> xs[i] < xs[b]
  }

  lemma {:induction false} BestExists(xs: seq<real>) returns (b: nat)
    requires xs != []
    ensures IsBest(xs, b)
  {
    if |xs| == 1 {
      b := 0;
    } else {
      b := BestExists(xs[..|xs| - 1]);
      if xs[|xs| - 1] > xs[b] {
        b := |xs| - 1;
      }
    }
  }

  ghost function Best(xs: seq<real>): (b: nat)
    requires xs != []
    ensures IsBest(xs, b)
  {
    assert exists b: nat :: IsBest(xs, b) by { var w := BestExists(xs); }
    var b: nat :| IsBest(xs, b);
    b
  }

  lemma BestUnique(xs: seq<real>, a: nat, b: nat)
    requires IsBest(xs, a) && IsBest(xs, b)
    ensures a == b
  {
    assert xs[a] <= xs[b] && xs[b] <= xs[a];
  }

  function Bumped(current: seq<real>, weights: seq<real>): seq<real>
    requires |current| == |weights|
  {
    seq(|weights|, i requires 0 <= i < |weights| => current[i] + weights[i])
  }

  ghost function Pick(current: seq<real>, weights: seq<real>): nat
    requires |current| == |weights| > 0
  {
    Best(Bumped(current, weights))
  }

  /** One selection: everybody gains its weight, the winner pays the total. */
  ghost function Next(current: seq<real>, weights: seq<real>): (r: seq<real>)
    requires |current| == |weights| > 0
  {
    var b := Bumped(current, weights);
    b[Best(b) := b[Best(b)] - Sum(weights)]
  }

  /** The current weights after `t` selections from all zero. */
  ghost function Run(weights: seq<real>, t: nat): (r: seq<real>)
    requires weights != []
    ensures |r| == |weights|
  {
    if t == 0 then seq(|weights|, _ => 0.0) else Next(Run(weights, t - 1), weights)
  }

  /** The endpoint chosen by selection number `t`, counting from zero. */
  ghost function Chosen(weights: seq<real>, t: nat): (i: nat)
    requires weights != []
    ensures i < |weights|
  {
    Pick(Run(weights, t), weights)
  }

  /** How often `chosen` takes the value `i` on the numbers `from .. to`. */
  ghost function CountOf(chosen: nat -> nat, i: nat, from: nat, to: nat): nat
    requires from <= to
  {
    if from == to then 0 else CountOf(chosen, i, from, to - 1) + if chosen(to - 1) == i then 1 else 0
  }

  ghost function Chooser(weights: seq<real>): nat -> nat
    requires weights != []
  {
    (t: nat) => Chosen(weights, t)
  }

  /** How often `i` is chosen by the selections numbered `from .. to`. */
  ghost function Count(weights: seq<real>, i: nat, from: nat, to: nat): nat
    requires weights != [] && from <= to
  {
    CountOf(Chooser(weights), i, from, to)
  }

  ghost predicate Positive(weights: seq<real>) {
    weights != [] && forall i :: 0 <= i < |weights| ==> weights[i] > 0.0
  }

  /** Whoever finds the first maximum, and lets it pay, makes the next state. */
  lemma NextFromBest(current: seq<real>, weights: seq<real>, b: nat, after: seq<real>)
    requires |current| == |weights| == |after| > 0 && IsBest(Bumped(current, weights), b)
    requires forall i :: 0 <= i < |after| ==> after[i] == current[i] + weights[i] - if i == b then Sum(weights) else 0.0
    ensures Pick(current, weights) == b && Next(current, weights) == after
  {
    BestUnique(Bumped(current, weights), b, Pick(current, weights));
    forall i | 0 <= i < |after| ensures Next(current, weights)[i] == after[i] {
      NextAt(current, weights, i);
    }
    Extensional(Next(current, weights), after);
  }

  lemma Extensional(a: seq<real>, b: seq<real>)
    requires |a| == |b| && forall i :: 0 <= i < |a| ==> a[i] == b[i]
    ensures a == b
  {
  }

  // ---- Sums -------------------------------------------------------------------------------------

  lemma {:induction false} SumBumped(current: seq<real>, weights: seq<real>)
    requires |current| == |weights|
    ensures Sum(Bumped(current, weights)) == Sum(current) + Sum(weights)
  {
    var n := |weights|;
    if n > 0 {
      SumBumped(current[..n - 1], weights[..n - 1]);
      assert Bumped(current, weights)[..n - 1] == Bumped(current[..n - 1], weights[..n - 1]);
    }
  }

  lemma {:induction false} SumZeros(n: nat)
    ensures Sum(seq(n, _ => 0.0)) == 0.0
  {
    if n > 0 {
      SumZeros(n - 1);
      assert seq(n, _ => 0.0)[..n - 1] == seq(n - 1, _ => 0.0);
    }
  }

  /** Non-negative numbers that sum to zero are all zero. */
  lemma {:induction false} AllZero(xs: seq<real>, i: nat)
    requires forall k :: 0 <= k < |xs| ==> xs[k] >= 0.0
    requires Sum(xs) == 0.0 && i < |xs|
    ensures xs[i] == 0.0
  {
    var front := xs[..|xs| - 1];
    SumSigns(front);
    if i < |front| {
      AllZero(front, i);
    }
  }

  // ---- Whole multiples --------------------------------------------------------------------------

  /** `n` times `x`, by repeated addition. */
  function Times(n: nat, x: real): real {
    if n == 0 then 0.0 else Times(n - 1, x) + x
  }

  lemma {:induction false} TimesIsProduct(n: nat, x: real)
    ensures Times(n, x) == n as real * x
  {
    if n > 0 {
      TimesIsProduct(n - 1, x);
      assert n as real * x == ((n - 1) as real + 1.0) * x == (n - 1) as real * x + x;
    }
  }

  lemma {:induction false} TimesAdd(a: nat, b: nat, x: real)
    ensures Times(a + b, x) == Times(a, x) + Times(b, x)
  {
    if b > 0 {
      TimesAdd(a, b - 1, x);
    }
  }

  lemma {:induction false} TimesSum(n: nat, x: real, y: real)
    ensures Times(n, x + y) == Times(n, x) + Times(n, y)
  {
    if n > 0 {
      TimesSum(n - 1, x, y);
    }
  }

  lemma {:induction false} TimesZero(n: nat)
    ensures Times(n, 0.0) == 0.0
  {
    if n > 0 {
      TimesZero(n - 1);
    }
  }

  lemma {:induction false} TimesSwap(n: nat, k: nat, x: real)
    ensures Times(n, Times(k, x)) == Times(k, Times(n, x))
  {
    if k == 0 {
      TimesZero(n);
    } else {
      TimesSwap(n, k - 1, x);
      TimesSum(n, Times(k - 1, x), x);
    }
  }

  lemma {:induction false} TimesGrows(a: nat, b: nat, x: real)
    requires a < b && x > 0.0
    ensures Times(a, x) + x <= Times(b, x)
  {
    if a + 1 < b {
      TimesGrows(a, b - 1, x);
    }
  }

  lemma CompareTimes(a: nat, b: nat, x: real)
    requires x > 0.0
    ensures a <= b <==> Times(a, x) <= Times(b, x)
    ensures a <= b <==> Times(a, x) < Times(b, x) + x
  {
    if a < b {
      TimesGrows(a, b, x);
    } else if b < a {
      TimesGrows(b, a, x);
    }
  }

  // ---- Fairness ---------------------------------------------------------------------------------

  /** The current weights always sum to zero. */
  lemma {:induction false} Balanced(weights: seq<real>, t: nat)
    requires weights != []
    ensures Sum(Run(weights, t)) == 0.0
  {
    if t == 0 {
      SumZeros(|weights|);
    } else {
      Balanced(weights, t - 1);
      NextKeepsSum(Run(weights, t - 1), weights);
    }
  }

  /** What everybody gains is what the winner pays. */
  lemma NextKeepsSum(current: seq<real>, weights: seq<real>)
    requires |current| == |weights| > 0
    ensures Sum(Next(current, weights)) == Sum(current)
  {
    var b, r, w := Bumped(current, weights), Next(current, weights), Pick(current, weights);
    SumBumped(current, weights);
    forall k | 0 <= k < |b| ensures r[k] == b[k] - if k == w then Sum(weights) else 0.0 {
      NextAt(current, weights, k);
    }
    SumPaid(b, w, Sum(weights), r);
  }

  lemma SumPaid(xs: seq<real>, i: nat, price: real, r: seq<real>)
    requires i < |xs| == |r| && forall k :: 0 <= k < |xs| ==> r[k] == xs[k] - if k == i then price else 0.0
    ensures Sum(r) == Sum(xs) - price
  {
    SumUpdate(xs, i, xs[i] - price);
    assert r == xs[i := xs[i] - price] by {
      forall k | 0 <= k < |xs| ensures r[k] == xs[i := xs[i] - price][k] {}
    }
  }

  lemma NextAt(current: seq<real>, weights: seq<real>, i: nat)
    requires |current| == |weights| && i < |weights|
    ensures |Next(current, weights)| == |weights|
    ensures Next(current, weights)[i] ==
            current[i] + weights[i] - if Pick(current, weights) == i then Sum(weights) else 0.0
  {
  }

  /** Over `n` selections, a current weight changes by what was gained minus what was paid. */
  lemma Ledger(weights: seq<real>, i: nat, from: nat, n: nat)
    requires i < |weights|
    ensures Run(weights, from + n)[i] ==
            Run(weights, from)[i] + Times(n, weights[i]) - Times(Count(weights, i, from, from + n), Sum(weights))
  {
    var levels, counts := LevelsUpTo(weights, i, from, n), CountsUpTo(weights, i, from, n);
    forall k: nat | k < n ensures LedgerLine(levels, counts, weights[i], Sum(weights), k) {
      RecordAt(weights, i, from, n, k);
      RecordAt(weights, i, from, n, k + 1);
      LineHolds(weights, i, from, k, levels, counts);
    }
    RecordAt(weights, i, from, n, 0);
    RecordAt(weights, i, from, n, n);
    AddUp(levels, counts, weights[i], Sum(weights), n);
  }

  /** The current weight of `i` before each of `n` selections from `from` on, and after the last. */
  ghost function LevelsUpTo(weights: seq<real>, i: nat, from: nat, n: nat): (levels: seq<real>)
    requires i < |weights|
    ensures |levels| == n + 1
  {
    (if n == 0 then [] else LevelsUpTo(weights, i, from, n - 1)) + [Run(weights, from + n)[i]]
  }

  /** The counts of the first selections from `from` on, none up to all `n`. */
  ghost function CountsUpTo(weights: seq<real>, i: nat, from: nat, n: nat): (counts: seq<nat>)
    requires weights != []
    ensures |counts| == n + 1
  {
    (if n == 0 then [] else CountsUpTo(weights, i, from, n - 1)) + [Count(weights, i, from, from + n)]
  }

  lemma {:induction false} RecordAt(weights: seq<real>, i: nat, from: nat, n: nat, k: nat)
    requires i < |weights| && k <= n
    ensures LevelsUpTo(weights, i, from, n)[k] == Run(weights, from + k)[i]
    ensures CountsUpTo(weights, i, from, n)[k] == Count(weights, i, from, from + k)
  {
    if k < n { RecordAt(weights, i, from, n - 1, k); }
  }

  /** One step of an account: always a gain, and a payment when the count goes up. */
  ghost predicate LedgerLine(levels: seq<real>, counts: seq<nat>, gain: real, price: real, k: nat) {
    && k + 1 < |levels| == |counts|
    && (counts[k + 1] == counts[k] || counts[k + 1] == counts[k] + 1)
    && levels[k + 1] == levels[k] + gain - if counts[k + 1] == counts[k] then 0.0 else price
  }

  lemma LineHolds(weights: seq<real>, i: nat, from: nat, k: nat, levels: seq<real>, counts: seq<nat>)
    requires i < |weights| && k + 1 < |levels| == |counts|
    requires levels[k] == Run(weights, from + k)[i] && levels[k + 1] == Run(weights, from + k + 1)[i]
    requires counts[k] == Count(weights, i, from, from + k) && counts[k + 1] == Count(weights, i, from, from + k + 1)
    ensures LedgerLine(levels, counts, weights[i], Sum(weights), k)
  {
    OneSelection(weights, i, from, from + k);
  }

  lemma {:induction false} AddUp(levels: seq<real>, counts: seq<nat>, gain: real, price: real, n: nat)
    requires n < |levels| == |counts| && counts[0] == 0
    requires forall k: nat :: k < n ==> LedgerLine(levels, counts, gain, price, k)
    ensures levels[n] == levels[0] + Times(n, gain) - Times(counts[n], price)
  {
    if n > 0 {
      AddUp(levels, counts, gain, price, n - 1);
      assert LedgerLine(levels, counts, gain, price, n - 1);
    }
  }

  lemma OneSelection(weights: seq<real>, i: nat, from: nat, t: nat)
    requires i < |weights| && from <= t
    ensures Run(weights, t + 1)[i] ==
            Run(weights, t)[i] + weights[i] - if Chosen(weights, t) == i then Sum(weights) else 0.0
    ensures Count(weights, i, from, t + 1) ==
            if Chosen(weights, t) == i then Count(weights, i, from, t) + 1 else Count(weights, i, from, t)
  {
    NextAt(Run(weights, t), weights, i);
  }

  /** Nobody falls a whole round behind zero. */
  lemma {:induction false} Floor(weights: seq<real>, t: nat, i: nat)
    requires Positive(weights) && i < |weights|
    ensures Run(weights, t)[i] > -Sum(weights)
  {
    SumSigns(weights);
    if t > 0 {
      Floor(weights, t - 1, i);
      OneSelection(weights, i, 0, t - 1);
      WinnerIsAbove(weights, t - 1);
    }
  }

  /** The sum after the gains is positive, so the largest entry is too. */
  lemma WinnerIsAbove(weights: seq<real>, t: nat)
    requires Positive(weights)
    ensures Run(weights, t)[Chosen(weights, t)] + weights[Chosen(weights, t)] > 0.0
  {
    var b := Bumped(Run(weights, t), weights);
    Balanced(weights, t);
    SumBumped(Run(weights, t), weights);
    SumSigns(weights);
    SumSigns(b);
  }

  /** In every prefix of `t` selections, nobody is chosen a full selection more than its share. */
  lemma PrefixBound(weights: seq<real>, t: nat, i: nat)
    requires Positive(weights) && i < |weights|
    ensures Times(Count(weights, i, 0, t), Sum(weights)) < Times(t, weights[i]) + Sum(weights)
  {
    Floor(weights, t, i);
    LedgerFromZero(weights, i, t);
  }

  /** And nobody falls behind its share by more than one selection for each of the others. */
  lemma PrefixFloor(weights: seq<real>, t: nat, i: nat)
    requires Positive(weights) && i < |weights|
    ensures Times(t, weights[i]) <= Times(Count(weights, i, 0, t), Sum(weights)) + Times(|weights| - 1, Sum(weights))
    ensures |weights| > 1 ==>
              Times(t, weights[i]) < Times(Count(weights, i, 0, t), Sum(weights)) + Times(|weights| - 1, Sum(weights))
  {
    var current := Run(weights, t);
    forall k | 0 <= k < |current| ensures current[k] > -Sum(weights) {
      Floor(weights, t, k);
    }
    Balanced(weights, t);
    RestIsAbove(current, i, Sum(weights));
    LedgerFromZero(weights, i, t);
  }

  lemma {:induction false} RestIsAbove(xs: seq<real>, i: nat, price: real)
    requires i < |xs| && forall k :: 0 <= k < |xs| ==> xs[k] > -price
    ensures Sum(xs) - xs[i] >= -Times(|xs| - 1, price) && (|xs| > 1 ==> Sum(xs) - xs[i] > -Times(|xs| - 1, price))
  {
    var front := xs[..|xs| - 1];
    if i < |front| {
      RestIsAbove(front, i, price);
    } else if front != [] {
      RestIsAbove(front, 0, price);
    }
  }

  lemma LedgerFromZero(weights: seq<real>, i: nat, t: nat)
    requires i < |weights|
    ensures Run(weights, t)[i] == Times(t, weights[i]) - Times(Count(weights, i, 0, t), Sum(weights))
  {
    Ledger(weights, i, 0, t);
    assert 0 + t == t && Run(weights, 0)[i] == 0.0;
  }

  /** Every weight is a whole number of the same unit. */
  ghost predicate Commensurable(weights: seq<real>, unit: real, shares: seq<nat>) {
    && unit > 0.0 && |shares| == |weights|
    && forall i :: 0 <= i < |weights| ==> shares[i] > 0 && weights[i] == Times(shares[i], unit)
  }

  lemma {:induction false} SumOfShares(weights: seq<real>, unit: real, shares: seq<nat>)
    requires Commensurable(weights, unit, shares)
    ensures Sum(weights) == Times(Total(shares), unit)
  {
    var n := |weights|;
    if n > 0 {
      SumOfShares(weights[..n - 1], unit, shares[..n - 1]);
      TimesAdd(Total(shares[..n - 1]), shares[n - 1], unit);
    }
  }

  lemma PositiveShares(weights: seq<real>, unit: real, shares: seq<nat>)
    requires weights != [] && Commensurable(weights, unit, shares)
    ensures Positive(weights) && Sum(weights) > 0.0
  {
    forall j | 0 <= j < |weights| ensures weights[j] > 0.0 {
      TimesGrows(0, shares[j], unit);
    }
    SumSigns(weights);
  }

  /** Over a full round an endpoint gains exactly its share of total weights, and pays one per choice. */
  lemma RoundBalance(weights: seq<real>, unit: real, shares: seq<nat>, i: nat, from: nat)
    requires weights != [] && Commensurable(weights, unit, shares) && i < |weights|
    ensures var n := Total(shares);
            Run(weights, from + n)[i] == Run(weights, from)[i]
              + Times(shares[i], Sum(weights)) - Times(Count(weights, i, from, from + n), Sum(weights))
  {
    SumOfShares(weights, unit, shares);
    Ledger(weights, i, from, Total(shares));
    TimesSwap(Total(shares), shares[i], unit);
  }

  /** Over one full round from zero, nobody is chosen more than its share. */
  lemma RoundUpper(weights: seq<real>, unit: real, shares: seq<nat>, i: nat)
    requires weights != [] && Commensurable(weights, unit, shares) && i < |weights|
    ensures Count(weights, i, 0, Total(shares)) <= shares[i]
    ensures Run(weights, Total(shares))[i] >= 0.0
  {
    PositiveShares(weights, unit, shares);
    RoundFromZero(weights, unit, shares, i);
    Floor(weights, Total(shares), i);
    NotOverpaid(Run(weights, Total(shares))[i], shares[i], Count(weights, i, 0, Total(shares)), Sum(weights));
  }

  lemma RoundFromZero(weights: seq<real>, unit: real, shares: seq<nat>, i: nat)
    requires weights != [] && Commensurable(weights, unit, shares) && i < |weights|
    ensures Run(weights, Total(shares))[i] ==
            Times(shares[i], Sum(weights)) - Times(Count(weights, i, 0, Total(shares)), Sum(weights))
  {
    RoundBalance(weights, unit, shares, i, 0);
    assert Run(weights, 0)[i] == 0.0;
  }

  lemma NotOverpaid(level: real, share: nat, count: nat, price: real)
    requires price > 0.0 && level == Times(share, price) - Times(count, price) > -price
    ensures count <= share && level >= 0.0
  {
    CompareTimes(count, share, price);
  }

  /** After one full round all current weights are back at zero. */
  lemma FullRound(weights: seq<real>, unit: real, shares: seq<nat>)
    requires weights != [] && Commensurable(weights, unit, shares)
    ensures Run(weights, Total(shares)) == Run(weights, 0)
  {
    var end := Run(weights, Total(shares));
    forall i | 0 <= i < |weights| ensures end[i] >= 0.0 {
      RoundUpper(weights, unit, shares, i);
    }
    Balanced(weights, Total(shares));
    forall i | 0 <= i < |weights| ensures end[i] == 0.0 {
      AllZero(end, i);
    }
  }

  lemma Periodic(weights: seq<real>, unit: real, shares: seq<nat>, t: nat)
    requires weights != [] && Commensurable(weights, unit, shares)
    ensures Run(weights, t + Total(shares)) == Run(weights, t)
  {
    FullRound(weights, unit, shares);
    RunRepeats(weights, Total(shares), t);
  }

  lemma {:induction false} RunRepeats(weights: seq<real>, n: nat, t: nat)
    requires weights != [] && Run(weights, n) == Run(weights, 0)
    ensures Run(weights, t + n) == Run(weights, t)
  {
    if t > 0 {
      RunRepeats(weights, n, t - 1);
      SameNext(weights, t - 1 + n, t - 1);
    }
  }

  lemma SameNext(weights: seq<real>, s: nat, t: nat)
    requires weights != [] && Run(weights, s) == Run(weights, t)
    ensures Run(weights, s + 1) == Run(weights, t + 1)
  {
  }

  /** Every window of `Total(shares)` consecutive selections chooses each endpoint exactly its share. */
  lemma WindowExact(weights: seq<real>, unit: real, shares: seq<nat>, start: nat, i: nat)
    requires weights != [] && Commensurable(weights, unit, shares) && i < |weights|
    ensures Count(weights, i, start, start + Total(shares)) == shares[i]
  {
    PositiveShares(weights, unit, shares);
    Periodic(weights, unit, shares, start);
    RoundBalance(weights, unit, shares, i, start);
    var c := Count(weights, i, start, start + Total(shares));
    CompareTimes(c, shares[i], Sum(weights));
    CompareTimes(shares[i], c, Sum(weights));
  }

  // ---- Observed selections ----------------------------------------------------------------------

  /** A record of selections: the current weights before each, starting at zero, and the picks. */
  ghost predicate Selections(weights: seq<real>, states: seq<seq<real>>, picks: seq<nat>) {
    && weights != [] && |states| == |picks| + 1 && states[0] == seq(|weights|, _ => 0.0)
    && forall t :: 0 <= t < |picks| ==>
         |states[t]| == |weights| && picks[t] == Pick(states[t], weights) && states[t + 1] == Next(states[t], weights)
  }

  /** A record goes on with the pick and the next state of its last one. */
  lemma OneMorePick(weights: seq<real>, states: seq<seq<real>>, picks: seq<nat>)
    requires Selections(weights, states, picks) && |states[|picks|]| == |weights|
    ensures var last := states[|picks|];
            Selections(weights, states + [Next(last, weights)], picks + [Pick(last, weights)])
  {
  }

  lemma {:induction false} SelectionsFollowRun(weights: seq<real>, states: seq<seq<real>>, picks: seq<nat>, t: nat)
    requires Selections(weights, states, picks) && t <= |picks|
    ensures states[t] == Run(weights, t)
    ensures t < |picks| ==> picks[t] == Chosen(weights, t)
  {
    if t > 0 {
      SelectionsFollowRun(weights, states, picks, t - 1);
    }
  }

  lemma {:induction false} CountPicks(chosen: nat -> nat, picks: seq<nat>, i: nat, from: nat, to: nat)
    requires from <= to <= |picks|
    requires forall t: nat :: from <= t < to ==> picks[t] == chosen(t)
    ensures multiset(picks[from..to])[i] == CountOf(chosen, i, from, to)
  {
    if from < to {
      CountPicks(chosen, picks, i, from, to - 1);
      assert picks[from..to] == picks[from..to - 1] + [picks[to - 1]];
    }
  }

  /** In any record of selections, every full window picks each endpoint exactly its share. */
  lemma FairSelections(weights: seq<real>, unit: real, shares: seq<nat>,
                       states: seq<seq<real>>, picks: seq<nat>, from: nat, i: nat)
    requires Selections(weights, states, picks) && Commensurable(weights, unit, shares) && i < |weights|
    requires from + Total(shares) <= |picks|
    ensures multiset(picks[from..from + Total(shares)])[i] == shares[i]
    ensures Sum(states[from]) == 0.0 && states[from + Total(shares)] == states[from]
  {
    CountOfRecord(weights, states, picks, i, from, from + Total(shares));
    WindowExact(weights, unit, shares, from, i);
    RecordOfRound(weights, unit, shares, states, picks, from);
  }

  lemma CountOfRecord(weights: seq<real>, states: seq<seq<real>>, picks: seq<nat>, i: nat, from: nat, to: nat)
    requires Selections(weights, states, picks) && from <= to <= |picks|
    ensures multiset(picks[from..to])[i] == Count(weights, i, from, to)
  {
    forall t: nat | from <= t < to ensures picks[t] == Chooser(weights)(t) {
      SelectionsFollowRun(weights, states, picks, t);
    }
    CountPicks(Chooser(weights), picks, i, from, to);
  }

  lemma RecordOfRound(weights: seq<real>, unit: real, shares: seq<nat>, states: seq<seq<real>>, picks: seq<nat>,
                      from: nat)
    requires Selections(weights, states, picks) && Commensurable(weights, unit, shares)
    requires from + Total(shares) <= |picks|
    ensures Sum(states[from]) == 0.0 && states[from + Total(shares)] == states[from]
  {
    SelectionsFollowRun(weights, states, picks, from);
    SelectionsFollowRun(weights, states, picks, from + Total(shares));
    Balanced(weights, from);
    Periodic(weights, unit, shares, from);
  }
}
