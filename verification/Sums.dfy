/** Sums of lists. */
module Sums {

  function Sum(xs: seq<real>): real {
    if xs == [] then 0.0 else Sum(xs[..|xs| - 1]) + xs[|xs| - 1]
  }

  function Total(ns: seq<nat>): nat {
    if ns == [] then 0 else Total(ns[..|ns| - 1]) + ns[|ns| - 1]
  }

  lemma {:induction false} SumUpdate(xs: seq<real>, i: nat, v: real)
    requires i < |xs|
    ensures Sum(xs[i := v]) == Sum(xs) - xs[i] + v
  {
    var n := |xs| - 1;
    if i == n {
      assert xs[i := v][..n] == xs[..n];
    } else {
      SumUpdate(xs[..n], i, v);
      assert xs[i := v][..n] == xs[..n][i := v];
    }
  }

  lemma {:induction false} TotalUpdate(ns: seq<nat>, i: nat, n: nat)
    requires i < |ns|
    ensures Total(ns[i := n]) == Total(ns) - ns[i] + n
  {
    var last := |ns| - 1;
    if i == last {
      assert ns[i := n][..last] == ns[..last];
    } else {
      TotalUpdate(ns[..last], i, n);
      assert ns[i := n][..last] == ns[..last][i := n];
    }
  }

  lemma SumPrefix(xs: seq<real>, k: nat)
    requires k < |xs|
    ensures Sum(xs[..k + 1]) == Sum(xs[..k]) + xs[k]
  {
    assert xs[..k + 1][..k] == xs[..k];
  }

  lemma SumAppend(xs: seq<real>, v: real)
    ensures Sum(xs + [v]) == Sum(xs) + v
  {
    assert (xs + [v])[..|xs|] == xs;
  }

  lemma {:induction false} SumSigns(xs: seq<real>)
    ensures (forall i :: 0 <= i < |xs| ==> xs[i] <= 0.0) ==> Sum(xs) <= 0.0
    ensures xs != [] && (forall i :: 0 <= i < |xs| ==> xs[i] > 0.0) ==> Sum(xs) > 0.0
    ensures (forall i :: 0 <= i < |xs| ==> xs[i] >= 0.0) ==> Sum(xs) >= 0.0
  {
    if xs != [] {
      SumSigns(xs[..|xs| - 1]);
    }
  }

  /** A sum of non-negative numbers is positive exactly when one of them is. */
  lemma {:induction false} SumPositive(xs: seq<real>)
    requires forall i :: 0 <= i < |xs| ==> xs[i] >= 0.0
    ensures Sum(xs) > 0.0 <==> exists i :: 0 <= i < |xs| && xs[i] > 0.0
  {
    SumSigns(xs);
    if xs != [] {
      var front := xs[..|xs| - 1];
      SumSigns(front);
      SumPositive(front);
      if i :| 0 <= i < |xs| && xs[i] > 0.0 { assert i < |front| ==> front[i] > 0.0; }
    }
  }

  lemma {:induction false} SumOrder(xs: seq<real>, ys: seq<real>)
    requires |xs| == |ys| && forall i :: 0 <= i < |xs| ==> xs[i] <= ys[i]
    ensures Sum(xs) <= Sum(ys)
    ensures (exists i :: 0 <= i < |xs| && xs[i] < ys[i]) ==> Sum(xs) < Sum(ys)
  {
    if xs != [] {
      var low, high := xs[..|xs| - 1], ys[..|ys| - 1];
      SumOrder(low, high);
      if i :| 0 <= i < |xs| && xs[i] < ys[i] { assert i < |low| ==> low[i] < high[i]; }
    }
  }

  lemma {:induction false} SumSingle(xs: seq<real>, k: nat)
    requires forall i :: 0 <= i < |xs| && i != k ==> xs[i] == 0.0
    ensures Sum(xs) == if k < |xs| then xs[k] else 0.0
  {
    if xs != [] { SumSingle(xs[..|xs| - 1], k); }
  }
}
