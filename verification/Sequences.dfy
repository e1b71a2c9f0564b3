/** Facts about finite sequences that several components share. */
module Sequences {

  datatype Option<+T> = None | Some(value: T) {
    function GetOr(default: T): T {
      match this
      case Some(v) => v
      case None => default
    }
  }

  ghost predicate Distinct<T>(xs: seq<T>) {
    forall i, j :: 0 <= i < j < |xs| ==> xs[i] != xs[j]
  }

  function Elements<T>(xs: seq<T>): set<T> {
    set x | x in xs
  }

  lemma {:induction false} DistinctSize<T>(xs: seq<T>)
    requires Distinct(xs)
    ensures |Elements(xs)| == |xs|
  {
    if xs != [] {
      var front, last := xs[..|xs| - 1], xs[|xs| - 1];
      DistinctSize(front);
      assert Elements(xs) == Elements(front) + {last};
      assert last !in front;
    }
  }

  /** A sequence longer than the pool it draws from repeats an element. */
  lemma {:induction false} Pigeonhole<T>(xs: seq<T>, pool: set<T>)
    requires Elements(xs) <= pool
    requires |xs| > |pool|
    ensures exists i, j :: 0 <= i < j < |xs| && xs[i] == xs[j]
  {
    if Distinct(xs) {
      DistinctSize(xs);
      SubsetSize(Elements(xs), pool);
    }
  }

  lemma {:induction false} SubsetSize<T>(a: set<T>, b: set<T>)
    requires a <= b
    ensures |a| <= |b|
    ensures |a| == |b| ==> a == b
    decreases a
  {
    if a != {} {
      var x :| x in a;
      SubsetSize(a - {x}, b - {x});
    }
  }

  lemma DistinctAppend<T>(xs: seq<T>, x: T)
    requires Distinct(xs) && x !in xs
    ensures Distinct(xs + [x])
    ensures Elements(xs + [x]) == Elements(xs) + {x}
  {
  }

  lemma DistinctConcat<T>(a: seq<T>, b: seq<T>)
    requires Distinct(a) && Distinct(b) && forall x :: x in a ==> x !in b
    ensures Distinct(a + b)
    ensures forall x :: x in a + b <==> x in a || x in b
  {
    var c := a + b;
    forall i, j | 0 <= i < j < |c| ensures c[i] != c[j] {
      if i < |a| <= j { assert c[i] in a && c[j] in b; }
    }
  }

  lemma DistinctParts<T>(a: seq<T>, b: seq<T>)
    requires Distinct(a + b)
    ensures Distinct(a) && Distinct(b)
    ensures forall x :: x in a ==> x !in b
  {
    var c := a + b;
    forall i, j | 0 <= i < j < |a| ensures a[i] != a[j] { assert c[i] != c[j]; }
    forall i, j | 0 <= i < j < |b| ensures b[i] != b[j] { assert c[|a| + i] != c[|a| + j]; }
    forall i, j | 0 <= i < |a| && 0 <= j < |b| ensures a[i] != b[j] { assert c[i] != c[|a| + j]; }
  }

  lemma TakeOneMore<T>(xs: seq<T>, k: nat)
    requires k < |xs|
    ensures multiset(xs[..k + 1]) == multiset(xs[..k]) + multiset{xs[k]}
    ensures multiset(xs[..k])[xs[k]] < multiset(xs)[xs[k]]
  {
    assert xs[..k + 1] == xs[..k] + [xs[k]];
    assert xs == xs[..k + 1] + xs[k + 1..];
  }

  /** Without repetitions every value occurs at most once, and conversely. */
  lemma {:induction false} DistinctMultiset<T>(xs: seq<T>)
    requires Distinct(xs)
    ensures forall y :: multiset(xs)[y] <= 1
  {
    if xs != [] {
      var front, last := xs[..|xs| - 1], xs[|xs| - 1];
      DistinctMultiset(front);
      assert xs == front + [last];
      assert last !in front;
      assert multiset(front)[last] == 0;
    }
  }

  lemma {:induction false} MultisetDistinct<T>(xs: seq<T>)
    requires forall y :: multiset(xs)[y] <= 1
    ensures Distinct(xs)
  {
    forall i, j | 0 <= i < j < |xs| ensures xs[i] != xs[j] {
      var before := multiset(xs[..j]);
      assert xs == xs[..j] + [xs[j]] + xs[j + 1..];
      assert multiset(xs) == before + multiset{xs[j]} + multiset(xs[j + 1..]);
      assert xs[..j][i] == xs[i];
      assert xs[i] in before;
      assert multiset(xs)[xs[j]] <= 1;
    }
  }

  lemma SomeMember<T>(xs: seq<T>)
    ensures xs != [] ==> exists x :: x in xs
  {
    if xs != [] { assert xs[0] in xs; }
  }

  lemma LastMember<T>(xs: seq<T>)
    requires xs != []
    ensures forall x :: x in xs <==> x in xs[..|xs| - 1] || x == xs[|xs| - 1]
  {
    assert xs == xs[..|xs| - 1] + [xs[|xs| - 1]];
  }

  lemma PrefixStep<T>(xs: seq<T>, k: nat)
    requires k < |xs|
    ensures xs[..k + 1] == xs[..k] + [xs[k]]
  {
  }

  /** Cutting a list at `k` and dropping its last element commute. */
  lemma PartsOfFront<T>(xs: seq<T>, k: nat)
    requires k < |xs|
    ensures var n := |xs| - 1;
            xs[..n][..k] == xs[..k] && xs[k..][..n - k] == xs[..n][k..] && xs[k..][n - k] == xs[n]
  {
  }

  /** The position of the first occurrence. */
  function IndexOf<T(==)>(xs: seq<T>, x: T): (k: nat)
    requires x in xs
    ensures k < |xs| && xs[k] == x && x !in xs[..k]
  {
    if xs[0] == x then 0 else
      assert xs[1..][..IndexOf(xs[1..], x)] == xs[1..IndexOf(xs[1..], x) + 1];
      1 + IndexOf(xs[1..], x)
  }

  lemma DistinctIndex<T>(xs: seq<T>, i: nat)
    requires Distinct(xs) && i < |xs|
    ensures IndexOf(xs, xs[i]) == i
  {
    var k := IndexOf(xs, xs[i]);
    assert xs[k] == xs[i];
  }

  /** The elements that pass a test, in order. */
  function Filter<T>(xs: seq<T>, keep: T -> bool): seq<T> {
    if xs == [] then []
    else Filter(xs[..|xs| - 1], keep) + if keep(xs[|xs| - 1]) then [xs[|xs| - 1]] else []
  }

  lemma {:induction false} FilterMembers<T>(xs: seq<T>, keep: T -> bool)
    ensures forall x :: x in Filter(xs, keep) <==> x in xs && keep(x)
  {
    if xs != [] {
      FilterMembers(xs[..|xs| - 1], keep);
      LastMember(xs);
    }
  }

  /** The positions of the raised flags. */
  ghost function Positions(flags: seq<bool>): seq<nat> {
    if flags == [] then []
    else
      var n := |flags| - 1;
      Positions(flags[..n]) + if flags[n] then [n] else []
  }

  /** They come in rising order, and every raised flag has its place among them. */
  lemma {:induction false} PositionsRise(flags: seq<bool>)
    ensures forall k :: 0 <= k < |Positions(flags)| ==> Positions(flags)[k] < |flags| && flags[Positions(flags)[k]]
    ensures forall i, j :: 0 <= i < j < |Positions(flags)| ==> Positions(flags)[i] < Positions(flags)[j]
  {
    if flags != [] { PositionsRise(flags[..|flags| - 1]); }
  }

  lemma {:induction false} PositionsCover(flags: seq<bool>, i: nat)
    ensures i in Positions(flags) <==> i < |flags| && flags[i]
  {
    if flags != [] { PositionsCover(flags[..|flags| - 1], i); }
  }

  /** Which elements pass a test. */
  ghost function Marks<T>(xs: seq<T>, keep: T -> bool): seq<bool> {
    seq(|xs|, i requires 0 <= i < |xs| => keep(xs[i]))
  }

  /** What filtering keeps: the elements that pass, each at its place in the order of the list. */
  lemma {:induction false} FilterPositions<T>(xs: seq<T>, keep: T -> bool)
    ensures var at := Positions(Marks(xs, keep));
            && |at| == |Filter(xs, keep)|
            && forall k :: 0 <= k < |at| ==> at[k] < |xs| && Filter(xs, keep)[k] == xs[at[k]]
  {
    if xs != [] {
      FilterPositions(xs[..|xs| - 1], keep);
      assert Marks(xs, keep)[..|xs| - 1] == Marks(xs[..|xs| - 1], keep);
    }
  }

  lemma {:induction false} FilterKeepsAll<T>(xs: seq<T>, keep: T -> bool)
    requires forall x :: x in xs ==> keep(x)
    ensures Filter(xs, keep) == xs
  {
    if xs != [] {
      FilterKeepsAll(xs[..|xs| - 1], keep);
      assert xs[|xs| - 1] in xs;
    }
  }

  lemma {:induction false} FilterAgrees<T>(xs: seq<T>, keep: T -> bool, keep': T -> bool)
    requires forall x :: x in xs ==> keep(x) == keep'(x)
    ensures Filter(xs, keep) == Filter(xs, keep')
  {
    if xs != [] { FilterAgrees(xs[..|xs| - 1], keep, keep'); }
  }

  /** The list operation that drops the first occurrence of a value. */
  function RemoveFirst<T(==)>(xs: seq<T>, x: T): seq<T>
    requires x in xs
  {
    var k := IndexOf(xs, x);
    xs[..k] + xs[k + 1..]
  }

  /** On a list without repetitions, dropping one occurrence drops the value. */
  lemma RemoveFirstDistinct<T>(xs: seq<T>, x: T)
    requires x in xs && Distinct(xs)
    ensures Distinct(RemoveFirst(xs, x))
    ensures Elements(RemoveFirst(xs, x)) == Elements(xs) - {x}
  {
    var k := IndexOf(xs, x);
    var r := RemoveFirst(xs, x);
    forall y | y in xs && y != x ensures y in r {
      var i :| 0 <= i < |xs| && xs[i] == y;
      assert i < k ==> r[i] == y;
      assert i > k ==> r[i - 1] == y;
    }
  }
}
