/** The order that strings are compared by: lexicographic, character by character. */
module Ordering {
  import opened Sequences

  predicate Below(a: string, b: string) {
    b != [] && (a == [] || a[0] < b[0] || (a[0] == b[0] && Below(a[1..], b[1..])))
  }

  /** The strings agree up to `k`, where `a` ends first or has the smaller character. */
  ghost predicate FirstDifference(a: string, b: string, k: nat) {
    k <= |a| && k < |b| && a[..k] == b[..k] && (k == |a| || a[k] < b[k])
  }

  lemma {:induction false} BelowIsLexicographic(a: string, b: string)
    ensures Below(a, b) <==> exists k: nat :: FirstDifference(a, b, k)
  {
    if a != [] && b != [] && a[0] == b[0] {
      BelowIsLexicographic(a[1..], b[1..]);
      if k: nat :| FirstDifference(a[1..], b[1..], k) {
        assert a[..k + 1] == [a[0]] + a[1..][..k] && b[..k + 1] == [b[0]] + b[1..][..k];
        assert FirstDifference(a, b, k + 1);
      }
      if k: nat :| FirstDifference(a, b, k) {
        assert a[1..][..k - 1] == a[..k][1..] && b[1..][..k - 1] == b[..k][1..];
        assert FirstDifference(a[1..], b[1..], k - 1);
      }
    } else {
      assert Below(a, b) ==> FirstDifference(a, b, 0);
      if k: nat :| FirstDifference(a, b, k) {
        assert k > 0 ==> a[..k][0] == b[..k][0];
      }
    }
  }

  lemma {:induction false} Trichotomy(a: string, b: string)
    ensures Below(a, b) || a == b || Below(b, a)
    ensures Below(a, b) ==> a != b && !Below(b, a)
  {
    if a != [] && b != [] {
      Trichotomy(a[1..], b[1..]);
      assert a == [a[0]] + a[1..] && b == [b[0]] + b[1..];
    }
  }

  lemma {:induction false} Transitive(a: string, b: string, c: string)
    requires Below(a, b) && Below(b, c)
    ensures Below(a, c)
  {
    if a != [] && a[0] == b[0] == c[0] {
      Transitive(a[1..], b[1..], c[1..]);
    }
  }

  ghost predicate IsLeast(x: string, s: set<string>) {
    x in s && forall y :: y in s ==> y == x || Below(x, y)
  }

  lemma LeastUnique(x: string, y: string, s: set<string>)
    requires IsLeast(x, s) && IsLeast(y, s)
    ensures x == y
  {
    Trichotomy(x, y);
  }

  lemma {:induction false} LeastExists(s: set<string>) returns (x: string)
    requires s != {}
    ensures IsLeast(x, s)
    decreases s
  {
    x :| x in s;
    if s != {x} {
      var rest := s - {x};
      var y := LeastExists(rest);
      Trichotomy(x, y);
      if Below(y, x) {
        x := y;
      } else {
        forall z | z in s && z != x ensures Below(x, z) {
          if z != y { Transitive(x, y, z); }
        }
      }
    }
  }

  /** The least element of a non-empty list. */
  function Min(xs: seq<string>): (m: string)
    requires xs != []
    ensures IsLeast(m, Elements(xs))
  {
    if |xs| == 1 then xs[0]
    else
      var rest := Min(xs[1..]);
      Trichotomy(xs[0], rest);
      MinStep(xs, rest);
      if Below(rest, xs[0]) then rest else xs[0]
  }

  lemma MinStep(xs: seq<string>, rest: string)
    requires |xs| > 1 && IsLeast(rest, Elements(xs[1..]))
    ensures IsLeast(if Below(rest, xs[0]) then rest else xs[0], Elements(xs))
  {
    assert Elements(xs) == {xs[0]} + Elements(xs[1..]);
    Trichotomy(xs[0], rest);
    forall z | z in Elements(xs) && Below(xs[0], rest) ensures z == xs[0] || Below(xs[0], z) {
      if z != xs[0] && z != rest { Transitive(xs[0], rest, z); }
    }
  }

  ghost predicate Ascending(xs: seq<string>) {
    forall i, j :: 0 <= i < j < |xs| ==> Below(xs[i], xs[j])
  }

  /** The elements of a set in ascending order. */
  method Sort(s: set<string>) returns (xs: seq<string>)
    ensures Distinct(xs) && Ascending(xs) && Elements(xs) == s
  {
    xs := [];
    var left := s;
    while left != {}
      invariant Ascending(xs) && Distinct(xs) && left !! Elements(xs) && left + Elements(xs) == s
      invariant forall x, y :: x in xs && y in left ==> Below(x, y)
      decreases left
    {
      ghost var least := LeastExists(left);
      var x :| x in left && forall y :: y in left ==> y == x || Below(x, y);
      DistinctAppend(xs, x);
      xs, left := xs + [x], left - {x};
    }
  }
}
