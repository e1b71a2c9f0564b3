/** Sums over the values of a map, in whatever order they are visited. */
module Totals {

  ghost function Sum(values: map<string, real>, names: set<string>): real
    requires names <= values.Keys
  {
    if names == {} then 0.0
    else
      var x :| x in names;
      Sum(values, names - {x}) + values[x]
  }

  /** Any member may be split off first. */
  lemma {:induction false} SumSplit(values: map<string, real>, names: set<string>, x: string)
    requires names <= values.Keys && x in names
    ensures Sum(values, names) == Sum(values, names - {x}) + values[x]
    decreases names
  {
    var y :| y in names && Sum(values, names) == Sum(values, names - {y}) + values[y];
    if y != x {
      SumSplit(values, names - {y}, x);
      SumSplit(values, names - {x}, y);
      assert names - {y} - {x} == names - {x} - {y};
    }
  }

  lemma SumJoin(values: map<string, real>, names: set<string>, x: string)
    requires names + {x} <= values.Keys && x !in names
    ensures Sum(values, names + {x}) == Sum(values, names) + values[x]
  {
    SumSplit(values, names + {x}, x);
    assert names + {x} - {x} == names;
  }

  lemma {:induction false} SumOrder(low: map<string, real>, high: map<string, real>, names: set<string>)
    requires names <= low.Keys && names <= high.Keys
    requires forall x :: x in names ==> low[x] <= high[x]
    ensures Sum(low, names) <= Sum(high, names)
    ensures Sum(low, names) == Sum(high, names) <==> forall x :: x in names ==> low[x] == high[x]
    decreases names
  {
    if names != {} {
      var x :| x in names;
      SumSplit(low, names, x);
      SumSplit(high, names, x);
      SumOrder(low, high, names - {x});
    }
  }

  lemma {:induction false} SumZero(values: map<string, real>, names: set<string>)
    requires names <= values.Keys && forall x :: x in names ==> values[x] == 0.0
    ensures Sum(values, names) == 0.0
    decreases names
  {
    if names != {} {
      var x :| x in names;
      SumSplit(values, names, x);
      SumZero(values, names - {x});
    }
  }
}
