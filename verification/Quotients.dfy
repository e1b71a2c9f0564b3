/** The few facts about real quotients and products that rates, ratios and fill levels rest on. */
module Quotients {

  /** A part of a positive whole is a fraction, 0 for nothing and 1 for the whole. */
  lemma PartOfWhole(x: real, y: real)
    requires 0.0 <= x <= y && y > 0.0
    ensures 0.0 <= x / y <= 1.0 && (x / y == 0.0 <==> x == 0.0) && (x / y == 1.0 <==> x == y)
  {
    assert x == (x / y) * y;
  }

  lemma QuotientTimes(x: real, y: real)
    requires y != 0.0
    ensures x / y * y == x
  {
  }

  lemma QuotientRises(x: real, x': real, y: real)
    requires x <= x' && y > 0.0
    ensures x / y <= x' / y
  {
    assert x' / y - x / y == (x' - x) / y;
  }

  lemma ProductRises(x: real, y: real, k: real)
    requires x <= y && k >= 0.0
    ensures k * x <= k * y
  {
    assert k * (y - x) >= 0.0;
    assert k * (y - x) == k * y - k * x;
  }
}
