/** Counting modulo the length of a list. */
module Rotation {
  /** Round robin: among `n` consecutive counter values every index comes up exactly once. */
  lemma RoundRobinWindow(n: nat, start: nat, i: nat) returns (t: nat)
    requires i < n
    ensures start <= t < start + n && t % n == i
    ensures forall u :: start <= u < start + n && u % n == i ==> u == t
  {
    var s := start % n;
    t := if s <= i then start + (i - s) else start + (n - s) + i;
    ModShift(start, n, t - start);
    forall u | start <= u < start + n && u % n == i ensures u == t {
      ModShift(start, n, u - start);
    }
  }

  lemma ModShift(x: nat, n: nat, k: nat)
    requires k < n
    ensures (x + k) % n == if x % n + k < n then x % n + k else x % n + k - n
  {
    var q, r := x / n, x % n;
    if r + k < n {
      ModUnique(x + k, n, q, r + k);
    } else {
      assert (q + 1) * n == q * n + n;
      ModUnique(x + k, n, q + 1, r + k - n);
    }
  }

  lemma ModUnique(x: nat, n: nat, q: nat, r: nat)
    requires r < n && x == q * n + r
    ensures x % n == r
  {
    var q', r' := x / n, x % n;
    assert x == q' * n + r';
    assert (q' - q) * n == q' * n - q * n && (q - q') * n == q * n - q' * n;
    if q' > q {
      AtLeastOnce(q' - q, n);
    } else if q' < q {
      AtLeastOnce(q - q', n);
    }
  }

  lemma AtLeastOnce(d: nat, n: nat)
    requires d >= 1
    ensures d * n >= n
  {
    assert d * n == (d - 1) * n + n;
  }
}
