/**
 The adaptive throttle: a token bucket whose refill rate falls with pressure.
 Time, rates and tokens are exact reals; the clock reading is an argument of each call.
 */
module Throttle {
  import opened Quotients
  import opened Sequences

  /** The constructor checks the rate, the capacity and the fraction, but not the two thresholds. */
  datatype Config = Config(baseRate: real, capacity: real, minFraction: real, warn: real, critical: real) {
    predicate Valid() {
      baseRate > 0.0 && capacity > 0.0 && 0.0 < minFraction <= 1.0
    }
  }

  function ComputeRate(c: Config, pressure: real): real {
    if pressure >= c.critical then c.baseRate * c.minFraction
    else if pressure >= c.warn then
      var t := (pressure - c.warn) / (c.critical - c.warn);
      c.baseRate * (1.0 - t * (1.0 - c.minFraction))
    else c.baseRate
  }

  /** The rate as a fraction of the base rate. */
  ghost function Fraction(c: Config, pressure: real): real {
    if pressure >= c.critical then c.minFraction
    else if pressure >= c.warn then 1.0 - (pressure - c.warn) / (c.critical - c.warn) * (1.0 - c.minFraction)
    else 1.0
  }

  lemma FractionRange(c: Config, pressure: real)
    requires c.Valid()
    ensures c.minFraction <= Fraction(c, pressure) <= 1.0
  {
    if c.warn <= pressure < c.critical {
      var range, t := c.critical - c.warn, (pressure - c.warn) / (c.critical - c.warn);
      var slack := 1.0 - c.minFraction;
      PartOfWhole(pressure - c.warn, range);
      ProductRises(0.0, t, slack);
      ProductRises(t, 1.0, slack);
    }
  }

  lemma RateIsFraction(c: Config, pressure: real)
    ensures ComputeRate(c, pressure) == c.baseRate * Fraction(c, pressure)
  {
  }

  /** Whatever the pressure and the thresholds, the rate stays between its floor and the base rate. */
  lemma RateRange(c: Config, pressure: real)
    requires c.Valid()
    ensures c.baseRate * c.minFraction <= ComputeRate(c, pressure) <= c.baseRate
    ensures ComputeRate(c, pressure) > 0.0
  {
    FractionRange(c, pressure);
    RateIsFraction(c, pressure);
    ProductRises(c.minFraction, Fraction(c, pressure), c.baseRate);
    ProductRises(Fraction(c, pressure), 1.0, c.baseRate);
  }

  /** The rate is the base rate up to the warning threshold, the floor from the critical one on, linear between. */
  lemma RateInterpolates(c: Config, pressure: real)
    ensures pressure >= c.critical ==> ComputeRate(c, pressure) == c.baseRate * c.minFraction
    ensures pressure < c.critical && pressure <= c.warn ==> ComputeRate(c, pressure) == c.baseRate
    ensures c.warn <= pressure < c.critical ==>
              (c.baseRate - ComputeRate(c, pressure)) * (c.critical - c.warn) ==
              c.baseRate * (1.0 - c.minFraction) * (pressure - c.warn)
  {
    if c.warn <= pressure < c.critical {
      var range, slack := c.critical - c.warn, 1.0 - c.minFraction;
      var t := (pressure - c.warn) / range;
      assert t * range == pressure - c.warn;
      assert c.baseRate - ComputeRate(c, pressure) == c.baseRate * slack * t;
      assert c.baseRate * slack * t * range == c.baseRate * slack * (t * range);
    }
  }

  lemma FractionFalls(c: Config, p: real, q: real)
    requires c.Valid() && p <= q
    ensures Fraction(c, p) >= Fraction(c, q)
  {
    if q >= c.critical {
      FractionRange(c, p);
    } else if p < c.warn {
      FractionRange(c, q);
    } else {
      var range, slack := c.critical - c.warn, 1.0 - c.minFraction;
      var t, u := (p - c.warn) / range, (q - c.warn) / range;
      QuotientRises(p - c.warn, q - c.warn, range);
      ProductRises(t, u, slack);
      assert Fraction(c, p) == 1.0 - t * slack && Fraction(c, q) == 1.0 - u * slack;
    }
  }

  /** More pressure never means a higher rate. */
  lemma RateFalls(c: Config, p: real, q: real)
    requires c.Valid() && p <= q
    ensures ComputeRate(c, p) >= ComputeRate(c, q)
  {
    FractionFalls(c, p, q);
    RateIsFraction(c, p);
    RateIsFraction(c, q);
    ProductRises(Fraction(c, q), Fraction(c, p), c.baseRate);
  }

  // ---- The bucket -------------------------------------------------------------------------------

  datatype Bucket = Bucket(tokens: real, lastRefill: real)

  function Refill(c: Config, b: Bucket, now: real, pressure: real): Bucket {
    var grown := b.tokens + (now - b.lastRefill) * ComputeRate(c, pressure);
    Bucket(if grown < c.capacity then grown else c.capacity, now)
  }

  /** The pressure a refill reckons with: that of the monitor, or none without one. */
  function Seen(monitor: Option<real>): (p: real)
    ensures monitor == Some(p) || (monitor.None? && p == 0.0)
  {
    monitor.GetOr(0.0)
  }

  /**
   Below capacity a refill adds what the rate at this pressure earns in the time elapsed; a full bucket had
   no more room than that.
   */
  ghost predicate AddsAtRate(c: Config, b: Bucket, now: real, rate: real, after: Bucket) {
    var earned := (now - b.lastRefill) * rate;
    && after.lastRefill == now && after.tokens <= c.capacity
    && (after.tokens < c.capacity ==> after.tokens - b.tokens == earned)
    && (after.tokens == c.capacity ==> b.tokens + earned >= c.capacity)
  }

  lemma RefillAdds(c: Config, b: Bucket, now: real, pressure: real)
    ensures AddsAtRate(c, b, now, ComputeRate(c, pressure), Refill(c, b, now, pressure))
  {
  }

  class AdaptiveThrottle {
    const config: Config
    var tokens: real
    var lastRefill: real
    var totalAcquired: nat
    var totalRejected: nat

    ghost function View(): Bucket
      reads this
    {
      Bucket(tokens, lastRefill)
    }

    /** The bucket starts full. */
    constructor (config: Config, now: real)
      requires config.Valid()
      ensures this.config == config && View() == Bucket(config.capacity, now)
      ensures totalAcquired == 0 && totalRejected == 0
    {
      this.config := config;
      tokens, lastRefill, totalAcquired, totalRejected := config.capacity, now, 0, 0;
    }

    method RefillBucket(now: real, monitor: Option<real>)
      modifies this`tokens, this`lastRefill
      ensures View() == Refill(config, old(View()), now, Seen(monitor))
      ensures AddsAtRate(config, old(View()), now, ComputeRate(config, Seen(monitor)), View())
    {
      var elapsed := now - lastRefill;
      lastRefill := now;
      var pressure := if monitor.Some? then monitor.value else 0.0;
      var newTokens := elapsed * ComputeRate(config, pressure);
      tokens := if tokens + newTokens < config.capacity then tokens + newTokens else config.capacity;
    }

    method TryAcquire(requested: real, now: real, monitor: Option<real>) returns (granted: bool)
      modifies this
      ensures var (after, ok) := Acquire(config, old(View()), Call(requested, now, Seen(monitor)));
              View() == after && granted == ok
      ensures granted <==>
              && requested <= config.capacity
              && requested <= old(tokens) + (now - old(lastRefill)) * ComputeRate(config, Seen(monitor))
      ensures var refilled := Refill(config, old(View()), now, Seen(monitor));
              lastRefill == now && tokens == refilled.tokens - if granted then requested else 0.0
      ensures totalAcquired == old(totalAcquired) + if granted then 1 else 0
      ensures totalRejected == old(totalRejected) + if granted then 0 else 1
    {
      GrantedIff(config, View(), Call(requested, now, Seen(monitor)));
      RefillBucket(now, monitor);
      if tokens >= requested {
        tokens := tokens - requested;
        totalAcquired := totalAcquired + 1;
        return true;
      } else {
        totalRejected := totalRejected + 1;
        return false;
      }
    }

    method AvailableTokens(now: real, monitor: Option<real>) returns (t: real)
      requires config.Valid() && 0.0 <= tokens && lastRefill <= now
      modifies this`tokens, this`lastRefill
      ensures View() == Refill(config, old(View()), now, Seen(monitor)) && t == tokens
      ensures 0.0 <= t <= config.capacity
    {
      RefillRange(config, View(), now, Seen(monitor));
      RefillBucket(now, monitor);
      t := tokens;
    }

    /** The rate reported to callers: without a monitor it is the base rate outright. */
    method ReportRate(monitor: Option<real>) returns (rate: real)
      ensures rate == match monitor case None => config.baseRate case Some(p) => ComputeRate(config, p)
    {
      if monitor.None? {
        return config.baseRate;
      }
      return ComputeRate(config, monitor.value);
    }
  }

  // ---- Runs -------------------------------------------------------------------------------------

  datatype Call = Call(requested: real, now: real, pressure: real)

  function Acquire(c: Config, b: Bucket, call: Call): (Bucket, bool) {
    var full := Refill(c, b, call.now, call.pressure);
    if full.tokens >= call.requested then (Bucket(full.tokens - call.requested, call.now), true) else (full, false)
  }

  /** A request is granted exactly when it fits the bucket and is covered by what it held and earned since. */
  lemma GrantedIff(c: Config, b: Bucket, call: Call)
    ensures Acquire(c, b, call).1 <==>
            && call.requested <= c.capacity
            && call.requested <= b.tokens + (call.now - b.lastRefill) * ComputeRate(c, call.pressure)
  {
  }

  /** What a rate earns between two clock readings. */
  function EarnedAt(rate: real, from: real, to: real): real {
    rate * (to - from)
  }

  /** What the base rate earns between two clock readings. */
  function Earned(c: Config, from: real, to: real): real {
    EarnedAt(c.baseRate, from, to)
  }

  /** A refill never leaves the range and never beats the base rate. */
  lemma RefillRange(c: Config, b: Bucket, now: real, pressure: real)
    requires c.Valid() && b.tokens >= 0.0 && b.lastRefill <= now
    ensures 0.0 <= Refill(c, b, now, pressure).tokens <= c.capacity
    ensures Refill(c, b, now, pressure).tokens <= b.tokens + Earned(c, b.lastRefill, now)
  {
    var elapsed, rate := now - b.lastRefill, ComputeRate(c, pressure);
    RateRange(c, pressure);
    Grown(b.tokens, elapsed, rate, c.baseRate);
  }

  lemma Grown(tokens: real, elapsed: real, rate: real, base: real)
    requires tokens >= 0.0 && elapsed >= 0.0 && 0.0 <= rate <= base
    ensures 0.0 <= tokens + elapsed * rate <= tokens + base * elapsed
  {
    ProductRises(0.0, rate, elapsed);
    ProductRises(rate, base, elapsed);
    assert elapsed * base == base * elapsed;
  }

  function Taken(c: Config, b: Bucket, call: Call): real {
    if Acquire(c, b, call).1 then call.requested else 0.0
  }

  /** What one call leaves and takes comes out of the refilled bucket. */
  lemma CallBalance(c: Config, b: Bucket, call: Call)
    requires c.Valid() && b.tokens >= 0.0 && b.lastRefill <= call.now
    ensures var after := Acquire(c, b, call).0;
            && after.lastRefill == call.now && after.tokens >= 0.0
            && (call.requested >= 0.0 ==> after.tokens <= c.capacity)
            && after.tokens + Taken(c, b, call) == Refill(c, b, call.now, call.pressure).tokens <= c.capacity
            && after.tokens + Taken(c, b, call) <= b.tokens + Earned(c, b.lastRefill, call.now)
  {
    RefillRange(c, b, call.now, call.pressure);
  }

  /** The clock never runs backwards. */
  ghost predicate InOrder(start: real, calls: seq<Call>) {
    && (calls != [] ==> start <= calls[0].now)
    && forall i, j :: 0 <= i < j < |calls| ==> calls[i].now <= calls[j].now
  }

  ghost function After(c: Config, b: Bucket, calls: seq<Call>, k: nat): Bucket
    requires k <= |calls|
  {
    if k == 0 then b else Acquire(c, After(c, b, calls, k - 1), calls[k - 1]).0
  }

  /** The tokens handed out by calls `i` to `k - 1`, net of negative requests. */
  ghost function Granted(c: Config, b: Bucket, calls: seq<Call>, i: nat, k: nat): real
    requires i <= k <= |calls|
  {
    if k == i then 0.0 else Granted(c, b, calls, i, k - 1) + Taken(c, After(c, b, calls, k - 1), calls[k - 1])
  }

  ghost predicate Nonnegative(calls: seq<Call>) {
    forall i :: 0 <= i < |calls| ==> calls[i].requested >= 0.0
  }

  /** Every run keeps the bucket at or above zero, and in range when no request is negative. */
  lemma {:induction false} TokensInRange(c: Config, b: Bucket, calls: seq<Call>, k: nat)
    requires c.Valid() && 0.0 <= b.tokens <= c.capacity && k <= |calls| && InOrder(b.lastRefill, calls)
    ensures After(c, b, calls, k).tokens >= 0.0
    ensures After(c, b, calls, k).lastRefill == if k == 0 then b.lastRefill else calls[k - 1].now
    ensures Nonnegative(calls) ==> After(c, b, calls, k).tokens <= c.capacity
  {
    if k > 0 {
      TokensInRange(c, b, calls, k - 1);
      CallBalance(c, After(c, b, calls, k - 1), calls[k - 1]);
    }
  }

  /** The refills of calls `i + 1` to `k` go no faster than `rate`. */
  ghost predicate NoFaster(c: Config, calls: seq<Call>, i: nat, k: nat, rate: real)
    requires k < |calls|
  {
    forall j :: i < j <= k ==> ComputeRate(c, calls[j].pressure) <= rate
  }

  /** While refills go no faster than `rate`, grants stay within one bucket plus what that rate earns. */
  lemma {:induction false} GrantedAtRate(c: Config, b: Bucket, calls: seq<Call>, i: nat, k: nat, rate: real)
    requires c.Valid() && 0.0 <= b.tokens <= c.capacity && i <= k < |calls| && InOrder(b.lastRefill, calls)
    requires NoFaster(c, calls, i, k, rate)
    ensures Granted(c, b, calls, i, k + 1) + After(c, b, calls, k + 1).tokens <=
            c.capacity + EarnedAt(rate, calls[i].now, calls[k].now)
    ensures Granted(c, b, calls, i, k + 1) <= c.capacity + EarnedAt(rate, calls[i].now, calls[k].now)
  {
    var before := After(c, b, calls, k);
    TokensInRange(c, b, calls, k);
    CallBalance(c, before, calls[k]);
    if k > i {
      GrantedAtRate(c, b, calls, i, k - 1, rate);
      CallAtRate(c, before, calls[k], rate);
      EarnedAdds(rate, calls[i].now, calls[k - 1].now, calls[k].now);
    } else {
      assert Granted(c, b, calls, i, k) == 0.0;
    }
  }

  lemma CallAtRate(c: Config, b: Bucket, call: Call, rate: real)
    requires c.Valid() && b.tokens >= 0.0 && b.lastRefill <= call.now && ComputeRate(c, call.pressure) <= rate
    ensures Acquire(c, b, call).0.tokens + Taken(c, b, call) <= b.tokens + EarnedAt(rate, b.lastRefill, call.now)
  {
    var elapsed, own := call.now - b.lastRefill, ComputeRate(c, call.pressure);
    assert Refill(c, b, call.now, call.pressure).tokens <= b.tokens + elapsed * own;
    ProductRises(own, rate, elapsed);
    assert EarnedAt(rate, b.lastRefill, call.now) == elapsed * rate;
  }

  lemma EarnedAdds(rate: real, t0: real, t1: real, t2: real)
    ensures EarnedAt(rate, t0, t2) == EarnedAt(rate, t0, t1) + EarnedAt(rate, t1, t2)
  {
  }

  /** The tokens handed out by calls `i` to `k` stay within one bucket plus what the base rate earns meanwhile. */
  lemma GrantedBound(c: Config, b: Bucket, calls: seq<Call>, i: nat, k: nat)
    requires c.Valid() && 0.0 <= b.tokens <= c.capacity && i <= k < |calls| && InOrder(b.lastRefill, calls)
    ensures Granted(c, b, calls, i, k + 1) + After(c, b, calls, k + 1).tokens <=
            c.capacity + Earned(c, calls[i].now, calls[k].now)
    ensures Granted(c, b, calls, i, k + 1) <= c.capacity + Earned(c, calls[i].now, calls[k].now)
  {
    forall j | i < j <= k ensures ComputeRate(c, calls[j].pressure) <= c.baseRate {
      RateRange(c, calls[j].pressure);
    }
    GrantedAtRate(c, b, calls, i, k, c.baseRate);
  }

  /** While pressure stays at or above a level, they stay within one bucket plus what the rate at that level earns. */
  lemma ThrottledBound(c: Config, b: Bucket, calls: seq<Call>, i: nat, k: nat, level: real)
    requires c.Valid() && 0.0 <= b.tokens <= c.capacity && i <= k < |calls| && InOrder(b.lastRefill, calls)
    requires forall j :: i < j <= k ==> calls[j].pressure >= level
    ensures Granted(c, b, calls, i, k + 1) <=
            c.capacity + EarnedAt(ComputeRate(c, level), calls[i].now, calls[k].now)
  {
    NoneFaster(c, calls, i, k, level);
    GrantedAtRate(c, b, calls, i, k, ComputeRate(c, level));
  }

  lemma NoneFaster(c: Config, calls: seq<Call>, i: nat, k: nat, level: real)
    requires c.Valid() && k < |calls| && forall j :: i < j <= k ==> calls[j].pressure >= level
    ensures NoFaster(c, calls, i, k, ComputeRate(c, level))
  {
    forall j | i < j <= k ensures ComputeRate(c, calls[j].pressure) <= ComputeRate(c, level) {
      RateFalls(c, level, calls[j].pressure);
    }
  }

  /** Under critical pressure, within one bucket plus what the least rate earns. */
  lemma CriticalBound(c: Config, b: Bucket, calls: seq<Call>, i: nat, k: nat, least: real)
    requires c.Valid() && 0.0 <= b.tokens <= c.capacity && i <= k < |calls| && InOrder(b.lastRefill, calls)
    requires least == c.baseRate * c.minFraction && forall j :: i < j <= k ==> calls[j].pressure >= c.critical
    ensures Granted(c, b, calls, i, k + 1) <= c.capacity + EarnedAt(least, calls[i].now, calls[k].now)
  {
    SlowWhenCritical(c, calls, i, k, least);
    GrantedAtRate(c, b, calls, i, k, least);
  }

  lemma SlowWhenCritical(c: Config, calls: seq<Call>, i: nat, k: nat, least: real)
    requires k < |calls| && forall j :: i < j <= k ==> calls[j].pressure >= c.critical
    requires least == c.baseRate * c.minFraction
    ensures NoFaster(c, calls, i, k, least)
  {
    forall j | i < j <= k ensures ComputeRate(c, calls[j].pressure) <= least {
      RateInterpolates(c, calls[j].pressure);
    }
  }

  /** One call leaves the bucket above capacity exactly when it grants a request more negative than the room left. */
  lemma OverfullIff(c: Config, b: Bucket, call: Call)
    requires c.Valid() && b.tokens >= 0.0 && b.lastRefill <= call.now
    ensures Acquire(c, b, call).0.tokens > c.capacity <==>
            call.requested < Refill(c, b, call.now, call.pressure).tokens - c.capacity
  {
    RefillRange(c, b, call.now, call.pressure);
  }

  /** A request the bucket can hold is granted once the slowest rate has had time to earn it. */
  lemma NeverStarves(c: Config, b: Bucket, call: Call)
    requires c.Valid() && b.tokens >= 0.0 && b.lastRefill <= call.now
    requires call.requested <= c.capacity
    requires b.tokens + (call.now - b.lastRefill) * (c.baseRate * c.minFraction) >= call.requested
    ensures Acquire(c, b, call).1
  {
    RateRange(c, call.pressure);
    ProductRises(c.baseRate * c.minFraction, ComputeRate(c, call.pressure), call.now - b.lastRefill);
  }

  /** And one it cannot hold never is. */
  lemma TooLargeIsRefused(c: Config, b: Bucket, call: Call)
    requires call.requested > c.capacity
    ensures !Acquire(c, b, call).1
  {
  }

  // ---- Without a monitor ------------------------------------------------------------------------

  /** Every refill without a monitor adds at the rate reported without one, the base rate. */
  ghost predicate RefillsAtBaseRate(c: Config) {
    forall b: Bucket, now: real :: AddsAtRate(c, b, now, c.baseRate, Refill(c, b, now, Seen(None)))
  }

  /** That is so exactly when zero pressure lies below the throttled region, or nothing is ever throttled. */
  lemma ReportedRateIsUsed(c: Config)
    requires c.Valid()
    ensures RefillsAtBaseRate(c) <==> c.minFraction == 1.0 || (c.critical > 0.0 && c.warn >= 0.0)
  {
    RateAtZero(c);
    if c.minFraction == 1.0 || (c.critical > 0.0 && c.warn >= 0.0) {
      forall b: Bucket, now: real ensures AddsAtRate(c, b, now, c.baseRate, Refill(c, b, now, Seen(None))) {
        RefillAdds(c, b, now, 0.0);
      }
    } else {
      SlowRefill(c);
    }
  }

  /** An empty bucket left alone for a short while gains less than the base rate earns. */
  lemma SlowRefill(c: Config)
    requires c.Valid() && ComputeRate(c, 0.0) != c.baseRate
    ensures !RefillsAtBaseRate(c)
  {
    var rate, now := ComputeRate(c, 0.0), c.capacity / (2.0 * c.baseRate);
    RateRange(c, 0.0);
    assert now * c.baseRate == c.capacity / 2.0;
    ProductRises(rate, c.baseRate, now);
    StrictProduct(rate, c.baseRate, now);
    assert Refill(c, Bucket(0.0, 0.0), now, Seen(None)).tokens == now * rate;
    assert !AddsAtRate(c, Bucket(0.0, 0.0), now, c.baseRate, Refill(c, Bucket(0.0, 0.0), now, Seen(None)));
  }

  lemma StrictProduct(x: real, y: real, k: real)
    requires x < y && k > 0.0
    ensures k * x < k * y
  {
    assert k * (y - x) > 0.0 && k * (y - x) == k * y - k * x;
  }

  lemma RateAtZero(c: Config)
    requires c.Valid()
    ensures ComputeRate(c, 0.0) == c.baseRate <==> c.minFraction == 1.0 || (c.critical > 0.0 && c.warn >= 0.0)
  {
    FractionRange(c, 0.0);
    RateIsFraction(c, 0.0);
    if c.minFraction < 1.0 {
      if c.critical > 0.0 > c.warn {
        var range, t := c.critical - c.warn, (0.0 - c.warn) / (c.critical - c.warn);
        assert t * range == -c.warn;
        assert t > 0.0;
        assert t * (1.0 - c.minFraction) > 0.0;
      }
      StrictScale(Fraction(c, 0.0), c.baseRate);
    }
  }

  lemma StrictScale(x: real, k: real)
    requires k > 0.0
    ensures k * x == k <==> x == 1.0
  {
    assert k * (x - 1.0) == k * x - k;
  }
}
