/**
  The two error-budget evaluators (cortex/internal/slo/budget.go and rate.go), over exact
  reals in place of float64.
*/
module Slo {
  datatype Snapshot = Snapshot(service: string, target: real, good: nat, total: nat)

  datatype Budget = Budget(target: real, observed: real, allowedBadEvents: real, actualBadEvents: nat,
                           burnMultiple: real, remainingFraction: real, exhausted: bool)

  /** The zero budget that carries nothing but its target. */
  function Blank(target: real): Budget { Budget(target, 0.0, 0.0, 0, 0.0, 0.0, false) }

  function Max(x: real, y: real): real { if x < y then y else x }

  /** math.Round: halves go away from zero. */
  function Round(x: real): int {
    if x >= 0.0 then (x + 0.5).Floor else -((0.5 - x).Floor)
  }

  function Round6(v: real): real { Round(v * 1000000.0) as real / 1000000.0 }

  function Bad(s: Snapshot): nat { s.total - (if s.good < s.total then s.good else s.total) }

  function Allowance(s: Snapshot): real { (1.0 - s.target) * s.total as real }

  function Burn(allowed: real, bad: real): real {
    if allowed > 0.0 then Round6(bad / allowed) else 0.0
  }

  function Remaining(allowed: real, bad: real): real {
    if allowed > 0.0 then Round6(Max(0.0, (allowed - bad) / allowed)) else 1.0
  }

  function Evaluate(s: Snapshot): Budget {
    if s.total == 0 then Blank(s.target) else
      var bad := Bad(s);
      var allowed := Round6(Allowance(s));
      var burn := Burn(allowed, bad as real);
      Budget(s.target, s.good as real / s.total as real, allowed, bad, burn, Remaining(allowed, bad as real),
             burn >= 1.0)
  }

  function Clamp01(x: real): real { if x < 0.0 then 0.0 else if x > 1.0 then 1.0 else x }

  function EvaluateErrorRate(target: real, errorRate: real): Budget {
    if target <= 0.0 || target >= 1.0 then Blank(target) else
      var rate := Clamp01(errorRate);
      var allowed := 1.0 - target;
      var burn := rate / allowed;
      Budget(target, 1.0 - rate, allowed, Round(rate * 1000000.0), Round6(burn), Round6(Max(0.0, 1.0 - burn)),
             burn >= 1.0)
  }

  // ----- rounding -----

  lemma RoundProperties(x: real, y: real)
    ensures x - 0.5 <= Round(x) as real <= x + 0.5
    ensures x <= y ==> Round(x) <= Round(y)
    ensures 0.0 <= x ==> 0 <= Round(x)
  {
  }

  lemma RoundReaches(x: real, n: int)
    requires n > 0
    ensures Round(x) >= n <==> x >= n as real - 0.5
  {
  }

  lemma Round6Properties(x: real, y: real)
    ensures x - 0.0000005 <= Round6(x) <= x + 0.0000005
    ensures x <= y ==> Round6(x) <= Round6(y)
    ensures 0.0 <= x ==> 0.0 <= Round6(x)
    ensures Round6(x) >= 1.0 <==> x >= 0.9999995
    ensures x <= 1.0 ==> Round6(x) <= 1.0
  {
    RoundProperties(x * 1000000.0, y * 1000000.0);
    RoundReaches(x * 1000000.0, 1000000);
  }

  lemma Cancel(p: real, q: real, a: real)
    requires a > 0.0 && p * a <= q * a
    ensures p <= q
  {
  }

  lemma Quotient(x: real, y: real, a: real, k: real)
    requires a > 0.0
    ensures x / a >= k <==> x >= k * a
    ensures x <= y ==> x / a <= y / a
    ensures (a - x) / a == 1.0 - x / a
  {
    var q, r, d := x / a, y / a, (a - x) / a;
    assert q * a == x && r * a == y && d * a == a - x;
    if x >= k * a { Cancel(k, q, a); }
    if x <= y { Cancel(q, r, a); }
    assert (1.0 - q) * a == a - x;
    Cancel(d, 1.0 - q, a);
    Cancel(1.0 - q, d, a);
  }

  // ----- the counter-based evaluator -----

  /** Burn reaches one half a rounding step early. */
  lemma BurnReachesOne(allowed: real, bad: real)
    requires 0.0 <= bad
    ensures Burn(allowed, bad) >= 1.0 <==> allowed > 0.0 && bad >= 0.9999995 * allowed
  {
    if allowed > 0.0 {
      Round6Properties(bad / allowed, 0.0);
      Quotient(bad, 0.0, allowed, 0.9999995);
    }
  }

  lemma SharesMonotone(allowed: real, x: real, y: real)
    requires 0.0 <= x <= y
    ensures Burn(allowed, x) <= Burn(allowed, y) && Remaining(allowed, y) <= Remaining(allowed, x)
  {
    if allowed > 0.0 {
      Quotient(x, y, allowed, 0.0);
      Quotient(y, y, allowed, 0.0);
      Round6Properties(x / allowed, y / allowed);
      Round6Properties(Max(0.0, (allowed - y) / allowed), Max(0.0, (allowed - x) / allowed));
    }
  }

  lemma SharesConserved(allowed: real, bad: real)
    requires 0.0 <= bad
    ensures 0.0 <= Burn(allowed, bad) && 0.0 <= Remaining(allowed, bad) <= 1.0
    ensures 0.0 < allowed && bad <= allowed ==>
              var sum := Burn(allowed, bad) + Remaining(allowed, bad); sum == 1.0 || sum == 1.000001
    ensures 0.0 < allowed < bad ==> Remaining(allowed, bad) == 0.0
  {
    if allowed > 0.0 {
      var x := bad / allowed;
      Quotient(bad, allowed, allowed, 0.0);
      Quotient(bad, allowed, allowed, 1.0);
      Round6Properties(x, x);
      Round6Properties(Max(0.0, 1.0 - x), 1.0);
      if bad <= allowed {
        Quotient(allowed, allowed, allowed, 1.0);
        assert allowed / allowed == 1.0;
        ComplementRounds(x * 1000000.0);
        assert 1000000.0 * (1.0 - x) == 1000000.0 - x * 1000000.0;
      }
    }
  }

  /** `Evaluate` calls the budget spent half a rounding step early, and never when the allowance rounds to zero. */
  lemma ExhaustedIff(s: Snapshot)
    ensures Evaluate(s).exhausted <==>
            s.total > 0 && Round6(Allowance(s)) > 0.0 && Bad(s) as real >= 0.9999995 * Round6(Allowance(s))
  {
    BurnReachesOne(Round6(Allowance(s)), Bad(s) as real);
  }

  /** Fewer good events, same traffic: the budget can only look worse. */
  lemma BudgetMonotone(s: Snapshot, fewer: nat)
    requires fewer <= s.good
    ensures
      var b, w := Evaluate(s), Evaluate(s.(good := fewer));
      && b.burnMultiple <= w.burnMultiple
      && w.remainingFraction <= b.remainingFraction
      && (b.exhausted ==> w.exhausted)
  {
    assert Allowance(s.(good := fewer)) == Allowance(s);
    SharesMonotone(Round6(Allowance(s)), Bad(s) as real, Bad(s.(good := fewer)) as real);
  }

  /** Spent and unspent shares add up to one, give or take a single tie of the last decimal. */
  lemma BudgetConserved(s: Snapshot)
    requires s.total > 0
    ensures
      var b := Evaluate(s);
      && 0.0 <= b.burnMultiple && 0.0 <= b.remainingFraction <= 1.0
      && (0.0 < b.allowedBadEvents && Bad(s) as real <= b.allowedBadEvents ==>
            b.burnMultiple + b.remainingFraction == 1.0 || b.burnMultiple + b.remainingFraction == 1.000001)
      && (0.0 < b.allowedBadEvents < Bad(s) as real ==> b.remainingFraction == 0.0)
  {
    SharesConserved(Round6(Allowance(s)), Bad(s) as real);
  }

  lemma ComplementRounds(y: real)
    requires 0.0 <= y <= 1000000.0
    ensures Round(y) + Round(1000000.0 - y) == 1000000 || Round(y) + Round(1000000.0 - y) == 1000001
  {
    var n, m := Round(y), Round(1000000.0 - y);
    assert n as real <= y + 0.5 < n as real + 1.0;
    assert m as real <= 1000000.5 - y < m as real + 1.0;
    assert 999999.0 < (n + m) as real <= 1000001.0;
  }

  // ----- the two evaluators against each other -----

  /** The rate-based evaluator tests the unrounded burn. */
  lemma RateExhaustedIff(target: real, bad: real, total: real)
    requires 0.0 < target < 1.0 && 0.0 <= bad <= total && 0.0 < total
    ensures EvaluateErrorRate(target, bad / total).exhausted <==> bad >= (1.0 - target) * total
  {
    Quotient(bad, total, total, 0.0);
    Quotient(bad, total, total, 1.0 - target);
    Quotient(total, total, total, 1.0);
    Quotient(bad / total, 0.0, 1.0 - target, 1.0);
    assert total / total == 1.0;
  }

  function ErrorRate(s: Snapshot): real
    requires s.total > 0
  {
    Bad(s) as real / s.total as real
  }

  /** The verdict of the rate-based evaluator on a snapshot's traffic. */
  predicate RateExhausted(s: Snapshot)
    requires s.total > 0
  {
    EvaluateErrorRate(s.target, ErrorRate(s)).exhausted
  }

  lemma SnapshotRateExhaustedIff(s: Snapshot)
    requires 0.0 < s.target < 1.0 && 0 < s.total
    ensures RateExhausted(s) <==> Bad(s) as real >= Allowance(s)
  {
    RateExhaustedIff(s.target, Bad(s) as real, s.total as real);
  }

  /**
    Fed the same traffic, the evaluators disagree about exhaustion exactly when the bad events
    fall between the true allowance and the threshold the rounded one leads to; when the
    allowance rounds to zero, exactly when there are bad events at all.
  */
  lemma DisagreeIff(s: Snapshot)
    requires 0.0 < s.target < 1.0 && 0 < s.total
    ensures
      var bad, allowance, rounded := Bad(s) as real, Allowance(s), Round6(Allowance(s));
      Evaluate(s).exhausted != RateExhausted(s) <==>
      if rounded > 0.0 then 0.9999995 * rounded <= bad < allowance || allowance <= bad < 0.9999995 * rounded
      else bad > 0.0
  {
    ExhaustedIff(s);
    SnapshotRateExhaustedIff(s);
    AllowancePositive(s);
    RoundReaches(Allowance(s) * 1000000.0, 1);
  }

  lemma AllowancePositive(s: Snapshot)
    requires 0.0 < s.target < 1.0 && 0 < s.total
    ensures Allowance(s) > 0.0
  {
  }

  /** So they can disagree only inside a band of about half a millionth around the true allowance. */
  lemma RoundingBand(s: Snapshot)
    requires 0.0 < s.target < 1.0 && 0 < s.total
    requires Round6(Allowance(s)) > 0.0
    requires OutsideBand(Bad(s) as real, Allowance(s))
    ensures Evaluate(s).exhausted == RateExhausted(s)
  {
    DisagreeIff(s);
    BandCore(Bad(s) as real, Allowance(s));
  }

  predicate OutsideBand(bad: real, allowance: real) {
    bad >= allowance + 0.0000005 || bad < allowance - 0.0000005 * (1.0 + allowance)
  }

  lemma BandCore(bad: real, allowance: real)
    requires OutsideBand(bad, allowance) && Round6(allowance) > 0.0
    ensures bad >= 0.9999995 * Round6(allowance) <==> bad >= allowance
  {
    Round6Properties(allowance, 0.0);
  }

  /** A higher error rate never looks better, and rates outside [0, 1] count as the nearer end. */
  lemma RateMonotone(target: real, low: real, high: real)
    requires low <= high
    ensures
      var b, w := EvaluateErrorRate(target, low), EvaluateErrorRate(target, high);
      && b.burnMultiple <= w.burnMultiple && w.remainingFraction <= b.remainingFraction
      && (b.exhausted ==> w.exhausted)
      && b == EvaluateErrorRate(target, Clamp01(low))
  {
    if 0.0 < target < 1.0 {
      var allowed, x, y := 1.0 - target, Clamp01(low), Clamp01(high);
      Quotient(x, y, allowed, 0.0);
      Round6Properties(x / allowed, y / allowed);
      Round6Properties(Max(0.0, 1.0 - y / allowed), Max(0.0, 1.0 - x / allowed));
    }
  }

  /** Short of exhaustion the rounded shares add up to one, up to a tie; at exhaustion nothing remains. */
  lemma RateConserved(target: real, errorRate: real)
    requires 0.0 < target < 1.0
    ensures
      var b := EvaluateErrorRate(target, errorRate);
      && 0.0 <= b.burnMultiple && 0.0 <= b.remainingFraction <= 1.0
      && (if b.exhausted then b.burnMultiple >= 1.0 && b.remainingFraction == 0.0
          else b.burnMultiple + b.remainingFraction == 1.0 || b.burnMultiple + b.remainingFraction == 1.000001)
  {
    var rate, allowed := Clamp01(errorRate), 1.0 - target;
    Quotient(rate, rate, allowed, 0.0);
    RoundedShares(rate / allowed);
  }

  lemma RoundedShares(x: real)
    requires 0.0 <= x
    ensures 0.0 <= Round6(x) && 0.0 <= Round6(Max(0.0, 1.0 - x)) <= 1.0
    ensures x >= 1.0 ==> Round6(x) >= 1.0 && Round6(Max(0.0, 1.0 - x)) == 0.0
    ensures x < 1.0 ==> var sum := Round6(x) + Round6(Max(0.0, 1.0 - x)); sum == 1.0 || sum == 1.000001
  {
    Round6Properties(x, x);
    Round6Properties(Max(0.0, 1.0 - x), 1.0);
    if x < 1.0 {
      ComplementRounds(x * 1000000.0);
      assert 1000000.0 * (1.0 - x) == 1000000.0 - x * 1000000.0;
    }
  }

  /** Inside the band they do disagree. */
  lemma BandIsReal()
    ensures
      var s := Snapshot("web", 0.4999998, 1, 2);
      Evaluate(s).exhausted && !RateExhausted(s)
  {
    var s := Snapshot("web", 0.4999998, 1, 2);
    assert Allowance(s) == 1.0000004;
    assert Round(1000000.4) == 1000000;
    ExhaustedIff(s);
    SnapshotRateExhaustedIff(s);
  }

  /** An allowance that rounds to zero hides any number of bad events from the counter-based evaluator only. */
  lemma TinyAllowanceIsSilent(s: Snapshot)
    requires 0.0 < s.target < 1.0 && 0 < s.total && s.good < s.total
    requires Round6(Allowance(s)) <= 0.0
    ensures !Evaluate(s).exhausted && Evaluate(s).remainingFraction == 1.0 && RateExhausted(s)
  {
    DisagreeIff(s);
    ExhaustedIff(s);
  }

  /** A single failed request under a target of seven nines is such a case. */
  lemma TinyAllowanceIsReal()
    ensures
      var s := Snapshot("web", 0.9999999, 0, 1);
      Round6(Allowance(s)) <= 0.0 && !Evaluate(s).exhausted && RateExhausted(s)
  {
    var s := Snapshot("web", 0.9999999, 0, 1);
    assert Allowance(s) == 0.0000001;
    RoundReaches(0.1, 1);
    TinyAllowanceIsSilent(s);
  }

  // ----- the reported numbers -----

  /** n is x rounded to the nearest integer, halves upwards. */
  predicate Nearest(n: int, x: real) { n as real - 0.5 <= x < n as real + 0.5 }

  /** Rounding is to the nearest integer; halves go up, and below zero down. */
  lemma RoundIsNearest(x: real)
    ensures 0.0 <= x ==> Nearest(Round(x), x)
    ensures x < 0.0 ==> Nearest(-Round(x), -x)
  {
  }

  lemma RoundIsOnlyNearest(n: int, y: real)
    requires 0.0 <= y
    ensures n == Round(y) <==> Nearest(n, y)
  {
    RoundIsNearest(y);
  }

  /** A number to six decimals is the nearest whole count of millionths. */
  lemma Round6IsNearest(x: real, n: int)
    requires 0.0 <= x
    ensures n as real == Round6(x) * 1000000.0 <==> Nearest(n, x * 1000000.0)
  {
    hide Round, Nearest;
    RoundIsOnlyNearest(n, x * 1000000.0);
    assert Round6(x) * 1000000.0 == Round(x * 1000000.0) as real;
    assert n as real == Round(x * 1000000.0) as real <==> n == Round(x * 1000000.0);
  }

  /** Every field of the counter-based budget, from the counters. */
  lemma BudgetMeans(s: Snapshot, allowed: int, burn: int, remaining: int)
    requires s.total > 0 && s.target <= 1.0
    requires Nearest(allowed, (1.0 - s.target) * s.total as real * 1000000.0)
    requires allowed > 0
    requires Nearest(burn, Missing(s) as real * 1000000.0 / (allowed as real / 1000000.0))
    requires Nearest(remaining, Max(0.0, 1.0 - Missing(s) as real / (allowed as real / 1000000.0)) * 1000000.0)
    ensures
      var b := Evaluate(s);
      && b.target == s.target && b.observed * s.total as real == s.good as real && b.actualBadEvents == Missing(s)
      && b.allowedBadEvents * 1000000.0 == allowed as real && b.burnMultiple * 1000000.0 == burn as real
      && b.remainingFraction * 1000000.0 == remaining as real && (b.exhausted <==> burn >= 1000000)
  {
    var a, bad := Round6(Allowance(s)), Missing(s) as real;
    AllowanceNotNegative(s);
    Round6IsNearest(Allowance(s), allowed);
    assert a == allowed as real / 1000000.0;
    Quotient(bad, bad, a, 0.0);
    Scaled(bad, a);
    Round6IsNearest(bad / a, burn);
    Round6IsNearest(Max(0.0, 1.0 - bad / a), remaining);
  }

  /** Requests that were not good; more good ones than requests count as none missing. */
  function Missing(s: Snapshot): nat { if s.good >= s.total then 0 else s.total - s.good }

  lemma AllowanceNotNegative(s: Snapshot)
    requires s.target <= 1.0
    ensures 0.0 <= Allowance(s)
  {
  }

  lemma Scaled(x: real, a: real)
    requires a > 0.0
    ensures x * 1000000.0 / a == x / a * 1000000.0
  {
    var q := x / a;
    assert x == q * a;
    assert x * 1000000.0 == (q * 1000000.0) * a;
  }

  /** Without requests, or with an allowance that rounds away, nothing burns. */
  lemma SilentBudgets(s: Snapshot)
    ensures s.total == 0 ==> Evaluate(s) == Budget(s.target, 0.0, 0.0, 0, 0.0, 0.0, false)
    ensures s.total > 0 && (1.0 - s.target) * s.total as real < 0.0000005 ==>
              Evaluate(s).burnMultiple == 0.0 && Evaluate(s).remainingFraction == 1.0 && !Evaluate(s).exhausted
              && Evaluate(s).actualBadEvents == Missing(s)
  {
    if s.total > 0 && (1.0 - s.target) * s.total as real < 0.0000005 {
      RoundReaches(Allowance(s) * 1000000.0, 1);
    }
  }

  /** Every field of the rate-based budget. */
  lemma RateMeans(target: real, errorRate: real, events: int, burn: int, remaining: int)
    requires 0.0 < target < 1.0
    requires
      var rate := if errorRate < 0.0 then 0.0 else if errorRate < 1.0 then errorRate else 1.0;
      && Nearest(events, rate * 1000000.0) && Nearest(burn, rate / (1.0 - target) * 1000000.0)
      && Nearest(remaining, Max(0.0, 1.0 - rate / (1.0 - target)) * 1000000.0)
    ensures
      var rate := if errorRate < 0.0 then 0.0 else if errorRate < 1.0 then errorRate else 1.0;
      var b := EvaluateErrorRate(target, errorRate);
      && b.target == target && b.observed == 1.0 - rate && b.allowedBadEvents == 1.0 - target
      && b.actualBadEvents == events && b.burnMultiple * 1000000.0 == burn as real
      && b.remainingFraction * 1000000.0 == remaining as real && (b.exhausted <==> rate + target >= 1.0)
  {
    var rate := if errorRate < 0.0 then 0.0 else if errorRate < 1.0 then errorRate else 1.0;
    assert rate == Clamp01(errorRate);
    Quotient(rate, rate, 1.0 - target, 0.0);
    Quotient(rate, rate, 1.0 - target, 1.0);
    RoundIsNearest(rate * 1000000.0);
    Round6IsNearest(rate / (1.0 - target), burn);
    Round6IsNearest(Max(0.0, 1.0 - rate / (1.0 - target)), remaining);
  }

  /** An objective outside (0, 1) is not evaluated at all. */
  lemma RateOfNonsense(target: real, errorRate: real)
    requires target <= 0.0 || 1.0 <= target
    ensures EvaluateErrorRate(target, errorRate) == Budget(target, 0.0, 0.0, 0, 0.0, 0.0, false)
  {
  }

  /** 150 failures in 100000 requests spend a budget of three nines one and a half times; 50 leave half of it. */
  lemma ThreeNines()
    ensures Evaluate(Snapshot("web", 0.999, 99850, 100000)).burnMultiple == 1.5
    ensures Evaluate(Snapshot("web", 0.999, 99850, 100000)).exhausted
    ensures Evaluate(Snapshot("web", 0.999, 99950, 100000)).remainingFraction == 0.5
    ensures !Evaluate(Snapshot("web", 0.999, 99950, 100000)).exhausted
  {
    BudgetMeans(Snapshot("web", 0.999, 99850, 100000), 100000000, 1500000, 0);
    BudgetMeans(Snapshot("web", 0.999, 99950, 100000), 100000000, 500000, 500000);
  }
}
