/** Weighted choice among backends by their recent success rate. Rates and
    weights are real numbers here. */
module LoadBalance {

  // ---------- Request counters ----------

  datatype Counters = Counters(success: int, total: int)

  /** At the limit the count falls back instead of growing. */
  function ChangedTotal(c: Counters, max: int, n: int): Counters {
    Counters(c.success,
             if c.total <= max then c.total + n
             else if c.total - max < c.success then c.success
             else c.total - max)
  }

  function ChangedSuccess(c: Counters, max: int, n: int): Counters {
    Counters(if c.success <= max then c.success + n else c.success - max, c.total)
  }

  function Recorded(c: Counters, max: int, success: bool): Counters {
    ChangedSuccess(ChangedTotal(c, max, 1), max, if success then 1 else -1)
  }

  /** The counters after a sequence of requests, from zero. */
  function After(max: int, requests: seq<bool>): Counters {
    if requests == [] then Counters(0, 0)
    else Recorded(After(max, requests[..|requests| - 1]), max, requests[|requests| - 1])
  }

  /** What every reachable state of the counters satisfies. */
  predicate Bounded(c: Counters, max: int) {
    0 <= c.total <= max + 1 && c.success <= max + 1 && c.success <= c.total + 1
  }

  /** Over any sequence of requests the total stays between zero and one above
      the limit, the successes stay at most one above the limit, and they exceed
      the total by at most one. */
  lemma {:induction false} CountersStayBounded(max: int, requests: seq<bool>)
    requires 0 <= max
    ensures Bounded(After(max, requests), max)
  {
    if requests != [] {
      CountersStayBounded(max, requests[..|requests| - 1]);
    }
  }

  predicate Exceeds(c: Counters) {
    c.success > c.total
  }

  /** After any requests, one more leaves more successes than requests exactly
      when it succeeds, the success count is not at its limit, and either the total
      falls back to the successes or was already exceeded by one. */
  lemma {:induction false} ExceedsExactlyWhen(max: int, requests: seq<bool>, success: bool)
    requires 0 <= max
    ensures var c := After(max, requests);
            Exceeds(After(max, requests + [success])) <==>
            success && c.success <= max && ((c.total > max && c.success >= 1) || c.success == c.total + 1)
  {
    CountersStayBounded(max, requests);
    assert (requests + [success])[..|requests|] == requests;
  }

  /** Successes have no lower bound: n failures bring them to -n. */
  lemma {:induction false} FailuresDecrementForever(max: int, n: nat)
    requires 0 <= max
    ensures After(max, seq(n, _ => false)).success == 0 - n
  {
    if n > 0 {
      var all := seq(n, _ => false);
      assert all[..n - 1] == seq(n - 1, _ => false);
      FailuresDecrementForever(max, n - 1);
    }
  }

  function Successes(n: nat): seq<bool> {
    seq(n, _ => true)
  }

  lemma OneMoreSuccess(max: int, n: nat)
    ensures After(max, Successes(n + 1)) == Recorded(After(max, Successes(n)), max, true)
  {
    assert Successes(n + 1)[..n] == Successes(n);
  }

  lemma {:induction false} SuccessesCountUp(max: int, n: nat)
    requires n <= max + 1
    ensures After(max, Successes(n)) == Counters(n, n)
  {
    if n > 0 {
      SuccessesCountUp(max, n - 1);
      OneMoreSuccess(max, n - 1);
    }
  }

  /** It happens for every limit in use: two successful requests after both
      counters have passed it. */
  lemma {:induction false} SuccessesCanExceedTotal(max: int)
    requires 1 <= max
    ensures After(max, Successes(max + 3)) == Counters(2, 1)
  {
    SuccessesCountUp(max, max + 1);
    OneMoreSuccess(max, max + 1);
    OneMoreSuccess(max, max + 2);
  }

  lemma {:induction false} LimitZeroNeverExceeds(requests: seq<bool>)
    ensures var c := After(0, requests); c.success <= c.total <= 1
  {
    if requests != [] {
      LimitZeroNeverExceeds(requests[..|requests| - 1]);
    }
  }

  /** So some requests make it happen exactly for the positive limits. */
  lemma {:induction false} ExceedsForPositiveLimits(max: int)
    requires 0 <= max
    ensures (exists requests :: Exceeds(After(max, requests))) <==> 1 <= max
  {
    if 1 <= max {
      SuccessesCanExceedTotal(max);
      assert Exceeds(After(max, Successes(max + 3)));
    } else {
      forall requests
        ensures !Exceeds(After(max, requests))
      {
        LimitZeroNeverExceeds(requests);
      }
    }
  }

  /** The limit of every balancer. */
  const MAX_REQ_NUM := 100000

  lemma SuccessesExceedTotalAtTheLimitInUse()
    ensures After(MAX_REQ_NUM, Successes(100_003)) == Counters(2, 1)
  {
    SuccessesCanExceedTotal(MAX_REQ_NUM);
  }

  class Backend {
    var successCount: int
    var totalCount: int
    const maxReqNum: int
    ghost var recorded: seq<bool>

    /** The counters are those of the requests recorded so far. */
    ghost predicate Valid()
      reads this
    {
      0 <= maxReqNum && View() == After(maxReqNum, recorded)
    }

    function View(): Counters
      reads this
    {
      Counters(successCount, totalCount)
    }

    constructor (maxReqNum: int)
      ensures View() == Counters(0, 0) && this.maxReqNum == maxReqNum && recorded == []
      ensures 0 <= maxReqNum ==> Valid()
    {
      successCount, totalCount, recorded := 0, 0, [];
      this.maxReqNum := maxReqNum;
    }

    method ChangeSuccessCount(n: int)
      modifies this`successCount
      ensures View() == ChangedSuccess(old(View()), maxReqNum, n)
    {
      if successCount > maxReqNum {
        successCount := successCount - maxReqNum;
      } else {
        successCount := successCount + n;
      }
    }

    method ChangeTotalCount(n: int)
      modifies this`totalCount
      ensures View() == ChangedTotal(old(View()), maxReqNum, n)
    {
      if totalCount > maxReqNum {
        var total := totalCount - maxReqNum;
        if total < successCount {
          total := successCount;
        }
        totalCount := total;
      } else {
        totalCount := totalCount + n;
      }
    }

    /** The counters stay bounded over the backend's whole life. */
    method RecordRequest(success: bool)
      requires Valid()
      modifies this
      ensures Valid() && recorded == old(recorded) + [success]
      ensures Bounded(View(), maxReqNum)
      ensures View() == Recorded(old(View()), maxReqNum, success)
    {
      ChangeTotalCount(1);
      ChangeSuccessCount(if success then 1 else -1);
      recorded := recorded + [success];
      assert recorded[..|recorded| - 1] == old(recorded);
      CountersStayBounded(maxReqNum, recorded);
    }
  }

  // ---------- Weights ----------

  function SuccessRate(c: Counters): real {
    if c.total == 0 then 1.0
    else
      var rate := c.success as real / c.total as real;
      if rate < 1.0 then rate else 1.0
  }

  function Weight(rate: real, minRate: real): real {
    var adjusted := if rate < minRate then minRate else rate;
    adjusted * adjusted * 100.0
  }

  function Weights(cs: seq<Counters>, minRate: real): (ws: seq<real>)
    ensures |ws| == |cs| && forall i | 0 <= i < |cs| :: ws[i] == Weight(SuccessRate(cs[i]), minRate)
  {
    seq(|cs|, i requires 0 <= i < |cs| => Weight(SuccessRate(cs[i]), minRate))
  }

  /** The sum of the first n weights. */
  function Prefix(ws: seq<real>, n: nat): real
    requires n <= |ws|
  {
    if n == 0 then 0.0 else Prefix(ws, n - 1) + ws[n - 1]
  }

  predicate NonNegative(ws: seq<real>) {
    forall i | 0 <= i < |ws| :: ws[i] >= 0.0
  }

  lemma SquareIsNonNegative(x: real)
    ensures x * x >= 0.0
  {
    if x >= 0.0 {
    } else {
      assert x * x == (-x) * (-x);
    }
  }

  lemma SquareBetween(x: real)
    requires 0.1 <= x <= 1.0
    ensures 1.0 <= x * x * 100.0 <= 100.0
  {
    assert x * x >= 0.1 * x;
    assert x * x <= 1.0 * x;
  }

  /** With the minimum rate in use, 0.1, every weight is between 1 and 100. */
  lemma WeightIsBounded(c: Counters)
    ensures 1.0 <= Weight(SuccessRate(c), 0.1) <= 100.0
  {
    var rate := SuccessRate(c);
    SquareBetween(if rate < 0.1 then 0.1 else rate);
  }

  lemma ProductsCompare(x: real, y: real, t: real)
    requires 0.0 < t && x < y
    ensures x * t < y * t
  {
    assert (y - x) * t > 0.0;
  }

  lemma RateCompares(rate: real, s: real, t: real, bound: real)
    requires 0.0 < t && rate * t == s
    ensures s < bound * t <==> rate < bound
    ensures s > bound * t <==> rate > bound
  {
    if rate < bound {
      ProductsCompare(rate, bound, t);
    } else if bound < rate {
      ProductsCompare(bound, rate, t);
    }
  }

  lemma SquareOfRate(rate: real, s: real, t: real)
    requires rate * t == s
    ensures rate * rate * 100.0 * (t * t) == 100.0 * (s * s)
  {
    assert rate * rate * (t * t) == (rate * t) * (rate * t);
  }

  lemma RateOfCounts(s: int, t: int) returns (rate: real)
    requires 0 < t
    ensures rate * t as real == s as real
    ensures SuccessRate(Counters(s, t)) == if rate < 1.0 then rate else 1.0
  {
    rate := s as real / t as real;
  }

  /** The weight of s successes of t requests: 100 times the square of s / t, but
      at least that of 1 / 10, and that of 1 without requests or with more
      successes than requests. */
  lemma {:induction false} WeightOfCounts(s: int, t: int)
    requires 0 <= t
    ensures var w := Weight(SuccessRate(Counters(s, t)), 0.1);
            && (t == 0 || s >= t ==> w == 100.0)
            && (0 < t && 10 * s <= t ==> w == 1.0)
            && (0 < t <= 10 * s && s < t ==> w * (t as real * t as real) == 100.0 * (s as real * s as real))
  {
    if 0 < t {
      var rate := RateOfCounts(s, t);
      hide SuccessRate;
      RateCompares(rate, s as real, t as real, 1.0);
      RateCompares(rate, s as real, t as real, 0.1);
      assert (10 * s) as real == 10.0 * s as real;
      if t <= 10 * s && s < t {
        SquareOfRate(rate, s as real, t as real);
      }
    }
  }

  lemma RatesCompare(s: int, s': int, t: int)
    requires 0 <= t && s <= s'
    ensures SuccessRate(Counters(s, t)) <= SuccessRate(Counters(s', t))
  {
    if t > 0 {
      var r := RateOfCounts(s, t);
      var r' := RateOfCounts(s', t);
      if r' < r {
        ProductsCompare(r', r, t as real);
      }
    }
  }

  lemma SquaresCompare(a: real, b: real)
    requires 0.0 <= a <= b
    ensures a * a * 100.0 <= b * b * 100.0
  {
    assert b * b - a * a == (b - a) * (b + a);
    assert (b - a) * (b + a) >= 0.0;
  }

  /** Of the same number of requests, more successes never weigh less. */
  lemma {:induction false} MoreSuccessesWeighNoLess(s: int, s': int, t: int)
    requires 0 <= t && s <= s'
    ensures Weight(SuccessRate(Counters(s, t)), 0.1) <= Weight(SuccessRate(Counters(s', t)), 0.1)
  {
    hide SuccessRate;
    RatesCompare(s, s', t);
    var r, r' := SuccessRate(Counters(s, t)), SuccessRate(Counters(s', t));
    SquaresCompare(if r < 0.1 then 0.1 else r, if r' < 0.1 then 0.1 else r');
  }

  lemma WeightsAreNonNegative(cs: seq<Counters>, minRate: real)
    ensures NonNegative(Weights(cs, minRate))
  {
    forall i | 0 <= i < |cs|
      ensures Weight(SuccessRate(cs[i]), minRate) >= 0.0
    {
      var rate := SuccessRate(cs[i]);
      SquareIsNonNegative(if rate < minRate then minRate else rate);
    }
  }

  // ---------- The choice ----------

  /** The draw falls into backend i's interval. */
  predicate Picks(ws: seq<real>, i: nat, r: real)
    requires i < |ws|
  {
    Prefix(ws, i) <= r < Prefix(ws, i + 1)
  }

  lemma {:induction false} PrefixesIncrease(ws: seq<real>, i: nat, j: nat)
    requires NonNegative(ws) && i <= j <= |ws|
    ensures Prefix(ws, i) <= Prefix(ws, j)
  {
    if i < j {
      PrefixesIncrease(ws, i, j - 1);
    }
  }

  class LoadBalancer {
    const backends: seq<Backend>
    const minSuccessRate: real

    constructor (backends: seq<Backend>, minSuccessRate: real)
      ensures this.backends == backends && this.minSuccessRate == minSuccessRate
    {
      this.backends, this.minSuccessRate := backends, minSuccessRate;
    }

    function Views(): (cs: seq<Counters>)
      reads backends
      ensures |cs| == |backends| && forall i | 0 <= i < |backends| :: cs[i] == backends[i].View()
    {
      seq(|backends|, i requires 0 <= i < |backends| reads backends => backends[i].View())
    }

    ghost function CurrentWeights(): (ws: seq<real>)
      reads backends
      ensures |ws| == |backends|
    {
      Weights(Views(), minSuccessRate)
    }

    method TotalWeight() returns (total: real)
      ensures total == Prefix(CurrentWeights(), |backends|)
    {
      total := 0.0;
      for i := 0 to |backends|
        invariant total == Prefix(CurrentWeights(), i)
      {
        total := total + Weight(SuccessRate(backends[i].View()), minSuccessRate);
      }
    }

    /** The first backend whose cumulative weight exceeds the draw. */
    method FindBackend(randWeight: real) returns (chosen: nat, fellThrough: bool)
      requires 0.0 <= randWeight && backends != []
      ensures chosen < |backends|
      ensures !fellThrough ==> Picks(CurrentWeights(), chosen, randWeight)
      ensures fellThrough ==> Prefix(CurrentWeights(), |backends|) <= randWeight && chosen == 0
    {
      var currentWeight := 0.0;
      for i := 0 to |backends|
        invariant currentWeight == Prefix(CurrentWeights(), i) <= randWeight
      {
        currentWeight := currentWeight + Weight(SuccessRate(backends[i].View()), minSuccessRate);
        if randWeight < currentWeight {
          return i, false;
        }
      }
      return 0, true;
    }

    /** `draw` is the random number in [0, 1). The result is the index of the
        chosen backend, and whether the loop fell through. */
    method GetBackend(draw: real) returns (chosen: nat, fellThrough: bool)
      requires backends != [] && 0.0 <= draw < 1.0
      ensures chosen < |backends|
      ensures fellThrough <==> Prefix(CurrentWeights(), |backends|) == 0.0
      ensures fellThrough ==> chosen == 0
      ensures !fellThrough ==> IsThePick(CurrentWeights(), chosen, Scaled(draw, Prefix(CurrentWeights(), |backends|)))
    {
      var totalWeight := TotalWeight();
      ghost var ws := CurrentWeights();
      WeightsAreNonNegative(Views(), minSuccessRate);
      PrefixesIncrease(ws, 0, |ws|);
      DrawIsBelowTotal(draw, totalWeight);
      chosen, fellThrough := FindBackend(Scaled(draw, totalWeight));
      if !fellThrough {
        OnlyOnePicks(ws, chosen, Scaled(draw, totalWeight));
        PrefixesIncrease(ws, chosen + 1, |ws|);
      }
    }
  }

  /** The draw r falls into the interval of `chosen` and of no other. */
  ghost predicate IsThePick(ws: seq<real>, chosen: nat, r: real) {
    chosen < |ws| && forall i | 0 <= i < |ws| :: Picks(ws, i, r) <==> i == chosen
  }

  /** A random number in [0, 1) scaled to the total weight. */
  function Scaled(draw: real, total: real): real {
    draw * total
  }

  lemma DrawIsBelowTotal(draw: real, total: real)
    requires 0.0 <= draw < 1.0 && total >= 0.0
    ensures 0.0 <= Scaled(draw, total)
    ensures total > 0.0 ==> Scaled(draw, total) < total
    ensures total == 0.0 ==> Scaled(draw, total) == 0.0
  {
    if total > 0.0 {
      assert (1.0 - draw) * total > 0.0;
      assert draw * total + (1.0 - draw) * total == total;
    }
  }

  lemma OnlyOnePicks(ws: seq<real>, k: nat, r: real)
    requires NonNegative(ws) && k < |ws| && Picks(ws, k, r)
    ensures IsThePick(ws, k, r)
  {
    forall i | 0 <= i < |ws| && i != k
      ensures !Picks(ws, i, r)
    {
      if i < k {
        PrefixesIncrease(ws, i + 1, k);
      } else {
        PrefixesIncrease(ws, k + 1, i);
      }
    }
  }

  lemma {:induction false} OthersWeighAtMost(ws: seq<real>, n: nat, i: nat)
    requires n <= |ws| && forall j | 0 <= j < |ws| :: 1.0 <= ws[j] <= 100.0
    ensures i < n ==> Prefix(ws, n) <= ws[i] + 100.0 * (n - 1) as real
    ensures i >= n ==> Prefix(ws, n) <= 100.0 * n as real
  {
    if n > 0 {
      OthersWeighAtMost(ws, n - 1, i);
    }
  }

  lemma ShareOf(w: real, others: real, total: real)
    requires 1.0 <= w && 0.0 <= others && total <= w + others
    ensures w * (1.0 + others) >= total
  {
    assert w * others >= others;
    assert w * (1.0 + others) == w + w * others;
  }

  lemma AllWeightsAreBounded(cs: seq<Counters>)
    ensures forall j | 0 <= j < |cs| :: 1.0 <= Weights(cs, 0.1)[j] <= 100.0
  {
    forall j | 0 <= j < |cs|
      ensures 1.0 <= Weights(cs, 0.1)[j] <= 100.0
    {
      WeightIsBounded(cs[j]);
    }
  }

  lemma TotalIsPositive(ws: seq<real>, i: nat)
    requires i < |ws| && forall j | 0 <= j < |ws| :: 1.0 <= ws[j] <= 100.0
    ensures 0.0 < Prefix(ws, |ws|)
  {
    PrefixesIncrease(ws, 0, i);
    PrefixesIncrease(ws, i + 1, |ws|);
  }

  /** What the other backends weigh at most. */
  function Others(n: nat): real
    requires 0 < n
  {
    100.0 * (n - 1) as real
  }

  lemma ShareOfBoundedWeights(ws: seq<real>, i: nat)
    requires i < |ws| && forall j | 0 <= j < |ws| :: 1.0 <= ws[j] <= 100.0
    ensures ws[i] * (1.0 + Others(|ws|)) >= Prefix(ws, |ws|)
  {
    OthersWeighAtMost(ws, |ws|, i);
    ShareOf(ws[i], Others(|ws|), Prefix(ws, |ws|));
  }

  /** Every backend owns at least 1 / (1 + 100 (n - 1)) of the draws: that
      fraction of the total weight is no more than its interval. */
  lemma EveryBackendGetsAShare(cs: seq<Counters>, i: nat)
    requires i < |cs|
    ensures var ws := Weights(cs, 0.1);
            && 0.0 < Prefix(ws, |ws|)
            && Prefix(ws, i + 1) - Prefix(ws, i) == ws[i]
            && ws[i] * (1.0 + Others(|cs|)) >= Prefix(ws, |ws|)
  {
    AllWeightsAreBounded(cs);
    TotalIsPositive(Weights(cs, 0.1), i);
    ShareOfBoundedWeights(Weights(cs, 0.1), i);
  }

  lemma DrawCompares(draw: real, total: real, x: real)
    requires 0.0 < total
    ensures x <= Scaled(draw, total) <==> x / total <= draw
  {
    var q := x / total;
    assert q * total == x;
    if q < draw {
      ProductsCompare(q, draw, total);
    }
    if draw < q {
      ProductsCompare(draw, q, total);
    }
  }

  /** The draws of a backend are those between its cumulative weights, as
      fractions of the total. */
  lemma {:induction false} DrawsOfBackend(cs: seq<Counters>, i: nat, draw: real)
    requires i < |cs|
    ensures var ws := Weights(cs, 0.1);
            var total := Prefix(ws, |ws|);
            && 0.0 < total
            && (Picks(ws, i, Scaled(draw, total)) <==> Prefix(ws, i) / total <= draw < Prefix(ws, i + 1) / total)
  {
    var ws := Weights(cs, 0.1);
    EveryBackendGetsAShare(cs, i);
    DrawCompares(draw, Prefix(ws, |ws|), Prefix(ws, i));
    DrawCompares(draw, Prefix(ws, |ws|), Prefix(ws, i + 1));
  }

  /** With the minimum rate 0.1 some backend is picked by every draw, so the loop
      never falls through. */
  lemma {:induction false} SomeBackendIsPicked(cs: seq<Counters>, draw: real, r: real)
    requires cs != [] && 0.0 <= draw < 1.0 && r == Scaled(draw, Prefix(Weights(cs, 0.1), |cs|))
    ensures exists k :: 0 <= k < |cs| && Picks(Weights(cs, 0.1), k, r)
  {
    EveryBackendGetsAShare(cs, 0);
    DrawIsBelowTotal(draw, Prefix(Weights(cs, 0.1), |cs|));
    SomeonePicks(Weights(cs, 0.1), |cs|, r);
  }

  lemma {:induction false} SomeonePicks(ws: seq<real>, n: nat, r: real)
    requires n <= |ws| && 0.0 <= r < Prefix(ws, n)
    ensures exists k :: 0 <= k < n && Picks(ws, k, r)
  {
    if r < Prefix(ws, n - 1) {
      SomeonePicks(ws, n - 1, r);
    } else {
      assert Picks(ws, n - 1, r);
    }
  }
}
