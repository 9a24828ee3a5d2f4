/** The arithmetic helpers of the hacking loop: free RAM on a worker, the cap
    on hack threads, and the grow threads that restore a target's money after
    a hack. The host's estimators are passed in as functions; their results
    are exact reals (an idealisation of the host's doubles). */
module HackLoopUtils {
  import opened Common
  import opened Servers

  type PosReal = x: real | x > 0.0 witness 1.0
  type NonNegReal = x: real | x >= 0.0 witness 0.0
  /** A fraction of a server's money. */
  type Fraction = x: real | 0.0 <= x <= 1.0 witness 0.0

  /** A growth multiplier handed to `growthAnalyze`: a ratio, or the infinity
      JavaScript produces when dividing by zero money. */
  datatype Multiplier = Finite(ratio: real) | Unbounded

  /** `growthAnalyze(target, multiplier, cores)`: threads needed to multiply
      the target's money by the multiplier. */
  type GrowthEstimator = (string, Multiplier, Cores) -> NonNegReal

  const HOME: string := "home"

  /** `getAvailableRam`: free RAM, minus the reserve on the home server. */
  function GetAvailableRam(server: Server, reserveHomeRam: real): (r: real)
    ensures server.hostname != HOME ==> r == server.maxRam - server.ramUsed
    ensures server.hostname == HOME ==> r + reserveHomeRam == server.maxRam - server.ramUsed
  {
    server.maxRam - server.ramUsed - (if server.hostname == HOME then reserveHomeRam else 0.0)
  }

  /** The reserve is charged to the home server and to no other: two servers
      that differ only in name differ in free RAM by exactly the reserve when
      one of them is home. */
  lemma ReserveOnlyOnHome(server: Server, reserveHomeRam: real, other: string)
    requires other != HOME
    ensures GetAvailableRam(server.(hostname := HOME), reserveHomeRam)
         == GetAvailableRam(server.(hostname := other), reserveHomeRam) - reserveHomeRam
    ensures GetAvailableRam(server.(hostname := other), reserveHomeRam)
         == server.maxRam - server.ramUsed
  {
  }

  /** A per-thread amount times a thread count: the share of the money `h`
      hack threads take, the security `k` weaken threads remove, and so on.
      Every such product goes through this one function. */
  function Times(x: real, k: int): real {
    x * k as real
  }

  /** `optimalHackThreads`: when `y * h` would take more than all the money,
      fall back to `ceil(1 / y)` threads. */
  function OptimalHackThreads(y: Fraction, h: int): (r: int)
    ensures Times(y, h) <= 1.0 ==> r == h
    ensures r <= h
    ensures y > 0.0 ==> r <= Ceil(1.0 / y)
    ensures y > 0.0 ==> (r - 1) as real < 1.0 / y
    ensures h >= 1 ==> r >= 1
  {
    if Times(y, h) > 1.0 then
      assert y != 0.0;
      CeilOfInverse(y);
      CeilOfInverseAtMost(y, h);
      Ceil(1.0 / y)
    else if y > 0.0 then
      InverseBound(y, h);
      h
    else
      h
  }

  /** For a positive fraction the cap is `min(h, ceil(1/y))`. */
  lemma OptimalIsMin(y: Fraction, h: int)
    requires y > 0.0
    ensures OptimalHackThreads(y, h) == Min(h, Ceil(1.0 / y))
  {
    if Times(y, h) > 1.0 {
      CeilOfInverseAtMost(y, h);
    } else {
      InverseBound(y, h);
    }
  }

  /** The cap does not keep the planned share at or below all the money:
      with 30% per thread and 4 threads, `ceil(1/0.3)` is 4 and four threads
      plan to take 120%. */
  lemma CapCanOverhack()
    ensures OptimalHackThreads(0.3, 4) == 4
    ensures Times(0.3, OptimalHackThreads(0.3, 4)) > 1.0
  {
    assert Times(0.3, 4) == 1.2;
    assert 1.0 / 0.3 > 3.0;
    assert Ceil(1.0 / 0.3) == 4;
  }

  /** `ceil(1/y)` is at least one. */
  lemma CeilOfInverse(y: real)
    requires 0.0 < y <= 1.0
    ensures Ceil(1.0 / y) >= 1
  {
    InverseAtLeastOne(y);
  }

  /** `ceil(1/y)` is at most any `h` with `y * h > 1`. */
  lemma CeilOfInverseAtMost(y: real, h: int)
    requires 0.0 < y <= 1.0 && Times(y, h) > 1.0
    ensures Ceil(1.0 / y) <= h
  {
    AboveInverse(y, h);
    CeilLeast(1.0 / y, h);
  }

  /** `y * h <= 1` puts `h` at or below `1/y`. */
  lemma InverseBound(y: real, h: int)
    requires 0.0 < y <= 1.0 && Times(y, h) <= 1.0
    ensures h as real <= 1.0 / y
    ensures h <= Ceil(1.0 / y)
  {
    NotAboveInverse(y, h);
  }

  lemma InverseAtLeastOne(y: real)
    requires 0.0 < y <= 1.0
    ensures 1.0 / y >= 1.0
  {
    var q := 1.0 / y;
    Inverse(y);
    MulMonoLe(q, y, 1.0);
    var lhs := q * y;
    assert lhs == 1.0;
    assert lhs <= q;
  }

  lemma AboveInverse(y: real, h: int)
    requires y > 0.0 && Times(y, h) > 1.0
    ensures h as real > 1.0 / y
  {
    var q := 1.0 / y;
    var k := h as real;
    Inverse(y);
    var a := y * q;
    var b := y * k;
    assert b == Times(y, h);
    assert a == 1.0 && a < b;
    MulCancel(y, q, k);
  }

  lemma NotAboveInverse(y: real, h: int)
    requires y > 0.0 && Times(y, h) <= 1.0
    ensures h as real <= 1.0 / y
  {
    var q := 1.0 / y;
    var k := h as real;
    Inverse(y);
    var a := y * k;
    var b := y * q;
    assert a == Times(y, h);
    assert b == 1.0 && a <= b;
    MulCancelLe(y, k, q);
  }

  lemma Inverse(x: real)
    requires x > 0.0
    ensures x * (1.0 / x) == 1.0 && (1.0 / x) * x == 1.0 && 1.0 / x > 0.0
  {
  }

  lemma MulMono(c: real, a: real, b: real)
    requires c > 0.0 && a < b
    ensures c * a < c * b
  {
    assert c * b - c * a == c * (b - a);
  }

  lemma MulMonoLe(c: real, a: real, b: real)
    requires c >= 0.0 && a <= b
    ensures c * a <= c * b
  {
    assert c * b - c * a == c * (b - a);
  }

  /** A positive factor can be cancelled from a strict comparison. */
  lemma MulCancel(c: real, a: real, b: real)
    requires c > 0.0 && c * a < c * b
    ensures a < b
  {
    assert c * (b - a) == c * b - c * a;
  }

  lemma MulCancelLe(c: real, a: real, b: real)
    requires c > 0.0 && c * a <= c * b
    ensures a <= b
  {
    assert c * (b - a) == c * b - c * a;
  }

  /** Applying the cap twice changes nothing more than applying it once. */
  lemma OptimalHackThreadsIdempotent(y: Fraction, h: int)
    ensures OptimalHackThreads(y, OptimalHackThreads(y, h)) == OptimalHackThreads(y, h)
  {
  }

  /** The share of the money a hack of `h` threads is planned to take, capped
      at 99% so the remaining share never reaches zero. */
  function HackShare(y: Fraction, h: int): real {
    MinReal(0.99, Times(y, h))
  }

  /** The growth multiplier that restores the money after the planned hack. */
  function GrowthFactor(y: Fraction, h: int): (r: real)
    ensures h >= 0 ==> 1.0 <= r <= 100.0
  {
    var remaining := 1.0 - HackShare(y, h);
    if h >= 0 then
      MulMonoLe(y, 0.0, h as real);
      InverseBounds(remaining);
      1.0 / remaining
    else
      1.0 / remaining
  }

  lemma InverseBounds(x: real)
    requires 0.01 <= x <= 1.0
    ensures 1.0 <= 1.0 / x <= 100.0
  {
    var q := 1.0 / x;
    Inverse(x);
    MulMonoLe(q, x, 1.0);
    assert q * x <= q * 1.0;
    MulMonoLe(q, 0.01, x);
    assert q * 0.01 <= q * x;
  }

  /** `calculateGrowthThreads`: the whole grow threads the host estimates for
      the multiplier that undoes the planned hack. */
  function CalculateGrowthThreads(growthAnalyze: GrowthEstimator, target: string, y: Fraction, h: int, cores: Cores): (r: int)
    ensures r >= 0
    ensures r as real >= growthAnalyze(target, Finite(GrowthFactor(y, h)), cores)
    ensures (r - 1) as real < growthAnalyze(target, Finite(GrowthFactor(y, h)), cores)
  {
    Ceil(growthAnalyze(target, Finite(GrowthFactor(y, h)), cores))
  }

  /** A larger planned hack never needs a smaller growth multiplier. */
  lemma GrowthFactorMonotone(y: Fraction, h1: int, h2: int)
    requires 0 <= h1 <= h2
    ensures GrowthFactor(y, h1) <= GrowthFactor(y, h2)
  {
    MulMonoLe(y, h1 as real, h2 as real);
    var r1 := 1.0 - HackShare(y, h1);
    var r2 := 1.0 - HackShare(y, h2);
    assert 0.0 < r2 <= r1;
    Inverse(r1);
    Inverse(r2);
    MulMonoLe(1.0 / r1, r2, r1);
    MulCancelLe(r2, 1.0 / r1, 1.0 / r2);
  }

  /** The host estimator grows with the multiplier for a fixed target and
      core count. */
  ghost predicate MonotoneEstimator(growthAnalyze: GrowthEstimator, target: string, cores: Cores) {
    forall a: real, b: real {:trigger growthAnalyze(target, Finite(a), cores), growthAnalyze(target, Finite(b), cores)} ::
      a <= b ==> growthAnalyze(target, Finite(a), cores) <= growthAnalyze(target, Finite(b), cores)
  }

  /** With a monotone estimator, planning a larger hack never plans fewer grow
      threads. */
  lemma GrowthThreadsMonotone(growthAnalyze: GrowthEstimator, target: string, y: Fraction, h1: int, h2: int, cores: Cores)
    requires MonotoneEstimator(growthAnalyze, target, cores)
    requires 0 <= h1 <= h2
    ensures CalculateGrowthThreads(growthAnalyze, target, y, h1, cores)
         <= CalculateGrowthThreads(growthAnalyze, target, y, h2, cores)
  {
    GrowthFactorMonotone(y, h1, h2);
    var e1 := growthAnalyze(target, Finite(GrowthFactor(y, h1)), cores);
    var e2 := growthAnalyze(target, Finite(GrowthFactor(y, h2)), cores);
    assert e1 <= e2;
    CeilLeast(e1, Ceil(e2));
  }
}
