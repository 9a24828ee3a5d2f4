/** The hacking loop: for every target and every rooted worker, decide
    whether the worker weakens the target, grows it, or runs one
    hack/weaken/grow/weaken batch, and which `exec` calls that produces.
    The host's estimators are parameters; `exec` is recorded, not performed. */
module HackLoop {
  import opened Common
  import opened Servers
  import opened ServerNodes
  import opened HackLoopUtils

  /* ---------------------------------------------------------------------- */
  /* Host estimators and constants                                           */
  /* ---------------------------------------------------------------------- */

  /** The host functions the loop consults, each fixed for one cycle. */
  datatype Estimators = Estimators(
    /** `weakenAnalyze(1, cores)`: security removed by one weaken thread. */
    weakenAnalyze: Cores -> PosReal,
    /** `hackAnalyze(target)`: share of the money one hack thread takes. */
    hackAnalyze: string -> Fraction,
    /** `hackAnalyzeSecurity(1, target)`: security added by one hack thread. */
    hackAnalyzeSecurity: string -> NonNegReal,
    growthAnalyze: GrowthEstimator,
    /** `growthAnalyzeSecurity(threads, target, cores)`. */
    growthAnalyzeSecurity: (int, string, Cores) -> NonNegReal,
    weakenTime: string -> real,
    growTime: string -> real,
    hackTime: string -> real)

  const RESERVED_HOME_RAM: real := 20.0
  const BATCH_THREAD_DELAY: real := 100.0
  const INITIAL_HACK_THREADS: int := 8
  /** Fewest threads a worker needs for a four-part batch. */
  const MIN_BATCH_THREADS: int := 4
  /** Below this hacking level every target is replaced by the best one. */
  const EARLY_GAME_LEVEL: real := 750.0

  /* ---------------------------------------------------------------------- */
  /* Target and worker filters                                               */
  /* ---------------------------------------------------------------------- */

  /** What the loop reads from a target it does not skip. */
  datatype TargetView = TargetView(name: string, floor: real, security: real, maxMoney: real, money: real)

  /** A target is skipped when its security floor, its current security or
      its maximum money is absent or zero; absent money counts as 1. */
  function TargetOf(s: Server): (r: Option<TargetView>)
    ensures r.None? <==> !Truthy(s.minDifficulty) || !Truthy(s.hackDifficulty) || !Truthy(s.moneyMax)
    ensures r.Some? ==> r.value.name == s.hostname && r.value.floor != 0.0 && r.value.security != 0.0 && r.value.maxMoney != 0.0
    ensures r.Some? ==> r.value.money == (if s.moneyAvailable.Some? then s.moneyAvailable.value else 1.0)
  {
    if !Truthy(s.minDifficulty) || !Truthy(s.hackDifficulty) || !Truthy(s.moneyMax) then None
    else Some(TargetView(s.hostname, s.minDifficulty.value, s.hackDifficulty.value, s.moneyMax.value, s.moneyAvailable.GetOr(1.0)))
  }

  /** Whole threads of the weaken script that fit in the worker's free RAM. */
  function AvailableThreads(worker: Server, ramPerThread: PosReal): (r: int)
    ensures Times(ramPerThread, r) <= GetAvailableRam(worker, RESERVED_HOME_RAM)
    ensures GetAvailableRam(worker, RESERVED_HOME_RAM) < Times(ramPerThread, r + 1)
  {
    var free := GetAvailableRam(worker, RESERVED_HOME_RAM);
    var r := Floor(free / ramPerThread);
    DivBounds(free, ramPerThread, r);
    r
  }

  lemma DivBounds(x: real, d: PosReal, r: int)
    requires r as real <= x / d < r as real + 1.0
    ensures Times(d, r) <= x < Times(d, r + 1)
  {
    var q := x / d;
    assert d * q == x;
    var lo := r as real;
    var hi := (r + 1) as real;
    MulMonoLe(d, lo, q);
    MulMono(d, q, hi);
    assert d * lo == Times(d, r);
    assert d * hi == Times(d, r + 1);
  }

  /* ---------------------------------------------------------------------- */
  /* Weaken branch                                                           */
  /* ---------------------------------------------------------------------- */

  datatype WeakenResult = WeakenResult(threads: int, security: real)

  /** The weaken branch: use every available thread unless fewer threads
      already bring the security down to the floor, in which case use the
      fewest that do and record the floor. */
  function WeakenPlan(security: real, floor: real, perThread: PosReal, available: int): (r: WeakenResult)
    requires available >= 1 && security > floor
    ensures 1 <= r.threads <= available
    ensures r.security >= floor
    ensures r.security == MaxReal(floor, security - Times(perThread, r.threads))
    ensures r.threads == available || security - Times(perThread, r.threads) <= floor
    ensures security - Times(perThread, r.threads - 1) > floor
  {
    var reduced := Times(perThread, available);
    if security - reduced < floor then
      var k := Ceil((security - floor) / perThread);
      ClippedWeaken(security, floor, perThread, available, k);
      WeakenResult(k, floor)
    else
      OneFewerWeaken(perThread, available);
      WeakenResult(available, security - reduced)
  }

  function MaxReal(a: real, b: real): real { if a >= b then a else b }

  lemma ClippedWeaken(security: real, floor: real, d: PosReal, available: int, k: int)
    requires security > floor && security - Times(d, available) < floor
    requires k == Ceil((security - floor) / d)
    ensures 1 <= k <= available
    ensures security - Times(d, k) <= floor
    ensures security - Times(d, k - 1) > floor
  {
    var gap := security - floor;
    var q := gap / d;
    DivTimes(gap, d);
    ScaledCancel(d, q, gap, available);
    CeilLeast(q, available);
    ScaledAtLeast(d, q, gap, k);
    ScaledBelow(d, q, gap, k - 1);
  }

  /** `d * (gap / d)` is `gap` again, and a positive gap gives a positive quotient. */
  lemma DivTimes(gap: real, d: PosReal)
    ensures d * (gap / d) == gap
    ensures gap > 0.0 ==> gap / d > 0.0
  {
  }

  /** With `d * q == gap`, `m` threads of `d` exceed the gap only if `q < m`. */
  lemma ScaledCancel(d: PosReal, q: real, gap: real, m: int)
    requires d * q == gap && Times(d, m) > gap
    ensures q < m as real
  {
    MulCancel(d, q, m as real);
  }

  /** With `d * q == gap`, `m >= q` threads of `d` cover the gap. */
  lemma ScaledAtLeast(d: PosReal, q: real, gap: real, m: int)
    requires d * q == gap && q <= m as real
    ensures Times(d, m) >= gap
  {
    MulMonoLe(d, q, m as real);
  }

  /** With `d * q == gap`, `m < q` threads of `d` fall short of the gap. */
  lemma ScaledBelow(d: PosReal, q: real, gap: real, m: int)
    requires d * q == gap && (m as real) < q
    ensures Times(d, m) < gap
  {
    MulMono(d, m as real, q);
  }

  lemma OneFewerWeaken(d: PosReal, available: int)
    ensures Times(d, available - 1) == Times(d, available) - d
  {
    var a := available as real;
    var a1 := (available - 1) as real;
    assert a1 == a - 1.0;
    assert d * a1 == d * a - d;
  }

  /* ---------------------------------------------------------------------- */
  /* Grow branch                                                             */
  /* ---------------------------------------------------------------------- */

  /** Per-target bookkeeping that survives from one worker to the next. */
  datatype TargetState = TargetState(security: real, growthCalculated: bool, growRequired: int, batchDelay: real)

  /** The state a target starts with. */
  function Fresh(t: TargetView): TargetState {
    TargetState(t.security, false, 0, 0.0)
  }

  /** The multiplier handed to `growthAnalyze`: `maxMoney / money`, which is
      infinite when the target has no money. */
  function GrowthMultiplier(t: TargetView): Multiplier {
    if t.money == 0.0 then Unbounded else Finite(t.maxMoney / t.money)
  }

  /** The grow requirement in force for this worker: computed on first use,
      carried over afterwards. */
  function Requirement(e: Estimators, t: TargetView, st: TargetState, cores: Cores): (r: int)
    ensures r >= 0 || (st.growthCalculated && r == st.growRequired)
  {
    if st.growthCalculated then st.growRequired
    else Ceil(e.growthAnalyze(t.name, GrowthMultiplier(t), cores))
  }

  datatype GrowResult = GrowResult(threads: int, required: int, security: real)

  /** The grow branch: the worker takes as much of the outstanding requirement
      as it has threads for; the requirement shrinks by what it took and the
      tracked security rises by what the host says those threads add. */
  function GrowPlan(e: Estimators, t: TargetView, st: TargetState, cores: Cores, available: int): (r: GrowResult)
    requires available >= 1
    requires st.growthCalculated ==> st.growRequired >= 0
    ensures var req := Requirement(e, t, st, cores);
      && r.threads == Min(req, available)
      && r.threads + r.required == req
      && 0 <= r.required
      && 0 <= r.threads <= available
    ensures r.security >= st.security
  {
    var req := Requirement(e, t, st, cores);
    var n := Min(req, available);
    GrowResult(n, req - n, st.security + e.growthAnalyzeSecurity(n, t.name, cores))
  }

  /* ---------------------------------------------------------------------- */
  /* Batch sizing: the refinement loop                                       */
  /* ---------------------------------------------------------------------- */

  /** Thread counts of one batch: hack, first weaken, grow, second weaken. */
  datatype Plan = Plan(hack: int, grow: int, weaken: int, weaken2: int)

  function Total(p: Plan): int {
    p.hack + p.grow + p.weaken + p.weaken2
  }

  /** Everything the refinement loop reads, fixed for one worker. */
  datatype BatchCtx = BatchCtx(
    y: Fraction,
    available: int,
    growthAnalyze: GrowthEstimator,
    target: string,
    cores: Cores,
    hackWeakenRatio: NonNegReal,
    growWeakenRatio: NonNegReal)

  /** The loop only runs for a worker with at least four threads and a target
      a hack thread takes something from. */
  predicate ValidCtx(c: BatchCtx) {
    c.y > 0.0 && c.available >= MIN_BATCH_THREADS
  }

  /** Grow and weaken counts that match `h` hack threads; the second weaken
      never drops to zero. */
  function Counts(c: BatchCtx, h: int): (p: Plan)
    requires h >= 1
    ensures p.hack == h && p.grow >= 0 && p.weaken >= 0 && p.weaken2 >= 1
    ensures p.grow == CalculateGrowthThreads(c.growthAnalyze, c.target, c.y, h, c.cores)
    ensures Total(p) > h
  {
    var g := CalculateGrowthThreads(c.growthAnalyze, c.target, c.y, h, c.cores);
    MulMonoLe(c.hackWeakenRatio, 0.0, h as real);
    Plan(h, g, Ceil(Times(c.hackWeakenRatio, h)), Max(1, Ceil(Times(c.growWeakenRatio, g))))
  }

  /** Threads used over threads available. */
  function Usage(p: Plan, available: int): real
    requires available >= 1
  {
    Total(p) as real / available as real
  }

  /** The unused share of the worker scaled by the hack count, which decides
      whether the loop may add hack threads. */
  function Spare(usage: real, h: int): real {
    Times(1.0 - usage, h)
  }

  /** The termination measure: before the over-allocated flag is set the hack
      count only rises and stays at most `ceil(1/y)`; afterwards it only
      falls and stays at least one. */
  function Progress(c: BatchCtx, h: int, over: bool): int
    requires c.y > 0.0
  {
    if over then OptimalHackThreads(c.y, h) else Ceil(1.0 / c.y) - OptimalHackThreads(c.y, h)
  }

  /** What one iteration of the refinement loop decides: stop with a plan,
      or go round again with a new hack count and flag. */
  datatype Turn = Stop(plan: Plan) | Again(hack: int, over: bool)

  function Rank(over: bool): int { if over then 0 else 1 }

  /** One iteration of the refinement loop. It caps the hack count, recomputes
      the other three counts and compares the total with the available
      threads. Over-allocation drops a hack thread and sets the flag, or stops
      when only one hack thread is left. Spare room adds hack threads (half of
      the scaled spare share) unless that would take more than all the money;
      once the flag is set it stops right after such an increase, keeping the
      other counts of the smaller hack count. Otherwise the plan is good. */
  function Iteration(c: BatchCtx, h: int, over: bool): (t: Turn)
    requires ValidCtx(c) && h >= 1
    ensures t.Stop? ==> t.plan.hack >= 1 && t.plan.weaken2 >= 1 && t.plan.grow >= 0 && t.plan.weaken >= 0
    ensures t.Stop? ==> (t.plan.hack - 1) as real < 1.0 / c.y
    ensures t.Stop? ==> Total(t.plan) <= c.available || t.plan.hack == 1
    ensures t.Stop? ==> exists b {:trigger Counts(c, b)} :: 1 <= b <= t.plan.hack && Counts(c, b) == t.plan.(hack := b)
    ensures t.Again? ==> t.hack >= 1 && (over ==> t.over)
    ensures t.Again? ==>
      (Rank(t.over) < Rank(over) || (Rank(t.over) == Rank(over) && 0 <= Progress(c, t.hack, t.over) < Progress(c, h, over)))
  {
    var h1 := OptimalHackThreads(c.y, h);
    var p := Counts(c, h1);
    var usage := Usage(p, c.available);
    if usage > 1.0 then
      if h1 > 1 then
        OptimalHackThreadsIdempotent(c.y, h1 - 1);
        Again(h1 - 1, true)
      else
        Stop(p)
    else if Floor(Spare(usage, h1)) > 1 then
      var add := Floor(Spare(usage, h1) / 2.0);
      UsageAtMostOne(p, c.available);
      if Times(c.y, h1 + add) <= 1.0 then
        IncreaseFits(p, c.available, usage, add);
        InverseBound(c.y, h1 + add);
        if over then
          assert Counts(c, h1) == p.(hack := h1 + add).(hack := h1);
          Stop(p.(hack := h1 + add))
        else
          Again(h1 + add, false)
      else
        Stop(p)
    else
      UsageAtMostOne(p, c.available);
      Stop(p)
  }

  /** The thread refinement loop run to completion from hack count `h` and
      flag `over`. It terminates: before the flag is set the hack count only
      rises and stays at most `ceil(1/y)`; afterwards it only falls and stays
      at least one. */
  function Refine(c: BatchCtx, h: int, over: bool): (p: Plan)
    requires ValidCtx(c) && h >= 1
    ensures p.hack >= 1 && p.weaken2 >= 1 && p.grow >= 0 && p.weaken >= 0
    ensures (p.hack - 1) as real < 1.0 / c.y
    ensures Total(p) <= c.available || p.hack == 1
    ensures exists b {:trigger Counts(c, b)} :: 1 <= b <= p.hack && Counts(c, b) == p.(hack := b)
    decreases Rank(over), Progress(c, h, over)
  {
    match Iteration(c, h, over)
    case Stop(p) => p
    case Again(h2, over2) => Refine(c, h2, over2)
  }

  /** `usage <= 1` means the plan fits. */
  lemma UsageAtMostOne(p: Plan, available: int)
    requires available >= 1 && Usage(p, available) <= 1.0
    ensures Total(p) <= available
  {
    var a := available as real;
    var u := Usage(p, available);
    assert a * u == Total(p) as real;
    MulMonoLe(a, u, 1.0);
  }

  /** An increase of at most half the scaled spare share still fits, and adds
      at least one thread when the scaled spare share is at least two. */
  lemma IncreaseFits(p: Plan, available: int, usage: real, add: int)
    requires available >= 1 && usage == Usage(p, available) && usage <= 1.0
    requires 1 <= p.hack <= Total(p) <= available
    requires Floor(Spare(usage, p.hack)) > 1
    requires add == Floor(Spare(usage, p.hack) / 2.0)
    ensures add >= 1
    ensures Total(p) + add <= available
  {
    var a := available as real;
    var spare := Spare(usage, p.hack);
    var room := 1.0 - usage;
    assert room >= 0.0;
    var hr := p.hack as real;
    MulMonoLe(room, hr, a);
    assert room * hr == spare;
    assert a * usage == Total(p) as real;
    assert room * a == a - Total(p) as real;
  }

  /** The literal `while (true)` refinement loop, which computes what
      `Refine` defines. */
  method RefineLoop(c: BatchCtx) returns (p: Plan)
    requires ValidCtx(c)
    ensures p == Refine(c, InitialHackThreads(c.available), false)
    ensures p.hack >= 1 && p.weaken2 >= 1
    ensures Total(p) <= c.available || p.hack == 1
  {
    var h := InitialHackThreads(c.available);
    var over := false;
    while true
      invariant h >= 1
      invariant Refine(c, h, over) == Refine(c, InitialHackThreads(c.available), false)
      decreases Rank(over), Progress(c, h, over)
    {
      var done;
      ghost var before, overBefore := h, over;
      done, p, h, over := RefineRound(c, h, over);
      if done {
        RefineStops(c, before, overBefore, p);
        return;
      }
    }
  }

  /** The body of the refinement loop: `done` when it breaks out with `p`,
      otherwise the hack count and flag for the next round. */
  method RefineRound(c: BatchCtx, h0: int, over0: bool) returns (done: bool, p: Plan, h: int, over: bool)
    requires ValidCtx(c) && h0 >= 1
    ensures done ==> Iteration(c, h0, over0) == Stop(p)
    ensures !done ==> Iteration(c, h0, over0) == Again(h, over)
  {
    IterationCases(c, h0, over0);
    h, over := h0, over0;
    h := OptimalHackThreads(c.y, h);
    var plan := Counts(c, h);
    p := plan;
    var usage := Usage(plan, c.available);
    if usage > 1.0 {
      if h > 1 {
        h := h - 1;
        over := true;
      } else {
        return true, p, h, over;
      }
    } else if Floor(Spare(usage, h)) > 1 {
      var add := Floor(Spare(usage, h) / 2.0);
      if Times(c.y, h + add) <= 1.0 {
        if over {
          return true, plan.(hack := h + add), h, over;
        }
        h := h + add;
      } else {
        return true, p, h, over;
      }
    } else {
      return true, p, h, over;
    }
    done := false;
  }

  lemma RefineStops(c: BatchCtx, h: int, over: bool, p: Plan)
    requires ValidCtx(c) && h >= 1 && Iteration(c, h, over) == Stop(p)
    ensures Refine(c, h, over) == p
  {
  }

  /** The six exits of one iteration, each named by the tests that lead to
      it. */
  lemma IterationCases(c: BatchCtx, h: int, over: bool)
    requires ValidCtx(c) && h >= 1
    ensures var h1 := OptimalHackThreads(c.y, h);
      var p := Counts(c, h1);
      var usage := Usage(p, c.available);
      var add := Floor(Spare(usage, h1) / 2.0);
      var t := Iteration(c, h, over);
      && (usage > 1.0 && h1 > 1 ==> t == Again(h1 - 1, true))
      && (usage > 1.0 && h1 <= 1 ==> t == Stop(p))
      && (usage <= 1.0 && Floor(Spare(usage, h1)) > 1 && Times(c.y, h1 + add) <= 1.0 ==>
            t == if over then Stop(p.(hack := h1 + add)) else Again(h1 + add, false))
      && (usage <= 1.0 && Floor(Spare(usage, h1)) > 1 && Times(c.y, h1 + add) > 1.0 ==> t == Stop(p))
      && (usage <= 1.0 && Floor(Spare(usage, h1)) <= 1 ==> t == Stop(p))
  {
  }

  /** The hack count the loop starts from: an eighth of the available
      threads, rounded up. */
  function InitialHackThreads(available: int): (r: int)
    requires available >= 1
    ensures r >= 1
    ensures (r - 1) * INITIAL_HACK_THREADS < available <= r * INITIAL_HACK_THREADS
  {
    (available + INITIAL_HACK_THREADS - 1) / INITIAL_HACK_THREADS
  }

  /** The first weaken of a batch removes at least the security its hack
      threads add, when its ratio is `hackAnalyzeSecurity / weakenAnalyze`. */
  lemma FirstWeakenCoversHack(c: BatchCtx, h: int, hackSecurity: NonNegReal, perThread: PosReal)
    requires h >= 1 && c.hackWeakenRatio == hackSecurity / perThread
    ensures Times(perThread, Counts(c, h).weaken) >= Times(hackSecurity, h)
  {
    var r := c.hackWeakenRatio;
    var hr := h as real;
    var need := r * hr;
    assert need == Times(r, h);
    var k := Counts(c, h).weaken;
    assert k == Ceil(need);
    var kr := k as real;
    MulMonoLe(perThread, need, kr);
    assert perThread * kr == Times(perThread, k);
    assert perThread * r == hackSecurity;
    assert perThread * need == (perThread * r) * hr;
    assert hackSecurity * hr == Times(hackSecurity, h);
  }

  /* ---------------------------------------------------------------------- */
  /* Dispatch                                                                */
  /* ---------------------------------------------------------------------- */

  datatype Script = WeakenScript | GrowScript | HackScript

  /** One `exec(script, host, threads, target, delay, batchNum)` call. */
  datatype Exec = Exec(script: Script, host: string, threads: int, target: string, delay: real, batch: int)

  /** The four execs of a batch, in the order they are issued: first weaken,
      second weaken, grow, hack. */
  function BatchExecs(e: Estimators, worker: string, target: string, p: Plan, delay: real, batch: int): (r: seq<Exec>)
    ensures |r| == 4
    ensures forall i :: 0 <= i < |r| ==> r[i].host == worker && r[i].target == target && r[i].batch == batch
    ensures r[0].threads == p.weaken && r[1].threads == p.weaken2 && r[2].threads == p.grow && r[3].threads == p.hack
  {
    var w := e.weakenTime(target);
    [Exec(WeakenScript, worker, p.weaken, target, delay, batch),
     Exec(WeakenScript, worker, p.weaken2, target, delay + 2.0 * BATCH_THREAD_DELAY, batch),
     Exec(GrowScript, worker, p.grow, target, delay + BATCH_THREAD_DELAY + w - e.growTime(target), batch),
     Exec(HackScript, worker, p.hack, target, delay - BATCH_THREAD_DELAY + w - e.hackTime(target), batch)]
  }

  /** How long a script runs against its target. */
  function Duration(e: Estimators, x: Exec): real {
    match x.script
    case WeakenScript => e.weakenTime(x.target)
    case GrowScript => e.growTime(x.target)
    case HackScript => e.hackTime(x.target)
  }

  /** When an exec finishes, counted from the moment it is issued. */
  function Completion(e: Estimators, x: Exec): real {
    x.delay + Duration(e, x)
  }

  /** With `D` the batch delay and `W` the weaken time, a batch finishes hack
      at `D + W - 100`, first weaken at `D + W`, grow at `D + W + 100` and
      second weaken at `D + W + 200`, whatever the grow and hack times. */
  lemma BatchCompletionOrder(e: Estimators, worker: string, target: string, p: Plan, delay: real, batch: int)
    ensures var r := BatchExecs(e, worker, target, p, delay, batch);
      var w := e.weakenTime(target);
      && r[3].script == HackScript && Completion(e, r[3]) == delay + w - 100.0
      && r[0].script == WeakenScript && Completion(e, r[0]) == delay + w
      && r[2].script == GrowScript && Completion(e, r[2]) == delay + w + 100.0
      && r[1].script == WeakenScript && Completion(e, r[1]) == delay + w + 200.0
  {
  }

  /** A batch issued 400 ms after another on the same target finishes
      entirely after the other has finished. */
  lemma ConsecutiveBatchesDisjoint(e: Estimators, target: string, w1: string, p1: Plan, w2: string, p2: Plan, d1: real, d2: real, n1: int, n2: int)
    requires d2 >= d1 + 4.0 * BATCH_THREAD_DELAY
    ensures var first := BatchExecs(e, w1, target, p1, d1, n1);
      var second := BatchExecs(e, w2, target, p2, d2, n2);
      forall i, j :: 0 <= i < 4 && 0 <= j < 4 ==> Completion(e, first[i]) < Completion(e, second[j])
  {
    BatchCompletionOrder(e, w1, target, p1, d1, n1);
    BatchCompletionOrder(e, w2, target, p2, d2, n2);
  }

  /** What one worker does for one target. */
  datatype Outcome = Outcome(state: TargetState, batchNum: int, execs: seq<Exec>)

  /** The grow requirement is never negative once computed. */
  predicate Tracked(st: TargetState) {
    st.growthCalculated ==> st.growRequired >= 0
  }

  /** The weaken/grow/batch ratios the loop derives from the estimators. */
  function HackWeakenRatio(e: Estimators, target: string, cores: Cores): NonNegReal {
    DivNonNeg(e.hackAnalyzeSecurity(target), e.weakenAnalyze(cores));
    e.hackAnalyzeSecurity(target) / e.weakenAnalyze(cores)
  }

  /** The second weaken's ratio divides the security one grow thread adds by
      the core count, as the loop writes it. */
  function GrowWeakenRatio(e: Estimators, target: string, cores: Cores): NonNegReal {
    DivNonNeg(e.growthAnalyzeSecurity(1, target, cores), cores as real);
    e.growthAnalyzeSecurity(1, target, cores) / cores as real
  }

  lemma DivNonNeg(x: real, d: real)
    requires x >= 0.0 && d > 0.0
    ensures x / d >= 0.0
  {
    Inverse(d);
    MulMonoLe(x, 0.0, 1.0 / d);
    assert x / d == x * (1.0 / d);
  }

  /** What the refinement loop reads for a worker with `a` free threads. */
  function BatchContext(e: Estimators, t: TargetView, worker: Server, a: int): BatchCtx {
    var cores := worker.cpuCores;
    BatchCtx(e.hackAnalyze(t.name), a, e.growthAnalyze, t.name, cores,
      HackWeakenRatio(e, t.name, cores), GrowWeakenRatio(e, t.name, cores))
  }

  /** A worker's dispatch is a single grow exec. */
  predicate IsGrow(g: seq<Exec>) {
    |g| == 1 && g[0].script == GrowScript
  }

  /** One worker's turn on one target: skip a worker without a whole thread;
      otherwise weaken while the security is above the floor, else grow while
      the money is short and requirement remains (or is not yet known), else
      run a batch if the worker has four threads and a hack takes something. */
  function WorkerStep(e: Estimators, ramPerThread: PosReal, t: TargetView, st: TargetState, batchNum: int, worker: Server): (o: Outcome)
    requires Tracked(st)
    ensures Tracked(o.state)
    ensures st.growthCalculated ==> o.state.growthCalculated
    ensures o.batchNum == batchNum + (if |o.execs| > 0 then 1 else 0)
    ensures |o.execs| == 0 || |o.execs| == 1 || |o.execs| == 4
    ensures forall i :: 0 <= i < |o.execs| ==> o.execs[i].batch == batchNum && o.execs[i].host == worker.hostname && o.execs[i].target == t.name
    ensures st.security >= t.floor ==> o.state.security >= t.floor
    ensures |o.execs| == 0 ==> o.state == st
    ensures IsGrow(o.execs) ==>
      o.state.growthCalculated && o.execs[0].threads + o.state.growRequired == Requirement(e, t, st, worker.cpuCores)
    ensures !IsGrow(o.execs) ==>
      o.state.growthCalculated == st.growthCalculated && o.state.growRequired == st.growRequired
    ensures |o.execs| == 4 ==>
      var a := AvailableThreads(worker, ramPerThread);
      && a >= MIN_BATCH_THREADS && e.hackAnalyze(t.name) != 0.0
      && o.execs == BatchExecs(e, worker.hostname, t.name, Refine(BatchContext(e, t, worker, a), InitialHackThreads(a), false), st.batchDelay, batchNum)
      && o.state.batchDelay == st.batchDelay + 4.0 * BATCH_THREAD_DELAY
    ensures |o.execs| != 4 ==> o.state.batchDelay == st.batchDelay
  {
    var a := AvailableThreads(worker, ramPerThread);
    if a < 1 then Outcome(st, batchNum, [])
    else
      var cores := worker.cpuCores;
      if st.security > t.floor then
        var w := WeakenPlan(st.security, t.floor, e.weakenAnalyze(cores), a);
        Outcome(st.(security := w.security), batchNum + 1,
          [Exec(WeakenScript, worker.hostname, w.threads, t.name, 0.0, batchNum)])
      else if t.money < t.maxMoney && (st.growRequired > 0 || !st.growthCalculated) then
        var g := GrowPlan(e, t, st, cores, a);
        Outcome(st.(security := g.security, growthCalculated := true, growRequired := g.required), batchNum + 1,
          [Exec(GrowScript, worker.hostname, g.threads, t.name, 0.0, batchNum)])
      else if a < MIN_BATCH_THREADS || e.hackAnalyze(t.name) == 0.0 then
        Outcome(st, batchNum, [])
      else
        var p := Refine(BatchContext(e, t, worker, a), InitialHackThreads(a), false);
        Outcome(st.(batchDelay := st.batchDelay + 4.0 * BATCH_THREAD_DELAY), batchNum + 1,
          BatchExecs(e, worker.hostname, t.name, p, st.batchDelay, batchNum))
  }

  /** The branch a worker takes, in priority order, and what it dispatches. */
  lemma WorkerBranches(e: Estimators, ramPerThread: PosReal, t: TargetView, st: TargetState, batchNum: int, worker: Server)
    requires Tracked(st)
    ensures var o := WorkerStep(e, ramPerThread, t, st, batchNum, worker);
      var a := AvailableThreads(worker, ramPerThread);
      && (a < 1 ==> o.execs == [])
      && (a >= 1 && st.security > t.floor ==>
            |o.execs| == 1 && o.execs[0].script == WeakenScript
            && 1 <= o.execs[0].threads <= a && o.state.security >= t.floor)
      && (a >= 1 && st.security <= t.floor && t.money < t.maxMoney && (st.growRequired > 0 || !st.growthCalculated) ==>
            |o.execs| == 1 && o.execs[0].script == GrowScript
            && o.execs[0].threads == Min(Requirement(e, t, st, worker.cpuCores), a)
            && o.state.growRequired == Requirement(e, t, st, worker.cpuCores) - o.execs[0].threads)
      && (a >= 1 && st.security <= t.floor && !(t.money < t.maxMoney && (st.growRequired > 0 || !st.growthCalculated)) ==>
            (|o.execs| == 4 <==> a >= MIN_BATCH_THREADS && e.hackAnalyze(t.name) != 0.0))
  {
  }

  /* ---------------------------------------------------------------------- */
  /* Targets and cycles                                                      */
  /* ---------------------------------------------------------------------- */

  /** Number of workers that dispatched something. */
  function Dispatched(groups: seq<seq<Exec>>): (r: nat)
    ensures r <= |groups|
  {
    if |groups| == 0 then 0
    else (if |groups[0]| > 0 then 1 else 0) + Dispatched(groups[1..])
  }

  /** Threads handed out by the grow branch (a single grow exec). */
  function GrowThreads(groups: seq<seq<Exec>>): int {
    if |groups| == 0 then 0
    else
      (if IsGrow(groups[0]) then groups[0][0].threads else 0)
        + GrowThreads(groups[1..])
  }

  /** A target's state and the execs of each worker, in worker order. */
  datatype TargetRun = TargetRun(state: TargetState, batchNum: int, groups: seq<seq<Exec>>)

  /** The inner loop over the workers for one target. */
  function RunTarget(e: Estimators, ramPerThread: PosReal, t: TargetView, st: TargetState, batchNum: int, workers: seq<Server>): (r: TargetRun)
    requires Tracked(st)
    ensures Tracked(r.state)
    ensures |r.groups| == |workers|
    ensures r.batchNum == batchNum + Dispatched(r.groups)
    ensures forall i, x {:trigger x in r.groups[i]} :: 0 <= i < |r.groups| && x in r.groups[i] ==>
      x.batch == batchNum + Dispatched(r.groups[..i]) && x.target == t.name && x.host == workers[i].hostname
    ensures st.growthCalculated ==> r.state.growthCalculated
    ensures st.growthCalculated ==> GrowThreads(r.groups) == st.growRequired - r.state.growRequired
    ensures st.security >= t.floor ==> r.state.security >= t.floor
    decreases |workers|
  {
    if |workers| == 0 then TargetRun(st, batchNum, [])
    else
      var o := WorkerStep(e, ramPerThread, t, st, batchNum, workers[0]);
      var rest := RunTarget(e, ramPerThread, t, o.state, o.batchNum, workers[1..]);
      var groups := [o.execs] + rest.groups;
      LabelsOfPrepend(o.execs, rest.groups, workers, t.name, batchNum, o.batchNum);
      assert groups[1..] == rest.groups;
      GrowStepDrains(e, ramPerThread, t, st, batchNum, workers[0]);
      TargetRun(rest.state, rest.batchNum, groups)
  }

  /** Prepending one worker's execs keeps every exec labelled with its
      worker, the target and the batch number of its dispatch. */
  lemma LabelsOfPrepend(g: seq<Exec>, rest: seq<seq<Exec>>, workers: seq<Server>, target: string, start: int, restStart: int)
    requires |workers| == |rest| + 1
    requires restStart == start + (if |g| > 0 then 1 else 0)
    requires forall x :: x in g ==> x.batch == start && x.target == target && x.host == workers[0].hostname
    requires forall i, x {:trigger x in rest[i]} :: 0 <= i < |rest| && x in rest[i] ==>
      x.batch == restStart + Dispatched(rest[..i]) && x.target == target && x.host == workers[1..][i].hostname
    ensures var groups := [g] + rest;
      forall i, x {:trigger x in groups[i]} :: 0 <= i < |groups| && x in groups[i] ==>
        x.batch == start + Dispatched(groups[..i]) && x.target == target && x.host == workers[i].hostname
  {
    var groups := [g] + rest;
    forall i: int, x: Exec | 0 <= i < |groups| && x in groups[i]
      ensures x.batch == start + Dispatched(groups[..i]) && x.target == target && x.host == workers[i].hostname
    {
      if i > 0 {
        assert groups[i] == rest[i - 1];
        assert groups[..i][1..] == rest[..i - 1];
        assert workers[1..][i - 1] == workers[i];
      }
    }
  }

  /** A grow dispatch takes exactly what it dispatches off the requirement;
      no other branch touches it. */
  lemma GrowStepDrains(e: Estimators, ramPerThread: PosReal, t: TargetView, st: TargetState, batchNum: int, worker: Server)
    requires Tracked(st)
    ensures var o := WorkerStep(e, ramPerThread, t, st, batchNum, worker);
      st.growthCalculated ==>
      (if |o.execs| == 1 && o.execs[0].script == GrowScript then o.execs[0].threads else 0)
        == st.growRequired - o.state.growRequired
  {
  }

  /** Batch numbers strictly increase from one dispatching worker to the
      next. */
  lemma {:induction false} DispatchedGrows(groups: seq<seq<Exec>>, i: int, j: int)
    requires 0 <= i < j <= |groups| && |groups[i]| > 0
    ensures Dispatched(groups[..j]) >= Dispatched(groups[..i]) + 1
    decreases i
  {
    assert groups[..j][1..] == groups[1..][..j - 1];
    if i == 0 {
      DispatchedNonNeg(groups[1..][..j - 1]);
    } else {
      assert groups[..i][1..] == groups[1..][..i - 1];
      DispatchedGrows(groups[1..], i - 1, j - 1);
    }
  }

  lemma DispatchedNonNeg(groups: seq<seq<Exec>>)
    ensures Dispatched(groups) >= 0
  {
  }

  /** Across the workers of one target, two dispatching workers carry
      different batch numbers, the later one the larger. */
  lemma BatchNumbersIncrease(e: Estimators, ramPerThread: PosReal, t: TargetView, st: TargetState, batchNum: int, workers: seq<Server>, i: int, j: int)
    requires Tracked(st)
    requires var r := RunTarget(e, ramPerThread, t, st, batchNum, workers);
      0 <= i < j < |r.groups| && |r.groups[i]| > 0 && |r.groups[j]| > 0
    ensures var r := RunTarget(e, ramPerThread, t, st, batchNum, workers);
      r.groups[i][0].batch < r.groups[j][0].batch
  {
    var r := RunTarget(e, ramPerThread, t, st, batchNum, workers);
    assert r.groups[i][0] in r.groups[i];
    assert r.groups[j][0] in r.groups[j];
    DispatchedGrows(r.groups, i, j);
  }

  /** Index of the first worker whose dispatch is a grow, or the number of
      workers when none grows. */
  function FirstGrow(groups: seq<seq<Exec>>): (k: nat)
    ensures k <= |groups|
    ensures k < |groups| ==> IsGrow(groups[k])
    ensures forall m :: 0 <= m < k ==> !IsGrow(groups[m])
  {
    if |groups| == 0 then 0
    else if IsGrow(groups[0]) then 0
    else 1 + FirstGrow(groups[1..])
  }

  /** Starting from fresh bookkeeping, the first worker that grows sizes the
      requirement with its own cores, and the grow threads dispatched on the
      target plus what is still owed add up to that requirement. */
  lemma {:induction false} RunTargetGrowFromFresh(e: Estimators, ramPerThread: PosReal, t: TargetView, st: TargetState, batchNum: int, workers: seq<Server>)
    requires Tracked(st) && !st.growthCalculated
    ensures var r := RunTarget(e, ramPerThread, t, st, batchNum, workers);
      var k := FirstGrow(r.groups);
      && (r.state.growthCalculated <==> k < |r.groups|)
      && (k == |r.groups| ==> GrowThreads(r.groups) == 0)
      && (k < |r.groups| ==> GrowThreads(r.groups) + r.state.growRequired == Requirement(e, t, st, workers[k].cpuCores))
    decreases |workers|
  {
    var r := RunTarget(e, ramPerThread, t, st, batchNum, workers);
    if |workers| > 0 {
      var o := WorkerStep(e, ramPerThread, t, st, batchNum, workers[0]);
      var rest := RunTarget(e, ramPerThread, t, o.state, o.batchNum, workers[1..]);
      assert r.groups == [o.execs] + rest.groups && r.state == rest.state;
      assert r.groups[1..] == rest.groups;
      if !IsGrow(o.execs) {
        RunTargetGrowFromFresh(e, ramPerThread, t, o.state, o.batchNum, workers[1..]);
        assert FirstGrow(r.groups) == 1 + FirstGrow(rest.groups);
        if FirstGrow(rest.groups) < |rest.groups| {
          assert workers[1..][FirstGrow(rest.groups)] == workers[FirstGrow(r.groups)];
        }
      }
    }
  }

  /** Number of dispatches on a target that are full batches. */
  function Batches(groups: seq<seq<Exec>>): (r: nat)
    ensures r <= |groups|
  {
    if |groups| == 0 then 0 else (if |groups[0]| == 4 then 1 else 0) + Batches(groups[1..])
  }

  /** The thread counts of a four-exec batch, read back from its execs. */
  function PlanOf(g: seq<Exec>): Plan
    requires |g| == 4
  {
    Plan(g[3].threads, g[2].threads, g[0].threads, g[1].threads)
  }

  /** The offset a dispatch leaves for the next one: four thread delays later
      after a full batch, unchanged otherwise. */
  function NextDelay(g: seq<Exec>, d: real): real {
    if |g| == 4 then d + 4.0 * BATCH_THREAD_DELAY else d
  }

  /** Walking `groups` alongside `workers`, each full batch is the matching
      worker's batch launched at the running offset, which starts at `d0`. */
  ghost predicate DelayedFrom(e: Estimators, groups: seq<seq<Exec>>, workers: seq<Server>, target: string, d0: real)
    decreases |groups|
  {
    |groups| <= |workers| &&
    (|groups| > 0 ==>
      && (|groups[0]| == 4 ==> groups[0] == BatchExecs(e, workers[0].hostname, target, PlanOf(groups[0]), d0, groups[0][0].batch))
      && DelayedFrom(e, groups[1..], workers[1..], target, NextDelay(groups[0], d0)))
  }

  /** The batch at index `i` was launched at the starting offset plus four
      thread delays for every batch before it. */
  lemma {:induction false} DelayedAt(e: Estimators, groups: seq<seq<Exec>>, workers: seq<Server>, target: string, d0: real, i: int)
    requires DelayedFrom(e, groups, workers, target, d0)
    requires 0 <= i < |groups| && |groups[i]| == 4
    ensures groups[i] == BatchExecs(e, workers[i].hostname, target, PlanOf(groups[i]),
      d0 + 4.0 * BATCH_THREAD_DELAY * (Batches(groups[..i]) as real), groups[i][0].batch)
    decreases i
  {
    if i == 0 {
      assert groups[..0] == [];
    } else {
      var k := i - 1;
      var d1 := NextDelay(groups[0], d0);
      DelayedAt(e, groups[1..], workers[1..], target, d1, k);
      assert groups[..i][1..] == groups[1..][..k];
      assert Batches(groups[..i]) == (if |groups[0]| == 4 then 1 else 0) + Batches(groups[1..][..k]);
      assert d0 + 4.0 * BATCH_THREAD_DELAY * (Batches(groups[..i]) as real)
          == d1 + 4.0 * BATCH_THREAD_DELAY * (Batches(groups[1..][..k]) as real);
      assert workers[1..][k] == workers[i];
    }
  }

  /** Each batch on a target is launched 400 ms after the one before: the
      batch dispatched after `n` earlier batches starts at `n` times four
      thread delays past the starting offset, and the offset left over counts
      every batch. */
  lemma {:induction false} RunTargetBatchDelays(e: Estimators, ramPerThread: PosReal, t: TargetView, st: TargetState, batchNum: int, workers: seq<Server>)
    requires Tracked(st)
    ensures var r := RunTarget(e, ramPerThread, t, st, batchNum, workers);
      r.state.batchDelay == st.batchDelay + 4.0 * BATCH_THREAD_DELAY * (Batches(r.groups) as real)
    ensures DelayedFrom(e, RunTarget(e, ramPerThread, t, st, batchNum, workers).groups, workers, t.name, st.batchDelay)
    decreases |workers|
  {
    var r := RunTarget(e, ramPerThread, t, st, batchNum, workers);
    if |workers| > 0 {
      var o := WorkerStep(e, ramPerThread, t, st, batchNum, workers[0]);
      var rest := RunTarget(e, ramPerThread, t, o.state, o.batchNum, workers[1..]);
      assert r.groups == [o.execs] + rest.groups && r.state == rest.state;
      assert r.groups[1..] == rest.groups;
      RunTargetBatchDelays(e, ramPerThread, t, o.state, o.batchNum, workers[1..]);
      assert Batches(r.groups) == (if |o.execs| == 4 then 1 else 0) + Batches(rest.groups);
      assert o.state.batchDelay == NextDelay(o.execs, st.batchDelay);
      if |o.execs| == 4 {
        var a := AvailableThreads(workers[0], ramPerThread);
        var p := Refine(BatchContext(e, t, workers[0], a), InitialHackThreads(a), false);
        BatchPlanOf(e, workers[0].hostname, t.name, p, st.batchDelay, batchNum);
      }
    }
  }

  /** A batch's plan and number can be read back from its execs. */
  lemma BatchPlanOf(e: Estimators, worker: string, target: string, p: Plan, delay: real, batch: int)
    ensures var g := BatchExecs(e, worker, target, p, delay, batch);
      PlanOf(g) == p && g[0].batch == batch
  {
  }

  /** Two batches on one target launched at least four thread delays apart
      complete one after the other. */
  lemma BatchPairInOrder(e: Estimators, g1: seq<Exec>, g2: seq<Exec>, w1: string, w2: string, target: string, d1: real, d2: real)
    requires |g1| == 4 && g1 == BatchExecs(e, w1, target, PlanOf(g1), d1, g1[0].batch)
    requires |g2| == 4 && g2 == BatchExecs(e, w2, target, PlanOf(g2), d2, g2[0].batch)
    requires d2 >= d1 + 4.0 * BATCH_THREAD_DELAY
    ensures forall a, b :: 0 <= a < 4 && 0 <= b < 4 ==> Completion(e, g1[a]) < Completion(e, g2[b])
  {
    ConsecutiveBatchesDisjoint(e, target, w1, PlanOf(g1), w2, PlanOf(g2), d1, d2, g1[0].batch, g2[0].batch);
  }

  /** A run from fresh bookkeeping launches its batches at 0, 400, 800, …
      ms: the offset restarts for every run, whatever came before it. */
  lemma FreshRunLaunchOffsets(e: Estimators, ramPerThread: PosReal, t: TargetView, batchNum: int, workers: seq<Server>, i: int)
    requires var r := RunTarget(e, ramPerThread, t, Fresh(t), batchNum, workers);
      0 <= i < |r.groups| && |r.groups[i]| == 4
    ensures var r := RunTarget(e, ramPerThread, t, Fresh(t), batchNum, workers);
      r.groups[i][0].delay == 4.0 * BATCH_THREAD_DELAY * (Batches(r.groups[..i]) as real)
  {
    var groups := RunTarget(e, ramPerThread, t, Fresh(t), batchNum, workers).groups;
    RunTargetBatchDelays(e, ramPerThread, t, Fresh(t), batchNum, workers);
    DelayedAt(e, groups, workers, t.name, 0.0, i);
  }

  /** A later batch has at least as many batches before it. */
  lemma {:induction false} BatchesGrow(groups: seq<seq<Exec>>, i: int, j: int)
    requires 0 <= i < j <= |groups| && |groups[i]| == 4
    ensures Batches(groups[..j]) >= Batches(groups[..i]) + 1
    decreases i
  {
    assert groups[..j][1..] == groups[1..][..j - 1];
    if i > 0 {
      assert groups[..i][1..] == groups[1..][..i - 1];
      BatchesGrow(groups[1..], i - 1, j - 1);
    }
  }

  /** Among delayed groups, an earlier batch completes before a later one. */
  lemma DelayedInOrder(e: Estimators, groups: seq<seq<Exec>>, workers: seq<Server>, target: string, d0: real, i: int, j: int)
    requires DelayedFrom(e, groups, workers, target, d0)
    requires 0 <= i < j < |groups| && |groups[i]| == 4 && |groups[j]| == 4
    ensures forall a, b :: 0 <= a < 4 && 0 <= b < 4 ==> Completion(e, groups[i][a]) < Completion(e, groups[j][b])
  {
    BatchesGrow(groups, i, j);
    DelayedAt(e, groups, workers, target, d0, i);
    DelayedAt(e, groups, workers, target, d0, j);
    var di := d0 + 4.0 * BATCH_THREAD_DELAY * (Batches(groups[..i]) as real);
    var dj := d0 + 4.0 * BATCH_THREAD_DELAY * (Batches(groups[..j]) as real);
    BatchPairInOrder(e, groups[i], groups[j], workers[i].hostname, workers[j].hostname, target, di, dj);
  }

  /** On one target, every exec of an earlier batch completes before every
      exec of a later batch, whichever workers run them. */
  lemma BatchesOnTargetInOrder(e: Estimators, ramPerThread: PosReal, t: TargetView, st: TargetState, batchNum: int, workers: seq<Server>, i: int, j: int)
    requires Tracked(st)
    requires var r := RunTarget(e, ramPerThread, t, st, batchNum, workers);
      0 <= i < j < |r.groups| && |r.groups[i]| == 4 && |r.groups[j]| == 4
    ensures var r := RunTarget(e, ramPerThread, t, st, batchNum, workers);
      forall a, b :: 0 <= a < 4 && 0 <= b < 4 ==> Completion(e, r.groups[i][a]) < Completion(e, r.groups[j][b])
  {
    RunTargetBatchDelays(e, ramPerThread, t, st, batchNum, workers);
    DelayedInOrder(e, RunTarget(e, ramPerThread, t, st, batchNum, workers).groups, workers, t.name, st.batchDelay, i, j);
  }


  /** Outcome of one pass over all targets. */
  datatype CycleResult = Halted | Completed(batchNum: int, groups: seq<seq<Exec>>)

  /** The outer loop over the targets, each starting from fresh bookkeeping;
      skipped targets dispatch nothing. */
  function RunTargets(e: Estimators, ramPerThread: PosReal, workers: seq<Server>, targets: seq<Server>, batchNum: int): (r: CycleResult)
    ensures r.Completed?
    ensures r.batchNum == batchNum + Dispatched(r.groups)
    ensures forall i, x {:trigger x in r.groups[i]} :: 0 <= i < |r.groups| && x in r.groups[i] ==>
      exists k {:trigger targets[k]} :: 0 <= k < |targets| && x.target == targets[k].hostname
    ensures Labelled(r.groups, batchNum)
    decreases |targets|
  {
    if |targets| == 0 then Completed(batchNum, [])
    else
      var here := match TargetOf(targets[0])
        case None => TargetRun(TargetState(0.0, false, 0, 0.0), batchNum, [])
        case Some(v) => RunTarget(e, ramPerThread, v, Fresh(v), batchNum, workers);
      var rest := RunTargets(e, ramPerThread, workers, targets[1..], here.batchNum);
      DispatchedAppend(here.groups, rest.groups);
      AimedAtTargetsAppend(here.groups, rest.groups, targets);
      LabelsAppend(here.groups, rest.groups, batchNum);
      Completed(rest.batchNum, here.groups + rest.groups)
  }

  /** Every exec carries the batch number counted from `start` by the
      dispatches before its group. */
  ghost predicate Labelled(groups: seq<seq<Exec>>, start: int) {
    forall i, x {:trigger x in groups[i]} :: 0 <= i < |groups| && x in groups[i] ==>
      x.batch == start + Dispatched(groups[..i])
  }

  /** One target's labelled execs followed by the next targets', numbered on
      from where the first left off, are labelled as a whole. */
  lemma LabelsAppend(here: seq<seq<Exec>>, rest: seq<seq<Exec>>, start: int)
    requires Labelled(here, start)
    requires Labelled(rest, start + Dispatched(here))
    ensures Labelled(here + rest, start)
  {
    var groups := here + rest;
    forall i, x: Exec | 0 <= i < |groups| && x in groups[i]
      ensures x.batch == start + Dispatched(groups[..i])
    {
      if i < |here| {
        assert groups[i] == here[i];
        assert groups[..i] == here[..i];
      } else {
        assert groups[i] == rest[i - |here|];
        assert groups[..i] == here + rest[..i - |here|];
        DispatchedAppend(here, rest[..i - |here|]);
      }
    }
  }

  /** Across a whole cycle, a later dispatch carries a larger batch number. */
  lemma CycleBatchNumbersIncrease(e: Estimators, ramPerThread: PosReal, workers: seq<Server>, targets: seq<Server>, batchNum: int, i: int, j: int)
    requires var r := RunTargets(e, ramPerThread, workers, targets, batchNum);
      0 <= i < j < |r.groups| && |r.groups[i]| > 0 && |r.groups[j]| > 0
    ensures var r := RunTargets(e, ramPerThread, workers, targets, batchNum);
      r.groups[i][0].batch < r.groups[j][0].batch
  {
    var r := RunTargets(e, ramPerThread, workers, targets, batchNum);
    assert r.groups[i][0] in r.groups[i];
    assert r.groups[j][0] in r.groups[j];
    DispatchedGrows(r.groups, i, j);
  }

  /** Every exec in `groups` aims at one of `targets`. */
  ghost predicate AimedAtTargets(groups: seq<seq<Exec>>, targets: seq<Server>) {
    forall i, x {:trigger x in groups[i]} :: 0 <= i < |groups| && x in groups[i] ==>
      exists k {:trigger targets[k]} :: 0 <= k < |targets| && x.target == targets[k].hostname
  }

  /** The first target's execs followed by those aimed at the other targets
      are all aimed at the targets. */
  lemma AimedAtTargetsAppend(here: seq<seq<Exec>>, rest: seq<seq<Exec>>, targets: seq<Server>)
    requires |targets| > 0
    requires forall i, x {:trigger x in here[i]} :: 0 <= i < |here| && x in here[i] ==> x.target == targets[0].hostname
    requires AimedAtTargets(rest, targets[1..])
    ensures AimedAtTargets(here + rest, targets)
  {
    var groups := here + rest;
    forall i, x: Exec | 0 <= i < |groups| && x in groups[i]
      ensures exists k {:trigger targets[k]} :: 0 <= k < |targets| && x.target == targets[k].hostname
    {
      if i < |here| {
        assert groups[i] == here[i];
        assert x.target == targets[0].hostname;
      } else {
        assert groups[i] == rest[i - |here|];
        var k :| 0 <= k < |targets[1..]| && x.target == targets[1..][k].hostname;
        assert targets[1..][k] == targets[k + 1];
      }
    }
  }

  lemma {:induction false} DispatchedAppend(a: seq<seq<Exec>>, b: seq<seq<Exec>>)
    ensures Dispatched(a + b) == Dispatched(a) + Dispatched(b)
    decreases |a|
  {
    if |a| == 0 {
      assert a + b == b;
    } else {
      assert (a + b)[1..] == a[1..] + b;
      DispatchedAppend(a[1..], b);
    }
  }

  /** One pass of the hacking loop: stop if any of the three data files could
      not be read; in the early game every target is replaced by the best
      target; then run every target over every rooted worker. */
  function Cycle(e: Estimators, ramPerThread: PosReal, servers: Option<seq<NodeRecord>>, targets: Option<seq<NodeRecord>>,
                 best: Option<NodeRecord>, hackingLevel: real, batchNum: int): (r: CycleResult)
    ensures r.Halted? <==> servers.None? || targets.None? || best.None?
    ensures r.Completed? ==> r.batchNum == batchNum + Dispatched(r.groups)
  {
    if servers.None? || targets.None? || best.None? then Halted
    else
      var workers := Infos(servers.value);
      var chosen := if hackingLevel < EARLY_GAME_LEVEL then seq(|targets.value|, _ => best.value.info) else Infos(targets.value);
      RunTargets(e, ramPerThread, workers, chosen, batchNum)
  }

  function Infos(records: seq<NodeRecord>): (r: seq<Server>)
    ensures |r| == |records| && forall i :: 0 <= i < |r| ==> r[i] == records[i].info
  {
    seq(|records|, i requires 0 <= i < |records| => records[i].info)
  }

  /** In the early game every exec of the cycle aims at the best target. */
  lemma EarlyGameFocus(e: Estimators, ramPerThread: PosReal, servers: seq<NodeRecord>, targets: seq<NodeRecord>,
                       best: NodeRecord, hackingLevel: real, batchNum: int)
    requires hackingLevel < EARLY_GAME_LEVEL
    ensures var r := Cycle(e, ramPerThread, Some(servers), Some(targets), Some(best), hackingLevel, batchNum);
      r.Completed? && forall i, x :: 0 <= i < |r.groups| && x in r.groups[i] ==> x.target == best.info.hostname
  {
    var chosen := seq(|targets|, _ => best.info);
    var r := RunTargets(e, ramPerThread, Infos(servers), chosen, batchNum);
    forall i, x | 0 <= i < |r.groups| && x in r.groups[i]
      ensures x.target == best.info.hostname
    {
      var k :| 0 <= k < |chosen| && x.target == chosen[k].hostname;
    }
  }
}
