/** LWMA difficulty adjustment over a sliding window of samples. */
module Difficulty {
  import opened Bytes

  /** 2^256: `U256` multiplication saturates just below it. */
  const U256_BOUND: nat := U64_BOUND * U64_BOUND * U64_BOUND * U64_BOUND

  /** A block's timestamp in milliseconds and the difficulty it was mined at. */
  datatype Sample = Sample(time: u64, difficulty: nat)

  datatype Config = Config(target: u64, window: nat, minDifficulty: nat)
  {
    function Target(): nat {
      Max(target, 1)
    }

    function MaxSolveTime(): nat {
      Min(6 * Target(), U64_BOUND - 1)
    }
  }

  // ---- the moving average -------------------------------------------------

  /** Clamped time between samples `i − 1` and `i`. */
  function SolveTime(cfg: Config, s: seq<Sample>, i: nat): (st: nat)
    requires 1 <= i < |s|
    ensures 1 <= st <= 6 * cfg.Target()
  {
    Min(Max(s[i].time - s[i - 1].time, 1), cfg.MaxSolveTime())
  }

  /** `Σ i · solvetime_i` for `i` up to `n`. */
  function Weighted(cfg: Config, s: seq<Sample>, n: nat): nat
    requires n < |s| || n == 0
  {
    if n == 0 then 0 else Weighted(cfg, s, n - 1) + n * SolveTime(cfg, s, n)
  }

  function DifficultySum(s: seq<Sample>, n: nat): nat
    requires n < |s| || n == 0
  {
    if n == 0 then 0 else DifficultySum(s, n - 1) + s[n].difficulty
  }

  /** `Σ i`. */
  function WeightSum(n: nat): nat {
    n * (n + 1) / 2
  }

  function SatMul(a: nat, b: nat): nat {
    Min(a * b, U256_BOUND - 1)
  }

  /** Products saturate at 2^256 − 1 and not before. */
  lemma SatMulExactly(a: nat, b: nat)
    ensures var most := 115792089237316195423570985008687907853269984665640564039457584007913129639935;
            SatMul(a, b) == if a * b <= most then a * b else most
  {
  }

  function Average(s: seq<Sample>): nat
    requires |s| >= 2
  {
    DifficultySum(s, |s| - 1) / (|s| - 1)
  }

  /** The next difficulty over all of `s`. */
  function Next(cfg: Config, s: seq<Sample>): nat
    requires |s| >= 2
  {
    var n := |s| - 1;
    var numerator := SatMul(SatMul(Average(s), cfg.Target()), WeightSum(n));
    Max(numerator / Max(Weighted(cfg, s, n), 1), cfg.minDifficulty)
  }

  /** The samples whose solve times are averaged: the last `window + 1`. */
  function LastSamples(s: seq<Sample>, window: nat): seq<Sample> {
    s[Max(|s| - (window + 1), 0)..]
  }

  /** `lwma`: nothing to say about fewer than three samples. */
  method Lwma(cfg: Config, samples: seq<Sample>) returns (next: Option<nat>)
    requires cfg.window >= 1 || |samples| < 3
    ensures next == if |samples| < 3 then None else Some(Next(cfg, LastSamples(samples, cfg.window)))
  {
    if |samples| < 3 {
      return None;
    }
    var target := cfg.Target();
    var maxSolveTime := cfg.MaxSolveTime();
    var deltas := samples[Max(|samples| - (cfg.window + 1), 0)..];
    var n: nat := |deltas| - 1;
    var weighted, sum: nat := 0, 0;
    var i := 1;
    while i <= n
      invariant 1 <= i <= n + 1
      invariant weighted == Weighted(cfg, deltas, i - 1) && sum == DifficultySum(deltas, i - 1)
    {
      var elapsed := Max(deltas[i].time - deltas[i - 1].time, 0);
      var st := if elapsed < 1 then 1 else if elapsed > maxSolveTime then maxSolveTime else elapsed;
      weighted := weighted + i * st;
      sum := sum + deltas[i].difficulty;
      i := i + 1;
    }
    var average := sum / n;
    var numerator := SatMul(SatMul(average, target), n * (n + 1) / 2);
    return Some(Max(numerator / Max(weighted, 1), cfg.minDifficulty));
  }

  // ---- arithmetic ---------------------------------------------------------

  lemma DivAtLeast(x: nat, w: nat, q: nat)
    requires w > 0 && q * w <= x
    ensures x / w >= q
  {
    assert (x / w + 1) * w == x / w * w + w;
    if x / w < q {
      MulMono(x / w + 1, q, w);
      assert false;
    }
  }

  lemma DivAtMost(x: nat, w: nat, q: nat)
    requires w > 0 && x <= q * w
    ensures x / w <= q
  {
    assert (q + 1) * w == q * w + w;
    if x / w > q {
      MulMono(q + 1, x / w, w);
      assert false;
    }
  }

  lemma Distribute(a: int, b: int, c: int)
    ensures a * (b + c) == a * b + a * c
  {
  }

  lemma MulMono(a: nat, b: nat, w: nat)
    requires a <= b
    ensures a * w <= b * w
  {
  }

  lemma DivMono(x: nat, v: nat, w: nat)
    requires 0 < v <= w
    ensures x / w <= x / v
  {
    MulMono(v, w, x / w);
    assert x / w * v <= x;
    DivAtLeast(x, v, x / w);
  }

  lemma {:induction false} WeightSumStep(n: nat)
    requires n > 0
    ensures WeightSum(n) == WeightSum(n - 1) + n
  {
    assert n * (n + 1) == (n - 1) * n + 2 * n;
  }

  lemma TermBounds(n: nat, st: nat, most: nat)
    requires 1 <= st <= most
    ensures n <= n * st <= most * n
  {
    MulMono(1, st, n);
    MulMono(st, most, n);
  }

  /** Each solve time counts between 1 and `most`, so their weighted sum does too. */
  lemma {:induction false} WeightedBounds(cfg: Config, s: seq<Sample>, n: nat)
    requires n < |s|
    ensures WeightSum(n) <= Weighted(cfg, s, n) <= 6 * cfg.Target() * WeightSum(n)
  {
    if n > 0 {
      WeightedBounds(cfg, s, n - 1);
      WeightSumStep(n);
      TermBounds(n, SolveTime(cfg, s, n), 6 * cfg.Target());
      Distribute(6 * cfg.Target(), WeightSum(n - 1), n);
    }
  }

  // ---- bounds -------------------------------------------------------------

  /** No multiplication in `lwma` reaches 2^256. */
  ghost predicate NoSaturation(cfg: Config, s: seq<Sample>)
    requires |s| >= 2
  {
    Average(s) * cfg.Target() * WeightSum(|s| - 1) < U256_BOUND
  }

  lemma Numerator(cfg: Config, s: seq<Sample>)
    requires |s| >= 2 && NoSaturation(cfg, s)
    ensures WeightSum(|s| - 1) >= 1
    ensures SatMul(SatMul(Average(s), cfg.Target()), WeightSum(|s| - 1)) == Average(s) * cfg.Target() * WeightSum(|s| - 1)
  {
    WeightSumPositive(|s| - 1);
    MulMono(1, WeightSum(|s| - 1), Average(s) * cfg.Target());
  }

  lemma WeightSumPositive(n: nat)
    requires n >= 1
    ensures WeightSum(n) >= 1
  {
    if n > 1 {
      WeightSumStep(n);
    }
  }

  lemma Regroup(q: nat, target: nat, weights: nat)
    ensures q * (6 * target * weights) == (6 * q) * (target * weights)
  {
  }

  lemma SixthTimes(average: nat, target: nat, weights: nat, weighted: nat)
    requires weighted <= 6 * target * weights
    ensures average / 6 * weighted <= average * target * weights
  {
    var q := average / 6;
    MulMono(weighted, 6 * target * weights, q);
    MulMono(6 * q, average, target * weights);
    Regroup(q, target, weights);
    assert average * (target * weights) == average * target * weights;
  }

  /** The quotient lies between a sixth of the average and `T` times it. */
  lemma QuotientBounds(average: nat, target: nat, weights: nat, weighted: nat)
    requires target >= 1 && weights >= 1 && weights <= weighted <= 6 * target * weights
    ensures average / 6 <= average * target * weights / weighted <= average * target
  {
    var x, q := average * target * weights, average / 6;
    SixthTimes(average, target, weights, weighted);
    DivAtLeast(x, weighted, q);
    MulMono(weights, weighted, average * target);
    DivAtMost(x, weighted, average * target);
  }

  /** Without saturation the next difficulty is between max(Min, avg/6) and max(Min, avg·T). */
  lemma NextBounds(cfg: Config, s: seq<Sample>)
    requires |s| >= 2 && NoSaturation(cfg, s)
    ensures Max(cfg.minDifficulty, Average(s) / 6) <= Next(cfg, s) <= Max(cfg.minDifficulty, Average(s) * cfg.Target())
  {
    var n := |s| - 1;
    Numerator(cfg, s);
    WeightedBounds(cfg, s, n);
    QuotientBounds(Average(s), cfg.Target(), WeightSum(n), Weighted(cfg, s, n));
  }

  // ---- monotonicity -------------------------------------------------------

  /** Same difficulties, and no solve time of `b` is shorter than `a`'s. */
  ghost predicate Slower(cfg: Config, a: seq<Sample>, b: seq<Sample>) {
    && |a| == |b|
    && (forall i :: 0 <= i < |a| ==> a[i].difficulty == b[i].difficulty)
    && (forall i :: 1 <= i < |a| ==> SolveTime(cfg, a, i) <= SolveTime(cfg, b, i))
  }

  lemma {:induction false} SlowerWeighsMore(cfg: Config, a: seq<Sample>, b: seq<Sample>, n: nat)
    requires Slower(cfg, a, b) && n < |a|
    ensures Weighted(cfg, a, n) <= Weighted(cfg, b, n) && DifficultySum(a, n) == DifficultySum(b, n)
  {
    if n > 0 {
      SlowerWeighsMore(cfg, a, b, n - 1);
      MulMono(SolveTime(cfg, a, n), SolveTime(cfg, b, n), n);
    }
  }

  /** The next difficulty never rises when solve times grow, saturation or not. */
  lemma NextIsAntitone(cfg: Config, a: seq<Sample>, b: seq<Sample>)
    requires |a| >= 2 && Slower(cfg, a, b)
    ensures Next(cfg, b) <= Next(cfg, a)
  {
    var n := |a| - 1;
    SlowerWeighsMore(cfg, a, b, n);
    DivMono(SatMul(SatMul(Average(a), cfg.Target()), WeightSum(n)), Max(Weighted(cfg, a, n), 1), Max(Weighted(cfg, b, n), 1));
  }

  // ---- which block counts how much ----------------------------------------

  /** A solve time is the elapsed time, at least 1 and at most six targets. */
  lemma SolveTimeExactly(cfg: Config, s: seq<Sample>, i: nat)
    requires 1 <= i < |s| && 6 * cfg.target < U64_BOUND && cfg.target >= 1
    ensures var elapsed := s[i].time - s[i - 1].time;
            SolveTime(cfg, s, i) == if elapsed < 1 then 1 else if elapsed > 6 * cfg.target then 6 * cfg.target else elapsed
  {
  }

  /** Solve times of `b` are those of `a`, but for `x` more at position `k`. */
  ghost predicate DelayedAt(cfg: Config, a: seq<Sample>, b: seq<Sample>, k: nat, x: nat) {
    && |a| == |b| && 1 <= k < |a|
    && SolveTime(cfg, b, k) == SolveTime(cfg, a, k) + x
    && forall i :: 1 <= i < |a| && i != k ==> SolveTime(cfg, a, i) == SolveTime(cfg, b, i)
  }

  /** A delay at position `k` counts `k` times. */
  lemma {:induction false} DelayCounts(cfg: Config, a: seq<Sample>, b: seq<Sample>, k: nat, x: nat, n: nat)
    requires DelayedAt(cfg, a, b, k, x) && n < |a|
    ensures Weighted(cfg, b, n) == Weighted(cfg, a, n) + if k <= n then k * x else 0
  {
    if n > 0 {
      DelayCounts(cfg, a, b, k, x, n - 1);
      if n == k {
        Distribute(n, SolveTime(cfg, a, n), x);
      }
    }
  }

  /** The difficulties of `b` are those of `a`, but for `x` more at position `k`. */
  ghost predicate HarderAt(a: seq<Sample>, b: seq<Sample>, k: nat, x: nat) {
    && |a| == |b| && k < |a| && b[k].difficulty == a[k].difficulty + x
    && forall i :: 0 <= i < |a| && i != k ==> a[i].difficulty == b[i].difficulty
  }

  /** Every sample's difficulty counts once in the average, except the oldest one's. */
  lemma {:induction false} DifficultyCounts(a: seq<Sample>, b: seq<Sample>, k: nat, x: nat, n: nat)
    requires HarderAt(a, b, k, x) && n < |a|
    ensures DifficultySum(b, n) == DifficultySum(a, n) + if 1 <= k <= n then x else 0
  {
    if n > 0 {
      DifficultyCounts(a, b, k, x, n - 1);
    }
  }

  /** `b` spends the `x` that `a` takes longer for position `i` on the newer position `j` instead. */
  ghost predicate DelayMoved(cfg: Config, a: seq<Sample>, b: seq<Sample>, i: nat, j: nat, x: nat) {
    && |a| == |b| && 1 <= i < j < |a|
    && SolveTime(cfg, a, i) == SolveTime(cfg, b, i) + x && SolveTime(cfg, b, j) == SolveTime(cfg, a, j) + x
    && (forall k :: 1 <= k < |a| && k != i && k != j ==> SolveTime(cfg, a, k) == SolveTime(cfg, b, k))
    && (forall k :: 0 <= k < |a| ==> a[k].difficulty == b[k].difficulty)
  }

  /** What moving the delay adds to the weighted sum of the first `n` positions. */
  function MovedWeight(i: nat, j: nat, x: nat, n: nat): int {
    if n < i then 0 else if n < j then -(i * x) else j * x - i * x
  }

  /** A delay moved from position `i` to `j` weighs `j − i` times its length more. */
  lemma {:induction false} MovedDelayCounts(cfg: Config, a: seq<Sample>, b: seq<Sample>, i: nat, j: nat, x: nat, n: nat)
    requires DelayMoved(cfg, a, b, i, j, x) && n < |a|
    ensures Weighted(cfg, b, n) == Weighted(cfg, a, n) + MovedWeight(i, j, x, n)
    ensures DifficultySum(a, n) == DifficultySum(b, n)
  {
    if n > 0 {
      MovedDelayCounts(cfg, a, b, i, j, x, n - 1);
      MovedDelayStep(cfg, a, b, i, j, x, n);
    }
  }

  lemma MovedDelayStep(cfg: Config, a: seq<Sample>, b: seq<Sample>, i: nat, j: nat, x: nat, n: nat)
    requires DelayMoved(cfg, a, b, i, j, x) && 1 <= n < |a|
    ensures n * SolveTime(cfg, b, n) - n * SolveTime(cfg, a, n) == MovedWeight(i, j, x, n) - MovedWeight(i, j, x, n - 1)
  {
    if n == i {
      Distribute(n, SolveTime(cfg, b, n), x);
    } else if n == j {
      Distribute(n, SolveTime(cfg, a, n), x);
    }
  }

  /** Recent blocks count more: moving a delay from an older solve time to a newer one never raises the
    * next difficulty.
    */
  lemma LaterDelayNeverRaises(cfg: Config, a: seq<Sample>, b: seq<Sample>, i: nat, j: nat, x: nat)
    requires DelayMoved(cfg, a, b, i, j, x)
    ensures Next(cfg, b) <= Next(cfg, a)
  {
    var n := |a| - 1;
    MovedDelayCounts(cfg, a, b, i, j, x, n);
    MulMono(i, j, x);
    DivMono(SatMul(SatMul(Average(a), cfg.Target()), WeightSum(n)), Max(Weighted(cfg, a, n), 1), Max(Weighted(cfg, b, n), 1));
  }

  /** And it may lower it: solve times 30, 10 and 10, 30 at difficulty 1000 and target 20. */
  lemma LaterDelayCanLower(cfg: Config)
    requires cfg.target == 20 && cfg.minDifficulty <= 857
    ensures Next(cfg, [Sample(0, 1000), Sample(30, 1000), Sample(40, 1000)]) == 1200
    ensures Next(cfg, [Sample(0, 1000), Sample(10, 1000), Sample(40, 1000)]) == 857
  {
    var a, b := [Sample(0, 1000), Sample(30, 1000), Sample(40, 1000)], [Sample(0, 1000), Sample(10, 1000), Sample(40, 1000)];
    assert Weighted(cfg, a, 1) == 30 && Weighted(cfg, a, 2) == 50;
    assert Weighted(cfg, b, 1) == 10 && Weighted(cfg, b, 2) == 70;
    assert DifficultySum(a, 1) == 1000 && DifficultySum(a, 2) == 2000;
    assert DifficultySum(b, 1) == 1000 && DifficultySum(b, 2) == 2000;
  }

  // ---- the pallet ---------------------------------------------------------

  /** What the pallet stores. */
  datatype State = State(current: nat, samples: seq<Sample>)

  function Genesis(cfg: Config, initial: nat): State {
    State(Max(initial, cfg.minDifficulty), [])
  }

  /** `on_finalize` as a function: record the block, keep the window, adjust. */
  function Finalize(cfg: Config, s: State, now: u64): State {
    var samples := LastSamples(s.samples + [Sample(now, s.current)], cfg.window);
    State(if |samples| < 3 then s.current else Next(cfg, samples), samples)
  }

  class DifficultyPallet {
    const cfg: Config
    var current: nat
    var samples: seq<Sample>

    ghost function Storage(): State
      reads this
    {
      State(current, samples)
    }

    constructor (cfg: Config, initial: nat)
      ensures this.cfg == cfg && Storage() == Genesis(cfg, initial)
    {
      this.cfg := cfg;
      current, samples := Max(initial, cfg.minDifficulty), [];
    }

    method OnFinalize(now: u64)
      modifies this
      ensures Storage() == Finalize(cfg, old(Storage()), now)
    {
      samples := samples + [Sample(now, current)];
      ghost var all := samples;
      while |samples| > cfg.window + 1
        invariant samples == all[|all| - |samples|..] && |samples| >= Min(|all|, cfg.window + 1) && current == old(current)
      {
        samples := samples[1..];
      }
      assert samples == LastSamples(all, cfg.window);
      assert LastSamples(samples, cfg.window) == samples;
      var next := Lwma(cfg, samples);
      if next.Some? {
        current := next.value;
      }
    }
  }

  // ---- every run ----------------------------------------------------------

  /** Storage after blocks with timestamps `times`. */
  function Run(cfg: Config, initial: nat, times: seq<u64>): State {
    if times == [] then Genesis(cfg, initial) else Finalize(cfg, Run(cfg, initial, times[..|times| - 1]), times[|times| - 1])
  }

  /** Every block so far: its timestamp and the difficulty in force for it. */
  function History(cfg: Config, initial: nat, times: seq<u64>): (h: seq<Sample>)
    ensures |h| == |times|
  {
    if times == [] then []
    else
      var before := times[..|times| - 1];
      History(cfg, initial, before) + [Sample(times[|times| - 1], Run(cfg, initial, before).current)]
  }

  /** In every run the stored samples are exactly the last min(n, window + 1) blocks. */
  lemma {:induction false} WindowIsExact(cfg: Config, initial: nat, times: seq<u64>)
    ensures Run(cfg, initial, times).samples == LastSamples(History(cfg, initial, times), cfg.window)
    ensures |Run(cfg, initial, times).samples| == Min(|times|, cfg.window + 1)
  {
    if times != [] {
      var before := times[..|times| - 1];
      WindowIsExact(cfg, initial, before);
      var stored, all := Run(cfg, initial, before), History(cfg, initial, before);
      var block := Sample(times[|times| - 1], stored.current);
      assert LastSamples(stored.samples + [block], cfg.window) == LastSamples(all + [block], cfg.window);
    }
  }

  /** Difficulty never drops below the minimum, whatever the timestamps. */
  lemma {:induction false} NeverBelowMinimum(cfg: Config, initial: nat, times: seq<u64>)
    ensures Run(cfg, initial, times).current >= cfg.minDifficulty
  {
    if times != [] {
      NeverBelowMinimum(cfg, initial, times[..|times| - 1]);
    }
  }

  /** In every run, once three samples are stored, the difficulty is within those bounds of the
    * average over the window.
    */
  lemma RunStaysInBounds(cfg: Config, initial: nat, times: seq<u64>)
    requires var s := Run(cfg, initial, times).samples; |s| >= 3 && NoSaturation(cfg, s)
    ensures var s := Run(cfg, initial, times);
            Max(cfg.minDifficulty, Average(s.samples) / 6) <= s.current <= Max(cfg.minDifficulty, Average(s.samples) * cfg.Target())
  {
    NextBounds(cfg, Run(cfg, initial, times).samples);
  }

  // ---- on target ----------------------------------------------------------

  /** Every sample mined at `d`, every solve time the target. */
  ghost predicate Steady(cfg: Config, s: seq<Sample>, d: nat) {
    && (forall i :: 0 <= i < |s| ==> s[i].difficulty == d)
    && (forall i :: 1 <= i < |s| ==> s[i].time - s[i - 1].time == cfg.target)
  }

  lemma {:induction false} SteadySums(cfg: Config, s: seq<Sample>, d: nat, n: nat)
    requires Steady(cfg, s, d) && n < |s| && 1 <= cfg.target
    ensures Weighted(cfg, s, n) == cfg.target * WeightSum(n) && DifficultySum(s, n) == d * n
  {
    if n > 0 {
      SteadySums(cfg, s, d, n - 1);
      WeightSumStep(n);
      Distribute(cfg.target, WeightSum(n - 1), n);
      Distribute(d, n - 1, 1);
      assert SolveTime(cfg, s, n) == cfg.target;
    }
  }

  lemma ExactQuotient(a: nat, w: nat)
    requires w > 0
    ensures a * w / w == a
  {
    DivAtLeast(a * w, w, a);
    DivAtMost(a * w, w, a);
  }

  lemma SteadyAverage(cfg: Config, s: seq<Sample>, d: nat)
    requires Steady(cfg, s, d) && |s| >= 2 && 1 <= cfg.target
    ensures Average(s) == d && Weighted(cfg, s, |s| - 1) == cfg.target * WeightSum(|s| - 1)
  {
    SteadySums(cfg, s, d, |s| - 1);
    ExactQuotient(d, |s| - 1);
  }

  lemma SteadyQuotient(d: nat, target: nat, weights: nat)
    requires target >= 1 && weights >= 1
    ensures target * weights >= 1 && d * target * weights / (target * weights) == d
  {
    MulMono(1, weights, target);
    assert d * target * weights == d * (target * weights);
    ExactQuotient(d, target * weights);
  }

  lemma SteadyNext(cfg: Config, s: seq<Sample>, d: nat)
    requires Steady(cfg, s, d) && |s| >= 2 && 1 <= cfg.target && d >= cfg.minDifficulty
    requires d * cfg.target * WeightSum(|s| - 1) < U256_BOUND
    ensures Next(cfg, s) == d
  {
    SteadyAverage(cfg, s, d);
    Numerator(cfg, s);
    SteadyQuotient(d, cfg.target, WeightSum(|s| - 1));
  }

  lemma {:induction false} WeightSumMonotone(a: nat, b: nat)
    requires a <= b
    ensures WeightSum(a) <= WeightSum(b)
  {
    if a < b {
      WeightSumMonotone(a, b - 1);
      WeightSumStep(b);
    }
  }

  /** Every block takes exactly the target time. */
  ghost predicate OnTarget(cfg: Config, times: seq<u64>) {
    forall i :: 1 <= i < |times| ==> times[i - 1] + cfg.target == times[i]
  }

  /** Difficulty `d` with steady samples ending at time `last`. */
  ghost predicate SteadyState(cfg: Config, s: State, d: nat, times: seq<u64>) {
    && s.current == d && Steady(cfg, s.samples, d)
    && (times == [] ==> s.samples == [])
    && (times != [] ==> s.samples != [] && s.samples[|s.samples| - 1].time == times[|times| - 1])
  }

  lemma FitsShorterWindow(d: nat, target: nat, n: nat, window: nat)
    requires n <= window && d * target * WeightSum(window) < U256_BOUND
    ensures d * target * WeightSum(n) < U256_BOUND
  {
    WeightSumMonotone(n, window);
    MulMono(WeightSum(n), WeightSum(window), d * target);
  }

  lemma SteadySnoc(cfg: Config, s: seq<Sample>, d: nat, now: u64)
    requires Steady(cfg, s, d) && (s != [] ==> s[|s| - 1].time + cfg.target == now)
    ensures Steady(cfg, s + [Sample(now, d)], d)
  {
  }

  lemma SteadySuffix(cfg: Config, s: seq<Sample>, d: nat, k: nat)
    requires Steady(cfg, s, d) && k <= |s|
    ensures Steady(cfg, s[k..], d)
  {
  }

  /** One more block on target. */
  lemma SteadyStep(cfg: Config, s: State, d: nat, times: seq<u64>, now: u64)
    requires 1 <= cfg.target && d >= cfg.minDifficulty && d * cfg.target * WeightSum(cfg.window) < U256_BOUND
    requires SteadyState(cfg, s, d, times) && (times != [] ==> times[|times| - 1] + cfg.target == now)
    ensures SteadyState(cfg, Finalize(cfg, s, now), d, times + [now])
  {
    var all := s.samples + [Sample(now, d)];
    SteadySnoc(cfg, s.samples, d, now);
    var samples := LastSamples(all, cfg.window);
    SteadySuffix(cfg, all, d, Max(|all| - (cfg.window + 1), 0));
    if |samples| >= 3 {
      FitsShorterWindow(d, cfg.target, |samples| - 1, cfg.window);
      SteadyNext(cfg, samples, d);
    }
  }

  /** If every block takes exactly the target time, the difficulty never moves. */
  lemma {:induction false} OnTargetIsConstant(cfg: Config, initial: nat, times: seq<u64>)
    requires 1 <= cfg.target && OnTarget(cfg, times)
    requires Max(initial, cfg.minDifficulty) * cfg.target * WeightSum(cfg.window) < U256_BOUND
    ensures SteadyState(cfg, Run(cfg, initial, times), Max(initial, cfg.minDifficulty), times)
  {
    if times != [] {
      var before := times[..|times| - 1];
      OnTargetIsConstant(cfg, initial, before);
      SteadyStep(cfg, Run(cfg, initial, before), Max(initial, cfg.minDifficulty), before, times[|times| - 1]);
      assert times == before + [times[|times| - 1]];
    }
  }
}
