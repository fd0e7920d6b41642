/** The emission schedule. */
module Emission {
  import opened Bytes

  const ATOMIC_UNITS: int := 100_000_000
  const MAX_CURVE_SUPPLY: int := 92_000_000 * ATOMIC_UNITS
  const TAIL_REWARD: int := 3 * ATOMIC_UNITS / 10
  const SHIFTED: int := 0x8_0000

  /** `max(TAIL_REWARD, (MAX_CURVE_SUPPLY − emitted) >> 19)`, the difference saturating at 0. */
  function BlockReward(emitted: u64): (r: u64)
    ensures TAIL_REWARD <= r <= MAX_CURVE_SUPPLY
    ensures OnRate(emitted, r)
  {
    assert MAX_CURVE_SUPPLY == 9_200_000_000_000_000 && TAIL_REWARD == 30_000_000;
    var curve := Max(MAX_CURVE_SUPPLY - emitted, 0) / SHIFTED;
    if curve > TAIL_REWARD then curve else TAIL_REWARD
  }

  /** Still on the decaying curve: the tail has not been reached. */
  predicate OnCurve(emitted: int) {
    Max(MAX_CURVE_SUPPLY - emitted, 0) / SHIFTED > TAIL_REWARD
  }

  /** Coins emitted after `k` coinbases, each refused if the total would overflow. */
  function Emitted(k: nat): u64 {
    if k == 0 then 0 else
      var e := Emitted(k - 1);
      if e + BlockReward(e) < U64_BOUND then e + BlockReward(e) else e
  }

  /** `e ↦ e + reward(e)` keeps the order of two supplies. */
  lemma SupplyStepMonotone(a: u64, b: u64)
    requires a <= b
    ensures a + BlockReward(a) <= b + BlockReward(b)
  {
    assert MAX_CURVE_SUPPLY == 9_200_000_000_000_000 && TAIL_REWARD == 30_000_000;
  }

  /** A reward paid on the curve never carries the supply past the curve's ceiling. */
  lemma CurveStaysBelowCeiling(e: u64)
    requires OnCurve(e)
    ensures e + BlockReward(e) <= MAX_CURVE_SUPPLY
  {
    assert MAX_CURVE_SUPPLY == 9_200_000_000_000_000 && TAIL_REWARD == 30_000_000;
  }

  /** Once a supply is off the curve, every later one is. */
  lemma TailIsPermanent(a: u64, b: u64)
    requires a <= b && !OnCurve(a)
    ensures !OnCurve(b) && BlockReward(b) == TAIL_REWARD
  {
    assert MAX_CURVE_SUPPLY == 9_200_000_000_000_000 && TAIL_REWARD == 30_000_000;
  }

  /** `e` is a possible supply after `k` coinbases. */
  predicate InBand(k: nat, e: int) {
    k * TAIL_REWARD <= e <= MAX_CURVE_SUPPLY + k * TAIL_REWARD
  }

  /** Every coinbase stays in the band: curve rewards stop at the ceiling, tail rewards are constant. */
  lemma StepStaysInBand(k: nat, e: u64)
    requires InBand(k, e)
    ensures InBand(k + 1, e + BlockReward(e))
  {
    assert (k + 1) * TAIL_REWARD == k * TAIL_REWARD + TAIL_REWARD;
    if OnCurve(e) {
      CurveStaysBelowCeiling(e);
    }
  }

  /** The schedule stays in the band as long as no coinbase is refused for overflow. */
  lemma {:induction false} EmittedBounds(k: nat)
    requires MAX_CURVE_SUPPLY + k * TAIL_REWARD < U64_BOUND
    ensures InBand(k, Emitted(k))
    ensures k > 0 && OnCurve(Emitted(k - 1)) ==> Emitted(k) <= MAX_CURVE_SUPPLY
  {
    if k > 0 {
      assert k * TAIL_REWARD == (k - 1) * TAIL_REWARD + TAIL_REWARD;
      EmittedBounds(k - 1);
      StepStaysInBand(k - 1, Emitted(k - 1));
      if OnCurve(Emitted(k - 1)) {
        CurveStaysBelowCeiling(Emitted(k - 1));
      }
    }
  }

  lemma {:induction false} EmittedGrows(j: nat, k: nat)
    requires j <= k
    ensures Emitted(j) <= Emitted(k)
  {
    if j < k {
      EmittedGrows(j, k - 1);
    }
  }

  /** The tail is reached within 306,666,667 coinbases and then lasts. */
  lemma TailIsReached(k: nat)
    requires 306_666_667 <= k
    ensures BlockReward(Emitted(k)) == TAIL_REWARD
  {
    assert MAX_CURVE_SUPPLY == 9_200_000_000_000_000 && TAIL_REWARD == 30_000_000;
    EmittedBounds(306_666_667);
    EmittedGrows(306_666_667, k);
    TailIsPermanent(MAX_CURVE_SUPPLY, Emitted(k));
  }

  // ---- the rate -----------------------------------------------------------

  /** `r` is the reward at supply `e`: the 524,288th part of what is missing to 92 million coins,
    * rounded down, while that is more than three tenths of a coin, and three tenths of a coin after.
    */
  predicate OnRate(e: int, r: int) {
    || (r > 30_000_000 && r * 524_288 <= 9_200_000_000_000_000 - e < (r + 1) * 524_288)
    || (r == 30_000_000 && 9_200_000_000_000_000 - e < 30_000_001 * 524_288)
  }

  /** The block reward is the one amount on the rate. */
  lemma RewardIsOnRate(e: u64, r: int)
    ensures r == BlockReward(e) <==> OnRate(e, r)
  {
    assert MAX_CURVE_SUPPLY == 9_200_000_000_000_000 && TAIL_REWARD == 30_000_000 && SHIFTED == 524_288;
  }

  /** The tail is paid exactly when less than 30,000,001 · 524,288 is missing. */
  lemma TailExactly(e: u64)
    ensures BlockReward(e) == 30_000_000 <==> 9_200_000_000_000_000 - e < 30_000_001 * 524_288
  {
    RewardIsOnRate(e, BlockReward(e));
  }

  /** One coinbase on the rate leads from `e` to `next`. */
  predicate RateStep(e: int, next: int) {
    OnRate(e, next - e)
  }

  /** Supplies after 0, 1, 2, … coinbases, each step on the rate. */
  predicate RateSequence(es: seq<u64>) {
    es != [] && es[0] == 0 && forall j :: 0 <= j < |es| - 1 ==> RateStep(es[j], es[j + 1])
  }

  /** There is one such sequence, and it is the schedule. */
  lemma {:induction false} ScheduleIsTheRate(es: seq<u64>, k: nat)
    requires RateSequence(es) && k < |es|
    ensures es[k] == Emitted(k)
  {
    if k > 0 {
      ScheduleIsTheRate(es, k - 1);
      assert RateStep(es[k - 1], es[k - 1 + 1]);
      RewardIsOnRate(es[k - 1], es[k] - es[k - 1]);
    }
  }

  /** It goes on for as long as the supply fits 64 bits. */
  lemma {:induction false} RateSequenceExists(n: nat) returns (es: seq<u64>)
    requires 9_200_000_000_000_000 + n * 30_000_000 < U64_BOUND
    ensures RateSequence(es) && |es| == n + 1
  {
    if n == 0 {
      es := [0];
    } else {
      var most := RateSequenceExists(n - 1);
      var last := most[n - 1];
      ScheduleIsTheRate(most, n - 1);
      assert MAX_CURVE_SUPPLY == 9_200_000_000_000_000 && TAIL_REWARD == 30_000_000;
      EmittedBounds(n - 1);
      StepStaysInBand(n - 1, last);
      RewardIsOnRate(last, BlockReward(last));
      es := most + [last + BlockReward(last)];
      forall j | 0 <= j < n
        ensures RateStep(es[j], es[j + 1])
      {
        if j < n - 1 {
          assert RateStep(most[j], most[j + 1]);
        }
      }
    }
  }
}
