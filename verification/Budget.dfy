/** Splitting a plan's budget over its steps, in the widths the planner computes with. */
module Budget {

  newtype u32 = x: int | 0 <= x < 0x1_0000_0000
  newtype u64 = x: int | 0 <= x < 0x1_0000_0000_0000_0000

  const U32: nat := 0x1_0000_0000
  const U64: nat := 0x1_0000_0000_0000_0000

  /** Up to so many steps no sum leaves 32 bits, whatever the budget. */
  const MAX_STEPS: nat := 0xFF_0000

  function Pow2(e: nat): (p: nat)
    ensures p >= 1
  {
    if e == 0 then 1 else 2 * Pow2(e - 1)
  }

  /** Weights halve from step to step and level off at one; the first ones are all 256. */
  function Weight(n: nat, i: nat): nat
    requires i < n
  {
    Pow2(if n - 1 - i < 8 then n - 1 - i else 8)
  }

  function WeightSum(n: nat, k: nat): nat
    requires k <= n
  {
    if k == 0 then 0 else WeightSum(n, k - 1) + Weight(n, k - 1)
  }

  lemma {:induction false} WeightSumBounds(n: nat, k: nat)
    requires k <= n
    ensures k <= WeightSum(n, k) <= 256 * k
  {
    if k > 0 {
      WeightSumBounds(n, k - 1);
      WeightIsSmall(n, k - 1);
    }
  }

  lemma {:induction false} Pow2Grows(a: nat, b: nat)
    requires a <= b
    ensures Pow2(a) <= Pow2(b)
  {
    if a < b {
      Pow2Grows(a, b - 1);
    }
  }

  function TotalWeight(n: nat): (w: nat)
    requires n > 0
    ensures w > 0
  {
    WeightSumBounds(n, n);
    WeightSum(n, n)
  }

  /** The exact proportional part of the budget, rounded down. */
  function Portion(n: nat, budget: nat, i: nat): nat
    requires i < n
  {
    budget * Weight(n, i) / TotalWeight(n)
  }

  function Share(n: nat, budget: nat, i: nat): nat
    requires i < n
  {
    if Portion(n, budget, i) < 1 then 1 else Portion(n, budget, i)
  }

  function ShareSum(n: nat, budget: nat, k: nat): nat
    requires k <= n
  {
    if k == 0 then 0 else ShareSum(n, budget, k - 1) + Share(n, budget, k - 1)
  }

  function PortionSum(n: nat, budget: nat, k: nat): nat
    requires k <= n
  {
    if k == 0 then 0 else PortionSum(n, budget, k - 1) + Portion(n, budget, k - 1)
  }

  /** The shares, with what rounding left over given to the first step. */
  function Split(n: nat, budget: nat): (limits: seq<nat>)
    ensures |limits| == n
  {
    var left := if ShareSum(n, budget, n) < budget then budget - ShareSum(n, budget, n) else 0;
    seq(n, i requires 0 <= i < n => Share(n, budget, i) + if i == 0 then left else 0)
  }

  function Sum(s: seq<nat>): nat { if s == [] then 0 else Sum(s[..|s| - 1]) + s[|s| - 1] }

  // ---------------------------------------------------------------- arithmetic

  lemma QuotientBounds(x: nat, w: nat)
    requires w > 0
    ensures x / w * w <= x < (x / w + 1) * w
  {
  }

  lemma QuotientGrows(x: nat, y: nat, w: nat)
    requires w > 0 && x <= y
    ensures x / w <= y / w
  {
    QuotientBounds(x, w);
    QuotientBounds(y, w);
    if x / w > y / w {
      Scale(y / w + 1, x / w, w);
      assert false;
    }
  }

  lemma Scale(a: nat, b: nat, w: nat)
    requires a <= b
    ensures a * w <= b * w
  {
    assert b * w == a * w + (b - a) * w;
  }

  lemma Unscale(a: nat, b: nat, w: nat)
    requires w > 0 && a * w <= b * w
    ensures a <= b
  {
    assert (b + 1) * w == b * w + w;
    if b < a {
      Scale(b + 1, a, w);
    }
  }

  // -------------------------------------------------------------------- bounds

  lemma PortionsDecrease(n: nat, budget: nat, i: nat, j: nat)
    requires i <= j < n
    ensures Portion(n, budget, j) <= Portion(n, budget, i)
  {
    WeightSumBounds(n, n);
    Pow2Grows(if n - 1 - j < 8 then n - 1 - j else 8, if n - 1 - i < 8 then n - 1 - i else 8);
    Scale(Weight(n, j), Weight(n, i), budget);
    QuotientGrows(budget * Weight(n, j), budget * Weight(n, i), WeightSum(n, n));
  }

  /** Rounded down portions never add up to more than the weights entitle them to. */
  lemma {:induction false} PortionSumBound(n: nat, budget: nat, k: nat)
    requires k <= n
    ensures PortionSum(n, budget, k) * WeightSum(n, n) <= budget * WeightSum(n, k)
  {
    if k > 0 {
      WeightSumBounds(n, n);
      PortionSumBound(n, budget, k - 1);
      var w, p, x := WeightSum(n, n), Portion(n, budget, k - 1), PortionSum(n, budget, k - 1);
      QuotientBounds(budget * Weight(n, k - 1), w);
      AddUp(x, p, w, budget, WeightSum(n, k - 1), Weight(n, k - 1));
    }
  }

  lemma AddUp(x: nat, p: nat, w: nat, b: nat, s: nat, t: nat)
    requires x * w <= b * s && p * w <= b * t
    ensures (x + p) * w <= b * (s + t)
  {
    assert (x + p) * w == x * w + p * w;
    assert b * (s + t) == b * s + b * t;
  }

  lemma PortionsFit(n: nat, budget: nat)
    ensures PortionSum(n, budget, n) <= budget
  {
    WeightSumBounds(n, n);
    if n > 0 {
      PortionSumBound(n, budget, n);
      Unscale(PortionSum(n, budget, n), budget, WeightSum(n, n));
    }
  }

  /** Raising a share to one costs at most one for each step but the first. */
  lemma {:induction false} ShareSumBound(n: nat, budget: nat, k: nat)
    requires 0 < k <= n && budget > 0
    ensures ShareSum(n, budget, k) <= if Portion(n, budget, 0) == 0 then k else PortionSum(n, budget, k) + k - 1
    decreases k
  {
    PortionsDecrease(n, budget, 0, k - 1);
    assert ShareSum(n, budget, k) == ShareSum(n, budget, k - 1) + Share(n, budget, k - 1);
    assert PortionSum(n, budget, k) == PortionSum(n, budget, k - 1) + Portion(n, budget, k - 1);
    if k > 1 {
      ShareSumBound(n, budget, k - 1);
    }
  }

  /** Once the budget covers the weights no share is raised. */
  lemma {:induction false} SharesArePortions(n: nat, budget: nat, k: nat)
    requires k <= n && budget >= WeightSum(n, n)
    ensures ShareSum(n, budget, k) == PortionSum(n, budget, k)
  {
    if k > 0 {
      SharesArePortions(n, budget, k - 1);
      PortionIsWhole(n, budget, k - 1);
    }
  }

  lemma PortionIsWhole(n: nat, budget: nat, i: nat)
    requires i < n && budget >= WeightSum(n, n)
    ensures Portion(n, budget, i) >= 1
  {
    WeightSumBounds(n, n);
    Scale(1, Weight(n, i), budget);
    QuotientGrows(WeightSum(n, n), budget * Weight(n, i), WeightSum(n, n));
  }

  lemma {:induction false} ShareSumGrows(n: nat, budget: nat, j: nat, k: nat)
    requires j <= k <= n
    ensures ShareSum(n, budget, j) <= ShareSum(n, budget, k)
    decreases k
  {
    if j < k {
      ShareSumGrows(n, budget, j, k - 1);
    }
  }

  lemma SharesFit(n: nat, budget: nat)
    requires n > 0 && budget > 0
    ensures ShareSum(n, budget, n) <= budget + n - 1
    ensures budget >= WeightSum(n, n) ==> ShareSum(n, budget, n) <= budget
  {
    ShareSumBound(n, budget, n);
    PortionsFit(n, budget);
    if budget >= WeightSum(n, n) {
      SharesArePortions(n, budget, n);
    }
  }

  /** The running total of the shares stays within 32 bits. */
  predicate Fits(n: nat, budget: nat) { ShareSum(n, budget, n) < U32 }

  /** Where the shares do not fit, there is the step at which the running total passes 32 bits; where they do, none. */
  lemma {:induction false} FirstOverflow(n: nat, budget: nat, k: nat) returns (at: nat)
    requires k <= n && ShareSum(n, budget, k) >= U32
    ensures at < k && ShareSum(n, budget, at) < U32 <= ShareSum(n, budget, at + 1)
    ensures !Fits(n, budget)
    decreases k
  {
    ShareSumGrows(n, budget, k, n);
    assert ShareSum(n, budget, 0) == 0;
    if ShareSum(n, budget, k - 1) < U32 {
      at := k - 1;
    } else {
      at := FirstOverflow(n, budget, k - 1);
    }
  }

  /** Plans of ordinary size fit under every 32-bit budget. */
  lemma OrdinaryPlansFit(n: nat, budget: nat)
    requires n <= MAX_STEPS && 0 < budget < U32
    ensures Fits(n, budget)
  {
    if n > 0 {
      SharesFit(n, budget);
      WeightSumBounds(n, n);
    } else {
      assert ShareSum(n, budget, 0) == 0;
    }
  }

  /** Once the budget covers the weights the shares fit, however many steps there are. */
  lemma CoveringBudgetsFit(n: nat, budget: nat)
    requires n > 0 && WeightSum(n, n) <= budget < U32
    ensures Fits(n, budget)
  {
    WeightSumBounds(n, n);
    SharesFit(n, budget);
  }

  /** Every step gets at least one, so with 2^32 steps no budget fits. */
  lemma {:induction false} EveryStepCounts(n: nat, budget: nat, k: nat)
    requires k <= n
    ensures ShareSum(n, budget, k) >= k
    ensures k >= U32 ==> !Fits(n, budget)
  {
    if k > 0 {
      EveryStepCounts(n, budget, k - 1);
    }
    ShareSumGrows(n, budget, k, n);
  }

  // ------------------------------------------------------------------- theorem

  lemma {:induction false} SumOfSplit(n: nat, budget: nat, k: nat)
    requires 0 < k <= n
    ensures Sum(Split(n, budget)[..k]) == ShareSum(n, budget, k)
            + if ShareSum(n, budget, n) < budget then budget - ShareSum(n, budget, n) else 0
    decreases k
  {
    var s := Split(n, budget)[..k];
    assert s[..k - 1] == Split(n, budget)[..k - 1];
    if k > 1 {
      SumOfSplit(n, budget, k - 1);
    } else {
      assert s[..0] == [];
      assert ShareSum(n, budget, 0) == 0;
    }
  }

  /**
   * Limits are at least one, never grow from step to step, and the first stays within the budget. Together they cover
   * the budget, exceed it by less than one a step, and meet it exactly once it covers the weights.
   */
  lemma SplitIsFair(n: nat, budget: nat)
    requires n > 0 && budget > 0
    ensures forall i :: 0 <= i < n ==> Split(n, budget)[i] >= 1
    ensures forall i, j :: 0 <= i <= j < n ==> Split(n, budget)[j] <= Split(n, budget)[i]
    ensures Split(n, budget)[0] <= budget
    ensures budget <= Sum(Split(n, budget)) <= budget + n - 1
    ensures budget >= WeightSum(n, n) ==> Sum(Split(n, budget)) == budget
  {
    var s := Split(n, budget);
    forall i, j | 0 <= i <= j < n ensures s[j] <= s[i] {
      PortionsDecrease(n, budget, i, j);
    }
    SumOfSplit(n, budget, n);
    assert s[..n] == s;
    SharesFit(n, budget);
    FirstShareFits(n, budget);
  }

  lemma FirstShareFits(n: nat, budget: nat)
    requires n > 0 && budget > 0
    ensures Share(n, budget, 0) <= budget && Share(n, budget, 0) <= ShareSum(n, budget, n)
  {
    WeightSumBounds(n, n);
    assert ShareSum(n, budget, 1) == ShareSum(n, budget, 0) + Share(n, budget, 0);
    ShareSumGrows(n, budget, 1, n);
    PortionsFit(n, budget);
    assert PortionSum(n, budget, 1) == PortionSum(n, budget, 0) + Portion(n, budget, 0);
    PortionSumGrows(n, budget, 1, n);
  }

  lemma {:induction false} PortionSumGrows(n: nat, budget: nat, j: nat, k: nat)
    requires j <= k <= n
    ensures PortionSum(n, budget, j) <= PortionSum(n, budget, k)
    decreases k
  {
    if j < k {
      PortionSumGrows(n, budget, j, k - 1);
    }
  }

  /**
   * Budget is weighted toward the earlier steps: among the last nine steps each gets twice what the next one gets, up to
   * rounding, and the steps before them get the same. What rounding leaves over goes to the first.
   */
  lemma LimitsHalve(n: nat, budget: nat, i: nat)
    requires i + 1 < n && budget > 0
    ensures var (a, b) := (Split(n, budget)[i], Split(n, budget)[i + 1]);
            if i + 9 < n then a == b || (i == 0 && a >= b)
            else (b > 1 ==> a >= 2 * b) && (i > 0 ==> a <= 2 * b + 1)
  {
    WeightSumBounds(n, n);
    if i + 9 < n {
      assert Weight(n, i) == Weight(n, i + 1);
    } else {
      assert Weight(n, i) == 2 * Weight(n, i + 1);
      assert budget * Weight(n, i) == 2 * (budget * Weight(n, i + 1));
      DoubleQuotient(budget * Weight(n, i + 1), WeightSum(n, n));
    }
  }

  lemma DoubleQuotient(x: nat, w: nat)
    requires w > 0
    ensures 2 * (x / w) <= (2 * x) / w <= 2 * (x / w) + 1
  {
    QuotientBounds(x, w);
    QuotientBounds(2 * x, w);
    var q, d := x / w, (2 * x) / w;
    assert (2 * q + 2) * w == 2 * ((q + 1) * w);
    if d < 2 * q {
      Scale(d + 1, 2 * q, w);
    }
    if d > 2 * q + 1 {
      Scale(2 * q + 2, d, w);
    }
  }

  /** The weights add up to one less than a power of two for nine steps or fewer, and each earlier step adds 256. */
  lemma {:induction false} TotalIs(n: nat)
    requires n > 0
    ensures WeightSum(n, n) == if n <= 9 then Pow2(n) - 1 else 511 + 256 * (n - 9)
  {
    if n > 1 {
      TotalIs(n - 1);
      WeightsShift(n, n - 1);
      WeightIsSmall(n, 0);
      assert n >= 9 ==> Weight(n, 0) == Pow2(8) == 256;
      assert Pow2(9) == 512;
    } else {
      assert WeightSum(1, 0) == 0;
    }
  }

  /** The weights of one step more are those of the plan without its first step, after the first one's. */
  lemma {:induction false} WeightsShift(n: nat, k: nat)
    requires k < n
    ensures WeightSum(n, k + 1) == Weight(n, 0) + WeightSum(n - 1, k)
  {
    if k > 0 {
      WeightsShift(n, k - 1);
    }
  }

  /** The last step of several gets its part of the budget, one in so many as the weights add up to, or one. */
  lemma LastLimit(n: nat, budget: nat)
    requires n > 1 && budget > 0
    ensures var total := if n <= 9 then Pow2(n) - 1 else 511 + 256 * (n - 9);
            total > 0 && Split(n, budget)[n - 1] == if budget < total then 1 else budget / total
  {
    TotalIs(n);
    Pow2Grows(1, n);
    assert Weight(n, n - 1) == 1;
    assert budget * Weight(n, n - 1) == budget;
    QuotientBounds(budget, WeightSum(n, n));
    PortionAtLeastOne(budget, WeightSum(n, n));
  }

  lemma PortionAtLeastOne(x: nat, w: nat)
    requires w > 0
    ensures x / w < 1 <==> x < w
  {
    QuotientBounds(x, w);
    if x >= w {
      QuotientGrows(w, x, w);
    }
  }

  /**
   * Assigns the steps' limits and says whether every value kept its width, which it did exactly when the shares fit.
   * An addition that does not fit ends the model of the run. An empty plan or budget is left as it is.
   */
  method SplitBudget(limits: array<u32>, budget: u32) returns (fits: bool)
    modifies limits
    ensures limits.Length == 0 || budget == 0 ==> fits && limits[..] == old(limits[..])
    ensures limits.Length > 0 && budget > 0 ==> (fits <==> Fits(limits.Length, budget as nat))
    ensures limits.Length > 0 && budget > 0 && fits ==>
              forall i :: 0 <= i < limits.Length ==> limits[i] as nat == Split(limits.Length, budget as nat)[i]
  {
    if limits.Length == 0 || budget == 0 {
      return true;
    }
    var n := limits.Length;
    ghost var b := budget as nat;
    var weights, total;
    fits, weights, total := Weights(n);
    if !fits {
      EveryStepCounts(n, b, n);
      return;
    }
    WeightSumBounds(n, n);
    var given: u32 := 0;
    for i := 0 to n
      invariant given as nat == ShareSum(n, b, i) && fits
      invariant forall k :: 0 <= k < i ==> limits[k] as nat == Share(n, b, k)
    {
      var share := ShareOf(n, i, budget, weights[i], total);
      limits[i] := share;
      ShareSumGrows(n, b, i + 1, n);
      fits := given as nat + share as nat < U32;
      if !fits {
        return;
      }
      given := given + share;
    }
    FirstShareFits(n, b);
    if given < budget {
      limits[0] := limits[0] + (budget - given);
    }
  }

  method ShareOf(ghost n: nat, ghost i: nat, budget: u32, weight: u32, total: u64) returns (share: u32)
    requires i < n && budget > 0 && weight as nat == Weight(n, i) && total as nat == WeightSum(n, n) > 0
    ensures share as nat == Share(n, budget as nat, i)
  {
    ProductFits(budget as nat, weight as nat);
    PortionsDecrease(n, budget as nat, 0, i);
    FirstShareFits(n, budget as nat);
    var portion := budget as u64 * weight as u64 / total;
    assert portion as nat == Portion(n, budget as nat, i);
    share := (if portion < 1 then 1 else portion) as u32;
  }

  /** The weights and their sum, unless that leaves 64 bits, which takes more steps than could each get one. */
  method Weights(n: nat) returns (fits: bool, weights: seq<u32>, total: u64)
    ensures fits ==> |weights| == n && forall i :: 0 <= i < n ==> weights[i] as nat == Weight(n, i)
    ensures fits ==> total as nat == WeightSum(n, n)
    ensures !fits ==> n >= U32
  {
    fits, weights, total := true, [], 0;
    for i := 0 to n
      invariant |weights| == i && forall k :: 0 <= k < i ==> weights[k] as nat == Weight(n, k)
      invariant total as nat == WeightSum(n, i) && fits
    {
      WeightSumBounds(n, i + 1);
      WeightIsSmall(n, i);
      var weight := Pow2(if n - 1 - i < 8 then n - 1 - i else 8) as u32;
      weights := weights + [weight];
      fits := total as nat + weight as nat < U64;
      if !fits {
        return;
      }
      total := total + weight as u64;
    }
  }

  lemma WeightIsSmall(n: nat, i: nat)
    requires i < n
    ensures Weight(n, i) <= 256
  {
    Pow2Grows(if n - 1 - i < 8 then n - 1 - i else 8, 8);
    assert Pow2(8) == 256;
  }

  lemma ProductFits(b: nat, w: nat)
    requires b < 0x1_0000_0000 && w <= 0x1_0000_0000
    ensures b * w < 0x1_0000_0000_0000_0000
  {
    Scale(b, 0xFFFF_FFFF, w);
  }
}
