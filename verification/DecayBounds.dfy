/**
 Bounds on the decay curve's costs that hold for every history, whatever its length and
 importances (crates/mc-core/src/decay.rs).
 */
module DecayBounds {
  import opened Decay
  import opened DecayBudget

  lemma ChargeFallsWithTier(t: Tier, t': Tier)
    requires t <= t'
    ensures Charge(t') <= Charge(t)
  {
  }

  lemma FullImportanceCostsMost(index: nat, importance: int, pressure: real)
    ensures Charge(RenderedTier(index, importance, pressure, 0.0)) <= Charge(RenderedTier(index, 100, pressure, 0.0))
  {
    var clamped := Clamp(importance, 1, 100);
    assert RenderedTier(index, importance, pressure, 0.0) == RenderedTier(index, clamped, pressure, 0.0);
    hide ZLess, RenderedTier;
    JointMonotonicity(index, 100, pressure, 0.0, index, clamped, pressure, 0.0);
    ChargeFallsWithTier(RenderedTier(index, 100, pressure, 0.0), RenderedTier(index, clamped, pressure, 0.0));
  }

  // Replacing every importance by 100 can only raise the cost.
  lemma {:induction false} CostAtMostFull(history: seq<int>, pressure: real)
    ensures RenderedCost(history, pressure) <= CountedCost(|history|, 100, pressure)
  {
    hide ZLess, RenderedTier;
    if history != [] {
      CostAtMostFull(history[1..], pressure);
      FullImportanceCostsMost(|history|, history[0], pressure);
      CountedCostGrows(|history|, 100, pressure);
    }
  }

  // At importance 100 the boundaries lie at 96 * Z compartments, divided by the pressure.
  lemma FullComparison(index: nat, pressure: real, bound: real)
    requires 1 <= index && P_FLOOR <= pressure && 0.0 <= bound
    ensures ZLess(index, 100, pressure, bound) <==> Scaled(index - 1, pressure) < 96.0 * bound
  {
    FactorAtFullImportance(100);
    ComparisonScaled(index, 100, pressure, bound, 4.0);
  }

  lemma FullCount(n: nat, pressure: real, bound: real)
    requires P_FLOOR <= pressure && 0.0 <= bound
    ensures Scaled(Within(n, 100, pressure, bound), pressure) < 96.0 * bound + pressure
    ensures Within(n, 100, pressure, bound) < n ==> 96.0 * bound <= Scaled(Within(n, 100, pressure, bound), pressure)
  {
    hide ZLess, Scaled;
    var c := Within(n, 100, pressure, bound);
    ScaledFacts(c, pressure);
    FullComparison(c + 1, pressure, bound);
    if 0 < c {
      FullComparison(c, pressure, bound);
    }
  }

  // However long the history, the cost rendered at pressure p is below 322 + 16159.584 / p.
  lemma RenderedCostBounded(history: seq<int>, pressure: real)
    requires P_FLOOR <= pressure
    ensures RenderedCost(history, pressure) as real < 322.0 + 16159.584 / pressure
  {
    hide ZLess, RenderedCost, Scaled;
    var n := |history|;
    CostAtMostFull(history, pressure);
    FullCount(n, pressure, Z1);
    FullCount(n, pressure, Z2);
    FullCount(n, pressure, Z3);
    FullCount(n, pressure, Z4);
    WeightedSum(Within(n, 100, pressure, Z1), Within(n, 100, pressure, Z2),
                Within(n, 100, pressure, Z3), Within(n, 100, pressure, Z4), pressure);
    assert Scaled(CountedCost(n, 100, pressure), pressure) < 16159.584 + 322.0 * pressure;
    BelowQuotient(CountedCost(n, 100, pressure), pressure, 16159.584);
  }

  lemma BelowQuotient(cost: int, pressure: real, total: real)
    requires 0.0 < pressure && Scaled(cost, pressure) < total + 322.0 * pressure
    ensures cost as real < 322.0 + total / pressure
  {
    var c := cost as real;
    QuotientOrder(total, pressure, c - 322.0);
    assert (c - 322.0) * pressure == c * pressure - 322.0 * pressure;
  }

  lemma FullCountAtOne(n: nat, bound: real, k: nat)
    requires k as real - 1.0 < 96.0 * bound <= k as real && 0.0 < bound
    ensures Within(n, 100, 1.0, bound) == if k <= n then k else n
  {
    hide ZLess, Scaled;
    FullCount(n, 1.0, bound);
    ScaledFacts(Within(n, 100, 1.0, bound), 1.0);
  }

  lemma FullCountedCost(n: nat)
    ensures CountedCost(n, 100, 1.0) <= 16325
    ensures 249 <= n ==> CountedCost(n, 100, 1.0) == 16325
  {
    hide ZLess, Within;
    FullCountAtOne(n, Z1, 20);
    FullCountAtOne(n, Z2, 70);
    FullCountAtOne(n, Z3, 127);
    FullCountAtOne(n, Z4, 249);
  }

  // The natural cost of any history is at most 16,325 tokens ...
  lemma NaturalCostBounded(history: seq<int>)
    ensures NaturalCost(Inputs(history)) <= 16325
  {
    hide ZLess, RenderedCost, Inputs, NaturalCost;
    NaturalIsRenderedAtOne(history);
    CostAtMostFull(history, 1.0);
    FullCountedCost(|history|);
  }

  // ... which 249 or more compartments of importance 100 reach.
  lemma NaturalCostAttained(history: seq<int>)
    requires Uniform(history, 100) && 249 <= |history|
    ensures NaturalCost(Inputs(history)) == 16325
  {
    hide ZLess, RenderedCost, Inputs, NaturalCost;
    NaturalIsRenderedAtOne(history);
    FullCountedCost(|history|);
    UniformCost(history, 100, 1.0);
  }

  // So the pressure is bounded by the budget alone.
  lemma PressureBounded(history: seq<int>, budget: real)
    requires 0.0 < budget
    ensures P_FLOOR <= HistoryPressure(history, budget) <= Max(16325.0 / budget, P_FLOOR)
  {
    hide Inputs, NaturalCost;
    NaturalCostBounded(history);
    var natural := NaturalCost(Inputs(history)) as real;
    QuotientOrder(natural, budget, 16325.0 / budget);
    QuotientOrder(16325.0, budget, 0.0);
  }
}
