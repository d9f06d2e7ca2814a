/**
 Budget pressure (crates/mc-core/src/decay.rs) over whole histories.

 A history is the sequence of its compartments' importances in chronological order, oldest first;
 appending a compartment therefore ages every earlier one by one index. The decay curve numbers
 compartments from the newest, as the renderer does
 (crates/mc-module/src/decay_render.rs).
 */
module DecayBudget {
  import opened Decay

  function Inputs(history: seq<int>): (inputs: seq<DecayInput>)
    ensures |inputs| == |history|
    ensures forall j :: 0 <= j < |history| ==> inputs[j] == DecayInput(|history| - j, history[j])
  {
    if history == [] then [] else [DecayInput(|history|, history[0])] + Inputs(history[1..])
  }

  // What one compartment is charged: archived compartments render as nothing and cost nothing.
  function Charge(t: Tier): nat {
    if t < 5 then TIER_COST[t] else 0
  }

  function NaturalCost(compartments: seq<DecayInput>): nat {
    if compartments == [] then 0
    else
      var c := compartments[|compartments| - 1];
      NaturalCost(compartments[..|compartments| - 1]) + Charge(CurveTier(c.index, c.importance, 1.0))
  }

  function PressureFor(naturalCost: nat, budget: real): real {
    if budget <= 0.0 then 1.0 else Max(naturalCost as real / budget, P_FLOOR)
  }

  function BudgetPressure(compartments: seq<DecayInput>, budget: real): real {
    PressureFor(NaturalCost(compartments), budget)
  }

  method ComputeBudgetPressure(compartments: seq<DecayInput>, budget: real) returns (pressure: real)
    ensures pressure == BudgetPressure(compartments, budget)
  {
    if budget <= 0.0 {
      return 1.0;
    }
    var naturalCost := 0.0;
    for i := 0 to |compartments|
      invariant naturalCost == NaturalCost(compartments[..i]) as real
    {
      var c := compartments[i];
      var naturalTier := CurveTier(c.index, c.importance, 1.0);
      assert compartments[..i + 1] == compartments[..i] + [c];
      if naturalTier < 5 {
        naturalCost := naturalCost + TIER_COST[naturalTier] as real;
      }
    }
    assert compartments[..|compartments|] == compartments;
    pressure := Max(naturalCost / budget, P_FLOOR);
  }

  // The pressure the renderer derives from a history, and the tier each compartment then gets.
  function HistoryPressure(history: seq<int>, budget: real): real {
    BudgetPressure(Inputs(history), budget)
  }

  function TierInHistory(history: seq<int>, j: nat, pressure: real, overlap: real): Tier
    requires j < |history|
  {
    RenderedTier(|history| - j, history[j], pressure, overlap)
  }

  // Total tier cost of what is rendered at a given pressure, with no anchor overlap.
  function RenderedCost(history: seq<int>, pressure: real): nat {
    if history == [] then 0
    else Charge(TierInHistory(history, 0, pressure, 0.0)) + RenderedCost(history[1..], pressure)
  }

  ghost predicate Uniform(history: seq<int>, importance: int) {
    forall j :: 0 <= j < |history| ==> history[j] == importance
  }

  // ----- The natural cost is the rendered cost at pressure 1 -----

  lemma {:induction false} NaturalCostPrepend(c: DecayInput, rest: seq<DecayInput>)
    ensures NaturalCost([c] + rest) == Charge(CurveTier(c.index, c.importance, 1.0)) + NaturalCost(rest)
  {
    var all := [c] + rest;
    if rest == [] {
      assert all[..0] == [];
    } else {
      var last := |rest| - 1;
      assert all[..|all| - 1] == [c] + rest[..last];
      NaturalCostPrepend(c, rest[..last]);
    }
  }

  lemma {:induction false} NaturalIsRenderedAtOne(history: seq<int>)
    ensures NaturalCost(Inputs(history)) == RenderedCost(history, 1.0)
  {
    if history != [] {
      NaturalIsRenderedAtOne(history[1..]);
      NaturalCostPrepend(DecayInput(|history|, history[0]), Inputs(history[1..]));
      OverlapOnlyUnarchives(|history|, history[0], 1.0, 0.0);
    }
  }

  // Without a budget the pressure is 1. With one it spends exactly the budget on the cost at pressure 1,
  // unless that is less than a tenth of the budget, where the pressure stays at 0.1.
  lemma PressureSpendsBudget(history: seq<int>, budget: real)
    ensures budget <= 0.0 ==> HistoryPressure(history, budget) == 1.0
    ensures 0.0 < budget && 0.1 * budget <= RenderedCost(history, 1.0) as real ==>
              HistoryPressure(history, budget) * budget == RenderedCost(history, 1.0) as real
    ensures 0.0 < budget && RenderedCost(history, 1.0) as real < 0.1 * budget ==>
              HistoryPressure(history, budget) == 0.1
  {
    hide RenderedCost, Inputs, NaturalCost;
    NaturalIsRenderedAtOne(history);
    if 0.0 < budget {
      QuotientOrder(RenderedCost(history, 1.0) as real, budget, 0.1);
    }
  }

  // What each tier costs.
  lemma CostOfTier(t: Tier)
    ensures Charge(t) == if t == 1 then 322 else if t == 2 then 109 else if t == 3 then 35 else if t == 4 then 20 else 0
  {
  }

  // ----- Counting compartments per boundary -----

  // How many of the indices 1..n lie below a boundary.
  function Within(n: nat, importance: int, pressure: real, bound: real): (c: nat)
    ensures c <= n
    ensures 0 < c ==> ZLess(c, importance, pressure, bound)
    ensures c < n ==> !ZLess(c + 1, importance, pressure, bound)
  {
    if n == 0 then 0
    else if ZLess(n, importance, pressure, bound) then n
    else Within(n - 1, importance, pressure, bound)
  }

  lemma WithinCounts(n: nat, importance: int, pressure: real, bound: real, i: nat)
    requires 0.0 <= bound && 1 <= i <= n
    ensures ZLess(i, importance, pressure, bound) <==> i <= Within(n, importance, pressure, bound)
  {
    var c := Within(n, importance, pressure, bound);
    if i <= c {
      ZLessMonotone(c, importance, pressure, bound, i, importance, pressure, bound);
    } else if ZLess(i, importance, pressure, bound) {
      ZLessMonotone(i, importance, pressure, bound, c + 1, importance, pressure, bound);
    }
  }

  lemma WithinGrows(n: nat, importance: int, pressure: real, bound: real)
    requires 0.0 <= bound && 1 <= n
    ensures Within(n, importance, pressure, bound) ==
            Within(n - 1, importance, pressure, bound) + (if ZLess(n, importance, pressure, bound) then 1 else 0)
  {
    if ZLess(n, importance, pressure, bound) && 1 < n {
      ZLessMonotone(n, importance, pressure, bound, n - 1, importance, pressure, bound);
    }
  }

  // Summation by parts: what each boundary adds to the cost of the compartments below it.
  function CostByBoundary(w1: int, w2: int, w3: int, w4: int): int {
    213 * w1 + 74 * w2 + 15 * w3 + 20 * w4
  }

  function CountedCost(n: nat, importance: int, pressure: real): int {
    CostByBoundary(Within(n, importance, pressure, Z1), Within(n, importance, pressure, Z2),
                   Within(n, importance, pressure, Z3), Within(n, importance, pressure, Z4))
  }

  lemma ChargeByBoundary(index: nat, importance: int, pressure: real)
    ensures Charge(RenderedTier(index, importance, pressure, 0.0)) ==
            CostByBoundary(
              if ZLess(index, importance, pressure, Z1) then 1 else 0,
              if ZLess(index, importance, pressure, Z2) then 1 else 0,
              if ZLess(index, importance, pressure, Z3) then 1 else 0,
              if ZLess(index, importance, pressure, Z4) then 1 else 0)
  {
    OverlapOnlyUnarchives(index, importance, pressure, 0.0);
    if ZLess(index, importance, pressure, Z1) {
      ZLessMonotone(index, importance, pressure, Z1, index, importance, pressure, Z2);
    }
    if ZLess(index, importance, pressure, Z2) {
      ZLessMonotone(index, importance, pressure, Z2, index, importance, pressure, Z3);
    }
    if ZLess(index, importance, pressure, Z3) {
      ZLessMonotone(index, importance, pressure, Z3, index, importance, pressure, Z4);
    }
  }

  lemma CountedCostGrows(n: nat, importance: int, pressure: real)
    requires 1 <= n
    ensures CountedCost(n, importance, pressure) ==
            CountedCost(n - 1, importance, pressure) + Charge(RenderedTier(n, importance, pressure, 0.0))
  {
    hide ZLess, RenderedTier;
    ChargeByBoundary(n, importance, pressure);
    WithinGrows(n, importance, pressure, Z1);
    WithinGrows(n, importance, pressure, Z2);
    WithinGrows(n, importance, pressure, Z3);
    WithinGrows(n, importance, pressure, Z4);
  }

  lemma {:induction false} UniformCost(history: seq<int>, importance: int, pressure: real)
    requires Uniform(history, importance)
    ensures RenderedCost(history, pressure) == CountedCost(|history|, importance, pressure)
  {
    if history != [] {
      UniformCost(history[1..], importance, pressure);
      CountedCostGrows(|history|, importance, pressure);
    }
  }

  // ----- Self-tuning -----

  function Scaled(count: int, p: real): real {
    count as real * p
  }

  // Raising the pressure from 1 to p divides the count below a boundary by p: to within one
  // compartment above ...
  lemma CountScalesAbove(n: nat, importance: int, p: real, bound: real)
    requires 0.0 <= bound && P_FLOOR <= p
    requires p <= 1.0 || !ZLess(n + 1, importance, 1.0, bound)
    ensures Scaled(Within(n, importance, p, bound), p) < Within(n, importance, 1.0, bound) as real + p
  {
    hide ZLess, Scaled;
    var m, k := Within(n, importance, 1.0, bound), Within(n, importance, p, bound);
    ScaledFacts(k, p);
    ScaledFacts(m, 1.0);
    if 0 < k && (m < n || 1.0 < p) {
      SplitAge(importance, k, p, m + 1, 1.0, bound);
    }
  }

  // ... and 1/p below.
  lemma CountScalesBelow(n: nat, importance: int, p: real, bound: real)
    requires 0.0 <= bound && P_FLOOR <= p && !ZLess(n + 1, importance, p, bound)
    ensures Within(n, importance, 1.0, bound) as real - 1.0 < Scaled(Within(n, importance, p, bound), p)
  {
    hide ZLess, Scaled;
    var m, k := Within(n, importance, 1.0, bound), Within(n, importance, p, bound);
    ScaledFacts(k, p);
    ScaledFacts(m, 1.0);
    if 0 < m {
      SplitAge(importance, m, 1.0, k + 1, p, bound);
    }
  }

  lemma ScaledFacts(count: nat, p: real)
    requires 0.0 < p
    ensures 0.0 <= Scaled(count, p)
    ensures count == 0 ==> Scaled(count, p) == 0.0
    ensures Scaled(count, p) == Scaled(count - 1, p) + p
    ensures Scaled(count, 1.0) == count as real
    ensures Scaled(count - 1, 1.0) == count as real - 1.0
    ensures p <= 1.0 ==> Scaled(count, p) <= count as real
  {
    var x := count as real;
    assert p <= 1.0 ==> x * p <= x * 1.0;
    assert (x - 1.0) * p + p == x * p;
  }

  // Of two positions on either side of a boundary, the nearer has the smaller scaled age.
  lemma SplitAge(importance: int, i: nat, p: real, i': nat, p': real, bound: real)
    requires 1 <= i && 1 <= i' && P_FLOOR <= p && P_FLOOR <= p'
    requires ZLess(i, importance, p, bound) && !ZLess(i', importance, p', bound)
    ensures Scaled(i - 1, p) < Scaled(i' - 1, p')
  {
    AgeKeyOrder(ScaledAge(i, p), ScaledAge(i', p'));
  }

  lemma CostScalesAbove(n: nat, importance: int, p: real)
    requires P_FLOOR <= p && (p <= 1.0 || ShouldArchive(n + 1, importance, 1.0, 0.0))
    ensures Scaled(CountedCost(n, importance, p), p) < CountedCost(n, importance, 1.0) as real + 322.0 * p
  {
    hide ZLess, Scaled, ShouldArchive;
    ArchivedIsPastEveryBoundary(n + 1, importance, 1.0);
    CountScalesAbove(n, importance, p, Z1);
    CountScalesAbove(n, importance, p, Z2);
    CountScalesAbove(n, importance, p, Z3);
    CountScalesAbove(n, importance, p, Z4);
    WeightedSum(Within(n, importance, p, Z1), Within(n, importance, p, Z2),
                Within(n, importance, p, Z3), Within(n, importance, p, Z4), p);
  }

  lemma CostScalesBelow(n: nat, importance: int, p: real)
    requires P_FLOOR <= p && ShouldArchive(n + 1, importance, p, 0.0)
    ensures CountedCost(n, importance, 1.0) as real - 322.0 < Scaled(CountedCost(n, importance, p), p)
  {
    hide ZLess, Scaled, ShouldArchive;
    ArchivedIsPastEveryBoundary(n + 1, importance, p);
    CountScalesBelow(n, importance, p, Z1);
    CountScalesBelow(n, importance, p, Z2);
    CountScalesBelow(n, importance, p, Z3);
    CountScalesBelow(n, importance, p, Z4);
    WeightedSum(Within(n, importance, p, Z1), Within(n, importance, p, Z2),
                Within(n, importance, p, Z3), Within(n, importance, p, Z4), p);
  }

  lemma WeightedSum(w1: int, w2: int, w3: int, w4: int, p: real)
    ensures Scaled(CostByBoundary(w1, w2, w3, w4), p) ==
            213.0 * Scaled(w1, p) + 74.0 * Scaled(w2, p) + 15.0 * Scaled(w3, p) + 20.0 * Scaled(w4, p)
  {
  }

  lemma ArchivedIsPastEveryBoundary(index: nat, importance: int, pressure: real)
    ensures ShouldArchive(index, importance, pressure, 0.0) ==>
              !ZLess(index, importance, pressure, Z1) && !ZLess(index, importance, pressure, Z2) &&
              !ZLess(index, importance, pressure, Z3) && !ZLess(index, importance, pressure, Z4)
  {
    OverlapOnlyUnarchives(index, importance, pressure, 0.0);
    ChargeByBoundary(index, importance, pressure);
  }

  // For equal importances the rendered cost exceeds the budget by less than one verbose compartment,
  // provided the budget is not tighter than the natural cost or the history reaches past the archive
  // boundary at pressure 1.
  lemma SelfTuningAbove(history: seq<int>, importance: int, budget: real, p: real)
    requires Uniform(history, importance) && 0.0 < budget && p == HistoryPressure(history, budget)
    requires NaturalCost(Inputs(history)) as real <= budget || ShouldArchive(|history| + 1, importance, 1.0, 0.0)
    ensures RenderedCost(history, p) as real < budget + 322.0
  {
    hide ZLess, ShouldArchive, Scaled, CountedCost, RenderedCost, Inputs, NaturalCost;
    NaturalIsRenderedAtOne(history);
    UniformCost(history, importance, 1.0);
    UniformCost(history, importance, p);
    QuotientOrder(NaturalCost(Inputs(history)) as real, budget, 1.0);
    CostScalesAbove(|history|, importance, p);
    CostBelowBudget(NaturalCost(Inputs(history)), RenderedCost(history, p), budget, p);
  }

  // It falls short by less than 322 / p, provided the pressure does not rest on its floor and the
  // history reaches past the archive boundary at that pressure.
  lemma SelfTuningBelow(history: seq<int>, importance: int, budget: real, p: real)
    requires Uniform(history, importance) && 0.0 < budget && p == HistoryPressure(history, budget)
    requires P_FLOOR * budget <= NaturalCost(Inputs(history)) as real
    requires ShouldArchive(|history| + 1, importance, p, 0.0)
    ensures budget - 322.0 / p < RenderedCost(history, p) as real
  {
    hide ZLess, ShouldArchive, Scaled, CountedCost, RenderedCost, Inputs, NaturalCost;
    NaturalIsRenderedAtOne(history);
    UniformCost(history, importance, 1.0);
    UniformCost(history, importance, p);
    CostScalesBelow(|history|, importance, p);
    CostAboveBudget(NaturalCost(Inputs(history)), RenderedCost(history, p), budget, p);
  }

  lemma QuotientOrder(x: real, budget: real, c: real)
    requires 0.0 < budget
    ensures x / budget * budget == x
    ensures c * budget <= x <==> c <= x / budget
    ensures x <= c * budget <==> x / budget <= c
  {
    var q := x / budget;
    assert q * budget == x;
    if q < c {
      assert q * budget < c * budget;
    } else if c < q {
      assert c * budget < q * budget;
    }
  }

  lemma Cancel(x: real, y: real, k: real, p: real)
    requires 0.0 < p && x * p < y * p + k * p
    ensures x < y + k
  {
    var d := x - y - k;
    assert d * p == x * p - y * p - k * p;
  }

  // p is the quotient natural / budget, raised to the floor if need be.
  lemma CostBelowBudget(natural: nat, cost: int, budget: real, p: real)
    requires 0.0 < budget && p == Max(natural as real / budget, P_FLOOR)
    requires Scaled(cost, p) < natural as real + 322.0 * p
    ensures cost as real < budget + 322.0
  {
    QuotientOrder(natural as real, budget, p);
    var n, c, bp := natural as real, cost as real, budget * p;
    assert n <= bp && c * p < n + 322.0 * p;
    Cancel(c, budget, 322.0, p);
  }

  lemma CostAboveBudget(natural: nat, cost: int, budget: real, p: real)
    requires 0.0 < budget && p == Max(natural as real / budget, P_FLOOR) && P_FLOOR * budget <= natural as real
    requires natural as real - 322.0 < Scaled(cost, p)
    ensures budget - 322.0 / p < cost as real
  {
    QuotientOrder(natural as real, budget, P_FLOOR);
    QuotientOrder(322.0, p, 0.0);
    var n, c, r, bp := natural as real, cost as real, 322.0 / p, budget * p;
    assert n == bp && r * p == 322.0;
    Cancel(budget, c, r, p);
  }

  lemma PressureKeepsArchived(index: nat, importance: int, pressure: real, pressure': real)
    requires pressure <= pressure' && ShouldArchive(index, importance, pressure, 0.0)
    ensures ShouldArchive(index, importance, pressure', 0.0)
  {
    if ZLess(index, importance, pressure', Z4) {
      ZLessMonotone(index, importance, pressure', Z4, index, importance, pressure, Z4);
    }
  }

  // The case the source describes: a long history and a budget its natural cost exceeds.
  lemma SelfTuningOnLongHistories(history: seq<int>, importance: int, budget: real)
    requires Uniform(history, importance)
    requires ShouldArchive(|history| + 1, importance, 1.0, 0.0)
    requires 0.0 < budget <= NaturalCost(Inputs(history)) as real
    ensures 1.0 <= HistoryPressure(history, budget)
    ensures budget - 322.0 < RenderedCost(history, HistoryPressure(history, budget)) as real < budget + 322.0
  {
    var p := HistoryPressure(history, budget);
    hide ZLess, ShouldArchive, RenderedCost, Inputs, NaturalCost;
    NaturalIsRenderedAtOne(history);
    QuotientOrder(NaturalCost(Inputs(history)) as real, budget, 1.0);
    PressureKeepsArchived(|history| + 1, importance, 1.0, p);
    SelfTuningAbove(history, importance, budget, p);
    SelfTuningBelow(history, importance, budget, p);
    QuotientOrder(322.0, p, 0.0);
    assert 322.0 / p <= 322.0;
  }

  // 322 is the best possible bound: the newest compartment is always rendered in full, so a budget
  // close to zero is overshot by almost that much.
  lemma NewestIsAlwaysPaid(history: seq<int>, pressure: real)
    requires history != []
    ensures 322 <= RenderedCost(history, pressure)
  {
    if |history| == 1 {
      NewestIsVerbose(1, history[0], pressure, 0.0);
    } else {
      NewestIsAlwaysPaid(history[1..], pressure);
    }
  }
}
