/**
 How far the rendered cost can overshoot the budget: bounds for any history, the documented 30% for
 histories of equal importance that are long or not under pressure, and histories that exceed it
 (crates/mc-core/src/decay.rs).
 */
module DecayOvershoot {
  import opened RealPower
  import opened Decay
  import opened DecayBudget
  import opened DecayBounds
  import opened DecayScale

  // ----- Any history -----

  // Raising the pressure never raises the cost.
  lemma {:induction false} PressureLowersCost(history: seq<int>, pressure: real, pressure': real)
    requires pressure <= pressure'
    ensures RenderedCost(history, pressure') <= RenderedCost(history, pressure)
  {
    hide RenderedTier;
    if history != [] {
      JointMonotonicity(|history|, history[0], pressure, 0.0, |history|, history[0], pressure', 0.0);
      PressureLowersCost(history[1..], pressure, pressure');
    }
  }

  // A budget the natural cost exceeds never makes a history cost more than naturally, and off the
  // pressure floor the cost is linear in the budget, up to one verbose compartment.
  lemma AnyHistoryBounded(history: seq<int>, budget: real)
    requires 0.0 < budget && P_FLOOR * budget <= NaturalCost(Inputs(history)) as real
    ensures var natural, cost := NaturalCost(Inputs(history)), RenderedCost(history, HistoryPressure(history, budget));
            && (budget <= natural as real ==> cost <= natural)
            && (cost as real < 322.0 + 16159.584 / natural as real * budget)
  {
    hide RenderedCost, Inputs, NaturalCost;
    NaturalIsRenderedAtOne(history);
    var natural, p := NaturalCost(Inputs(history)) as real, HistoryPressure(history, budget);
    QuotientOrder(natural, budget, P_FLOOR);
    QuotientOrder(natural, budget, 1.0);
    assert p == natural / budget;
    if budget <= natural {
      PressureLowersCost(history, 1.0, p);
    }
    RenderedCostBounded(history, p);
    QuotientOfQuotient(16159.584, natural, budget);
  }

  lemma QuotientOfQuotient(x: real, y: real, z: real)
    requires 0.0 < y && 0.0 < z
    ensures x / (y / z) == x / y * z
  {
    var q, r := y / z, x / y;
    assert q * z == y && r * y == x && 0.0 < q;
    assert r * z * q == r * (q * z);
  }

  // So any history of high enough natural cost stays within 30%.
  lemma AnyHistoryWithinThirtyPercent(history: seq<int>, budget: real)
    requires 0.0 < budget && P_FLOOR * budget <= NaturalCost(Inputs(history)) as real
    requires 322.0 + 16159.584 / NaturalCost(Inputs(history)) as real * budget <= 1.3 * budget
    ensures RenderedCost(history, HistoryPressure(history, budget)) as real < 1.3 * budget
  {
    hide RenderedCost, Inputs, NaturalCost;
    AnyHistoryBounded(history, budget);
  }

  // ----- Equal importances: the 30% -----

  lemma LongWithinThirty(
      n: int, u: real, k1: int, b1: real, k2: int, b2: real, k3: int, b3: real, k4: int, b4: real)
    requires CountsAt(n, n as real, u, k1, b1, k2, b2, k3, b3, k4, b4)
    requires 15 <= n && 1216 < CostByBoundary(k1, k2, k3, k4)
    ensures CostByBoundary(k1, k2, k3, k4) as real < 1.3 * Share(b1, b2, b3, b4)
  {
    assert 15.0 <= Z4 * u;
    if Z3 * u < 8.0 {
    } else if Z4 * u < 17.0 {
    } else {
    }
  }

  lemma ShortWithinThirty(
      n: int, u: real, k1: int, b1: real, k2: int, b2: real, k3: int, b3: real, k4: int, b4: real)
    requires CountsAt(n, n as real, u, k1, b1, k2, b2, k3, b3, k4, b4)
    requires n < 15 && 1216 < CostByBoundary(k1, k2, k3, k4)
    ensures CostByBoundary(k1, k2, k3, k4) as real < 1.3 * Share(b1, b2, b3, b4)
  {
    assert 15.0 <= Z4 * u;
    if k1 <= 2 {
    } else {
    }
  }

  lemma CountedWithinThirty(n: nat, importance: int, p: real)
    requires 1 <= n && P_FLOOR <= p && (p <= 1.0 || ShouldArchive(n + 1, importance, 1.0, 0.0))
    requires 1216 < CountedCost(n, importance, p)
    ensures CountedCost(n, importance, p) as real < 1.3 * Over(CountedCost(n, importance, 1.0), p)
  {
    hide ZLess, ShouldArchive, CountsAt, CostByBoundary, Share, ScaleOf, Over;
    assert p <= 1.0 ==> IsCap(n as real, p, n);
    hide IsCap;
    ScaleFits(n, importance, p, n as real);
    var u := ScaleOf(n, importance, p);
    var k1, k2 := Within(n, importance, p, Z1), Within(n, importance, p, Z2);
    var k3, k4 := Within(n, importance, p, Z3), Within(n, importance, p, Z4);
    var m1, m2 := Within(n, importance, 1.0, Z1), Within(n, importance, 1.0, Z2);
    var m3, m4 := Within(n, importance, 1.0, Z3), Within(n, importance, 1.0, Z4);
    SharesAdd(m1, m2, m3, m4, p);
    if 15 <= n {
      LongWithinThirty(n, u, k1, Over(m1, p), k2, Over(m2, p), k3, Over(m3, p), k4, Over(m4, p));
    } else {
      ShortWithinThirty(n, u, k1, Over(m1, p), k2, Over(m2, p), k3, Over(m3, p), k4, Over(m4, p));
    }
  }

  // The histories the claim is about: equal importances, under a budget that is not below the natural
  // cost or past the archive boundary at pressure 1.
  ghost predicate Tunable(history: seq<int>, importance: int, budget: real) {
    && Uniform(history, importance) && 0.0 < budget
    && (NaturalCost(Inputs(history)) as real <= budget || ShouldArchive(|history| + 1, importance, 1.0, 0.0))
  }

  // They overshoot by at most 30% once the budget is worth 1216 / 1.3 tokens, about 935.4.
  lemma OvershootWithinThirtyPercent(history: seq<int>, importance: int, budget: real)
    requires Tunable(history, importance, budget) && 1216.0 <= 1.3 * budget
    ensures var cost := RenderedCost(history, HistoryPressure(history, budget)) as real;
            cost <= 1.3 * budget && (1216.0 < 1.3 * budget ==> cost < 1.3 * budget)
  {
    hide ZLess, ShouldArchive, CountedCost, Inputs, NaturalCost;
    var n, p := |history|, HistoryPressure(history, budget);
    var natural := NaturalCost(Inputs(history)) as real;
    NaturalIsRenderedAtOne(history);
    UniformCost(history, importance, 1.0);
    UniformCost(history, importance, p);
    QuotientOrder(natural, budget, 1.0);
    QuotientOrder(natural, budget, p);
    QuotientOrder(natural, p, budget);
    assert natural / p <= budget by { assert natural <= p * budget; }
    if 1216 < RenderedCost(history, p) {
      CountedWithinThirty(n, importance, p);
    }
  }

  // ----- Where the factor is rational, counts can be computed -----

  lemma TwoIsFactor()
    ensures IsFactor(2.0, 75)
  {
    PowSum(2.0, D, 2 * D);
  }

  lemma HalfIsFactor()
    ensures IsFactor(0.5, 25)
  {
    PowProduct(0.5, 2.0, 1.0, D);
    PowOne(D);
    PowSum(2.0, D, D);
  }

  lemma OneIsFactor()
    ensures IsFactor(1.0, 50)
  {
    PowOne(D);
  }

  // k is the number of indices from 1 to n within a boundary.
  predicate IsCount(k: int, n: nat, f: real, pressure: real, bound: real) {
    1 <= k <= n && Scaled(k - 1, pressure) < H50 * bound * f && (k < n ==> H50 * bound * f <= Scaled(k, pressure))
  }

  lemma ComparedByFactor(index: nat, importance: int, f: real, pressure: real, bound: real)
    requires IsFactor(f, importance) && 1 <= index && P_FLOOR <= pressure && 0.0 <= bound
    ensures ZLess(index, importance, pressure, bound) <==> Scaled(index - 1, pressure) < H50 * bound * f
  {
    ComparisonScaled(index, importance, pressure, bound, f);
  }

  lemma ExactCount(n: nat, importance: int, f: real, pressure: real, bound: real, k: nat)
    requires IsFactor(f, importance) && P_FLOOR <= pressure && 0.0 < bound && IsCount(k, n, f, pressure, bound)
    ensures Within(n, importance, pressure, bound) == k
  {
    hide ZLess, IsFactor, Scaled;
    ComparedByFactor(k, importance, f, pressure, bound);
    ComparedByFactor(k + 1, importance, f, pressure, bound);
    WithinCounts(n, importance, pressure, bound, k);
    if k < n {
      WithinCounts(n, importance, pressure, bound, k + 1);
    }
  }

  lemma ExactCost(n: nat, importance: int, f: real, pressure: real, k1: nat, k2: nat, k3: nat, k4: nat)
    requires IsFactor(f, importance) && P_FLOOR <= pressure
    requires IsCount(k1, n, f, pressure, Z1) && IsCount(k2, n, f, pressure, Z2)
    requires IsCount(k3, n, f, pressure, Z3) && IsCount(k4, n, f, pressure, Z4)
    ensures CountedCost(n, importance, pressure) == CostByBoundary(k1, k2, k3, k4)
  {
    hide ZLess, IsFactor, IsCount;
    ExactCount(n, importance, f, pressure, Z1, k1);
    ExactCount(n, importance, f, pressure, Z2, k2);
    ExactCount(n, importance, f, pressure, Z3, k3);
    ExactCount(n, importance, f, pressure, Z4, k4);
  }

  lemma JustBelowCost(p: real)
    requires 8.74 <= p < 8.748
    ensures CountedCost(200, 75, p) == 1216
  {
    TwoIsFactor();
    hide CountedCost, IsFactor;
    ExactCost(200, 75, 2.0, p, 2, 5, 8, 15);
  }

  lemma ArchiveAt(index: nat, importance: int, f: real, pressure: real)
    requires IsFactor(f, importance) && 1 <= index && P_FLOOR <= pressure
    requires H50 * Z4 * f <= Scaled(index - 1, pressure)
    ensures ShouldArchive(index, importance, pressure, 0.0)
  {
    ComparedByFactor(index, importance, f, pressure, Z4);
  }

  // ----- Equal importances: where the 30% fails -----

  // Below that it is not true of all of them: 200 compartments of importance 75 cost 1216 tokens under
  // any budget from 935.1 up to there.
  lemma OvershootJustBelow(history: seq<int>, budget: real)
    requires Uniform(history, 75) && |history| == 200 && 935.1 <= budget && 1.3 * budget < 1216.0
    ensures Tunable(history, 75, budget)
    ensures RenderedCost(history, HistoryPressure(history, budget)) == 1216
  {
    hide ZLess, RenderedCost, Inputs, NaturalCost, ShouldArchive, CountedCost;
    NaturalIsRenderedAtOne(history);
    UniformCost(history, 75, 1.0);
    TwoIsFactor();
    ExactCost(200, 75, 2.0, 1.0, 10, 35, 64, 125);
    ArchiveAt(201, 75, 2.0, 1.0);
    var p := HistoryPressure(history, budget);
    QuotientOrder(8180.0, budget, 8.74);
    QuotientOrder(8180.0, budget, 8.7479);
    UniformCost(history, 75, p);
    JustBelowCost(p);
  }

  // So the budgets from which on all tunable histories stay within 30% are exactly those of at least
  // 1216 / 1.3 tokens.
  lemma ThirtyPercentThreshold(threshold: real)
    ensures 1216.0 <= 1.3 * threshold <==>
            forall history, importance, budget :: threshold <= budget && Tunable(history, importance, budget) ==>
              RenderedCost(history, HistoryPressure(history, budget)) as real <= 1.3 * budget
  {
    hide RenderedCost, HistoryPressure, Tunable;
    if 1216.0 <= 1.3 * threshold {
      forall history, importance, budget | threshold <= budget && Tunable(history, importance, budget)
        ensures RenderedCost(history, HistoryPressure(history, budget)) as real <= 1.3 * budget
      {
        OvershootWithinThirtyPercent(history, importance, budget);
      }
    } else {
      var history := seq(200, _ => 75);
      var budget := Max(threshold, 935.1);
      OvershootJustBelow(history, budget);
      assert Tunable(history, 75, budget);
    }
  }

  // No non-empty history stays within 30% under a budget below 322 / 1.3 tokens, about 247.7.
  lemma OvershootBeyondThirtyPercent(history: seq<int>, budget: real)
    requires history != [] && 0.0 < budget && 1.3 * budget < 322.0
    ensures 1.3 * budget < RenderedCost(history, HistoryPressure(history, budget)) as real
  {
    NewestIsAlwaysPaid(history, HistoryPressure(history, budget));
  }

  // In between it depends on how the budget falls between the boundaries. For a long history of
  // importance 100 these are exactly the budgets that overshoot.
  predicate FullBeyondThirtyPercent(budget: real) {
    || 1.3 * budget < 561.0
    || (2.0 * 16325.0 < 96.0 * Z2 * budget && 1.3 * budget < 655.0)
    || (4.0 * 16325.0 < 96.0 * Z3 * budget && 1.3 * budget < 670.0)
    || (8.0 * 16325.0 < 96.0 * Z4 * budget && 1.3 * budget < 690.0)
    || (4.0 * 16325.0 < 96.0 * Z2 * budget && 1.3 * budget < 1216.0)
  }

  // k compartments lie within a boundary at pressure 16325 / budget.
  predicate FullCountUnder(k: int, bound: real, budget: real) {
    (k - 1) as real * 16325.0 < 96.0 * bound * budget <= k as real * 16325.0
  }

  lemma FullCountsDecide(budget: real, k1: int, k2: int, k3: int, k4: int)
    requires 322.0 <= 1.3 * budget < 1216.0
    requires FullCountUnder(k1, Z1, budget) && FullCountUnder(k2, Z2, budget)
    requires FullCountUnder(k3, Z3, budget) && FullCountUnder(k4, Z4, budget)
    ensures 1.3 * budget < CostByBoundary(k1, k2, k3, k4) as real <==> FullBeyondThirtyPercent(budget)
  {
    if k4 <= 7 {
    } else if k4 <= 11 {
    } else {
    }
  }

  lemma ScaledUnderBudget(k: int, p: real, budget: real, x: real)
    requires 0.0 < budget && p * budget == 16325.0
    ensures Scaled(k, p) < x <==> k as real * 16325.0 < x * budget
  {
    var s := Scaled(k, p);
    assert s * budget == k as real * 16325.0 by { MulAssociates(k as real, p, budget); }
    if s < x {
      ProductOrder(budget, s, x);
    } else {
      ProductOrders(x, s, budget);
    }
  }

  lemma ProductOrders(x: real, y: real, k: real)
    requires x <= y && 0.0 <= k
    ensures x * k <= y * k
  {
  }

  lemma FullCountIs(n: nat, p: real, budget: real, bound: real)
    requires 249 <= n && 1.0 <= p && 0.0 < budget && p * budget == 16325.0 && 0.0 < bound <= Z4
    ensures FullCountUnder(Within(n, 100, p, bound), bound, budget)
  {
    hide ZLess, Scaled;
    var k := Within(n, 100, p, bound);
    ScaledFacts(k, p);
    FullComparison(n, p, bound);
    FullComparison(k + 1, p, bound);
    ScaledUnderBudget(k, p, budget, 96.0 * bound);
    ScaledUnderBudget(k - 1, p, budget, 96.0 * bound);
    if 0 < k {
      FullComparison(k, p, bound);
    }
  }

  lemma FullCostDecides(n: nat, p: real, budget: real)
    requires 249 <= n && 1.0 <= p && p * budget == 16325.0 && 322.0 <= 1.3 * budget < 1216.0
    ensures 1.3 * budget < CountedCost(n, 100, p) as real <==> FullBeyondThirtyPercent(budget)
  {
    hide ZLess, FullCountUnder, FullBeyondThirtyPercent, Within;
    FullCountIs(n, p, budget, Z1);
    FullCountIs(n, p, budget, Z2);
    FullCountIs(n, p, budget, Z3);
    FullCountIs(n, p, budget, Z4);
    FullCountsDecide(
      budget, Within(n, 100, p, Z1), Within(n, 100, p, Z2), Within(n, 100, p, Z3), Within(n, 100, p, Z4));
  }

  lemma FullPressure(history: seq<int>, budget: real)
    requires Uniform(history, 100) && 249 <= |history| && 0.0 < budget <= 16325.0
    ensures 1.0 <= HistoryPressure(history, budget) && HistoryPressure(history, budget) * budget == 16325.0
  {
    hide Inputs, NaturalCost;
    NaturalCostAttained(history);
    QuotientOrder(16325.0, budget, 1.0);
  }

  lemma FullHistoryThirtyPercent(history: seq<int>, budget: real)
    requires Uniform(history, 100) && 249 <= |history| && 0.0 < budget
    ensures 1.3 * budget < RenderedCost(history, HistoryPressure(history, budget)) as real <==>
            FullBeyondThirtyPercent(budget)
  {
    hide ZLess, RenderedCost, HistoryPressure, CountedCost;
    if 1.3 * budget < 322.0 {
      OvershootBeyondThirtyPercent(history, budget);
    } else if 1.3 * budget < 1216.0 {
      FullPressure(history, budget);
      UniformCost(history, 100, HistoryPressure(history, budget));
      FullCostDecides(|history|, HistoryPressure(history, budget), budget);
    } else {
      FactorAtFullImportance(100);
      ArchiveAt(|history| + 1, 100, 4.0, 1.0);
      OvershootWithinThirtyPercent(history, 100, budget);
    }
  }

  // ----- Short histories under tight budgets -----

  // Twenty compartments of importance 100 are all rendered in full at pressure 1, so a third of their
  // natural cost puts them under pressure 3.
  lemma ShortHistoryPressure(history: seq<int>, budget: real)
    requires Uniform(history, 100) && |history| == 20 && 3.0 * budget == 6440.0
    ensures HistoryPressure(history, budget) == 3.0
  {
    hide ZLess, RenderedCost, Inputs, NaturalCost;
    NaturalIsRenderedAtOne(history);
    UniformCost(history, 100, 1.0);
    FullCountAtOne(20, Z1, 20);
    FullCountAtOne(20, Z2, 70);
    FullCountAtOne(20, Z3, 127);
    FullCountAtOne(20, Z4, 249);
    assert CountedCost(20, 100, 1.0) == 6440;
    QuotientOrder(6440.0, budget, 3.0);
  }

  // There they overshoot that budget by more than 70%, and by far more than 322 tokens: neither the
  // figure of about 30% nor the bound for long histories carries over to short ones.
  lemma ShortHistoryOvershoots(history: seq<int>, budget: real)
    requires Uniform(history, 100) && |history| == 20 && 3.0 * budget == 6440.0
    ensures RenderedCost(history, 3.0) == 3671
    ensures 1.7 * budget < RenderedCost(history, 3.0) as real && budget + 322.0 < RenderedCost(history, 3.0) as real
  {
    hide ZLess, RenderedCost;
    UniformCost(history, 100, 3.0);
    FullCount(20, 3.0, Z1);
    FullCount(20, 3.0, Z2);
    FullCount(20, 3.0, Z3);
    FullCount(20, 3.0, Z4);
  }

  // ----- Mixed importances -----

  // A prefix rendered at one tier throughout.
  lemma {:induction false} PrefixCost(prefix: seq<int>, suffix: seq<int>, pressure: real, t: Tier)
    requires forall j :: 0 <= j < |prefix| ==> TierInHistory(prefix + suffix, j, pressure, 0.0) == t
    ensures RenderedCost(prefix + suffix, pressure) == |prefix| * Charge(t) + RenderedCost(suffix, pressure)
  {
    hide RenderedTier, Charge;
    var all := prefix + suffix;
    if prefix == [] {
      assert all == suffix;
    } else {
      assert all[1..] == prefix[1..] + suffix;
      forall j | 0 <= j < |prefix| - 1
        ensures TierInHistory(all[1..], j, pressure, 0.0) == t
      {
        assert TierInHistory(all, j + 1, pressure, 0.0) == t;
      }
      PrefixCost(prefix[1..], suffix, pressure, t);
      assert TierInHistory(all, 0, pressure, 0.0) == t;
      assert |prefix| * Charge(t) == Charge(t) + (|prefix| - 1) * Charge(t);
    }
  }

  lemma OldTiers(index: nat)
    requires 250 <= index <= 699
    ensures RenderedTier(index, 100, 1.0, 0.0) == 5
    ensures RenderedTier(index, 100, 0.1, 0.0) == 2
  {
    OverlapOnlyUnarchives(index, 100, 0.1, 0.0);
    FullComparison(index, 1.0, Z4);
    FullComparison(index, 0.1, Z1);
    FullComparison(index, 0.1, Z2);
  }

  // With mixed importances the cost need not follow the budget: 450 compartments of importance 100
  // followed by 249 of importance 50 are priced without the older ones, which are archived at
  // pressure 1, and rendered with them. At a budget of 41,370 tokens the pressure is at
  // its floor and the cost almost twice the budget.
  lemma MixedHistoryOvershoots(older: seq<int>, newer: seq<int>)
    requires Uniform(older, 100) && |older| == 450 && Uniform(newer, 50) && |newer| == 249
    ensures NaturalCost(Inputs(older + newer)) == 4137
    ensures HistoryPressure(older + newer, 41370.0) == 0.1
    ensures RenderedCost(older + newer, 0.1) == 81152
  {
    MixedNaturalCost(older, newer);
    MixedFloorCost(older, newer);
    hide RenderedCost, Inputs, NaturalCost;
    NaturalIsRenderedAtOne(older + newer);
  }

  lemma MixedNaturalCost(older: seq<int>, newer: seq<int>)
    requires Uniform(older, 100) && |older| == 450 && Uniform(newer, 50) && |newer| == 249
    ensures RenderedCost(older + newer, 1.0) == 4137
  {
    hide ZLess, RenderedTier, RenderedCost;
    forall j | 0 <= j < |older|
      ensures TierInHistory(older + newer, j, 1.0, 0.0) == 5
    {
      OldTiers(|older + newer| - j);
    }
    PrefixCost(older, newer, 1.0, 5);
    UniformCost(newer, 50, 1.0);
    OneIsFactor();
    ExactCost(249, 50, 1.0, 1.0, 5, 18, 32, 63);
  }

  lemma MixedFloorCost(older: seq<int>, newer: seq<int>)
    requires Uniform(older, 100) && |older| == 450 && Uniform(newer, 50) && |newer| == 249
    ensures RenderedCost(older + newer, 0.1) == 81152
  {
    hide ZLess, RenderedTier, RenderedCost;
    forall j | 0 <= j < |older|
      ensures TierInHistory(older + newer, j, 0.1, 0.0) == 2
    {
      OldTiers(|older + newer| - j);
    }
    PrefixCost(older, newer, 0.1, 2);
    UniformCost(newer, 50, 0.1);
    OneIsFactor();
    ExactCost(249, 50, 1.0, 0.1, 49, 175, 249, 249);
  }

  lemma ArchivedFromIndex33(index: nat, pressure: real)
    requires 33 <= index && 1.0 <= pressure
    ensures RenderedTier(index, 25, pressure, 0.0) == 5
  {
    HalfIsFactor();
    ArchiveAt(33, 25, 0.5, 1.0);
    JointMonotonicity(33, 25, 1.0, 0.0, index, 25, pressure, 0.0);
  }

  lemma FullOf32()
    ensures CountedCost(32, 100, 1.0) == 7748
  {
    FactorAtFullImportance(100);
    hide CountedCost, IsFactor;
    ExactCost(32, 100, 4.0, 1.0, 20, 32, 32, 32);
  }

  lemma FullOf32UnderPressure()
    ensures CountedCost(32, 100, 3.0) == 4387
  {
    FactorAtFullImportance(100);
    hide CountedCost, IsFactor;
    ExactCost(32, 100, 4.0, 3.0, 7, 24, 32, 32);
  }

  // Compartments of importance 25 behind 32 newer ones cost nothing at pressure 1 or more.
  lemma ArchivedPrefix(older: seq<int>, newer: seq<int>, pressure: real)
    requires Uniform(older, 25) && |newer| == 32 && 1.0 <= pressure
    ensures RenderedCost(older + newer, pressure) == RenderedCost(newer, pressure)
  {
    hide RenderedTier, RenderedCost;
    forall j | 0 <= j < |older|
      ensures TierInHistory(older + newer, j, pressure, 0.0) == 5
    {
      ArchivedFromIndex33(|older + newer| - j, pressure);
    }
    PrefixCost(older, newer, pressure, 5);
  }

  // Nor does it under a budget the natural cost exceeds: behind 32 compartments of importance 100 any
  // number of importance 25 are archived and cost nothing, and at a third of the natural cost, 2,582
  // tokens, the budget is overshot by more than 69%.
  lemma MixedHistoryOvershootsUnderPressure(older: seq<int>, newer: seq<int>, budget: real)
    requires Uniform(older, 25) && Uniform(newer, 100) && |newer| == 32 && 3.0 * budget == 7748.0
    ensures NaturalCost(Inputs(older + newer)) == 7748
    ensures HistoryPressure(older + newer, budget) == 3.0
    ensures RenderedCost(older + newer, 3.0) == 4387 && 1.69 * budget < 4387.0
  {
    hide RenderedCost, Inputs, NaturalCost, CountedCost;
    NaturalIsRenderedAtOne(older + newer);
    ArchivedPrefix(older, newer, 1.0);
    ArchivedPrefix(older, newer, 3.0);
    UniformCost(newer, 100, 1.0);
    UniformCost(newer, 100, 3.0);
    FullOf32();
    FullOf32UnderPressure();
    QuotientOrder(7748.0, budget, 3.0);
  }

  // By the budget alone: any history stays within 30% from 124,553 tokens on, where the cost at the
  // pressure floor is covered, ...
  lemma AnyHistoryUnderLargeBudget(history: seq<int>, budget: real)
    requires 161917.84 <= 1.3 * budget
    ensures RenderedCost(history, HistoryPressure(history, budget)) as real < 1.3 * budget
  {
    hide RenderedCost, HistoryPressure;
    var p := HistoryPressure(history, budget);
    PressureBounded(history, budget);
    RenderedCostBounded(history, p);
    QuotientOrder(16159.584, p, 161595.84);
    assert 16159.584 <= 161595.84 * p;
  }

  // ... and from 12,558 on if the natural cost exceeds it.
  lemma AnyHistoryBelowNatural(history: seq<int>, budget: real)
    requires 16325.0 <= 1.3 * budget && budget <= NaturalCost(Inputs(history)) as real
    ensures RenderedCost(history, HistoryPressure(history, budget)) as real <= 1.3 * budget
  {
    hide RenderedCost, HistoryPressure, Inputs, NaturalCost;
    NaturalCostBounded(history);
    AnyHistoryBounded(history, budget);
  }
}
