/**
 The decay curve over whole append-only runs: pressure is recomputed from the whole history on
 every pass (crates/mc-core/src/decay.rs).
 */
module DecayRuns {
  import opened RealPower
  import opened Decay
  import opened DecayBudget

  // run[t] is the history as the t-th pass sees it.
  type Run = seq<seq<int>>

  ghost predicate AppendOnly(run: Run) {
    forall t :: 0 <= t < |run| - 1 ==> run[t] <= run[t + 1]
  }

  // No compartment is less important than an older one. Equal importances are a special case.
  ghost predicate Ascending(history: seq<int>) {
    forall i, j :: 0 <= i <= j < |history| ==> history[i] <= history[j]
  }

  function TierInPass(history: seq<int>, j: nat, budget: real, overlap: real): Tier
    requires j < |history|
  {
    TierInHistory(history, j, HistoryPressure(history, budget), overlap)
  }

  lemma {:induction false} RunGrows(run: Run, s: nat, t: nat)
    requires AppendOnly(run) && s <= t < |run|
    ensures run[s] <= run[t]
    decreases t
  {
    if s < t {
      RunGrows(run, s, t - 1);
      assert run[t - 1] <= run[t - 1 + 1];
    }
  }

  // ----- Finite demotion -----

  // After 4,404 later appends a compartment is archived, and it stays archived on every later pass:
  // importances, budget and anchor overlap do not matter.
  lemma ArchivedForGood(run: Run, t: nat, j: nat, budget: real, overlap: real)
    requires AppendOnly(run) && t < |run| && j + 1 + 4404 <= |run[t]|
    ensures forall u :: t <= u < |run| ==> j < |run[u]| && TierInPass(run[u], j, budget, overlap) == 5
  {
    forall u | t <= u < |run|
      ensures j < |run[u]| && TierInPass(run[u], j, budget, overlap) == 5
    {
      RunGrows(run, t, u);
      FiniteDemotion(|run[u]| - j);
    }
  }

  function RenderedCount(history: seq<int>, pressure: real, overlap: real): nat {
    if history == [] then 0
    else
      (if TierInHistory(history, 0, pressure, overlap) < 5 then 1 else 0) +
      RenderedCount(history[1..], pressure, overlap)
  }

  // The rendered compartments are those below tier 5.
  lemma {:induction false} RenderedCountIs(history: seq<int>, pressure: real, overlap: real)
    ensures RenderedCount(history, pressure, overlap) ==
            |set j: nat | j < |history| && TierInHistory(history, j, pressure, overlap) < 5|
  {
    hide RenderedTier;
    var all := set j: nat | j < |history| && TierInHistory(history, j, pressure, overlap) < 5;
    if history == [] {
      assert all == {};
    } else {
      var rest := history[1..];
      var later := set j: nat | j < |rest| && TierInHistory(rest, j, pressure, overlap) < 5;
      var shifted := set j: nat | j in later :: j + 1;
      RenderedCountIs(rest, pressure, overlap);
      ShiftKeepsCount(later, shifted);
      forall j: nat
        ensures j in all <==> j in shifted || (j == 0 && TierInHistory(history, 0, pressure, overlap) < 5)
      {
        if 0 < j < |history| {
          assert TierInHistory(rest, j - 1, pressure, overlap) == TierInHistory(history, j, pressure, overlap);
          assert j in shifted <==> j - 1 in later;
        }
      }
      assert all == shifted + (if TierInHistory(history, 0, pressure, overlap) < 5 then {0} else {});
    }
  }

  lemma {:induction false} ShiftKeepsCount(s: set<nat>, shifted: set<nat>)
    requires shifted == set j: nat | j in s :: j + 1
    ensures |shifted| == |s|
    decreases s
  {
    if s == {} {
      assert shifted == {};
    } else {
      var j :| j in s;
      var less := set k: nat | k in s - {j} :: k + 1;
      ShiftKeepsCount(s - {j}, less);
      forall k: nat
        ensures k in shifted <==> k in less || k == j + 1
      {
        if k in shifted {
          var m :| m in s && k == m + 1;
          assert m == j || m in s - {j};
        }
      }
      assert shifted == less + {j + 1} && j + 1 !in less;
    }
  }

  // No pass renders more than 4,404 compartments, however long the history.
  lemma {:induction false} RenderedCountBounded(history: seq<int>, pressure: real, overlap: real)
    ensures RenderedCount(history, pressure, overlap) <= if |history| <= 4404 then |history| else 4404
  {
    hide RenderedTier;
    if history != [] {
      RenderedCountBounded(history[1..], pressure, overlap);
      FiniteDemotion(|history|);
    }
  }

  // ----- No re-promotion: the exact condition -----

  // What the curve sees of a pass is the product of age and pressure; tiers follow its order.
  lemma TiersFollowScaledAge(
      index: nat, pressure: real, index': nat, pressure': real, importance: int, overlap: real)
    requires ScaledAge(index, pressure) <= ScaledAge(index', pressure')
    ensures RenderedTier(index, importance, pressure, overlap) <= RenderedTier(index', importance, pressure', overlap)
  {
    AgeKeyOrder(ScaledAge(index', pressure'), ScaledAge(index, pressure));
  }

  // From one pass to a later one, age times natural cost has not fallen, or the compartment is
  // archived at its new age even under the lowest pressure there is.
  predicate KeepsDemotion(history: seq<int>, longer: seq<int>, j: nat, overlap: real)
    requires history <= longer && j < |history|
  {
    || (|history| - 1 - j) * NaturalCost(Inputs(history)) <= (|longer| - 1 - j) * NaturalCost(Inputs(longer))
    || ShouldArchive(|longer| - j, history[j], P_FLOOR, overlap)
  }

  lemma QuotientsKeepOrder(a: real, q: real, c: real, a': real, q': real, c': real, budget: real)
    requires 0.0 < budget && q * budget == c && q' * budget == c' && a * c <= a' * c'
    ensures a * q <= a' * q'
  {
    MulAssociates(a, q, budget);
    MulAssociates(a', q', budget);
    var x, y := a * q, a' * q';
    assert x * budget <= y * budget;
    assert y < x ==> 0.0 < (x - y) * budget;
  }

  lemma FloorsKeepOrder(a: real, q: real, a': real, q': real)
    requires 0.0 <= a <= a' && a * q <= a' * q'
    ensures a * Max(q, P_FLOOR) <= a' * Max(q', P_FLOOR)
  {
    var p' := Max(q', P_FLOOR);
    assert a' * q' <= a' * p';
    assert a * P_FLOOR <= a' * P_FLOOR <= a' * p';
  }

  // age * max(cost / budget, floor), for two passes under the same budget.
  lemma ScaledAgesUnderBudget(age: nat, cost: nat, age': nat, cost': nat, budget: real)
    requires 0.0 < budget && age <= age' && age * cost <= age' * cost'
    ensures age as real * Max(cost as real / budget, P_FLOOR) <= age' as real * Max(cost' as real / budget, P_FLOOR)
  {
    hide Max;
    RealProduct(age, cost);
    RealProduct(age', cost');
    QuotientOrder(cost as real, budget, 0.0);
    QuotientOrder(cost' as real, budget, 0.0);
    var q, q' := cost as real / budget, cost' as real / budget;
    QuotientsKeepOrder(age as real, q, cost as real, age' as real, q', cost' as real, budget);
    FloorsKeepOrder(age as real, q, age' as real, q');
  }

  lemma KeptWhileDemoted(history: seq<int>, longer: seq<int>, j: nat, budget: real, overlap: real)
    requires history <= longer && j < |history| && KeepsDemotion(history, longer, j, overlap)
    ensures TierInPass(history, j, budget, overlap) <= TierInPass(longer, j, budget, overlap)
  {
    hide RenderedTier, ShouldArchive, NaturalCost, Inputs, Max;
    var a, a' := |history| - 1 - j, |longer| - 1 - j;
    var c, c' := NaturalCost(Inputs(history)), NaturalCost(Inputs(longer));
    if ShouldArchive(a' + 1, history[j], P_FLOOR, overlap) {
      ArchivedFromFloor(a' + 1, history[j], HistoryPressure(longer, budget), overlap);
    } else {
      TiersUnderBudget(a, c, a', c', history[j], budget, overlap);
    }
  }

  lemma TiersUnderBudget(age: nat, cost: nat, age': nat, cost': nat, importance: int, budget: real, overlap: real)
    requires age <= age' && age * cost <= age' * cost'
    ensures RenderedTier(age + 1, importance, PressureFor(cost, budget), overlap) <=
            RenderedTier(age' + 1, importance, PressureFor(cost', budget), overlap)
  {
    hide RenderedTier;
    if 0.0 < budget {
      ScaledAgesUnderBudget(age, cost, age', cost', budget);
    }
    TiersFollowScaledAge(
      age + 1, PressureFor(cost, budget), age' + 1, PressureFor(cost', budget), importance, overlap);
  }

  lemma ArchivedFromFloor(index: nat, importance: int, pressure: real, overlap: real)
    requires ShouldArchive(index, importance, P_FLOOR, overlap)
    ensures RenderedTier(index, importance, pressure, overlap) == 5
  {
    var bound := Z4 + G * ClampOverlap(overlap);
    if ZLess(index, importance, pressure, bound) {
      ZLessMonotone(index, importance, Max(pressure, P_FLOOR), bound, index, importance, P_FLOOR, bound);
    }
  }

  // Walking up in equal steps crosses a key in one of them.
  lemma {:induction false} StepAcross(x: real, step: real, n: nat, key: real) returns (t: real)
    requires 0.0 < step && 0 < n && AgeKey(x) < key <= AgeKey(x + n as real * step)
    ensures x <= t && AgeKey(t) < key <= AgeKey(t + step)
    decreases n
  {
    hide AgeKey;
    t := x;
    assert x + step + (n - 1) as real * step == x + n as real * step;
    if 1 < n && AgeKey(x + step) < key {
      t := StepAcross(x + step, step, n - 1, key);
    }
  }

  // Every archive boundary lies below a scaled age of 441.
  lemma ArchiveKeyBounded(importance: int, overlap: real, x: real)
    requires 441.0 <= x
    ensures BoundaryKey(Z4 + G * ClampOverlap(overlap), Clamp(importance, 1, 100)) <= AgeKey(x)
  {
    FactorAtFullImportance(100);
    BoundaryKeyIsAgeKey(4.587, 100, 4.0, 440.352);
    BoundaryKeyMonotone(Z4 + G * ClampOverlap(overlap), Clamp(importance, 1, 100), 4.587, 100);
    AgeKeyOrder(440.352, x);
  }

  // Between x and any higher key there is a scaled age t that reaches the key while the fraction r of
  // it does not.
  lemma Separate(x: real, r: real, importance: int, overlap: real) returns (t: real)
    requires 0.0 < x && 0.0 <= r < 1.0
    requires AgeKey(x) < BoundaryKey(Z4 + G * ClampOverlap(overlap), Clamp(importance, 1, 100))
    ensures x < t
    ensures AgeKey(r * t) < BoundaryKey(Z4 + G * ClampOverlap(overlap), Clamp(importance, 1, 100)) <= AgeKey(t)
  {
    hide AgeKey, BoundaryKey;
    var key := BoundaryKey(Z4 + G * ClampOverlap(overlap), Clamp(importance, 1, 100));
    var step := (1.0 - r) * x;
    assert 0.0 < step;
    var q := 441.0 / step;
    var n: nat := q.Floor + 1;
    assert q * step == 441.0 && q * step <= n as real * step;
    ArchiveKeyBounded(importance, overlap, x + n as real * step);
    var u := StepAcross(x, step, n, key);
    t := u + step;
    FractionOfStep(x, r, u, t);
    AgeKeyOrder(u, r * t);
  }

  lemma FractionOfStep(x: real, r: real, u: real, t: real)
    requires 0.0 < x <= u && 0.0 <= r < 1.0 && t == u + (1.0 - r) * x
    ensures 0.0 <= r * t <= u
  {
    var s := 1.0 - r;
    assert s * x <= s * u;
    assert t <= (1.0 + s) * u by { assert (1.0 + s) * u == u + s * u; }
    assert 0.0 <= t by { assert 0.0 <= s * x; }
    assert r * t <= r * ((1.0 + s) * u);
    assert r * ((1.0 + s) * u) == (1.0 - s * s) * u;
    assert 0.0 <= s * s * u by { assert 0.0 <= s * s; }
  }

  // The budget that puts the scaled age of a pass at t, and what it makes of the later pass.
  lemma BudgetFor(age: nat, cost: nat, age': nat, cost': nat, r: real, t: real, budget: real)
    requires 0 < age && 0 < cost && 0.0 < t
    requires r == (age' as real * cost' as real) / (age as real * cost as real)
    requires budget == age as real * cost as real / t
    ensures 0.0 < budget
    ensures age as real * (cost as real / budget) == t
    ensures age' as real * (cost' as real / budget) == r * t
  {
    var a, c, a', c' := age as real, cost as real, age' as real, cost' as real;
    var ac, ac' := a * c, a' * c';
    assert 0.0 < ac;
    assert budget * t == ac && 0.0 < budget;
    var q, q' := c / budget, c' / budget;
    assert q * budget == c && q' * budget == c';
    assert a * q * budget == ac;
    SameProduct(a * q, t, budget);
    assert r * ac == ac';
    assert a' * q' * budget == ac';
    assert r * t * budget == r * (budget * t) == ac';
    SameProduct(a' * q', r * t, budget);
  }

  lemma SameProduct(x: real, y: real, k: real)
    requires 0.0 < k && x * k == y * k
    ensures x == y
  {
    assert (x - y) * k == 0.0;
  }

  // Otherwise some budget archives the compartment on the earlier pass and renders it on the later.
  lemma SomeBudgetRepromotes(history: seq<int>, longer: seq<int>, j: nat, overlap: real) returns (budget: real)
    requires history <= longer && j < |history| && !KeepsDemotion(history, longer, j, overlap)
    ensures TierInPass(longer, j, budget, overlap) < TierInPass(history, j, budget, overlap) == 5
  {
    hide NaturalCost, Inputs, RenderedTier;
    budget := SomeBudgetSeparates(
      |history| - 1 - j, NaturalCost(Inputs(history)), |longer| - 1 - j, NaturalCost(Inputs(longer)),
      history[j], overlap);
  }

  lemma SomeBudgetSeparates(age: nat, cost: nat, age': nat, cost': nat, importance: int, overlap: real)
    returns (budget: real)
    requires age <= age' && age' * cost' < age * cost && !ShouldArchive(age' + 1, importance, P_FLOOR, overlap)
    ensures RenderedTier(age' + 1, importance, PressureFor(cost', budget), overlap) < 5
    ensures RenderedTier(age + 1, importance, PressureFor(cost, budget), overlap) == 5
  {
    FactorsPositive(age, cost, age' * cost');
    assert ScaledAge(age' + 1, P_FLOOR) == age' as real * P_FLOOR;
    hide AgeKey, BoundaryKey, RenderedTier, ScaledAge, Max;
    var x := age' as real * P_FLOOR;
    var r := (age' as real * cost' as real) / (age as real * cost as real);
    RatioBelowOne(age, cost, age', cost', r);
    var t := Separate(x, r, importance, overlap);
    budget := age as real * cost as real / t;
    BudgetFor(age, cost, age', cost', r, t, budget);
    ArchivedAt(age, cost, budget, importance, overlap, t);
    RenderedAt(age', cost', budget, importance, overlap, r * t, x);
  }

  lemma FactorsPositive(age: nat, cost: nat, product: nat)
    requires product < age * cost
    ensures 0 < age && 0 < cost
  {
  }

  lemma RatioBelowOne(age: nat, cost: nat, age': nat, cost': nat, r: real)
    requires 0 < age && 0 < cost && age' * cost' < age * cost
    requires r == (age' as real * cost' as real) / (age as real * cost as real)
    ensures 0.0 <= r < 1.0
  {
    RealProduct(age, cost);
    RealProduct(age', cost');
    var ac, ac' := age as real * cost as real, age' as real * cost' as real;
    assert 0.0 <= ac' < ac && r * ac == ac';
    QuotientOrder(ac', ac, 0.0);
    QuotientOrder(ac', ac, 1.0);
  }

  lemma ArchivedAt(age: nat, cost: nat, budget: real, importance: int, overlap: real, t: real)
    requires 0.0 < budget && 0.0 <= t <= age as real * (cost as real / budget)
    requires BoundaryKey(Z4 + G * ClampOverlap(overlap), Clamp(importance, 1, 100)) <= AgeKey(t)
    ensures RenderedTier(age + 1, importance, Max(cost as real / budget, P_FLOOR), overlap) == 5
  {
    var p := Max(cost as real / budget, P_FLOOR);
    assert age as real * (cost as real / budget) <= age as real * p;
    AgeKeyOrder(ScaledAge(age + 1, p), t);
  }

  lemma RenderedAt(age: nat, cost: nat, budget: real, importance: int, overlap: real, y: real, x: real)
    requires 0.0 < budget && y == age as real * (cost as real / budget) && x == age as real * P_FLOOR
    requires AgeKey(y) < BoundaryKey(Z4 + G * ClampOverlap(overlap), Clamp(importance, 1, 100))
    requires AgeKey(x) < BoundaryKey(Z4 + G * ClampOverlap(overlap), Clamp(importance, 1, 100))
    ensures RenderedTier(age + 1, importance, Max(cost as real / budget, P_FLOOR), overlap) < 5
  {
    assert ScaledAge(age + 1, Max(cost as real / budget, P_FLOOR)) in {x, y};
  }

  // A pass and a later one render compartment j no more verbosely under every budget exactly when
  // the condition holds, which the two natural costs decide beforehand.
  lemma NeverRepromotedIff(history: seq<int>, longer: seq<int>, j: nat, overlap: real)
    requires history <= longer && j < |history|
    ensures (forall budget :: TierInPass(history, j, budget, overlap) <= TierInPass(longer, j, budget, overlap)) <==>
            KeepsDemotion(history, longer, j, overlap)
  {
    hide TierInPass, KeepsDemotion;
    if KeepsDemotion(history, longer, j, overlap) {
      forall budget {
        KeptWhileDemoted(history, longer, j, budget, overlap);
      }
    } else {
      var budget := SomeBudgetRepromotes(history, longer, j, overlap);
    }
  }

  predicate KeepsDemotions(history: seq<int>, longer: seq<int>, overlap: real)
    requires history <= longer
  {
    forall j :: 0 <= j < |history| ==> KeepsDemotion(history, longer, j, overlap)
  }

  ghost predicate StepsKeepDemotions(run: Run, overlap: real)
    requires AppendOnly(run)
  {
    forall s :: 0 <= s < |run| - 1 ==> KeepsDemotions(run[s], run[s + 1], overlap)
  }

  // The compartment is still there, and not rendered more verbosely.
  predicate NotPromoted(history: seq<int>, longer: seq<int>, j: nat, budget: real, overlap: real)
    requires j < |history|
  {
    j < |longer| && TierInPass(history, j, budget, overlap) <= TierInPass(longer, j, budget, overlap)
  }

  ghost predicate Stable(run: Run, budget: real, overlap: real) {
    forall s, t, j :: 0 <= s <= t < |run| && 0 <= j < |run[s]| ==> NotPromoted(run[s], run[t], j, budget, overlap)
  }

  // Over a whole append-only run it is enough, and necessary, that every single append meets it.
  lemma StableIff(run: Run, overlap: real)
    requires AppendOnly(run)
    ensures (forall budget :: Stable(run, budget, overlap)) <==> StepsKeepDemotions(run, overlap)
  {
    hide TierInPass, KeepsDemotion;
    if forall budget :: Stable(run, budget, overlap) {
      forall s | 0 <= s < |run| - 1
        ensures KeepsDemotions(run[s], run[s + 1], overlap)
      {
        StepKeepsDemotions(run, s, overlap);
      }
    }
    if StepsKeepDemotions(run, overlap) {
      forall budget {
        StableUnder(run, budget, overlap);
      }
    }
  }

  lemma StableUnder(run: Run, budget: real, overlap: real)
    requires AppendOnly(run) && StepsKeepDemotions(run, overlap)
    ensures Stable(run, budget, overlap)
  {
    hide NotPromoted, StepsKeepDemotions;
    forall s, t, j | 0 <= s <= t < |run| && 0 <= j < |run[s]|
      ensures NotPromoted(run[s], run[t], j, budget, overlap)
    {
      StepwiseStable(run, s, t, j, budget, overlap);
    }
  }

  lemma StepKeepsDemotions(run: Run, s: nat, overlap: real)
    requires AppendOnly(run) && s < |run| - 1 && forall budget :: Stable(run, budget, overlap)
    ensures KeepsDemotions(run[s], run[s + 1], overlap)
  {
    hide TierInPass, KeepsDemotion;
    var history, longer := run[s], run[s + 1];
    forall j | 0 <= j < |history|
      ensures KeepsDemotion(history, longer, j, overlap)
    {
      forall budget
        ensures TierInPass(history, j, budget, overlap) <= TierInPass(longer, j, budget, overlap)
      {
        assert Stable(run, budget, overlap) && NotPromoted(history, longer, j, budget, overlap);
      }
      NeverRepromotedIff(run[s], run[s + 1], j, overlap);
    }
  }

  lemma {:induction false} StepwiseStable(run: Run, s: nat, t: nat, j: nat, budget: real, overlap: real)
    requires AppendOnly(run) && s <= t < |run| && j < |run[s]| && StepsKeepDemotions(run, overlap)
    ensures NotPromoted(run[s], run[t], j, budget, overlap)
    decreases t
  {
    hide TierInPass, KeepsDemotion;
    if s < t {
      StepwiseStable(run, s, t - 1, j, budget, overlap);
      var earlier, later := run[t - 1], run[t - 1 + 1];
      assert KeepsDemotions(earlier, later, overlap);
      KeptWhileDemoted(earlier, later, j, budget, overlap);
    }
  }

  // ----- No re-promotion: histories that meet it -----

  lemma {:induction false} CostFollowsImportance(history: seq<int>, history': seq<int>, pressure: real)
    requires |history| == |history'| && forall j :: 0 <= j < |history| ==> history[j] <= history'[j]
    ensures RenderedCost(history, pressure) <= RenderedCost(history', pressure)
  {
    hide RenderedTier;
    if history != [] {
      var n := |history|;
      JointMonotonicity(n, history'[0], pressure, 0.0, n, history[0], pressure, 0.0);
      CostFollowsImportance(history[1..], history'[1..], pressure);
    }
  }

  // Appending to an ascending history puts a compartment at least as important at every index.
  lemma AppendRaisesCost(history: seq<int>, newest: int, pressure: real)
    requires Ascending(history + [newest])
    ensures RenderedCost(history, pressure) <= RenderedCost(history + [newest], pressure)
  {
    hide RenderedTier;
    var longer := history + [newest];
    forall j | 0 <= j < |history|
      ensures history[j] <= longer[1..][j]
    {
      assert longer[j] <= longer[j + 1];
    }
    CostFollowsImportance(history, longer[1..], pressure);
  }

  lemma {:induction false} ExtensionRaisesCost(history: seq<int>, longer: seq<int>, pressure: real)
    requires history <= longer && Ascending(longer)
    ensures RenderedCost(history, pressure) <= RenderedCost(longer, pressure)
    decreases |longer|
  {
    if |history| < |longer| {
      var shorter := longer[..|longer| - 1];
      assert longer == shorter + [longer[|longer| - 1]];
      ExtensionRaisesCost(history, shorter, pressure);
      AppendRaisesCost(shorter, longer[|longer| - 1], pressure);
    } else {
      assert history == longer;
    }
  }

  lemma PressureOnlyRises(history: seq<int>, longer: seq<int>, budget: real)
    requires history <= longer && Ascending(longer)
    ensures HistoryPressure(history, budget) <= HistoryPressure(longer, budget)
  {
    hide RenderedCost, NaturalCost, Inputs;
    ExtensionRaisesCost(history, longer, 1.0);
    NaturalIsRenderedAtOne(history);
    NaturalIsRenderedAtOne(longer);
    if 0.0 < budget {
      var x, y := NaturalCost(Inputs(history)) as real, NaturalCost(Inputs(longer)) as real;
      QuotientOrder(x, budget, y / budget);
      QuotientOrder(y, budget, x / budget);
    }
  }

  ghost predicate AscendingRun(run: Run) {
    AppendOnly(run) && forall t :: 0 <= t < |run| ==> Ascending(run[t])
  }

  lemma AscendingKeepsDemotions(history: seq<int>, longer: seq<int>, overlap: real)
    requires history <= longer && Ascending(longer)
    ensures KeepsDemotions(history, longer, overlap)
  {
    hide RenderedCost, NaturalCost, Inputs, ShouldArchive;
    ExtensionRaisesCost(history, longer, 1.0);
    NaturalIsRenderedAtOne(history);
    NaturalIsRenderedAtOne(longer);
    forall j | 0 <= j < |history|
      ensures KeepsDemotion(history, longer, j, overlap)
    {
      ProductsKeepOrder(
        |history| - 1 - j, NaturalCost(Inputs(history)), |longer| - 1 - j, NaturalCost(Inputs(longer)));
    }
  }

  lemma ProductsKeepOrder(m: nat, n: nat, m': nat, n': nat)
    requires m <= m' && n <= n'
    ensures m * n <= m' * n'
  {
    assert m * n <= m * n' <= m' * n';
  }

  // In an append-only run whose importances never decrease (in particular one of equal
  // importances), with a fixed budget and anchor overlap and the pressure recomputed on every pass,
  // no compartment is ever rendered more verbosely than on an earlier pass.
  lemma NoRepromotion(run: Run, overlap: real)
    requires AscendingRun(run)
    ensures forall budget :: Stable(run, budget, overlap)
  {
    hide Stable, KeepsDemotions;
    forall s | 0 <= s < |run| - 1
      ensures KeepsDemotions(run[s], run[s + 1], overlap)
    {
      AscendingKeepsDemotions(run[s], run[s + 1], overlap);
    }
    StableIff(run, overlap);
  }

  lemma ScaledAgeGrows(index: nat, pressure: real, index': nat, pressure': real)
    requires index <= index' && pressure <= pressure'
    ensures ScaledAge(index, pressure) <= ScaledAge(index', pressure')
  {
    var a, a', p, p' := Age(index) as real, Age(index') as real, Max(pressure, P_FLOOR), Max(pressure', P_FLOOR);
    ProductGrowsLeft(a, a', p);
    ProductGrowsRight(a', p, p');
  }

  lemma ProductGrowsLeft(x: real, x': real, y: real)
    requires x <= x' && 0.0 <= y
    ensures x * y <= x' * y
  {
  }

  lemma ProductGrowsRight(x: real, y: real, y': real)
    requires y <= y' && 0.0 <= x
    ensures x * y <= x * y'
  {
  }

  // With arbitrary importances the same holds between two passes whose pressure has not fallen, in
  // particular when it is held fixed.
  lemma NoRepromotionUnlessPressureFalls(
      run: Run, s: nat, t: nat, j: nat, pressure: real, pressure': real, overlap: real)
    requires AppendOnly(run) && s <= t < |run| && j < |run[s]| && pressure <= pressure'
    ensures |run[s]| <= |run[t]|
    ensures TierInHistory(run[s], j, pressure, overlap) <= TierInHistory(run[t], j, pressure', overlap)
  {
    RunGrows(run, s, t);
    hide RenderedTier, ScaledAge;
    ScaledAgeGrows(|run[s]| - j, pressure, |run[t]| - j, pressure');
    TiersFollowScaledAge(|run[s]| - j, pressure, |run[t]| - j, pressure', run[s][j], overlap);
  }

  // ----- Re-promotion with mixed importances -----

  lemma AgeKeyFifth(a: real, x: real)
    requires x == 4.0 * a
    ensures AgeKey(a) == Pow(Pow(x, 5), 5)
  {
    PowProduct(2.0, 2.0, 4.0, D);
    PowSum(2.0, D, D);
    PowProduct(4.0, a, x, D);
    PowPower(x, 5, 5);
  }

  lemma BoundaryKeyFifth(bound: real, k: nat, z: real)
    requires z == Pow(H50 * bound, 5) * Pow(2.0, k)
    ensures BoundaryKey(bound, 5 * k) == Pow(z, 5)
  {
    PowPower(H50 * bound, 5, 5);
    PowPower(2.0, k, 5);
    PowProduct(Pow(H50 * bound, 5), Pow(2.0, k), z, 5);
  }

  // For importances that are multiples of five the comparison needs fifth powers only.
  lemma FifthPowers(index: nat, k: nat, pressure: real, bound: real, x: real, z: real)
    requires 1 <= k <= 20 && 0.0 <= bound
    requires x == 4.0 * ScaledAge(index, pressure) && z == Pow(H50 * bound, 5) * Pow(2.0, k)
    ensures ZLess(index, 5 * k, pressure, bound) <==> Pow(x, 5) < z
  {
    AgeKeyFifth(ScaledAge(index, pressure), x);
    BoundaryKeyFifth(bound, k, z);
    PowNonNegative(x, 5);
    PowNonNegative(H50 * bound, 5);
    PowPositive(2.0, k);
    PowOrder(Pow(x, 5), z, 5);
  }

  lemma NumericComparison(index: nat, k: nat, pressure: real, bound: real, x: real, power: real)
    requires 1 <= k <= 20 && 0.0 <= bound && x == 4.0 * ScaledAge(index, pressure) && power == Pow(2.0, k)
    ensures ZLess(index, 5 * k, pressure, bound) <==> Fifth(x) < Fifth(H50 * bound) * power
  {
    hide ZLess, Fifth, Pow, ScaledAge;
    FifthPowers(index, k, pressure, bound, x, Pow(H50 * bound, 5) * power);
    FifthPower(x);
    FifthPower(H50 * bound);
  }

  // The first two tiers, decided numerically.
  lemma Decide(index: nat, k: nat, pressure: real, x: real, power: real)
    requires 1 <= k <= 20 && x == 4.0 * ScaledAge(index, pressure) && power == Pow(2.0, k)
    ensures Fifth(x) < Fifth(4.824) * power ==> RenderedTier(index, 5 * k, pressure, 0.0) == 1
    ensures Fifth(4.824) * power <= Fifth(x) < Fifth(17.496) * power ==>
              RenderedTier(index, 5 * k, pressure, 0.0) == 2
  {
    hide ZLess, Fifth, RenderedTier;
    OverlapOnlyUnarchives(index, 5 * k, pressure, 0.0);
    NumericComparison(index, k, pressure, Z1, x, power);
    NumericComparison(index, k, pressure, Z2, x, power);
  }

  lemma CostPrepends(importance: int, rest: seq<int>, t: Tier)
    requires RenderedTier(|rest| + 1, importance, 1.0, 0.0) == t && t <= 2
    ensures RenderedCost([importance] + rest, 1.0) == (if t == 1 then 322 else 109) + RenderedCost(rest, 1.0)
  {
    assert ([importance] + rest)[1..] == rest;
  }

  lemma PowersOfTwo()
    ensures Pow(2.0, 1) == 2.0 && Pow(2.0, 5) == 32.0 && Pow(2.0, 7) == 128.0
    ensures Pow(2.0, 10) == 1024.0 && Pow(2.0, 20) == 1048576.0
  {
    FifthPower(2.0);
    PowSum(2.0, 2, 5);
    PowSum(2.0, 5, 5);
    PowSum(2.0, 10, 10);
  }

  const MIXED: seq<int> := [100] + ([50] + ([35] + ([25] + ([5] + ([100] + [])))))
  const MIXED_APPENDED: seq<int> := [100] + ([50] + ([35] + ([25] + ([5] + ([100] + ([100] + []))))))

  lemma MixedTiers()
    ensures RenderedTier(2, 5, 1.0, 0.0) == 1
    ensures RenderedTier(3, 25, 1.0, 0.0) == 1
    ensures RenderedTier(4, 35, 1.0, 0.0) == 1
    ensures RenderedTier(5, 50, 1.0, 0.0) == 1
    ensures RenderedTier(6, 100, 1.0, 0.0) == 1
  {
    PowersOfTwo();
    hide RenderedTier, Pow;
    Decide(2, 1, 1.0, 4.0, 2.0);
    Decide(3, 5, 1.0, 8.0, 32.0);
    Decide(4, 7, 1.0, 12.0, 128.0);
    Decide(5, 10, 1.0, 16.0, 1024.0);
    Decide(6, 20, 1.0, 20.0, 1048576.0);
  }

  lemma MixedAppendedTiers()
    ensures RenderedTier(2, 100, 1.0, 0.0) == 1
    ensures RenderedTier(3, 5, 1.0, 0.0) == 2
    ensures RenderedTier(4, 25, 1.0, 0.0) == 2
    ensures RenderedTier(5, 35, 1.0, 0.0) == 2
    ensures RenderedTier(6, 50, 1.0, 0.0) == 2
    ensures RenderedTier(7, 100, 1.0, 0.0) == 1
  {
    PowersOfTwo();
    hide RenderedTier, Pow;
    Decide(2, 20, 1.0, 4.0, 1048576.0);
    Decide(3, 1, 1.0, 8.0, 2.0);
    Decide(4, 5, 1.0, 12.0, 32.0);
    Decide(5, 7, 1.0, 16.0, 128.0);
    Decide(6, 10, 1.0, 20.0, 1024.0);
    Decide(7, 20, 1.0, 24.0, 1048576.0);
  }

  lemma MixedTail()
    ensures RenderedCost([25] + ([5] + ([100] + [])), 1.0) == 966
  {
    assert RenderedCost([], 1.0) == 0;
    MixedTiers();
    NewestIsVerbose(1, 100, 1.0, 0.0);
    hide RenderedTier, RenderedCost;
    CostPrepends(100, [], 1);
    CostPrepends(5, [100] + [], 1);
    CostPrepends(25, [5] + ([100] + []), 1);
  }

  lemma MixedCost()
    ensures RenderedCost(MIXED, 1.0) == 1932
  {
    MixedTail();
    MixedTiers();
    hide RenderedTier, RenderedCost;
    var tail := [25] + ([5] + ([100] + []));
    assert |tail| == 3;
    CostPrepends(35, tail, 1);
    CostPrepends(50, [35] + tail, 1);
    CostPrepends(100, [50] + ([35] + tail), 1);
  }

  lemma MixedAppendedTail()
    ensures RenderedCost([25] + ([5] + ([100] + ([100] + []))), 1.0) == 862
  {
    assert RenderedCost([], 1.0) == 0;
    MixedAppendedTiers();
    NewestIsVerbose(1, 100, 1.0, 0.0);
    hide RenderedTier, RenderedCost;
    CostPrepends(100, [], 1);
    CostPrepends(100, [100] + [], 1);
    CostPrepends(5, [100] + ([100] + []), 2);
    CostPrepends(25, [5] + ([100] + ([100] + [])), 2);
  }

  lemma MixedAppendedCost()
    ensures RenderedCost(MIXED_APPENDED, 1.0) == 1402
  {
    MixedAppendedTail();
    MixedAppendedTiers();
    hide RenderedTier, RenderedCost;
    var tail := [25] + ([5] + ([100] + ([100] + [])));
    assert |tail| == 4;
    CostPrepends(35, tail, 2);
    CostPrepends(50, [35] + tail, 2);
    CostPrepends(100, [50] + ([35] + tail), 1);
  }

  // Without the order on importances, appending one compartment can lower the natural cost, hence
  // the pressure, by enough to bring the oldest compartment back from tier 2 to tier 1.
  lemma AppendingCanRepromote()
    ensures AppendOnly([MIXED, MIXED_APPENDED])
    ensures TierInPass(MIXED, 0, 480.0, 0.0) == 2
    ensures TierInPass(MIXED_APPENDED, 0, 480.0, 0.0) == 1
  {
    hide RenderedTier, ZLess, RenderedCost, Inputs, NaturalCost;
    MixedCost();
    MixedAppendedCost();
    assert MIXED + [100] == MIXED_APPENDED;
    NaturalIsRenderedAtOne(MIXED);
    NaturalIsRenderedAtOne(MIXED_APPENDED);
    PowersOfTwo();
    hide Pow;
    Decide(6, 20, 4.025, 80.5, 1048576.0);
    Decide(7, 20, 1402.0 / 480.0, 70.1, 1048576.0);
  }
}
