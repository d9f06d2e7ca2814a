/**
 How the counts of a history of equal importances move together at the four tier boundaries
 (crates/mc-core/src/decay.rs). The scale of the boundaries is irrational for most importances; the
 counts are compared with each other instead of with it.
 */
module DecayScale {
  import opened RealPower
  import opened Decay
  import opened DecayBudget

  lemma AgeKeyScales(k: real, x: real, y: real)
    requires y == k * x
    ensures AgeKey(y) == Pow(k, D) * AgeKey(x)
  {
    PowProduct(k, x, y, D);
    MulAssociates(Pow(k, D), Pow(x, D), Pow(2.0, 2 * D));
  }

  lemma BoundaryKeyOf(bound: real, importance: nat, b: real)
    requires b == H50 * bound
    ensures BoundaryKey(bound, importance) == Pow(b, D) * Pow(2.0, importance)
  {
  }

  lemma BoundaryKeyScales(k: real, bound: real, importance: nat, bound': real)
    requires bound' == k * bound
    ensures BoundaryKey(bound', importance) == Pow(k, D) * BoundaryKey(bound, importance)
  {
    hide BoundaryKey, Pow;
    var b, b' := H50 * bound, H50 * bound';
    BoundaryKeyOf(bound, importance, b);
    BoundaryKeyOf(bound', importance, b');
    assert b' == k * b;
    PowProduct(k, b, b', D);
    MulAssociates(Pow(k, D), Pow(b, D), Pow(2.0, importance));
  }

  // Scaling age and boundary together changes no comparison, so the boundaries can be compared with
  // each other although the half-life factor is irrational.
  lemma AcrossBoundaries(importance: int, i: nat, p: real, bound: real, i': nat, p': real, bound': real)
    requires 1 <= i && 1 <= i' && P_FLOOR <= p && P_FLOOR <= p' && 0.0 < bound && 0.0 < bound'
    requires ZLess(i, importance, p, bound) && !ZLess(i', importance, p', bound')
    ensures Scaled(i - 1, p) * bound' < Scaled(i' - 1, p') * bound
  {
    var x, x', c := ScaledAge(i, p), ScaledAge(i', p'), Clamp(importance, 1, 100);
    assert x == Scaled(i - 1, p) && x' == Scaled(i' - 1, p') && 0.0 <= x && 0.0 <= x';
    hide ScaledAge, Scaled, AgeKey, BoundaryKey;
    KeysApart(x, bound, x', bound', c);
  }

  lemma KeysApart(x: real, bound: real, x': real, bound': real, importance: nat)
    requires 0.0 < bound && 0.0 < bound' && 0.0 <= x && 0.0 <= x'
    requires AgeKey(x) < BoundaryKey(bound, importance) && BoundaryKey(bound', importance) <= AgeKey(x')
    ensures x * bound' < x' * bound
  {
    hide AgeKey, BoundaryKey;
    var k := bound' / bound;
    assert k * bound == bound' && 0.0 < k && 0.0 <= k * x;
    var y := k * x;
    KeyScaled(k, x, bound, y, bound', importance);
    AgeKeyOrder(y, x');
    AgeKeyOrder(x', y);
    RatioApart(k, x, y, bound, x', bound');
  }

  lemma KeyScaled(k: real, x: real, bound: real, y: real, bound': real, importance: nat)
    requires 0.0 < k && y == k * x && bound' == k * bound && AgeKey(x) < BoundaryKey(bound, importance)
    ensures AgeKey(y) < BoundaryKey(bound', importance)
  {
    PowPositive(k, D);
    AgeKeyScales(k, x, y);
    BoundaryKeyScales(k, bound, importance, bound');
    hide AgeKey, BoundaryKey, Pow;
    ProductOrder(Pow(k, D), AgeKey(x), BoundaryKey(bound, importance));
  }

  lemma RatioApart(k: real, x: real, y: real, bound: real, x': real, bound': real)
    requires 0.0 < bound && y == k * x && bound' == k * bound && y < x'
    ensures x * bound' < x' * bound
  {
    MulAssociates(x, k, bound);
    assert y * bound == x * bound';
    ProductOrder(bound, y, x');
  }

  lemma ProductOrder(k: real, x: real, y: real)
    requires 0.0 < k && x < y
    ensures k * x < k * y
  {
  }

  // For one boundary, k of n compartments are within it at pressure p and b stands for the number
  // within it at pressure 1, divided by p. u is the scale of the boundaries, which need not be a number
  // the model can name, narrowed down to where the counts change; b reaches it unless it reaches cap.
  predicate CountAt(k: int, b: real, bound: real, n: int, cap: real, u: real) {
    1 <= k <= n && (k - 1) as real <= bound * u && (bound * u <= b || cap <= b)
  }

  predicate CountsAt(
      n: int, cap: real, u: real, k1: int, b1: real, k2: int, b2: real, k3: int, b3: real, k4: int, b4: real)
  {
    && CountAt(k1, b1, Z1, n, cap, u) && CountAt(k2, b2, Z2, n, cap, u)
    && CountAt(k3, b3, Z3, n, cap, u) && CountAt(k4, b4, Z4, n, cap, u)
  }

  function Share(b1: real, b2: real, b3: real, b4: real): real {
    213.0 * b1 + 74.0 * b2 + 15.0 * b3 + 20.0 * b4
  }

  // A count divided by the pressure.
  function Over(m: int, p: real): real
    requires p != 0.0
  {
    m as real / p
  }

  // The products of the pressure, by name: the solver is slow when it sees several of them at once.
  predicate IsOver(b: real, m: int, p: real) {
    b * p == m as real
  }

  predicate IsCap(cap: real, p: real, n: nat) {
    cap * p <= n as real
  }

  lemma OverCancels(m: int, p: real)
    requires 0.0 < p
    ensures IsOver(Over(m, p), m, p)
  {
  }

  // The reach of a count: the scale at which its last compartment sits on the boundary.
  function Reach(k: int, bound: real): real
    requires bound != 0.0
  {
    (k - 1) as real / bound
  }

  // What lies within one boundary at pressure p reaches less far than what lies within another at
  // pressure 1, once that is divided by p, unless the history is too short to tell.
  lemma ReachBounded(
      n: nat, importance: int, p: real, k: nat, bound: real, u: real, m: nat, b: real, bound': real, cap: real)
    requires P_FLOOR <= p && 0.0 < bound && 0.0 < bound' && 1 <= k && ZLess(k, importance, p, bound)
    requires m == Within(n, importance, 1.0, bound') && IsOver(b, m, p) && u == Reach(k, bound)
    requires IsCap(cap, p, n) || !ZLess(n + 1, importance, 1.0, bound')
    ensures bound' * u <= b || cap <= b
  {
    hide ZLess;
    if m < n || !IsCap(cap, p, n) {
      AcrossBoundaries(importance, k, p, bound, m + 1, 1.0, bound');
      ReachOrder(u, bound, bound', b, p, (k - 1) as real, m as real);
    } else {
      Cancelled(cap, b, p);
    }
  }

  lemma Cancelled(x: real, y: real, p: real)
    requires 0.0 < p && x * p <= y * p
    ensures x <= y
  {
    assert (y - x) * p == y * p - x * p;
    if y < x {
      ProductOrder(p, y, x);
    }
  }

  lemma ReachOrder(r: real, bound: real, bound': real, b: real, p: real, x: real, m: real)
    requires 0.0 < bound && 0.0 < p && r * bound == x && b * p == m
    requires x * p * bound' < m * bound
    ensures bound' * r <= b
  {
    var k := bound * p;
    assert 0.0 < k;
    assert bound' * r * k == x * p * bound';
    assert b * k == m * bound;
    if b < bound' * r {
      ProductOrder(k, b, bound' * r);
    }
  }

  lemma FirstIsWithin(n: nat, importance: int, p: real, bound: real)
    requires 1 <= n && Z1 <= bound
    ensures 1 <= Within(n, importance, p, bound)
  {
    NewestIsVerbose(1, importance, p, 0.0);
    OverlapOnlyUnarchives(1, importance, p, 0.0);
    ZLessMonotone(1, importance, p, Z1, 1, importance, p, bound);
    WithinCounts(n, importance, p, bound, 1);
  }

  function ReachAt(n: nat, importance: int, p: real, bound: real): real
    requires bound != 0.0
  {
    Reach(Within(n, importance, p, bound), bound)
  }

  lemma ReachedBy(k: int, bound: real, u: real)
    requires 0.0 < bound && Reach(k, bound) <= u
    ensures (k - 1) as real <= bound * u
  {
    QuotientOrder((k - 1) as real, bound, u);
  }

  lemma BoundaryCounts(
      n: nat, importance: int, p: real, widest: real, k': nat,
      bound: real, k: nat, m: nat, b: real, cap: real, u: real)
    requires 1 <= n && P_FLOOR <= p && Z1 <= bound && Z1 <= widest
    requires IsCap(cap, p, n) || !ZLess(n + 1, importance, 1.0, bound)
    requires k == Within(n, importance, p, bound) && k' == Within(n, importance, p, widest)
    requires m == Within(n, importance, 1.0, bound) && IsOver(b, m, p)
    requires Reach(k, bound) <= u == Reach(k', widest)
    ensures CountAt(k, b, bound, n, cap, u)
  {
    hide ZLess, Reach, CountAt, IsOver, IsCap;
    FirstIsWithin(n, importance, p, bound);
    FirstIsWithin(n, importance, p, widest);
    ReachBounded(n, importance, p, k', widest, u, m, b, bound, cap);
    ReachedBy(k, bound, u);
    IsCountAt(k, b, bound, n, cap, u);
  }

  lemma IsCountAt(k: int, b: real, bound: real, n: int, cap: real, u: real)
    requires 1 <= k <= n && (k - 1) as real <= bound * u && (bound * u <= b || cap <= b)
    ensures CountAt(k, b, bound, n, cap, u)
  {
  }

  lemma CountsOf(n: nat, importance: int, p: real, widest: real, bound: real, cap: real, u: real)
    requires 1 <= n && P_FLOOR <= p && Z1 <= bound && Z1 <= widest
    requires IsCap(cap, p, n) || !ZLess(n + 1, importance, 1.0, bound)
    requires ReachAt(n, importance, p, bound) <= u == ReachAt(n, importance, p, widest)
    ensures CountAt(Within(n, importance, p, bound), Over(Within(n, importance, 1.0, bound), p), bound, n, cap, u)
  {
    var m := Within(n, importance, 1.0, bound);
    OverCancels(m, p);
    hide ZLess, Reach, CountAt, Within, Over, IsOver, IsCap;
    BoundaryCounts(n, importance, p, widest, Within(n, importance, p, widest),
                   bound, Within(n, importance, p, bound), m, Over(m, p), cap, u);
  }

  // The boundary whose count reaches furthest.
  function WidestOf(n: nat, importance: int, p: real): real {
    var w2 := if ReachAt(n, importance, p, Z1) < ReachAt(n, importance, p, Z2) then Z2 else Z1;
    var w3 := if ReachAt(n, importance, p, w2) < ReachAt(n, importance, p, Z3) then Z3 else w2;
    if ReachAt(n, importance, p, w3) < ReachAt(n, importance, p, Z4) then Z4 else w3
  }

  function ScaleOf(n: nat, importance: int, p: real): real {
    ReachAt(n, importance, p, WidestOf(n, importance, p))
  }

  // It fits the counts of a uniform history at all four boundaries.
  lemma ScaleFits(n: nat, importance: int, p: real, cap: real)
    requires 1 <= n && P_FLOOR <= p && (IsCap(cap, p, n) || ShouldArchive(n + 1, importance, 1.0, 0.0))
    ensures CountsAt(n, cap, ScaleOf(n, importance, p),
                     Within(n, importance, p, Z1), Over(Within(n, importance, 1.0, Z1), p),
                     Within(n, importance, p, Z2), Over(Within(n, importance, 1.0, Z2), p),
                     Within(n, importance, p, Z3), Over(Within(n, importance, 1.0, Z3), p),
                     Within(n, importance, p, Z4), Over(Within(n, importance, 1.0, Z4), p))
  {
    ArchivedIsPastEveryBoundary(n + 1, importance, 1.0);
    hide ZLess, ShouldArchive, ReachAt, CountAt, Within, Over, IsCap;
    var widest, u := WidestOf(n, importance, p), ScaleOf(n, importance, p);
    CountsOf(n, importance, p, widest, Z1, cap, u);
    CountsOf(n, importance, p, widest, Z2, cap, u);
    CountsOf(n, importance, p, widest, Z3, cap, u);
    CountsOf(n, importance, p, widest, Z4, cap, u);
  }

  lemma SharesAdd(m1: int, m2: int, m3: int, m4: int, p: real)
    requires 0.0 < p
    ensures Share(Over(m1, p), Over(m2, p), Over(m3, p), Over(m4, p)) == Over(CostByBoundary(m1, m2, m3, m4), p)
  {
    var q1, q2, q3, q4 := Over(m1, p), Over(m2, p), Over(m3, p), Over(m4, p);
    OverCancels(m1, p);
    OverCancels(m2, p);
    OverCancels(m3, p);
    OverCancels(m4, p);
    var c := CostByBoundary(m1, m2, m3, m4);
    assert Share(q1, q2, q3, q4) * p == c as real;
    QuotientOrder(c as real, p, Share(q1, q2, q3, q4));
  }

  // ----- The cost as a staircase -----

  // How many of n compartments are within a boundary just beyond the scale u.
  function StepsTo(n: nat, u: real, bound: real): int {
    var steps := (bound * u).Floor + 1;
    if steps < n then steps else n
  }

  // What n compartments of equal importance cost just beyond the scale u. The importance plays no part.
  function StairCost(n: nat, u: real): int {
    CostByBoundary(StepsTo(n, u, Z1), StepsTo(n, u, Z2), StepsTo(n, u, Z3), StepsTo(n, u, Z4))
  }

  predicate IsBoundary(bound: real) {
    bound == Z1 || bound == Z2 || bound == Z3 || bound == Z4
  }

  // The k-th of n compartments has crossed into a boundary, to a stair above x.
  predicate StairAbove(n: nat, importance: int, p: real, x: real, k: nat, bound: real) {
    && 1 <= k <= n && IsBoundary(bound) && ZLess(k, importance, p, bound)
    && x < StairCost(n, Reach(k, bound)) as real
  }

  ghost predicate SomeStairAbove(n: nat, importance: int, p: real, x: real) {
    exists k: nat, bound: real :: StairAbove(n, importance, p, x, k, bound)
  }

  lemma StepsAreWithin(n: nat, importance: int, p: real, k: nat, bound: real, bound': real)
    requires 1 <= k <= n && P_FLOOR <= p && 0.0 < bound && 0.0 < bound' && ZLess(k, importance, p, bound)
    ensures StepsTo(n, Reach(k, bound), bound') <= Within(n, importance, p, bound')
  {
    var u := Reach(k, bound);
    var s := StepsTo(n, u, bound');
    QuotientOrder((k - 1) as real, bound, 0.0);
    LastStep(n, u, bound');
    hide ZLess, Reach, StepsTo;
    if !ZLess(s, importance, p, bound') {
      AcrossBoundaries(importance, k, p, bound, s, p, bound');
      StepsOrdered(k, s, p, u, bound, bound');
    }
    WithinCounts(n, importance, p, bound', s);
  }

  lemma LastStep(n: nat, u: real, bound: real)
    requires 1 <= n && 0.0 <= u && 0.0 < bound
    ensures 1 <= StepsTo(n, u, bound) <= n
    ensures (StepsTo(n, u, bound) - 1) as real <= bound * u
  {
    var x := bound * u;
    assert 0.0 <= x;
  }

  // Past a crossing, the rest of the boundaries are at least as far as the stair says.
  lemma StepsOrdered(k: nat, s: nat, p: real, u: real, bound: real, bound': real)
    requires 0.0 < p && 0.0 < bound && u * bound == (k - 1) as real && (s - 1) as real <= bound' * u
    ensures Scaled(s - 1, p) * bound <= Scaled(k - 1, p) * bound'
  {
    var x, y := (k - 1) as real, (s - 1) as real;
    assert y * bound <= bound' * u * bound;
    assert bound' * u * bound == x * bound';
    assert p * (y * bound) <= p * (x * bound');
  }

  lemma StairIsPaid(n: nat, importance: int, p: real, k: nat, bound: real)
    requires 1 <= k <= n && P_FLOOR <= p && IsBoundary(bound) && ZLess(k, importance, p, bound)
    ensures StairCost(n, Reach(k, bound)) <= CountedCost(n, importance, p)
  {
    hide ZLess, StepsTo, Within, Reach;
    StepsAreWithin(n, importance, p, k, bound, Z1);
    StepsAreWithin(n, importance, p, k, bound, Z2);
    StepsAreWithin(n, importance, p, k, bound, Z3);
    StepsAreWithin(n, importance, p, k, bound, Z4);
  }

  lemma CountWithinStep(n: nat, importance: int, p: real, bound: real, u: real)
    requires 1 <= n && Z1 <= bound && ReachAt(n, importance, p, bound) <= u
    ensures Within(n, importance, p, bound) <= StepsTo(n, u, bound)
  {
    hide ZLess, Within;
    ReachedBy(Within(n, importance, p, bound), bound, u);
    assert Within(n, importance, p, bound) <= n;
  }

  lemma CostIsAStair(n: nat, importance: int, p: real)
    requires 1 <= n && P_FLOOR <= p
    ensures CountedCost(n, importance, p) <= StairCost(n, ScaleOf(n, importance, p))
  {
    hide ZLess, StepsTo, Within, ReachAt;
    var u := ScaleOf(n, importance, p);
    CountWithinStep(n, importance, p, Z1, u);
    CountWithinStep(n, importance, p, Z2, u);
    CountWithinStep(n, importance, p, Z3, u);
    CountWithinStep(n, importance, p, Z4, u);
  }

  // A history of equal importances costs more than x at a pressure exactly when some compartment is
  // within some boundary whose stair lies above x. The stairs depend on the length alone, and ZLess
  // compares one compartment with one boundary.
  lemma CostAboveIff(history: seq<int>, importance: int, p: real, x: real)
    requires Uniform(history, importance) && history != [] && P_FLOOR <= p
    ensures x < RenderedCost(history, p) as real <==> SomeStairAbove(|history|, importance, p, x)
  {
    var n := |history|;
    UniformCost(history, importance, p);
    hide ZLess, CountedCost, StairCost, RenderedCost, Within, Reach;
    if x < RenderedCost(history, p) as real {
      var widest := WidestOf(n, importance, p);
      FirstIsWithin(n, importance, p, widest);
      CostIsAStair(n, importance, p);
      assert StairAbove(n, importance, p, x, Within(n, importance, p, widest), widest);
    }
    if k: nat, bound: real :| StairAbove(n, importance, p, x, k, bound) {
      StairIsPaid(n, importance, p, k, bound);
    }
  }
}
