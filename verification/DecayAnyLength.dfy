/**
 The overshoot for equal importances at any length of the history, under any budget
 (crates/mc-core/src/decay.rs). A short history under a budget below its natural cost can overshoot
 further than a long one: it ends before the outer boundaries do, so only the verbose tier gives way.
 */
module DecayAnyLength {
  import opened RealPower
  import opened Decay
  import opened DecayBudget
  import opened DecayBounds
  import opened DecayScale
  import opened DecayOvershoot

  // ----- How far the boundaries of an importance can reach -----

  // The boundaries of an importance span at most v compartments per unit.
  ghost predicate SpanAtMost(importance: int, p: real, v: real) {
    forall k: nat, bound: real :: 1 <= k && 0.0 < bound && ZLess(k, importance, p, bound) ==>
      Scaled(k - 1, p) <= v * bound
  }

  lemma FullSpan(importance: int, p: real)
    requires 100 <= importance && P_FLOOR <= p
    ensures SpanAtMost(importance, p, 96.0)
  {
    FactorAtFullImportance(importance);
    forall k: nat, bound: real | 1 <= k && 0.0 < bound && ZLess(k, importance, p, bound)
      ensures Scaled(k - 1, p) <= 96.0 * bound
    {
      ComparedByFactor(k, importance, 4.0, p, bound);
    }
  }

  // 3.8908^25 is just above 2^49, so the factor of importance 99 is just below 3.8908.
  lemma FactorBelowFull()
    ensures Pow(2.0, 49) <= Pow(3.8908, D)
  {
    PowPower(3.8908, 5, 5);
    FifthPower(3.8908);
    FifthPower(891.6);
    PowPower(2.0, 5, 5);
    FifthPower(2.0);
    FifthPower(32.0);
    PowSum(2.0, 24, 25);
    PowSum(2.0, 1, 24);
    assert Pow(2.0, 1) == 2.0;
    var x, two24 := Pow(3.8908, 5), Pow(2.0, 24);
    hide Pow;
    assert 891.6 < x;
    assert 2.0 * two24 == 33554432.0;
    assert Pow(2.0, 49) < Pow(891.6, 5);
    PowOrder(891.6, x, 5);
  }

  lemma BoundaryBelow(bound: real, importance: nat, f: real, y: real, x: real)
    requires 0.0 <= y == H50 * bound && x == y * f
    requires Pow(2.0, importance) <= Pow(f, D) * Pow(2.0, 2 * D)
    ensures BoundaryKey(bound, importance) <= AgeKey(x)
  {
    BoundaryKeyOf(bound, importance, y);
    PowNonNegative(y, D);
    hide BoundaryKey, Pow;
    KeyOrder(f, y, x, Pow(2.0, importance), BoundaryKey(bound, importance));
  }

  lemma KeyOrder(f: real, y: real, x: real, limit: real, key: real)
    requires x == y * f && 0.0 <= Pow(y, D) && limit <= Pow(f, D) * Pow(2.0, 2 * D)
    requires key == Pow(y, D) * limit
    ensures key <= AgeKey(x)
  {
    PowProduct(y, f, x, D);
    hide Pow;
    MulAssociates(Pow(y, D), Pow(f, D), Pow(2.0, 2 * D));
    ScaledOrder(Pow(y, D), limit, Pow(f, D) * Pow(2.0, 2 * D));
  }

  lemma ScaledOrder(k: real, x: real, y: real)
    requires 0.0 <= k && x <= y
    ensures k * x <= k * y
  {
  }

  lemma NearlyFullKey(bound: real, y: real, x: real)
    requires 0.0 <= y == H50 * bound && x == y * 3.8908
    ensures BoundaryKey(bound, 99) <= AgeKey(x)
  {
    FactorBelowFull();
    PowSum(2.0, 49, 2 * D);
    PowPositive(2.0, 2 * D);
    hide Pow, BoundaryKey, AgeKey;
    ScaledOrder(Pow(2.0, 2 * D), Pow(2.0, 49), Pow(3.8908, D));
    BoundaryBelow(bound, 99, 3.8908, y, x);
  }

  lemma NearlyFullSpan(importance: int, p: real)
    requires importance < 100 && P_FLOOR <= p
    ensures SpanAtMost(importance, p, 93.38)
  {
    forall k: nat, bound: real | 1 <= k && 0.0 < bound && ZLess(k, importance, p, bound)
      ensures Scaled(k - 1, p) <= 93.38 * bound
    {
      var y := H50 * bound;
      var x := y * 3.8908;
      NearlyFullKey(bound, y, x);
      BoundaryKeyMonotone(bound, Clamp(importance, 1, 100), bound, 99);
      AgeKeyOrder(ScaledAge(k, p), x);
    }
  }

  predicate IsInSpan(u: real, p: real, v: real) {
    u * p <= v
  }

  predicate IsShare(t: real, n: nat, u: real, v: real) {
    v * t == n as real * u
  }

  // The scale of the counts at a pressure, times that pressure, is within the span.
  lemma ScaleWithinSpan(n: nat, importance: int, p: real, v: real)
    requires 1 <= n && P_FLOOR <= p && SpanAtMost(importance, p, v)
    ensures 0.0 <= ScaleOf(n, importance, p) && IsInSpan(ScaleOf(n, importance, p), p, v)
  {
    hide ZLess, SpanAtMost;
    var widest := WidestOf(n, importance, p);
    assert Z1 <= widest;
    FirstIsWithin(n, importance, p, widest);
    var k := Within(n, importance, p, widest);
    assert Scaled(k - 1, p) <= v * widest by { SpanOf(k, importance, p, v, widest); }
    hide Within, WidestOf;
    ReachUnderSpan(k, widest, p, v);
  }

  lemma SpanOf(k: nat, importance: int, p: real, v: real, bound: real)
    requires SpanAtMost(importance, p, v) && 1 <= k && 0.0 < bound && ZLess(k, importance, p, bound)
    ensures Scaled(k - 1, p) <= v * bound
  {
  }

  lemma ReachUnderSpan(k: nat, bound: real, p: real, v: real)
    requires 1 <= k && 0.0 < bound && 0.0 < p && Scaled(k - 1, p) <= v * bound
    ensures 0.0 <= Reach(k, bound) && IsInSpan(Reach(k, bound), p, v)
  {
    var r := Reach(k, bound);
    QuotientOrder((k - 1) as real, bound, 0.0);
    assert r * bound == (k - 1) as real;
    MulAssociates(r, bound, p);
    MulAssociates(r, p, bound);
    Cancelled(r * p, v, bound);
  }

  // ----- Above 7783 tokens -----

  // The counts k of n compartments at a pressure above 1, their scale u, the natural counts over the
  // pressure b, and the share t of all n at the span of the boundaries.
  datatype Counts = Counts(
    n: nat, u: real, t: real,
    k1: int, b1: real, k2: int, b2: real, k3: int, b3: real, k4: int, b4: real)

  function Cost(c: Counts): int {
    CostByBoundary(c.k1, c.k2, c.k3, c.k4)
  }

  function NaturalShare(c: Counts): real {
    Share(c.b1, c.b2, c.b3, c.b4)
  }

  predicate Squeezed(c: Counts) {
    && 0.0 <= c.u <= 96.0 && 7783 < Cost(c)
    && CountsAt(c.n, c.t, c.u, c.k1, c.b1, c.k2, c.b2, c.k3, c.b3, c.k4, c.b4)
  }

  // t is the share of all compartments at the span of the boundaries: at importance 100, where twenty
  // compartments are within the first boundary, or at any other.
  predicate OnSpan(c: Counts) {
    || (IsShare(c.t, c.n, c.u, 96.0) && 20.0 * c.u <= 96.0 * c.b1)
    || IsShare(c.t, c.n, c.u, 93.38)
  }

  // The plane that touches n * u at (n0, u0) from below, for larger n and u.
  function TangentAt(n: real, u: real, n0: real, u0: real): real {
    u0 * n + n0 * u - u0 * n0
  }

  lemma Tangent(n: real, u: real, n0: real, u0: real)
    requires n0 <= n && u0 <= u
    ensures TangentAt(n, u, n0, u0) <= n * u
  {
    assert 0.0 <= (n - n0) * (u - u0) == n * u - u0 * n - n0 * u + u0 * n0;
  }

  // What is used of the counts at the outer three boundaries, and of the natural one at the first. The
  // boundaries are numerals here and below: the solver does not see that products with a named constant
  // are linear.
  predicate Outer(
      n: real, u: real, t: real, b1: real, k2: real, b2: real, k3: real, b3: real, k4: real, b4: real,
      tangent: real)
  {
    && 1.0 <= k2 <= n && k2 - 1.0 <= 0.729 * u && (0.729 * u <= b2 || t <= b2)
    && 1.0 <= k3 <= n && k3 - 1.0 <= 1.322 * u && (1.322 * u <= b3 || t <= b3)
    && 1.0 <= k4 <= n && k4 - 1.0 <= 2.587 * u && (2.587 * u <= b4 || t <= b4)
    && ((tangent <= 96.0 * t && 20.0 * u <= 96.0 * b1) || (tangent <= 93.38 * t && 0.201 * u <= b1))
  }

  function OuterCost(k2: real, k3: real, k4: real): real {
    74.0 * k2 + 15.0 * k3 + 20.0 * k4
  }

  // One lemma for each number of compartments the first boundary may hold. Only with thirteen does it
  // matter that the history's length is an integer.
  lemma ToEleven(
      n: real, u: real, t: real, b1: real, k2: real, b2: real, k3: real, b3: real, k4: real, b4: real)
    requires Outer(n, u, t, b1, k2, b2, k3, b3, k4, b4, TangentAt(n, u, 48.0, 9.0 / 0.201))
    requires 9.0 <= 0.201 * u < 11.0 && 7783.0 < 213.0 * (0.201 * u + 1.0) + OuterCost(k2, k3, k4)
    ensures 213.0 * (0.201 * u + 1.0) + OuterCost(k2, k3, k4) <= 1.3 * Share(b1, b2, b3, b4)
  {
  }

  lemma Twelve(
      n: real, u: real, t: real, b1: real, k2: real, b2: real, k3: real, b3: real, k4: real, b4: real)
    requires Outer(n, u, t, b1, k2, b2, k3, b3, k4, b4, TangentAt(n, u, 48.0, 11.0 / 0.201))
    requires 11.0 <= 0.201 * u < 12.0 && 7783.0 < 213.0 * 12.0 + OuterCost(k2, k3, k4)
    ensures 213.0 * 12.0 + OuterCost(k2, k3, k4) <= 1.3 * Share(b1, b2, b3, b4)
  {
  }

  lemma ThirteenOf48(
      n: real, u: real, t: real, b1: real, k2: real, b2: real, k3: real, b3: real, k4: real, b4: real)
    requires Outer(n, u, t, b1, k2, b2, k3, b3, k4, b4, TangentAt(n, u, 47.0, 45.0 / 0.729))
    requires 45.0 <= 0.729 * u && 0.201 * u < 13.0 && 47.0 <= n <= 48.0 && 7783.0 < 213.0 * 13.0 + OuterCost(k2, k3, k4)
    ensures 213.0 * 13.0 + OuterCost(k2, k3, k4) <= 1.3 * Share(b1, b2, b3, b4)
  {
  }

  lemma ThirteenOf50(
      n: real, u: real, t: real, b1: real, k2: real, b2: real, k3: real, b3: real, k4: real, b4: real)
    requires Outer(n, u, t, b1, k2, b2, k3, b3, k4, b4, TangentAt(n, u, 49.0, 44.0 / 0.729))
    requires 44.0 <= 0.729 * u && 0.201 * u < 13.0 && 49.0 <= n <= 50.0 && 7783.0 < 213.0 * 13.0 + OuterCost(k2, k3, k4)
    ensures 213.0 * 13.0 + OuterCost(k2, k3, k4) <= 1.3 * Share(b1, b2, b3, b4)
  {
  }

  lemma ThirteenOfMore(
      n: real, u: real, t: real, b1: real, k2: real, b2: real, k3: real, b3: real, k4: real, b4: real)
    requires Outer(n, u, t, b1, k2, b2, k3, b3, k4, b4, TangentAt(n, u, 51.0, 12.0 / 0.201))
    requires 12.0 <= 0.201 * u < 13.0 && 51.0 <= n && 7783.0 < 213.0 * 13.0 + OuterCost(k2, k3, k4)
    ensures 213.0 * 13.0 + OuterCost(k2, k3, k4) <= 1.3 * Share(b1, b2, b3, b4)
  {
  }

  lemma Fourteen(
      n: real, u: real, t: real, b1: real, k2: real, b2: real, k3: real, b3: real, k4: real, b4: real)
    requires Outer(n, u, t, b1, k2, b2, k3, b3, k4, b4, TangentAt(n, u, 45.0, 13.0 / 0.201))
    requires 13.0 <= 0.201 * u < 14.0 && 7783.0 < 213.0 * 14.0 + OuterCost(k2, k3, k4)
    ensures 213.0 * 14.0 + OuterCost(k2, k3, k4) <= 1.3 * Share(b1, b2, b3, b4)
  {
  }

  lemma ToSixteen(
      n: real, u: real, t: real, b1: real, k2: real, b2: real, k3: real, b3: real, k4: real, b4: real)
    requires Outer(n, u, t, b1, k2, b2, k3, b3, k4, b4, TangentAt(n, u, 40.0, 14.0 / 0.201))
    requires 14.0 <= 0.201 * u < 16.0 && 7783.0 < 213.0 * (0.201 * u + 1.0) + OuterCost(k2, k3, k4)
    ensures 213.0 * (0.201 * u + 1.0) + OuterCost(k2, k3, k4) <= 1.3 * Share(b1, b2, b3, b4)
  {
  }

  lemma FromSeventeen(
      n: real, u: real, t: real, b1: real, k2: real, b2: real, k3: real, b3: real, k4: real, b4: real)
    requires Outer(n, u, t, b1, k2, b2, k3, b3, k4, b4, TangentAt(n, u, 33.0, 16.0 / 0.201))
    requires 16.0 <= 0.201 * u < 19.3 && 7783.0 < 213.0 * (0.201 * u + 1.0) + OuterCost(k2, k3, k4)
    ensures 213.0 * (0.201 * u + 1.0) + OuterCost(k2, k3, k4) <= 1.3 * Share(b1, b2, b3, b4)
  {
  }

  // The lengths that reach 7784 tokens at all.
  lemma FarBelow(c: Counts)
    requires Squeezed(c)
    ensures 9.0 <= Z1 * c.u && 25 <= c.n
  {
  }

  lemma LongEnough(c: Counts)
    requires Squeezed(c)
    ensures 33 <= c.n
    ensures Z1 * c.u < 16.0 ==> 40 <= c.n
    ensures Z1 * c.u < 14.0 ==> 45 <= c.n
    ensures Z1 * c.u < 13.0 ==> 47 <= c.n
    ensures Z1 * c.u < 12.0 ==> 48 <= c.n
  {
  }

  lemma SecondCount(c: Counts)
    requires Squeezed(c) && Z1 * c.u < 13.0
    ensures c.n <= 48 ==> 45.0 <= Z2 * c.u
    ensures c.n <= 50 ==> 44.0 <= Z2 * c.u
  {
  }

  lemma FirstCount(c: Counts)
    requires Squeezed(c)
    ensures (c.k1 - 1) as real <= Z1 * c.u <= 96.0 * Z1
    ensures 33 <= c.n
    ensures Z1 * c.u < 16.0 ==> 40 <= c.n
    ensures Z1 * c.u < 14.0 ==> 45 <= c.n
    ensures Z1 * c.u < 13.0 ==> 47 <= c.n
    ensures Z1 * c.u < 13.0 && c.n <= 48 ==> 45.0 <= Z2 * c.u
    ensures Z1 * c.u < 13.0 && c.n <= 50 ==> 44.0 <= Z2 * c.u
    ensures Z1 * c.u < 12.0 ==> 48 <= c.n
  {
    LongEnough(c);
    if Z1 * c.u < 13.0 {
      SecondCount(c);
    }
  }

  lemma ShareReaches(c: Counts, n0: int, u0: real, v: real)
    requires 0.0 < v && IsShare(c.t, c.n, c.u, v) && n0 <= c.n && u0 <= c.u
    ensures TangentAt(c.n as real, c.u, n0 as real, u0) <= v * c.t
  {
    Tangent(c.n as real, c.u, n0 as real, u0);
  }

  lemma FirstShareNearlyFull(c: Counts)
    requires Squeezed(c) && IsShare(c.t, c.n, c.u, 93.38) && 20 <= c.n
    ensures Z1 * c.u <= c.b1
  {
    ShareReaches(c, 20, 0.0, 93.38);
    hide IsShare;
    assert CountAt(c.k1, c.b1, Z1, c.n, c.t, c.u);
  }

  lemma OuterHolds(c: Counts, n0: int, u0: real)
    requires Squeezed(c) && OnSpan(c) && n0 <= c.n && u0 <= c.u && 20 <= c.n
    ensures Outer(c.n as real, c.u, c.t, c.b1, c.k2 as real, c.b2, c.k3 as real, c.b3, c.k4 as real, c.b4,
                  TangentAt(c.n as real, c.u, n0 as real, u0))
  {
    hide IsShare, TangentAt;
    if IsShare(c.t, c.n, c.u, 93.38) {
      FirstShareNearlyFull(c);
      ShareReaches(c, n0, u0, 93.38);
    } else {
      ShareReaches(c, n0, u0, 96.0);
    }
  }

  lemma AboveThreshold(c: Counts, first: real)
    requires Squeezed(c) && c.k1 as real <= first
    ensures 7783.0 < 213.0 * first + OuterCost(c.k2 as real, c.k3 as real, c.k4 as real)
  {
  }

  lemma Together(c: Counts, first: real)
    requires c.k1 as real <= first
    requires 213.0 * first + OuterCost(c.k2 as real, c.k3 as real, c.k4 as real) <= 1.3 * NaturalShare(c)
    ensures Cost(c) as real <= 1.3 * NaturalShare(c)
  {
  }

  lemma Low(c: Counts)
    requires Squeezed(c) && OnSpan(c) && 9.0 <= Z1 * c.u < 12.0
    ensures Cost(c) as real <= 1.3 * NaturalShare(c)
  {
    FirstCount(c);
    hide OnSpan, Squeezed, Cost, OuterCost, Share, Outer, CostByBoundary;
    if Z1 * c.u < 11.0 {
      OuterHolds(c, 48, 9.0 / 0.201);
      AboveThreshold(c, Z1 * c.u + 1.0);
      ToEleven(
        c.n as real, c.u, c.t, c.b1, c.k2 as real, c.b2, c.k3 as real, c.b3, c.k4 as real, c.b4);
      Together(c, Z1 * c.u + 1.0);
    } else {
      OuterHolds(c, 48, 11.0 / 0.201);
      AboveThreshold(c, 12.0);
      Twelve(
        c.n as real, c.u, c.t, c.b1, c.k2 as real, c.b2, c.k3 as real, c.b3, c.k4 as real, c.b4);
      Together(c, 12.0);
    }
  }

  lemma ThirteenShort(c: Counts)
    requires Squeezed(c) && OnSpan(c) && 12.0 <= Z1 * c.u < 13.0 && c.n <= 50
    ensures Cost(c) as real <= 1.3 * NaturalShare(c)
  {
    FirstCount(c);
    hide OnSpan, Squeezed, Cost, OuterCost, Share, Outer, CostByBoundary;
    if c.n <= 48 {
      OuterHolds(c, 47, 45.0 / 0.729);
      AboveThreshold(c, 13.0);
      ThirteenOf48(
        c.n as real, c.u, c.t, c.b1, c.k2 as real, c.b2, c.k3 as real, c.b3, c.k4 as real, c.b4);
      Together(c, 13.0);
    } else {
      OuterHolds(c, 49, 44.0 / 0.729);
      AboveThreshold(c, 13.0);
      ThirteenOf50(
        c.n as real, c.u, c.t, c.b1, c.k2 as real, c.b2, c.k3 as real, c.b3, c.k4 as real, c.b4);
      Together(c, 13.0);
    }
  }

  lemma Thirteen(c: Counts)
    requires Squeezed(c) && OnSpan(c) && 12.0 <= Z1 * c.u < 13.0
    ensures Cost(c) as real <= 1.3 * NaturalShare(c)
  {
    if c.n <= 50 {
      ThirteenShort(c);
    } else {
      FirstCount(c);
      hide OnSpan, Squeezed, Cost, OuterCost, Share, Outer, CostByBoundary;
      OuterHolds(c, 51, 12.0 / 0.201);
      AboveThreshold(c, 13.0);
      ThirteenOfMore(
        c.n as real, c.u, c.t, c.b1, c.k2 as real, c.b2, c.k3 as real, c.b3, c.k4 as real, c.b4);
      Together(c, 13.0);
    }
  }

  lemma High(c: Counts)
    requires Squeezed(c) && OnSpan(c) && 13.0 <= Z1 * c.u
    ensures Cost(c) as real <= 1.3 * NaturalShare(c)
  {
    FirstCount(c);
    hide OnSpan, Squeezed, Cost, OuterCost, Share, Outer, CostByBoundary;
    if Z1 * c.u < 14.0 {
      OuterHolds(c, 45, 13.0 / 0.201);
      AboveThreshold(c, 14.0);
      Fourteen(
        c.n as real, c.u, c.t, c.b1, c.k2 as real, c.b2, c.k3 as real, c.b3, c.k4 as real, c.b4);
      Together(c, 14.0);
    } else if Z1 * c.u < 16.0 {
      OuterHolds(c, 40, 14.0 / 0.201);
      AboveThreshold(c, Z1 * c.u + 1.0);
      ToSixteen(
        c.n as real, c.u, c.t, c.b1, c.k2 as real, c.b2, c.k3 as real, c.b3, c.k4 as real, c.b4);
      Together(c, Z1 * c.u + 1.0);
    } else {
      OuterHolds(c, 33, 16.0 / 0.201);
      AboveThreshold(c, Z1 * c.u + 1.0);
      FromSeventeen(
        c.n as real, c.u, c.t, c.b1, c.k2 as real, c.b2, c.k3 as real, c.b3, c.k4 as real, c.b4);
      Together(c, Z1 * c.u + 1.0);
    }
  }

  lemma SqueezedWithinThirty(c: Counts)
    requires Squeezed(c) && OnSpan(c)
    ensures Cost(c) as real <= 1.3 * NaturalShare(c)
  {
    FarBelow(c);
    hide OnSpan, Squeezed, Cost, NaturalShare;
    if Z1 * c.u < 12.0 {
      Low(c);
    } else if Z1 * c.u < 13.0 {
      Thirteen(c);
    } else {
      High(c);
    }
  }

  // ----- Any uniform history -----

  lemma TwentyWithinFirst(n: nat, importance: int)
    requires 100 <= importance && 20 <= n
    ensures Within(n, importance, 1.0, Z1) == 20
  {
    FactorAtFullImportance(importance);
    hide IsFactor;
    ExactCount(n, importance, 4.0, 1.0, Z1, 20);
  }

  // n * u / v, as a cap on the counts over the pressure.
  lemma CapFits(n: nat, u: real, v: real, p: real, t: real)
    requires 0.0 < v && IsInSpan(u, p, v) && IsShare(t, n, u, v)
    ensures IsCap(t, p, n)
  {
    var m := n as real;
    MulAssociates(m, u, p);
    ScaledOrder(m, u * p, v);
    assert t * p * v == m * u * p;
    Cancelled(t * p, m, v);
  }

  lemma SpanBoundsScale(u: real, p: real, v: real)
    requires IsInSpan(u, p, v) && 0.0 <= u && 1.0 < p
    ensures u <= v
  {
    ScaledOrder(u, 1.0, p);
  }

  // The span of the boundaries at pressure 1: 96 at importance 100, below 93.38 at any other.
  function SpanOfImportance(importance: int): real {
    if 100 <= importance then 96.0 else 93.38
  }

  function ShareOfAll(n: nat, importance: int, p: real): real {
    n as real * ScaleOf(n, importance, p) / SpanOfImportance(importance)
  }

  function CountsOfHistory(n: nat, importance: int, p: real): Counts
    requires p != 0.0
  {
    Counts(
      n, ScaleOf(n, importance, p), ShareOfAll(n, importance, p),
      Within(n, importance, p, Z1), Over(Within(n, importance, 1.0, Z1), p),
      Within(n, importance, p, Z2), Over(Within(n, importance, 1.0, Z2), p),
      Within(n, importance, p, Z3), Over(Within(n, importance, 1.0, Z3), p),
      Within(n, importance, p, Z4), Over(Within(n, importance, 1.0, Z4), p))
  }

  lemma ScaleFitsSpan(n: nat, importance: int, p: real)
    requires 1 <= n && P_FLOOR <= p
    ensures 0.0 <= ScaleOf(n, importance, p)
    ensures IsInSpan(ScaleOf(n, importance, p), p, SpanOfImportance(importance))
  {
    if 100 <= importance {
      FullSpan(importance, p);
    } else {
      NearlyFullSpan(importance, p);
    }
    hide SpanAtMost, ScaleOf, IsInSpan;
    ScaleWithinSpan(n, importance, p, SpanOfImportance(importance));
  }

  lemma FirstShare(n: nat, importance: int, p: real)
    requires 100 <= importance && 20 <= n && 1.0 < p
    ensures 20.0 * ScaleOf(n, importance, p) <= 96.0 * Over(Within(n, importance, 1.0, Z1), p)
  {
    TwentyWithinFirst(n, importance);
    ScaleFitsSpan(n, importance, p);
    OverCancels(20, p);
    hide ScaleOf, Within, Over, IsOver, IsInSpan;
    FractionsOfSpan(ScaleOf(n, importance, p), Over(20, p), p);
  }

  lemma FractionsOfSpan(u: real, b: real, p: real)
    requires 1.0 < p && IsInSpan(u, p, 96.0) && IsOver(b, 20, p)
    ensures 20.0 * u <= 96.0 * b
  {
    assert 20.0 * u * p == 20.0 * (u * p) && 96.0 * b * p == 96.0 * (b * p);
    Cancelled(20.0 * u, 96.0 * b, p);
  }

  lemma ShareOnSpan(n: nat, importance: int, p: real)
    ensures IsShare(
      ShareOfAll(n, importance, p), n, ScaleOf(n, importance, p), SpanOfImportance(importance))
  {
    hide ScaleOf;
    QuotientOrder(n as real * ScaleOf(n, importance, p), SpanOfImportance(importance), 0.0);
  }

  lemma HistoryIsSqueezed(n: nat, importance: int, p: real)
    requires 1 <= n && 1.0 < p && 7783 < CountedCost(n, importance, p)
    ensures Squeezed(CountsOfHistory(n, importance, p))
  {
    hide Over, ScaleOf, ShareOfAll, Within, CountsAt, ShouldArchive, CostByBoundary, IsInSpan, IsShare, IsCap;
    ScaleFitsSpan(n, importance, p);
    ShareOnSpan(n, importance, p);
    SpanBoundsScale(ScaleOf(n, importance, p), p, SpanOfImportance(importance));
    CapFits(n, ScaleOf(n, importance, p), SpanOfImportance(importance), p, ShareOfAll(n, importance, p));
    ScaleFits(n, importance, p, ShareOfAll(n, importance, p));
  }

  lemma HistoryOnSpan(n: nat, importance: int, p: real)
    requires 20 <= n && 1.0 < p
    ensures OnSpan(CountsOfHistory(n, importance, p))
  {
    hide Over, ScaleOf, ShareOfAll, Within, IsShare;
    ShareOnSpan(n, importance, p);
    if 100 <= importance {
      FirstShare(n, importance, p);
    }
  }

  lemma CountsCost(n: nat, importance: int, p: real)
    requires 0.0 < p
    ensures Cost(CountsOfHistory(n, importance, p)) == CountedCost(n, importance, p)
    ensures NaturalShare(CountsOfHistory(n, importance, p)) == Over(CountedCost(n, importance, 1.0), p)
  {
    hide Over, ScaleOf, ShareOfAll, Within, CostByBoundary, Share;
    SharesAdd(Within(n, importance, 1.0, Z1), Within(n, importance, 1.0, Z2),
              Within(n, importance, 1.0, Z3), Within(n, importance, 1.0, Z4), p);
  }

  lemma CountedAnyLength(n: nat, importance: int, p: real)
    requires 1 <= n && 1.0 < p && 7783 < CountedCost(n, importance, p)
    ensures CountedCost(n, importance, p) as real <= 1.3 * Over(CountedCost(n, importance, 1.0), p)
  {
    var c := CountsOfHistory(n, importance, p);
    assert c.n == n;
    hide CountsOfHistory, Over, CountedCost, Cost, NaturalShare, Squeezed, OnSpan;
    CountsCost(n, importance, p);
    HistoryIsSqueezed(n, importance, p);
    FarBelow(c);
    HistoryOnSpan(n, importance, p);
    SqueezedWithinThirty(c);
  }

  // Whatever the length of a history of equal importances, the overshoot is at most 30% once the budget
  // is worth 7783 / 1.3 tokens, about 5,987; in particular from 8,000 tokens on.
  lemma UniformWithinThirtyPercent(history: seq<int>, importance: int, budget: real)
    requires Uniform(history, importance) && 7783.0 <= 1.3 * budget
    ensures RenderedCost(history, HistoryPressure(history, budget)) as real <= 1.3 * budget
  {
    hide ZLess, ShouldArchive, CountedCost, Inputs, NaturalCost, HistoryPressure, RenderedCost, Over;
    var n, p := |history|, HistoryPressure(history, budget);
    var natural := NaturalCost(Inputs(history));
    if natural as real <= budget {
      OvershootWithinThirtyPercent(history, importance, budget);
    } else {
      BudgetOverPressure(history, budget);
      NaturalIsRenderedAtOne(history);
      UniformCost(history, importance, 1.0);
      UniformCost(history, importance, p);
      if 7783 < CountedCost(n, importance, p) {
        SomethingCounted(n, importance, p);
        CountedAnyLength(n, importance, p);
      }
    }
  }

  lemma BudgetOverPressure(history: seq<int>, budget: real)
    requires 0.0 < budget < NaturalCost(Inputs(history)) as real
    ensures 1.0 < HistoryPressure(history, budget)
    ensures Over(NaturalCost(Inputs(history)), HistoryPressure(history, budget)) == budget
  {
    hide Inputs, NaturalCost;
    var natural := NaturalCost(Inputs(history)) as real;
    var q := natural / budget;
    QuotientOrder(natural, budget, 1.0);
    assert 1.0 < q && q * budget == natural;
    QuotientOrder(natural, q, budget);
  }

  lemma SomethingCounted(n: nat, importance: int, p: real)
    requires 0 < CountedCost(n, importance, p)
    ensures 1 <= n
  {
  }

  // Below that, 46 compartments of importance 100 cost 7783 tokens under any budget from 5,964 on.
  lemma ShortOvershootJustBelow(history: seq<int>, budget: real)
    requires Uniform(history, 100) && |history| == 46 && 5964.0 <= budget && 1.3 * budget < 7783.0
    ensures RenderedCost(history, HistoryPressure(history, budget)) == 7783
  {
    hide ZLess, RenderedCost, Inputs, NaturalCost, CountedCost;
    NaturalIsRenderedAtOne(history);
    FactorAtFullImportance(100);
    UniformCost(history, 100, 1.0);
    ExactCost(46, 100, 4.0, 1.0, 20, 46, 46, 46);
    var p := HistoryPressure(history, budget);
    QuotientOrder(9274.0, budget, 1.5);
    QuotientOrder(9274.0, budget, 1.5551);
    UniformCost(history, 100, p);
    ShortJustBelowCost(p);
  }

  lemma ShortJustBelowCost(p: real)
    requires 1.5 <= p <= 1.5551
    ensures CountedCost(46, 100, p) == 7783
  {
    FactorAtFullImportance(100);
    hide CountedCost, IsFactor;
    ExactCost(46, 100, 4.0, p, 13, 46, 46, 46);
  }

  // So that is exactly the threshold for equal importances.
  lemma AnyLengthThreshold(threshold: real)
    requires 0.0 < threshold
    ensures 7783.0 <= 1.3 * threshold <==>
            forall history, importance, budget :: threshold <= budget && Uniform(history, importance) ==>
              RenderedCost(history, HistoryPressure(history, budget)) as real <= 1.3 * budget
  {
    hide RenderedCost, HistoryPressure, Uniform;
    if 7783.0 <= 1.3 * threshold {
      forall history, importance, budget | threshold <= budget && Uniform(history, importance)
        ensures RenderedCost(history, HistoryPressure(history, budget)) as real <= 1.3 * budget
      {
        UniformWithinThirtyPercent(history, importance, budget);
      }
    } else {
      var history := seq(46, _ => 100);
      var budget := Max(threshold, 5964.0);
      AllHundred(history);
      ShortOvershootJustBelow(history, budget);
      assert Uniform(history, 100);
    }
  }

  lemma AllHundred(history: seq<int>)
    requires forall j :: 0 <= j < |history| ==> history[j] == 100
    ensures Uniform(history, 100)
  {
  }

  // ----- Exactly when -----

  lemma PressureAboveFloor(history: seq<int>, budget: real)
    ensures P_FLOOR <= HistoryPressure(history, budget)
  {
    hide Inputs, NaturalCost;
  }

  // For any history of equal importances, short or long, under any budget: it overshoots by more than
  // 30% exactly when some compartment is within some boundary whose stair lies above 1.3 * budget.
  lemma OvershootIff(history: seq<int>, importance: int, budget: real)
    requires Uniform(history, importance) && history != []
    ensures 1.3 * budget < RenderedCost(history, HistoryPressure(history, budget)) as real <==>
            SomeStairAbove(|history|, importance, HistoryPressure(history, budget), 1.3 * budget)
  {
    PressureAboveFloor(history, budget);
    hide HistoryPressure, RenderedCost, SomeStairAbove, Uniform;
    CostAboveIff(history, importance, HistoryPressure(history, budget), 1.3 * budget);
  }
}
