/**
 The deterministic tier-decay curve (crates/mc-core/src/decay.rs), over exact reals.

 The curve compares the half-life-scaled age z = a * p / (24 * 2^((imp - 50) / 25)) against four
 boundaries. The factor is irrational for most importances, so a comparison z < Z is stated with
 both sides raised to the 25th power and multiplied by 2^50:

     (a * p)^25 * 2^50  <  (24 * Z)^25 * 2^imp

 ComparisonIsExact shows that this is the comparison the source makes, for whatever positive real
 the factor is.
 */
module Decay {
  import opened RealPower

  // Half-life, in compartments, at importance 50 and pressure 1.
  const H50: real := 24.0
  // Importance points that double the half-life.
  const D: nat := 25
  // Extra half-lives of protection from a full anchor overlap.
  const G: real := 2.0
  const Z1: real := 0.201
  const Z2: real := 0.729
  const Z3: real := 1.322
  const Z4: real := 2.587
  const P_FLOOR: real := 0.1
  const TIER_COST: seq<nat> := [0, 322, 109, 35, 20, 5]

  // 1 is the verbose tier, 5 is archived.
  type Tier = t: int | 1 <= t <= 5 witness 1

  // One compartment as the pressure computation sees it; index 1 is the newest.
  datatype DecayInput = DecayInput(index: nat, importance: int)

  function Max(x: real, y: real): real {
    if x < y then y else x
  }

  function Clamp(x: int, lo: nat, hi: nat): nat
    requires lo <= hi
  {
    if x < lo then lo else if hi < x then hi else x
  }

  function ClampOverlap(o: real): real {
    if o < 0.0 then 0.0 else if 1.0 < o then 1.0 else o
  }

  // The left side of the comparison, as a function of a * p.
  function AgeKey(x: real): real {
    Pow(x, D) * Pow(2.0, 2 * D)
  }

  // The right side of the comparison, for one boundary and a clamped importance.
  function BoundaryKey(bound: real, importance: nat): real {
    Pow(H50 * bound, D) * Pow(2.0, importance)
  }

  function Age(index: nat): nat {
    if index < 1 then 0 else index - 1
  }

  function ScaledAge(index: nat, pressure: real): real {
    Age(index) as real * Max(pressure, P_FLOOR)
  }

  // z < bound, where z is the half-life-scaled age.
  predicate ZLess(index: nat, importance: int, pressure: real, bound: real) {
    AgeKey(ScaledAge(index, pressure)) < BoundaryKey(bound, Clamp(importance, 1, 100))
  }

  function CurveTier(index: nat, importance: int, pressure: real): Tier {
    if ZLess(index, importance, pressure, Z1) then 1
    else if ZLess(index, importance, pressure, Z2) then 2
    else if ZLess(index, importance, pressure, Z3) then 3
    else if ZLess(index, importance, pressure, Z4) then 4
    else 5
  }

  predicate ShouldArchive(index: nat, importance: int, pressure: real, overlap: real) {
    !ZLess(index, importance, pressure, Z4 + G * ClampOverlap(overlap))
  }

  function RenderedTier(index: nat, importance: int, pressure: real, overlap: real): Tier {
    if ShouldArchive(index, importance, pressure, overlap) then 5
    else
      var t := CurveTier(index, importance, pressure);
      if t < 4 then t else 4
  }

  // ----- The comparison -----

  lemma AgeKeyOrder(x: real, y: real)
    requires 0.0 <= x && 0.0 <= y
    ensures x < y <==> AgeKey(x) < AgeKey(y)
  {
    PowOrder(x, y, D);
    PowPositive(2.0, 2 * D);
    var px, py, c := Pow(x, D), Pow(y, D), Pow(2.0, 2 * D);
    assert px < py <==> px * c < py * c;
  }

  // f stands for the factor 2^((imp - 50) / 25); all that is used about it is that it is positive
  // and that f^25 * 2^50 == 2^imp, which determines it (FactorIsUnique).
  ghost predicate IsFactor(f: real, importance: int) {
    0.0 < f && Pow(f, D) * Pow(2.0, 2 * D) == Pow(2.0, Clamp(importance, 1, 100))
  }

  lemma FactorIsUnique(f: real, g: real, importance: int)
    requires IsFactor(f, importance) && IsFactor(g, importance)
    ensures f == g
  {
    PowPositive(2.0, 2 * D);
    var pf, pg, c := Pow(f, D), Pow(g, D), Pow(2.0, 2 * D);
    assert (pf - pg) * c == 0.0;
    PowOrder(f, g, D);
    PowOrder(g, f, D);
  }

  lemma BoundaryKeyIsAgeKey(bound: real, importance: int, f: real, x: real)
    requires IsFactor(f, importance) && x == H50 * bound * f
    ensures BoundaryKey(bound, Clamp(importance, 1, 100)) == AgeKey(x)
  {
    var y := H50 * bound;
    assert x == y * f;
    PowProduct(y, f, x, D);
    MulAssociates(Pow(y, D), Pow(f, D), Pow(2.0, 2 * D));
  }

  lemma ComparisonScaled(index: nat, importance: int, pressure: real, bound: real, f: real)
    requires IsFactor(f, importance) && 0.0 <= bound
    ensures ZLess(index, importance, pressure, bound) <==> ScaledAge(index, pressure) < H50 * bound * f
  {
    var x := H50 * bound * f;
    BoundaryKeyIsAgeKey(bound, importance, f, x);
    AgeKeyOrder(ScaledAge(index, pressure), x);
  }

  lemma ComparedAsQuotient(index: nat, importance: int, pressure: real, bound: real, f: real)
    requires IsFactor(f, importance) && 0.0 <= bound
    ensures ZLess(index, importance, pressure, bound) <==>
            Age(index) as real / (24.0 * f / Max(pressure, P_FLOOR)) < bound
  {
    ComparisonScaled(index, importance, pressure, bound, f);
    DivisionOrder(Age(index) as real, H50 * f, Max(pressure, P_FLOOR), bound);
    assert H50 * bound * f == bound * (H50 * f);
  }

  // The comparison in powers is the source's comparison of z = a / (24 f / p) with a boundary, for the
  // importance c brought into 1..100 and the factor f = 2^((c - 50) / 25).
  lemma ComparisonIsExact(index: nat, importance: int, pressure: real, bound: real, c: nat, f: real)
    requires c == if importance < 1 then 1 else if 100 < importance then 100 else importance
    requires 0.0 < f && Pow(f, 25) * Pow(2.0, 50) == Pow(2.0, c) && 0.0 <= bound
    ensures ZLess(index, importance, pressure, bound) <==>
            (if index < 1 then 0.0 else (index - 1) as real) /
            (24.0 * f / (if pressure < 0.1 then 0.1 else pressure)) < bound
  {
    assert IsFactor(f, importance);
    hide Pow, IsFactor, ZLess;
    ComparedAsQuotient(index, importance, pressure, bound, f);
  }

  // The three tier functions, in terms of that z: the boundaries in order, archiving from a boundary
  // that a full overlap moves by two half-lives, and tier 4 for what the curve alone would archive.
  lemma TiersOfScaledAge(index: nat, importance: int, pressure: real, overlap: real, c: nat, f: real, z: real)
    requires c == if importance < 1 then 1 else if 100 < importance then 100 else importance
    requires 0.0 < f && Pow(f, 25) * Pow(2.0, 50) == Pow(2.0, c)
    requires z == (if index < 1 then 0.0 else (index - 1) as real) /
                  (24.0 * f / (if pressure < 0.1 then 0.1 else pressure))
    ensures CurveTier(index, importance, pressure) ==
            if z < 0.201 then 1 else if z < 0.729 then 2 else if z < 1.322 then 3 else if z < 2.587 then 4 else 5
    ensures ShouldArchive(index, importance, pressure, overlap) <==>
            2.587 + 2.0 * (if overlap < 0.0 then 0.0 else if 1.0 < overlap then 1.0 else overlap) <= z
    ensures RenderedTier(index, importance, pressure, overlap) ==
            if 2.587 + 2.0 * (if overlap < 0.0 then 0.0 else if 1.0 < overlap then 1.0 else overlap) <= z then 5
            else if z < 0.201 then 1 else if z < 0.729 then 2 else if z < 1.322 then 3 else 4
  {
    hide Pow, ZLess;
    ComparisonIsExact(index, importance, pressure, 0.201, c, f);
    ComparisonIsExact(index, importance, pressure, 0.729, c, f);
    ComparisonIsExact(index, importance, pressure, 1.322, c, f);
    ComparisonIsExact(index, importance, pressure, 2.587, c, f);
    ComparisonIsExact(index, importance, pressure, Z4 + G * ClampOverlap(overlap), c, f);
  }

  lemma MulAssociates(x: real, y: real, z: real)
    ensures x * y * z == x * (y * z)
  {
  }

  lemma DivisionOrder(a: real, hf: real, p: real, bound: real)
    requires 0.0 < hf && 0.0 < p
    ensures a / (hf / p) < bound <==> a * p < bound * hf
  {
    var h := hf / p;
    assert h > 0.0 && h * p == hf;
    assert a / h * h == a;
    var z := a / h;
    assert a * p == z * hf by { assert z * h * p == z * (h * p); }
  }

  // The factor is exactly 4 at importance 100 (and above, by clamping).
  lemma FactorAtFullImportance(importance: int)
    requires 100 <= importance
    ensures IsFactor(4.0, importance)
  {
    PowProduct(2.0, 2.0, 4.0, D);
    PowSum(2.0, D, D);
    PowSum(2.0, 2 * D, 2 * D);
  }

  // ----- Monotonicity -----

  lemma BoundaryKeyMonotone(bound: real, importance: nat, bound': real, importance': nat)
    requires 0.0 <= bound <= bound' && importance <= importance'
    ensures BoundaryKey(bound, importance) <= BoundaryKey(bound', importance')
  {
    var b, b' := H50 * bound, H50 * bound';
    PowOrder(b', b, D);
    if bound < bound' { PowStrict(b, b', D); }
    if 0.0 < b { PowPositive(b, D); }
    PowTwoGrows(importance, importance');
    PowPositive(2.0, importance);
    var x, x', t, t' := Pow(b, D), Pow(b', D), Pow(2.0, importance), Pow(2.0, importance');
    assert x * t <= x' * t;
    assert 0.0 <= x' by { if 0.0 < b' { PowPositive(b', D); } }
    assert x' * t <= x' * t';
  }

  lemma PowTwoGrows(m: nat, n: nat)
    requires m <= n
    ensures 0.0 < Pow(2.0, m) <= Pow(2.0, n)
  {
    PowPositive(2.0, m);
    if m < n { PowTwoGrows(m, n - 1); }
  }

  lemma ZLessMonotone(
      index: nat, importance: int, pressure: real, bound: real,
      index': nat, importance': int, pressure': real, bound': real)
    requires index' <= index && importance <= importance' && pressure' <= pressure && 0.0 <= bound <= bound'
    requires ZLess(index, importance, pressure, bound)
    ensures ZLess(index', importance', pressure', bound')
  {
    var a, a' := Age(index) as real, Age(index') as real;
    var p, p' := Max(pressure, P_FLOOR), Max(pressure', P_FLOOR);
    assert a' * p' <= a * p' <= a * p;
    AgeKeyOrder(ScaledAge(index, pressure), ScaledAge(index', pressure'));
    BoundaryKeyMonotone(bound, Clamp(importance, 1, 100), bound', Clamp(importance', 1, 100));
  }

  // Older, less important, under more pressure, less anchored: each can only demote, and so can any
  // combination of the four.
  lemma JointMonotonicity(
      index: nat, importance: int, pressure: real, overlap: real,
      index': nat, importance': int, pressure': real, overlap': real)
    requires index <= index' && importance' <= importance && pressure <= pressure' && overlap' <= overlap
    ensures RenderedTier(index, importance, pressure, overlap) <= RenderedTier(index', importance', pressure', overlap')
  {
    var bound, bound' := Z4 + G * ClampOverlap(overlap), Z4 + G * ClampOverlap(overlap');
    if ZLess(index', importance', pressure', bound') {
      ZLessMonotone(index', importance', pressure', bound', index, importance, pressure, bound);
    }
    CurveMonotone(index, importance, pressure, index', importance', pressure');
  }

  lemma CurveMonotone(index: nat, importance: int, pressure: real, index': nat, importance': int, pressure': real)
    requires index <= index' && importance' <= importance && pressure <= pressure'
    ensures CurveTier(index, importance, pressure) <= CurveTier(index', importance', pressure')
  {
    forall z | z in [Z1, Z2, Z3, Z4] && ZLess(index', importance', pressure', z)
      ensures ZLess(index, importance, pressure, z)
    {
      ZLessMonotone(index', importance', pressure', z, index, importance, pressure, z);
    }
    assert Z1 in [Z1, Z2, Z3, Z4] && Z2 in [Z1, Z2, Z3, Z4] && Z3 in [Z1, Z2, Z3, Z4] && Z4 in [Z1, Z2, Z3, Z4];
  }

  // Anchor overlap changes one thing only: it can bring an archived compartment back to tier 4.
  lemma OverlapOnlyUnarchives(index: nat, importance: int, pressure: real, overlap: real)
    ensures RenderedTier(index, importance, pressure, 0.0) == CurveTier(index, importance, pressure)
    ensures RenderedTier(index, importance, pressure, overlap) == CurveTier(index, importance, pressure)
         || (RenderedTier(index, importance, pressure, overlap) == 4 && CurveTier(index, importance, pressure) == 5)
  {
    if !ShouldArchive(index, importance, pressure, 0.0) {
      ZLessMonotone(index, importance, pressure, Z4, index, importance, pressure, Z4 + G * ClampOverlap(overlap));
    } else {
      forall z | z in [Z1, Z2, Z3]
        ensures !ZLess(index, importance, pressure, z)
      {
        if ZLess(index, importance, pressure, z) {
          ZLessMonotone(index, importance, pressure, z, index, importance, pressure, Z4);
        }
      }
      assert Z1 in [Z1, Z2, Z3] && Z2 in [Z1, Z2, Z3] && Z3 in [Z1, Z2, Z3];
    }
  }

  lemma NewestIsVerbose(index: nat, importance: int, pressure: real, overlap: real)
    requires index <= 1
    ensures RenderedTier(index, importance, pressure, overlap) == 1
  {
    var c := Clamp(importance, 1, 100);
    PowPositive(H50 * Z1, D);
    PowPositive(2.0, c);
    var x, y := Pow(H50 * Z1, D), Pow(2.0, c);
    assert 0.0 < x * y;
    assert ScaledAge(index, pressure) == 0.0;
    assert Pow(0.0, D) == 0.0 * Pow(0.0, D - 1) == 0.0;
    assert AgeKey(ScaledAge(index, pressure)) == 0.0;
    ZLessMonotone(index, importance, pressure, Z1, index, importance, pressure, Z4 + G * ClampOverlap(overlap));
  }

  // ----- Finite demotion -----

  // 4405 is the exact index from which everything is archived, whatever the importance, the
  // pressure and the anchor overlap.
  lemma FiniteDemotion(index: nat)
    ensures 4405 <= index <==>
            forall importance, pressure, overlap :: RenderedTier(index, importance, pressure, overlap) == 5
  {
    var least := Z4 + G * 1.0;
    FactorAtFullImportance(100);
    ComparisonScaled(index, 100, P_FLOOR, least, 4.0);
    assert ZLess(index, 100, P_FLOOR, least) <==> Age(index) as real * 0.1 < 440.352;
    if 4405 <= index {
      forall importance, pressure, overlap
        ensures RenderedTier(index, importance, pressure, overlap) == 5
      {
        var bound := Z4 + G * ClampOverlap(overlap);
        if ZLess(index, importance, pressure, bound) {
          ClampedComparison(index, importance, pressure, bound);
          ZLessMonotone(index, Clamp(importance, 1, 100), Max(pressure, P_FLOOR), bound, index, 100, P_FLOOR, least);
        }
      }
    } else {
      assert RenderedTier(index, 100, P_FLOOR, 1.0) != 5;
    }
  }

  lemma ClampedComparison(index: nat, importance: int, pressure: real, bound: real)
    ensures ZLess(index, importance, pressure, bound) ==
            ZLess(index, Clamp(importance, 1, 100), Max(pressure, P_FLOOR), bound)
  {
  }

  // ----- Scaling symmetries -----

  // The curve sees age and pressure only through their product.
  lemma OnlyTheProductMatters(
      index: nat, pressure: real, index': nat, pressure': real, importance: int, overlap: real)
    requires ScaledAge(index, pressure) == ScaledAge(index', pressure')
    ensures RenderedTier(index, importance, pressure, overlap) == RenderedTier(index', importance, pressure', overlap)
  {
  }

  // Multiplying the age by k is the same as multiplying the pressure by k.
  lemma AgeTradesForPressure(index: nat, k: nat, importance: int, pressure: real, pressure': real, overlap: real)
    requires 1 <= index && 1 <= k && P_FLOOR <= pressure && pressure' == k as real * pressure
    ensures RenderedTier(k * (index - 1) + 1, importance, pressure, overlap) ==
            RenderedTier(index, importance, pressure', overlap)
  {
    var a, kr := (index - 1) as real, k as real;
    assert pressure <= kr * pressure;
    assert Age(k * (index - 1) + 1) == k * (index - 1);
    RealProduct(k, index - 1);
    MulAssociates(a, kr, pressure);
    assert ScaledAge(k * (index - 1) + 1, pressure) == kr * a * pressure == a * kr * pressure;
    OnlyTheProductMatters(k * (index - 1) + 1, pressure, index, pressure', importance, overlap);
  }

  lemma RealProduct(m: nat, n: nat)
    ensures (m * n) as real == m as real * n as real
  {
  }

  lemma KeysScaleTogether(x: real, x': real, bound: real, importance: nat)
    requires x' == 2.0 * x
    ensures AgeKey(x') < BoundaryKey(bound, importance + D) <==> AgeKey(x) < BoundaryKey(bound, importance)
  {
    PowProduct(2.0, x, x', D);
    PowSum(2.0, D, importance);
    PowPositive(2.0, D);
    CommonFactor(Pow(2.0, D), Pow(x, D), Pow(2.0, 2 * D), Pow(H50 * bound, D), Pow(2.0, importance));
  }

  lemma CommonFactor(k: real, u: real, v: real, x: real, y: real)
    requires 0.0 < k
    ensures k * u * v < x * (k * y) <==> u * v < x * y
  {
    var l, r := u * v, x * y;
    assert k * u * v == k * l && x * (k * y) == k * r;
    assert k * l < k * r <==> l < r;
  }

  // 25 points of importance buy exactly a factor of two in pressure.
  lemma ImportanceTradesForPressure(index: nat, importance: int, pressure: real, overlap: real)
    requires 1 <= importance && importance + D <= 100 && P_FLOOR <= pressure
    ensures RenderedTier(index, importance + D, 2.0 * pressure, overlap) ==
            RenderedTier(index, importance, pressure, overlap)
  {
    var p' := 2.0 * pressure;
    forall bound
      ensures ZLess(index, importance + D, p', bound) == ZLess(index, importance, pressure, bound)
    {
      KeysScaleTogether(ScaledAge(index, pressure), ScaledAge(index, p'), bound, importance);
    }
  }

  // ... or in age.
  lemma ImportanceTradesForAge(index: nat, importance: int, pressure: real, overlap: real)
    requires 1 <= index && 1 <= importance && importance + D <= 100 && P_FLOOR <= pressure
    ensures RenderedTier(2 * index - 1, importance + D, pressure, overlap) ==
            RenderedTier(index, importance, pressure, overlap)
  {
    AgeTradesForPressure(index, 2, importance + D, pressure, 2.0 * pressure, overlap);
    ImportanceTradesForPressure(index, importance, pressure, overlap);
  }
}
