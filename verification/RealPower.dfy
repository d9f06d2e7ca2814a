/**
 Natural powers of real numbers, with the order and product laws the decay curve needs.
 */
module RealPower {

  function Pow(x: real, n: nat): real
    decreases n, x
  {
    if n == 0 then 1.0 else x * Pow(x, n - 1)
  }

  lemma {:induction false} PowPositive(x: real, n: nat)
    requires 0.0 < x
    ensures 0.0 < Pow(x, n)
  {
    if n > 0 {
      PowPositive(x, n - 1);
    }
  }

  lemma PowNonNegative(x: real, n: nat)
    requires 0.0 <= x
    ensures 0.0 <= Pow(x, n)
  {
    if 0.0 < x { PowPositive(x, n); }
  }

  // The product is a parameter of its own so that callers are free in how they write it.
  lemma {:induction false} PowProduct(x: real, y: real, product: real, n: nat)
    requires product == x * y
    ensures Pow(product, n) == Pow(x, n) * Pow(y, n)
  {
    if n > 0 {
      PowProduct(x, y, product, n - 1);
      var px, py := Pow(x, n - 1), Pow(y, n - 1);
      assert x * y * (px * py) == (x * px) * (y * py);
    }
  }

  lemma {:induction false} PowSum(x: real, m: nat, n: nat)
    ensures Pow(x, m + n) == Pow(x, m) * Pow(x, n)
    decreases m
  {
    if m > 0 {
      PowSum(x, m - 1, n);
      var px, pn := Pow(x, m - 1), Pow(x, n);
      assert x * (px * pn) == x * px * pn;
    }
  }

  lemma {:induction false} PowPower(x: real, m: nat, n: nat)
    ensures Pow(Pow(x, m), n) == Pow(x, m * n)
    decreases n
  {
    if n > 0 {
      PowPower(x, m, n - 1);
      PowSum(x, m, m * (n - 1));
      assert m * n == m + m * (n - 1);
    }
  }

  lemma {:induction false} PowStrict(x: real, y: real, n: nat)
    requires 0.0 <= x < y && 0 < n
    ensures 0.0 <= Pow(x, n) < Pow(y, n)
    decreases n
  {
    if n == 1 {
      assert Pow(x, 0) == Pow(y, 0) == 1.0;
    } else {
      PowStrict(x, y, n - 1);
      ProductStrict(x, y, Pow(x, n - 1), Pow(y, n - 1));
    }
  }

  lemma ProductStrict(x: real, y: real, u: real, v: real)
    requires 0.0 <= x < y && 0.0 <= u < v
    ensures 0.0 <= x * u < y * v
  {
    assert x * u <= x * v;
    assert (y - x) * v > 0.0;
  }

  // On the non-negative reals a positive power reflects the order, not just preserves it.
  lemma PowOrder(x: real, y: real, n: nat)
    requires 0.0 <= x && 0.0 <= y && 0 < n
    ensures x < y <==> Pow(x, n) < Pow(y, n)
  {
    if x < y {
      PowStrict(x, y, n);
    } else if y < x {
      PowStrict(y, x, n);
    }
  }

  lemma {:induction false} PowOne(n: nat)
    ensures Pow(1.0, n) == 1.0
  {
    if 0 < n {
      PowOne(n - 1);
    }
  }

  function Fifth(x: real): real {
    x * x * x * x * x
  }

  lemma FifthPower(x: real)
    ensures Pow(x, 5) == Fifth(x)
  {
    assert Pow(x, 1) == x && Pow(x, 2) == x * x && Pow(x, 3) == x * x * x;
  }
}
