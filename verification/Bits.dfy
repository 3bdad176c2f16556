/** Bitwise operators on natural numbers, as the source's `&`, `|`, `<<` and `>>` compute them. */
module Bits {

  function Pow2(n: nat): (r: nat)
    ensures r > 0
  {
    if n == 0 then 1 else 2 * Pow2(n - 1)
  }

  function And(a: nat, b: nat): nat
    decreases a
  {
    if a == 0 then 0 else (if a % 2 == 1 && b % 2 == 1 then 1 else 0) + 2 * And(a / 2, b / 2)
  }

  function Or(a: nat, b: nat): nat
    decreases a + b
  {
    if a == 0 && b == 0 then 0
    else (if a % 2 == 1 || b % 2 == 1 then 1 else 0) + 2 * Or(a / 2, b / 2)
  }

  function Shl(a: nat, n: nat): nat { a * Pow2(n) }

  function Shr(a: nat, n: nat): nat {
    QuotientNat(a, Pow2(n));
    a / Pow2(n)
  }

  lemma QuotientNat(a: nat, m: nat)
    requires m > 0
    ensures a / m >= 0
  {
    var q := a / m;
    assert a == q * m + a % m;
    assert q < 0 ==> q * m <= -1 * m;
  }

  lemma {:induction false} Pow2Add(m: nat, n: nat)
    ensures Pow2(m + n) == Pow2(m) * Pow2(n)
  {
    if m != 0 {
      Pow2Add(m - 1, n);
      assert Pow2(m + n) == 2 * Pow2(m - 1 + n);
    }
  }

  lemma {:induction false} Pow2Mono(m: nat, n: nat)
    requires m <= n
    ensures Pow2(m) <= Pow2(n)
    decreases n
  {
    if m < n { Pow2Mono(m, n - 1); }
  }

  /** Setting a bit that is clear is an addition. */
  lemma {:induction false} OrClearBit(a: nat, n: nat)
    requires (a / Pow2(n)) % 2 == 0
    ensures Or(a, Pow2(n)) == a + Pow2(n)
  {
    if n == 0 {
      assert a / Pow2(0) == a;
      OrZero(a / 2);
    } else {
      assert Pow2(n) / 2 == Pow2(n - 1) && Pow2(n) % 2 == 0;
      DivDiv(a, Pow2(n - 1));
      OrClearBit(a / 2, n - 1);
    }
  }

  lemma OrAboveAdds(a: nat, n: nat)
    requires a < Pow2(n)
    ensures Or(a, Pow2(n)) == a + Pow2(n)
  {
    SmallDiv(a, Pow2(n));
    OrClearBit(a, n);
  }

  lemma SmallDiv(a: nat, m: nat)
    requires a < m
    ensures a / m == 0
  {
    ModUnique(a, m, 0, a);
  }

  lemma {:induction false} OrZero(a: nat)
    ensures Or(a, 0) == a
  {
    if a != 0 { OrZero(a / 2); }
  }

  /** A run of `p` ones above `k` zeros. */
  function OnesAbove(p: nat, k: nat): nat {
    ProductNat(Pow2(p) - 1, Pow2(k));
    (Pow2(p) - 1) * Pow2(k)
  }

  lemma ProductNat(a: nat, b: nat)
    ensures a * b >= 0
  {
  }

  /** Masking with a run of `p` ones above `k` zeros clears the low `k` bits. */
  lemma {:induction false} AndHighMask(x: nat, p: nat, k: nat)
    requires x < Pow2(p + k)
    ensures And(x, OnesAbove(p, k)) == x - x % Pow2(k)
    decreases p + k
  {
    if k > 0 {
      AndHighMask(x / 2, p, k - 1);
      HighMaskStep(x, Pow2(p) - 1, Pow2(k - 1));
    } else {
      AndLowMask(x, p);
      ModUnique(x, Pow2(p), 0, x);
    }
  }

  lemma HighMaskStep(x: nat, ones: nat, m: nat)
    requires m > 0 && And(x / 2, ones * m) == x / 2 - (x / 2) % m
    ensures And(x, ones * (2 * m)) == x - x % (2 * m)
  {
    hide And;
    assert ones * (2 * m) == 2 * (ones * m);
    AndEven(x, ones * m);
    HalfMod(x, m);
  }

  lemma AndEven(x: nat, m: nat)
    ensures And(x, 2 * m) == 2 * And(x / 2, m)
  {
    assert (2 * m) / 2 == m && (2 * m) % 2 == 0;
  }

  /** Masking with `k` low ones is the remainder. */
  lemma {:induction false} AndLowMask(x: nat, k: nat)
    ensures And(x, Pow2(k) - 1) == x % Pow2(k)
    decreases k
  {
    if k == 0 {
      AndZero(x);
    } else if x != 0 {
      var mask := Pow2(k) - 1;
      assert mask == 2 * (Pow2(k - 1) - 1) + 1;
      assert mask / 2 == Pow2(k - 1) - 1 && mask % 2 == 1;
      AndLowMask(x / 2, k - 1);
      HalfMod(x, Pow2(k - 1));
    } else {
      ModUnique(0, Pow2(k), 0, 0);
    }
  }

  lemma HalfMod(x: nat, m: nat)
    requires m > 0
    ensures x % (2 * m) == 2 * ((x / 2) % m) + x % 2
  {
    var q, r := (x / 2) / m, (x / 2) % m;
    assert x == 2 * (q * m + r) + x % 2;
    assert x == q * (2 * m) + (2 * r + x % 2);
    ModUnique(x, 2 * m, q, 2 * r + x % 2);
  }

  lemma ModUnique(x: int, m: int, q: int, r: int)
    requires m > 0 && 0 <= r < m && x == q * m + r
    ensures x / m == q && x % m == r
  {
    var d := x / m - q;
    assert d * m == r - x % m by {
      assert x == (x / m) * m + x % m;
    }
    assert d > 0 ==> d * m >= m;
    assert d < 0 ==> d * m <= -m;
  }

  /** Testing one bit with `x & (1 << n)`. */
  lemma {:induction false} AndBit(x: nat, n: nat)
    ensures And(x, Pow2(n)) == if (x / Pow2(n)) % 2 == 1 then Pow2(n) else 0
  {
    if n == 0 {
      AndZero(x / 2);
    } else if x != 0 {
      assert Pow2(n) / 2 == Pow2(n - 1) && Pow2(n) % 2 == 0;
      AndBit(x / 2, n - 1);
      DivDiv(x, Pow2(n - 1));
    } else {
      assert 0 / Pow2(n) == 0;
    }
  }

  lemma {:induction false} AndZero(x: nat)
    ensures And(x, 0) == 0
  {
    if x != 0 { AndZero(x / 2); }
  }

  lemma DivDiv(x: nat, m: nat)
    requires m > 0
    ensures x / (2 * m) == (x / 2) / m
  {
    var q, r := (x / 2) / m, (x / 2) % m;
    assert x == q * (2 * m) + (2 * r + x % 2);
    ModUnique(x, 2 * m, q, 2 * r + x % 2);
  }
}
