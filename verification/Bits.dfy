/** Masking and modular arithmetic behind the 32-bit rolling hash. */
module Bits {

  function Pow2(n: nat): (r: nat)
    ensures r > 0
  {
    if n == 0 then 1 else 2 * Pow2(n - 1)
  }

  /** The `&` operator on non-negative integers, bit by bit. */
  function BitAnd(x: nat, y: nat): nat {
    if x == 0 || y == 0 then 0
    else 2 * BitAnd(x / 2, y / 2) + (if x % 2 == 1 && y % 2 == 1 then 1 else 0)
  }

  /** Quotient and remainder are unique. */
  lemma DivModUnique(q: int, m: int, r: int)
    requires 0 <= r < m
    ensures (q * m + r) % m == r
  {
    var x := q * m + r;
    var d := q - x / m;
    assert x == (x / m) * m + x % m;
    assert d * m == x % m - r by {
      assert d * m == q * m - (x / m) * m;
    }
    MulGrows(d, m);
  }

  lemma MulGrows(d: int, m: int)
    requires m > 0
    ensures d >= 1 ==> d * m >= m
    ensures d <= -1 ==> d * m <= -m
  {}

  lemma ModShift(q: nat, m: nat, r: nat)
    requires m > 0
    ensures (q * m + r) % m == r % m
  {
    var a, b := r / m, r % m;
    assert r == a * m + b;
    assert q * m + r == (q + a) * m + b by {
      assert (q + a) * m == q * m + a * m;
    }
    DivModUnique(q + a, m, b);
  }

  lemma {:induction false} Pow2Add(a: nat, b: nat)
    ensures Pow2(a + b) == Pow2(a) * Pow2(b)
  {
    if a > 0 {
      Pow2Add(a - 1, b);
      assert Pow2(a + b) == 2 * Pow2(a - 1 + b);
    }
  }

  /** Masking with k ones keeps the low k bits. */
  lemma {:induction false} BitAndMask(x: nat, k: nat)
    ensures BitAnd(x, Pow2(k) - 1) == x % Pow2(k)
  {
    if k == 0 {
    } else {
      var m, h := Pow2(k - 1), x / 2;
      assert (2 * m - 1) / 2 == m - 1 && (2 * m - 1) % 2 == 1;
      BitAndMask(h, k - 1);
      DoubleMod(h, x % 2, m);
      assert x == 2 * h + x % 2;
      if x == 0 { assert x % Pow2(k) == 0; }
    }
  }

  lemma DoubleMod(h: nat, c: nat, m: nat)
    requires m > 0 && c < 2
    ensures (2 * h + c) % (2 * m) == 2 * (h % m) + c
  {
    var q, r := h / m, h % m;
    assert h == q * m + r;
    assert 2 * h + c == q * (2 * m) + (2 * r + c);
    ModShift(q, 2 * m, 2 * r + c);
    SmallMod(2 * r + c, 2 * m);
  }

  lemma SmallMod(x: nat, m: nat)
    requires x < m
    ensures x % m == x
  {}

  /** Reducing modulo a larger power of two first does not change the low bits. */
  lemma ModModPow2(x: nat, k: nat, n: nat)
    requires k <= n
    ensures (x % Pow2(n)) % Pow2(k) == x % Pow2(k)
  {
    Pow2Add(n - k, k);
    ModMod(x, Pow2(n - k), Pow2(k));
  }

  lemma ModMod(x: nat, c: nat, p: nat)
    requires c > 0 && p > 0 && c * p > 0
    ensures (x % (c * p)) % p == x % p
  {
    var m := c * p;
    var q, r := x / m, x % m;
    assert x == q * m + r;
    MulAssoc(q, c, p);
    ModShift(q * c, p, r);
  }

  lemma MulAssoc(a: int, b: int, c: int)
    ensures a * (b * c) == (a * b) * c
  {}
}
