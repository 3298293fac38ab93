// The BigInt bit operations the CIDR parser uses, on natural numbers.
module Bits {
  function Pow2(k: nat): (p: nat)
    ensures p > 0
  {
    if k == 0 then 1 else 2 * Pow2(k - 1)
  }

  function Shl(x: nat, k: nat): nat { x * Pow2(k) }

  function And(x: nat, y: nat): nat {
    if x == 0 || y == 0 then 0
    else (if x % 2 == 1 && y % 2 == 1 then 1 else 0) + 2 * And(x / 2, y / 2)
  }

  function Or(x: nat, y: nat): nat
    decreases x + y
  {
    if x == 0 then y
    else if y == 0 then x
    else (if x % 2 == 1 || y % 2 == 1 then 1 else 0) + 2 * Or(x / 2, y / 2)
  }

  lemma MulAtLeast(d: nat, k: nat)
    requires k > 0
    ensures d * k >= d
  {
    assert d * k == d + d * (k - 1);
    assert d * (k - 1) >= 0;
  }

  lemma ModUnique(x: nat, d: nat, q: nat, r: nat)
    requires r < d && x == d * q + r
    ensures x % d == r
  {
    var q', r' := x / d, x % d;
    assert x == d * q' + r';
    assert d * (q - q') == r' - r && d * (q' - q) == r - r';
    if q > q' {
      MulAtLeast(d, q - q');
    } else if q < q' {
      MulAtLeast(d, q' - q);
    }
  }

  lemma HalfMod(x: nat, p: nat)
    requires p > 0
    ensures x % (2 * p) == 2 * ((x / 2) % p) + x % 2
  {
    var h := x / 2;
    var q, r := h / p, h % p;
    assert h == p * q + r;
    assert (2 * p) * q == 2 * (p * q);
    ModUnique(x, 2 * p, q, 2 * r + x % 2);
  }

  lemma AndOdd(x: nat, p: nat)
    requires x > 0 && p > 0
    ensures And(x, 2 * p - 1) == x % 2 + 2 * And(x / 2, p - 1)
  {
    var m := 2 * p - 1;
    assert m / 2 == p - 1 && m % 2 == 1;
  }

  /** Masking with `2^k - 1` is the remainder modulo `2^k`. */
  lemma {:induction false} AndMask(x: nat, k: nat)
    ensures And(x, Pow2(k) - 1) == x % Pow2(k)
  {
    if k == 0 || x == 0 {
      ModUnique(x, Pow2(k), if k == 0 then x else 0, 0);
    } else {
      AndMask(x / 2, k - 1);
      AndMaskStep(x, k);
    }
  }

  lemma AndMaskStep(x: nat, k: nat)
    requires x > 0 && k > 0 && And(x / 2, Pow2(k - 1) - 1) == (x / 2) % Pow2(k - 1)
    ensures And(x, Pow2(k) - 1) == x % Pow2(k)
  {
    var p := Pow2(k - 1);
    assert Pow2(k) == 2 * p;
    hide And, Pow2;
    HalfMod(x, p);
    AndOdd(x, p);
  }

  /** Or-ing a value below `2^k` into a multiple of `2^k` is addition. */
  lemma {:induction false} OrDisjoint(a: nat, n: nat, k: nat)
    requires n < Pow2(k)
    ensures Or(a * Pow2(k), n) == a * Pow2(k) + n
  {
    if k > 0 && n > 0 && a > 0 {
      var p := Pow2(k - 1);
      var x := a * Pow2(k);
      assert x == 2 * (a * p);
      assert x / 2 == a * p && x % 2 == 0;
      OrDisjoint(a, n / 2, k - 1);
    }
  }
}
