/** Python's `<<`, `>>`, `&` and `|` on non-negative integers.

    `&` and `|` are defined bit by bit, least significant bit first, so that
    the masks and the or-combinations of the launcher scripts can be related
    to the plain arithmetic they stand for. */
module Bits {
  import opened Arith

  function Pow2(k: nat): (p: nat)
    ensures p >= 1
  {
    if k == 0 then 1 else 2 * Pow2(k - 1)
  }

  /** `a << k` */
  function Shl(a: nat, k: nat): nat {
    a * Pow2(k)
  }

  /** `a >> k` */
  function Shr(a: nat, k: nat): nat {
    DivNonneg(a, Pow2(k));
    a / Pow2(k)
  }

  /** `a & b` */
  function And(a: nat, b: nat): nat
    decreases a
  {
    if a == 0 || b == 0 then 0
    else 2 * And(a / 2, b / 2) + (if a % 2 == 1 && b % 2 == 1 then 1 else 0)
  }

  /** `a | b` */
  function Or(a: nat, b: nat): nat
    decreases a
  {
    if a == 0 then b
    else if b == 0 then a
    else 2 * Or(a / 2, b / 2) + (if a % 2 == 1 || b % 2 == 1 then 1 else 0)
  }

  lemma {:induction false} Pow2Add(a: nat, b: nat)
    ensures Pow2(a + b) == Pow2(a) * Pow2(b)
    decreases a
  {
    if a > 0 {
      Pow2Add(a - 1, b);
      assert Pow2(a + b) == 2 * Pow2(a - 1 + b);
    }
  }

  /** The widths the timestamp code shifts by. */
  lemma Pow2Values()
    ensures Pow2(16) == 0x1_0000
    ensures Pow2(32) == 0x1_0000_0000
    ensures Pow2(48) == 0x1_0000_0000_0000
  {
    assert Pow2(2) == 4;
    assert Pow2(4) == 16 by { Pow2Add(2, 2); }
    assert Pow2(8) == 256 by { Pow2Add(4, 4); }
    assert Pow2(16) == 0x1_0000 by { Pow2Add(8, 8); }
    assert Pow2(32) == 0x1_0000_0000 by { Pow2Add(16, 16); }
    assert Pow2(48) == 0x1_0000_0000_0000 by { Pow2Add(32, 16); }
  }

  /** Halving commutes with the remainder by an even modulus. */
  lemma ModDouble(a: nat, p: nat)
    requires p >= 1
    ensures a % (2 * p) == 2 * ((a / 2) % p) + a % 2
  {
    var q, r := (a / 2) / p, (a / 2) % p;
    assert a / 2 == q * p + r;
    assert a == 2 * (a / 2) + a % 2;
    assert a == q * (2 * p) + (2 * r + a % 2);
    DivModUnique(a, 2 * p, q, 2 * r + a % 2);
  }

  /** Masking with `2^k - 1` keeps the low `k` bits: it is the remainder by `2^k`. */
  lemma {:induction false} AndLowMask(a: nat, k: nat)
    ensures And(a, Pow2(k) - 1) == a % Pow2(k)
    decreases k
  {
    if k > 0 && a > 0 {
      var p := Pow2(k - 1);
      var m := Pow2(k) - 1;
      assert Pow2(k) == 2 * p;
      assert m == 2 * (p - 1) + 1;
      assert m % 2 == 1 && m / 2 == p - 1;
      AndLowMask(a / 2, k - 1);
      assert And(a, m) == 2 * And(a / 2, m / 2) + a % 2;
      ModDouble(a, p);
      assert a % Pow2(k) == a % (2 * p);
    } else if a == 0 {
      DivModUnique(0, Pow2(k), 0, 0);
    }
  }

  /** Or-ing a value below `2^k` into a value shifted left by `k` adds them:
      the two have no bit in common. */
  lemma {:induction false} OrDisjoint(a: nat, b: nat, k: nat)
    requires b < Pow2(k)
    ensures Or(Shl(a, k), b) == Shl(a, k) + b
    decreases k
  {
    if k > 0 && a > 0 && b > 0 {
      var x := Shl(a, k);
      assert x == 2 * Shl(a, k - 1);
      assert x % 2 == 0 && x / 2 == Shl(a, k - 1);
      OrDisjoint(a, b / 2, k - 1);
      assert Or(x, b) == 2 * Or(x / 2, b / 2) + b % 2;
    }
  }
}
