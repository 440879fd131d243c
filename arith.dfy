/** Integer helpers: the ceiling division used for tile sizes and the
    quotient/remainder split that every host <-> PE index map is built from. */
module Arith {

  /** `n % p == 0 ? n / p : n / p + 1`, the tile extent in check_memory.c. */
  function CeilDiv(n: nat, p: nat): nat
    requires p >= 1
  {
    if n % p == 0 then n / p else n / p + 1
  }

  /** `CeilDiv(n, p)` is the least number of `p`-sized parts covering `n`. */
  lemma CeilDivBounds(n: nat, p: nat)
    requires p >= 1
    ensures CeilDiv(n, p) * p >= n
    ensures CeilDiv(n, p) == 0 || (CeilDiv(n, p) - 1) * p < n
  {
    var q := n / p;
    assert n == q * p + n % p;
  }

  /** A part never exceeds the whole, and a non-empty whole has non-empty parts. */
  lemma CeilDivAtMost(n: nat, p: nat)
    requires p >= 1
    ensures CeilDiv(n, p) <= n
    ensures n >= 1 ==> CeilDiv(n, p) >= 1
  {
    var q := n / p;
    assert n == p * q + n % p;
    MulLe(1, p, q);
    if n % p != 0 && p >= 2 {
      MulLe(2, p, q);
    }
  }

  lemma MulLe(a: nat, b: nat, c: nat)
    requires a <= b
    ensures a * c <= b * c
  {
  }

  /** Multiplying by a positive factor keeps the sign and does not shrink the
      magnitude. */
  lemma {:induction false} MulSign(x: int, n: nat)
    requires n >= 1
    ensures x >= 0 ==> x * n >= x
    ensures x <= 0 ==> x * n <= x
    decreases n
  {
    if n > 1 {
      MulSign(x, n - 1);
      assert x * n == x * (n - 1) + x;
    }
  }

  /** Dividing a natural by a positive divisor gives a natural. */
  lemma DivNonneg(a: nat, p: nat)
    requires p >= 1
    ensures a / p >= 0
  {
    var x := a / p;
    assert a == x * p + a % p;
    MulSign(x + 1, p);
    assert (x + 1) * p == x * p + p;
  }

  /** The floor quotient of a value between `n * lo` and `n * hi` lies between `lo` and `hi`. */
  lemma FloorDivBetween(T: int, n: nat, lo: int, hi: int)
    requires n >= 1 && n * lo <= T <= n * hi
    ensures lo <= T / n <= hi
  {
    var q := T / n;
    assert q * n <= T < q * n + n;
    MulSign(q + 1 - lo, n);
    MulSign(q - hi, n);
    assert (q + 1 - lo) * n == q * n + n - lo * n;
    assert (q - hi) * n == q * n - hi * n;
  }

  /** Quotient and remainder are determined by `n == a * d + b`, `b < d`. */
  lemma DivModUnique(n: int, d: int, a: int, b: int)
    requires d > 0 && 0 <= b < d && n == a * d + b
    ensures n / d == a && n % d == b
  {
    var q, r := n / d, n % d;
    assert n == q * d + r;
    assert (q - a) * d == b - r;
    if q > a {
      MulLe(1, q - a, d);
      assert false;
    } else if q < a {
      MulLe(1, a - q, d);
      assert false;
    }
  }

  /** Row-major position of cell (r, c) in a buffer of `rows * cols` cells. */
  lemma CellInBuffer(rows: nat, cols: nat, r: nat, c: nat)
    requires r < rows && c < cols
    ensures 0 <= r * cols && r * cols + c < rows * cols
  {
    MulLe(r + 1, rows, cols);
  }

  /** Splitting `n` into quotient and remainder by `d` lands in [0, q) x [0, d)
      and joining them gives `n` back. */
  lemma SplitJoin(n: nat, d: nat, q: nat)
    requires d >= 1 && n < q * d
    ensures n / d < q && n % d < d
    ensures (n / d) * d + n % d == n
  {
    var a := n / d;
    assert n == a * d + n % d;
    if a >= q {
      MulLe(q, a, d);
      assert false;
    }
  }

  /** Joining a pair of [0, q) x [0, d) and splitting it again gives the pair back. */
  lemma JoinSplit(a: nat, b: nat, d: nat, q: nat)
    requires b < d && a < q
    ensures a * d + b < q * d
    ensures (a * d + b) / d == a && (a * d + b) % d == b
  {
    CellInBuffer(q, d, a, b);
    DivModUnique(a * d + b, d, a, b);
  }

  /** A divisor times the quotient gives back what it divides. */
  lemma DivExact(n: nat, d: nat)
    requires d > 0 && n % d == 0
    ensures (n / d) * d == n
  {
    assert n == (n / d) * d + n % d;
  }

  lemma MulSucc(n: int, m: int)
    ensures (n + 1) * m == n * m + m
  {
  }

  /** Python `int(v)` on a float: truncation toward zero. */
  function TruncReal(v: real): (n: int)
    ensures v >= 0.0 ==> n == v.Floor
    ensures v < 0.0 ==> v <= n as real < v + 1.0
    ensures n as real == v || (v >= 0.0 && n as real < v) || (v < 0.0 && n as real > v)
  {
    if v >= 0.0 then v.Floor else -((-v).Floor)
  }
}
