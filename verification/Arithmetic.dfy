/** Division and bit masks. */
module Arithmetic {
  lemma MultipleOutside(m: int, d: int)
    requires m > 0
    ensures d >= 1 ==> m * d >= m
    ensures d <= -1 ==> m * d <= -m
  {
  }

  lemma QuotientAndRest(x: int, m: int, q: int, r: int)
    requires 0 <= r < m && x == m * q + r
    ensures x % m == r && x / m == q
  {
    var d := x / m - q;
    assert x == m * (x / m) + x % m;
    assert m * d == r - x % m by {
      assert m * d == m * (x / m) - m * q;
    }
    MultipleOutside(m, d);
  }

  /** Rounding up: one step less, one less. */
  lemma CeilStep(d: int, m: int)
    requires d > 0 && m > 0
    ensures d <= m ==> (d + m - 1) / m == 1
    ensures d > m ==> (d + m - 1) / m == (d - m + m - 1) / m + 1
  {
    var q, r := (d - 1) / m, (d - 1) % m;
    assert d - 1 == m * q + r;
    assert d + m - 1 == m * (q + 1) + r;
    QuotientAndRest(d + m - 1, m, q + 1, r);
    if d <= m {
      QuotientAndRest(d + m - 1, m, 1, d - 1);
    }
  }

  /** Division as in C, towards zero. */
  function Quotient(a: int, b: int): int
    requires b != 0
  {
    if (a >= 0) == (b > 0) then Abs(a) / Abs(b) else -(Abs(a) / Abs(b))
  }

  /** The remainder that goes with it has the sign of the dividend. */
  function Remainder(a: int, b: int): int
    requires b != 0
  {
    if a >= 0 then a % Abs(b) else -(-a % Abs(b))
  }

  function Abs(a: int): nat
  {
    if a < 0 then -a else a
  }

  /** Bitwise `and`. */
  function BitAnd(a: nat, b: nat): nat
  {
    if a == 0 || b == 0 then 0 else (if a % 2 == 1 && b % 2 == 1 then 1 else 0) + 2 * BitAnd(a / 2, b / 2)
  }

  predicate PowerOfTwo(c: nat)
  {
    c == 1 || (c > 1 && c % 2 == 0 && PowerOfTwo(c / 2))
  }

  lemma HalveRemainder(x: nat, h: nat, d: nat)
    requires d > 0 && h == x / 2
    ensures x % (2 * d) == x % 2 + 2 * (h % d)
  {
    var q, r := h / d, h % d;
    assert h == d * q + r;
    Doubled(x, h, d, q, r);
    QuotientAndRest(x, 2 * d, q, 2 * r + x % 2);
  }

  lemma Doubled(x: int, h: int, d: int, q: int, r: int)
    requires h == x / 2 && h == d * q + r
    ensures x == (2 * d) * q + (2 * r + x % 2)
  {
    assert x == 2 * h + x % 2;
    assert (2 * d) * q == 2 * (d * q);
  }

  /** The masks in the code are remainders, because capacities are powers of two. */
  lemma {:induction false} MaskIsRemainder(x: nat, c: nat)
    requires PowerOfTwo(c)
    ensures BitAnd(x, c - 1) == x % c
  {
    if c == 1 {
      assert x % 1 == 0;
    } else if x == 0 {
      QuotientAndRest(0, c, 0, 0);
    } else {
      var d := c / 2;
      MaskIsRemainder(x / 2, d);
      hide BitAnd, PowerOfTwo;
      HalveRemainder(x, x / 2, d);
      LowBit(x, c - 1);
      assert (c - 1) / 2 == d - 1 && 2 * d == c;
    }
  }

  lemma {:induction false} LowBit(x: nat, odd: nat)
    requires odd % 2 == 1
    ensures BitAnd(x, odd) == x % 2 + 2 * BitAnd(x / 2, odd / 2)
  {
  }

  /** Doublings of 8 leave no power of two out. */
  lemma {:induction false} PowerGap(p: nat, n: nat)
    requires PowerOfTwo(p) && PowerOfTwo(n) && p < n
    ensures 2 * p <= n
  {
    if p > 1 {
      PowerGap(p / 2, n / 2);
    }
  }

  /** The smaller of two powers of two divides the larger. */
  lemma {:induction false} PowerDivides(m: nat, n: nat)
    requires PowerOfTwo(m) && PowerOfTwo(n) && m <= n
    ensures m > 0 && n % m == 0
    decreases n
  {
    if m < n {
      hide PowerOfTwo;
      HalfIsPower(n);
      PowerGap(m, n);
      PowerDivides(m, n / 2);
      MultipleOf(n, n / 2, 2, m);
    } else {
      HalfIsPower(n);
      QuotientAndRest(n, n, 1, 0);
    }
  }

  lemma {:induction false} HalfIsPower(n: nat)
    requires PowerOfTwo(n)
    ensures n > 0 && (n > 1 ==> n % 2 == 0 && PowerOfTwo(n / 2))
  {
  }

  /** A multiple of a multiple. */
  lemma MultipleOf(x: int, n: nat, k: int, m: nat)
    requires m > 0 && n % m == 0 && x == n * k
    ensures x % m == 0
  {
    var q := n / m;
    assert n == m * q;
    assert n * k == m * (q * k);
    QuotientAndRest(x, m, q * k, 0);
  }
}
