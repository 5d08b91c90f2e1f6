/** 64-bit integers: wrap-around, division and remainder, and modular power. */
module Ints {
  import opened Arithmetic
  import opened Values

  const TWO_63 := 0x8000_0000_0000_0000
  const TWO_64 := 0x1_0000_0000_0000_0000

  predicate IsInt64(a: int)
  {
    -TWO_63 <= a < TWO_63
  }

  /** The unsigned reading of a number, and back. */
  function ToUnsigned(a: int): (u: nat)
    ensures u < TWO_64
  {
    a % TWO_64
  }

  function ToSigned(u: nat): (a: int)
    requires u < TWO_64
    ensures IsInt64(a)
  {
    if u >= TWO_63 then u - TWO_64 else u
  }

  /** The 64-bit number that differs from a by a multiple of 2^64. */
  function Wrap(a: int): (r: int)
    ensures IsInt64(r)
  {
    ToSigned(ToUnsigned(a))
  }

  lemma WrapIsCongruent(a: int)
    ensures (Wrap(a) - a) % TWO_64 == 0
    ensures IsInt64(a) ==> Wrap(a) == a
  {
  }

  /** Dividing by -1 is a negation that wraps; otherwise C's division, which truncates. */
  function Div(a: int, b: int): Option<int>
    requires IsInt64(a) && IsInt64(b)
  {
    if b == 0 then None else if b == -1 then Some(ToSigned(ToUnsigned(0 - ToUnsigned(a)))) else Some(Quotient(a, b))
  }

  function Mod(a: int, b: int): Option<int>
    requires IsInt64(a) && IsInt64(b)
  {
    if b == 0 then None else if b == -1 then Some(0) else Some(Remainder(a, b))
  }

  /**
    Division and remainder fail together, on zero; otherwise they fit in 64 bits, the remainder is
    smaller than the divisor and has the sign of the dividend, and together they give the dividend
    back, up to the one wrap-around, of the least number divided by -1.
  */
  lemma DivModLaw(a: int, b: int)
    requires IsInt64(a) && IsInt64(b)
    ensures Div(a, b).None? <==> b == 0
    ensures Mod(a, b).None? <==> b == 0
    ensures b != 0 ==> var q, r := Div(a, b).value, Mod(a, b).value;
      && IsInt64(q) && Abs(r) < Abs(b) && (r == 0 || (r > 0 <==> a > 0))
      && Wrap(q * b + r) == a
      && (q * b + r == a <==> !(a == -TWO_63 && b == -1))
  {
    hide Quotient, Remainder, Abs;
    if b == -1 {
      MinusOne(a);
    } else if b != 0 {
      QuotientRemainder(a, b);
      QuotientSmaller(a, b);
      WrapIsCongruent(a);
    }
  }

  lemma MinusOne(a: int)
    requires IsInt64(a)
    ensures var q := Div(a, -1).value;
      && IsInt64(q) && Abs(0) < Abs(-1) && Wrap(-q) == a && (q == -a <==> a != -TWO_63) && q * -1 + 0 == -q
  {
  }

  lemma QuotientRemainder(a: int, b: int)
    requires b != 0
    ensures Quotient(a, b) * b + Remainder(a, b) == a
    ensures Abs(Remainder(a, b)) < Abs(b) && (Remainder(a, b) == 0 || (Remainder(a, b) > 0 <==> a > 0))
  {
    hide Quotient, Remainder;
    var r := SignedParts(a, b);
  }

  /** Division of the absolute values, and the signs put back. */
  lemma SignedParts(a: int, b: int) returns (r: int)
    requires b != 0
    ensures 0 <= r < Abs(b) && Remainder(a, b) == if a >= 0 then r else -r
    ensures Quotient(a, b) * b == if a >= 0 then Abs(a) - r else r - Abs(a)
  {
    hide Quotient, Remainder;
    var q;
    q, r := AbsoluteParts(a, b);
    Reassemble(Abs(a), Abs(b), q, r, b, b < 0, Quotient(a, b), (a >= 0) != (b > 0));
  }

  lemma AbsoluteParts(a: int, b: int) returns (q: int, r: int)
    requires b != 0
    ensures Abs(a) == Abs(b) * q + r && 0 <= r < Abs(b)
    ensures Quotient(a, b) == if (a >= 0) == (b > 0) then q else -q
    ensures Remainder(a, b) == if a >= 0 then r else -r
  {
    q, r := Abs(a) / Abs(b), Abs(a) % Abs(b);
  }

  /** The signs of quotient and divisor cancel or not. */
  lemma Reassemble(x: int, m: int, q: int, r: int, b: int, minusB: bool, p: int, minusP: bool)
    requires x == m * q + r && b == (if minusB then -m else m) && p == (if minusP then -q else q)
    ensures p * b == if minusB == minusP then x - r else r - x
  {
    Negated(q, m);
  }

  lemma Negated(q: int, m: int)
    ensures q * m == m * q && -q * m == -(m * q) && q * -m == -(m * q) && -q * -m == m * q
  {
  }

  lemma QuotientSmaller(a: int, b: int)
    requires b != 0 && b != -1 && IsInt64(a)
    ensures IsInt64(Quotient(a, b))
  {
    var x, m := Abs(a), Abs(b);
    SmallerQuotient(x, m);
  }

  lemma SmallerQuotient(x: nat, m: nat)
    requires m > 0
    ensures 0 <= x / m <= x && (m > 1 ==> 2 * (x / m) <= x)
  {
    Smaller(x, m, x / m, x % m);
  }

  lemma Smaller(x: int, m: int, q: int, r: int)
    requires x >= 0 && x == m * q + r && 0 <= r < m
    ensures 0 <= q <= x && (m > 1 ==> 2 * q <= x)
  {
    MultipleOutside(m, q);
    if q >= 0 {
      assert m * q == q + (m - 1) * q;
      assert (m - 1) * q >= 0;
      assert m > 1 ==> (m - 2) * q >= 0 && m * q == 2 * q + (m - 2) * q;
    }
  }

  // ---------------------------------------------------------------------
  // Power
  // ---------------------------------------------------------------------

  function Power(base: int, exp: nat): int
  {
    if exp == 0 then 1 else base * Power(base, exp - 1)
  }

  lemma {:induction false} PowerAdds(base: int, m: nat, n: nat)
    ensures Power(base, m + n) == Power(base, m) * Power(base, n)
    decreases m
  {
    if m > 0 {
      PowerAdds(base, m - 1, n);
      assert Power(base, m + n) == base * Power(base, m - 1 + n);
      Regroup(base, Power(base, m - 1), Power(base, n));
    }
  }

  lemma Regroup(a: int, b: int, c: int)
    ensures a * (b * c) == (a * b) * c
  {
  }

  /** Squaring the base halves the exponent. */
  lemma {:induction false} PowerOfSquare(base: int, n: nat)
    ensures Power(base * base, n) == Power(base, 2 * n)
    decreases n
  {
    if n > 0 {
      PowerOfSquare(base, n - 1);
      assert 2 * n == 2 + (2 * n - 2);
      PowerAdds(base, 2, 2 * n - 2);
      assert Power(base, 2) == base * Power(base, 1) == base * base;
    }
  }

  /** Factors may be reduced before or after multiplying. */
  lemma ReduceFactors(a: int, b: int, m: int)
    requires m > 0
    ensures ((a % m) * (b % m)) % m == (a * b) % m
  {
    var p, q := a / m, b / m;
    var r, s := a % m, b % m;
    assert a == m * p + r && b == m * q + s;
    Expand(m, p, r, q, s);
    SameRest(r * s, a * b, m, p * (m * q + s) + r * q);
  }

  lemma Expand(m: int, p: int, r: int, q: int, s: int)
    ensures (m * p + r) * (m * q + s) == m * (p * (m * q + s) + r * q) + r * s
  {
    Distribute(m * p, r, m * q + s);
    Distribute(m * q, s, r);
    Regroup(m, p, m * q + s);
    Regroup(m, q, r);
    Distribute(p * (m * q + s), r * q, m);
  }

  lemma Distribute(a: int, b: int, c: int)
    ensures (a + b) * c == a * c + b * c
  {
  }

  lemma SameRest(x: int, y: int, m: int, k: int)
    requires m > 0 && y == m * k + x
    ensures x % m == y % m
  {
    var q, r := x / m, x % m;
    assert x == m * q + r;
    Distribute(k, q, m);
    assert y == m * (k + q) + r;
    QuotientAndRest(y, m, k + q, r);
  }

  lemma ReducedProduct(a: int, b: int, x: int, y: int, m: int)
    requires m > 0 && a % m == b % m && x % m == y % m
    ensures (a * x) % m == (b * y) % m
  {
    ReduceFactors(a, x, m);
    ReduceFactors(b, y, m);
  }

  lemma {:induction false} PowerReduces(base: int, n: nat, m: int)
    requires m > 0
    ensures Power(base % m, n) % m == Power(base, n) % m
    decreases n
  {
    if n > 0 {
      PowerReduces(base, n - 1, m);
      QuotientAndRest(base % m, m, 0, base % m);
      ReducedProduct(base % m, base, Power(base % m, n - 1), Power(base, n - 1), m);
    }
  }

  /**
    Square and multiply, all in 64-bit unsigned arithmetic: the result is the true power, wrapped.
    A negative exponent leaves the integers.
  */
  method Pow(a: int, b: int) returns (r: Option<int>)
    requires IsInt64(a) && IsInt64(b)
    ensures b < 0 ==> r == None
    ensures b >= 0 ==> r == Some(Wrap(Power(a, b)))
  {
    if b < 0 {
      return None;
    }
    hide Power;
    var exp, base, result := b, ToUnsigned(a), 1;
    PowerReduces(a, b, TWO_64);
    while exp > 0
      invariant exp >= 0 && 0 <= base < TWO_64 && 0 <= result < TWO_64
      invariant (result * Power(base, exp)) % TWO_64 == Power(a, b) % TWO_64
      decreases exp
    {
      SquareStep(result, base, exp);
      if exp % 2 == 1 {
        result := (result * base) % TWO_64;
      }
      base := (base * base) % TWO_64;
      exp := exp / 2;
    }
    NoPower(base, result);
    return Some(ToSigned(result));
  }

  lemma {:induction false} NoPower(base: int, result: int)
    requires 0 <= result < TWO_64
    ensures (result * Power(base, 0)) % TWO_64 == result
  {
  }

  /** One round keeps result * base^exp, modulo 2^64. */
  lemma {:induction false} SquareStep(result: nat, base: nat, exp: nat)
    requires exp > 0
    ensures var next := if exp % 2 == 1 then (result * base) % TWO_64 else result;
      (next * Power((base * base) % TWO_64, exp / 2)) % TWO_64 == (result * Power(base, exp)) % TWO_64
  {
    var h := exp / 2;
    var odd := if exp % 2 == 1 then base else 1;
    var next := if exp % 2 == 1 then (result * base) % TWO_64 else result;
    PowerReduces(base * base, h, TWO_64);
    PowerOfSquare(base, h);
    var p := Power(base, 2 * h);
    ReduceFactors(next, Power((base * base) % TWO_64, h), TWO_64);
    ReduceFactors(next, p, TWO_64);
    assert exp == exp % 2 + 2 * h;
    PowerAdds(base, exp % 2, 2 * h);
    assert Power(base, exp % 2) == odd;
    Regroup(result, odd, p);
    ReduceFactors(result * odd, p, TWO_64);
    ReduceFactors(next, p, TWO_64);
    assert next % TWO_64 == (result * odd) % TWO_64;
  }
}
