/** Fixed-width integer arithmetic as C++ performs it: the 32-bit `int`
    range, truncating division, powers, and what it means for an integer
    to be the ceiling or the floor of a quotient. */
module IntArith {

  const INT_MIN: int := -0x8000_0000
  const INT_MAX: int := 0x7fff_ffff

  /** A value representable as a 32-bit C++ `int`. */
  predicate InInt(x: int) {
    INT_MIN <= x <= INT_MAX
  }

  function Abs(x: int): (r: nat)
    ensures r == x || r == -x
  {
    if x < 0 then -x else x
  }

  /** `a / b` on C++ integers: the quotient rounded toward zero.
      (Dafny's own `/` is Euclidean and differs when an operand is negative.) */
  function TruncDiv(a: int, b: int): (q: int)
    requires b != 0
    ensures q == 0 <==> Abs(a) < Abs(b)
    ensures q > 0 ==> (a > 0) == (b > 0)
    ensures q < 0 ==> (a > 0) != (b > 0)
  {
    DivFacts(Abs(a), Abs(b));
    if (a >= 0) == (b > 0) then Abs(a) / Abs(b) else -(Abs(a) / Abs(b))
  }

  /** TruncDiv is truncation: `q * b` lies between 0 and `a` and misses `a`
      by less than `|b|`, which pins `q` down uniquely. */
  lemma TruncDivIsTruncation(a: int, b: int)
    requires b != 0
    ensures var q := TruncDiv(a, b);
      && (a >= 0 ==> 0 <= q * b <= a)
      && (a <= 0 ==> a <= q * b <= 0)
      && Abs(a - q * b) < Abs(b)
  {
    var m: int, n: int := Abs(a), Abs(b);
    var k: int := m / n;
    QuotientFacts(m, n);
    var q := TruncDiv(a, b);
    if a >= 0 && b > 0 {
      assert q == k && b == n;
    } else if a < 0 && b < 0 {
      assert q == k && b == -n;
      assert q * b == -(k * n);
    } else if a >= 0 {
      assert q == -k && b == -n;
      assert q * b == k * n;
    } else {
      assert q == -k && b == n;
      assert q * b == -(k * n);
    }
  }

  /** For a non-negative dividend and a positive divisor C++ and Dafny agree. */
  lemma TruncDivNonNegative(a: int, b: int)
    requires a >= 0 && b > 0
    ensures TruncDiv(a, b) == a / b
  {
  }

  /** `c` is the ceiling of the rational `v / d`. */
  predicate IsCeilingOf(c: int, v: int, d: int)
    requires d != 0
  {
    if d > 0 then (c - 1) * d < v <= c * d else c * d <= v < (c - 1) * d
  }

  /** `f` is the floor of the rational `v / d`. */
  predicate IsFloorOf(f: int, v: int, d: int)
    requires d != 0
  {
    if d > 0 then f * d <= v < (f + 1) * d else (f + 1) * d < v <= f * d
  }

  /** The ceiling of a quotient is unique. */
  lemma CeilingUnique(c1: int, c2: int, v: int, d: int)
    requires d != 0 && IsCeilingOf(c1, v, d) && IsCeilingOf(c2, v, d)
    ensures c1 == c2
  {
    if c1 < c2 {
      LessTimes(c1, c2 - 1, d);
    } else if c2 < c1 {
      LessTimes(c2, c1 - 1, d);
    }
  }

  /** Multiplying both sides of `x <= y` by `d` keeps or flips the order. */
  lemma LessTimes(x: int, y: int, d: int)
    requires x <= y
    ensures d >= 0 ==> x * d <= y * d
    ensures d <= 0 ==> x * d >= y * d
  {
    assert y * d - x * d == (y - x) * d;
  }

  /** Adding `d - 1` before dividing rounds a non-negative quotient up. */
  lemma OffsetQuotientIsCeiling(v: int, d: int)
    requires v >= 0 && d > 0
    ensures IsCeilingOf((v + d - 1) / d, v, d)
  {
    var w := v + d - 1;
    var c := w / d;
    assert w == c * d + w % d && 0 <= w % d < d;
    assert (c - 1) * d == c * d - d;
  }

  /** When the exact quotient is not positive, rounding toward zero rounds up. */
  lemma TruncDivIsCeiling(v: int, d: int)
    requires d != 0 && !(v > 0 && d > 0) && !(v < 0 && d < 0)
    ensures IsCeilingOf(TruncDiv(v, d), v, d)
  {
    var q := TruncDiv(v, d);
    TruncDivIsTruncation(v, d);
    assert (q - 1) * d == q * d - d;
  }

  /** When the exact quotient is positive, rounding toward zero rounds down. */
  lemma TruncDivIsFloor(v: int, d: int)
    requires d != 0 && ((v >= 0 && d > 0) || (v <= 0 && d < 0))
    ensures IsFloorOf(TruncDiv(v, d), v, d)
  {
    var q := TruncDiv(v, d);
    TruncDivIsTruncation(v, d);
    assert (q + 1) * d == q * d + d;
  }

  /** The truncated quotient is no larger in magnitude than the dividend, and
      at most half of it once the divisor has magnitude two or more. */
  lemma TruncDivBound(a: int, b: int)
    requires b != 0
    ensures Abs(TruncDiv(a, b)) <= Abs(a)
    ensures Abs(b) >= 2 ==> 2 * Abs(TruncDiv(a, b)) <= Abs(a)
  {
    QuotientFacts(Abs(a), Abs(b));
  }

  /** Euclidean division of a non-negative number by a positive one: the
      quotient times the divisor falls short of the dividend by less than the
      divisor, and the quotient is at most the dividend, or half of it. */
  lemma QuotientFacts(m: int, n: int)
    requires m >= 0 && n > 0
    ensures 0 <= (m / n) * n <= m < (m / n) * n + n
    ensures 0 <= m / n <= m
    ensures n >= 2 ==> 2 * (m / n) <= m
  {
    var k := m / n;
    assert m == k * n + m % n && 0 <= m % n < n;
    LessTimes(1, n, k);
    if n >= 2 {
      LessTimes(2, n, k);
    }
  }

  /** Dividing a non-negative number by a positive one does not increase it. */
  lemma DivIsSmaller(w: int, d: int)
    requires w >= 0 && d >= 1
    ensures 0 <= w / d <= w
    ensures w < d ==> w / d == 0
  {
    var q := w / d;
    assert w == q * d + w % d && 0 <= w % d < d;
    LessTimes(1, d, q);
  }

  /** What Euclidean division of a natural number by a positive one yields. */
  lemma DivFacts(n: int, b: int)
    requires n >= 0 && b > 0
    ensures (n / b) * b <= n < (n / b) * b + b
    ensures 0 <= n / b <= n
    ensures n < b <==> n / b == 0
    ensures b >= 2 && n >= 1 ==> n / b < n
  {
    var q := n / b;
    assert n == q * b + n % b && 0 <= n % b < b;
    DivIsSmaller(n, b);
    if q >= 1 {
      LessTimes(1, q, b);
      if b >= 2 {
        LessTimes(2, b, q);
      }
    }
  }

  /** Multiplying by a positive number and dividing by it cancel. */
  lemma MulDivCancel(a: int, b: int)
    requires a >= 0 && b > 0
    ensures a * b / b == a
  {
    var q := a * b / b;
    DivFacts(a * b, b);
    if q < a {
      LessTimes(q + 1, a, b);
    } else if q > a {
      LessTimes(a + 1, q, b);
    }
  }

  /** Reducing a number below twice the modulus subtracts the modulus once. */
  lemma ModOnce(x: int, m: int)
    requires 0 < m <= x < 2 * m
    ensures x % m == x - m
  {
  }

  function Pow(b: nat, k: nat): (r: nat)
    ensures b >= 1 ==> r >= 1
  {
    if k == 0 then 1 else b * Pow(b, k - 1)
  }
}
