/** The template metaprograms of src/template/meta.cpp: `Factorial<N>`, the
    `constexpr` loop `factorial(n)`, `Log2<N>`, `Max<A, B>` and `Log<N, BASE>`.
    A template argument is a compile-time `int`; an instantiation whose
    recursion never reaches a specialisation does not compile, so each
    function requires what makes its recursion end. */
module Meta {
  import opened IntArith

  /** `Factorial<N>`: the specialisation `Factorial<0>` is 1 and every other
      `N` multiplies by `Factorial<N - 1>`. A negative `N` never reaches the
      specialisation. */
  function Factorial(n: nat): (r: nat)
    ensures r >= 1
    ensures r >= n
  {
    if n == 0 then 1 else n * Factorial(n - 1)
  }

  /** `Factorial<N>::value` is an `int` constant: it is representable
      exactly up to `N == 12`; `Factorial<13>` overflows, which makes the
      constant expression ill-formed. */
  lemma {:induction false} FactorialFitsInt(n: nat)
    ensures n <= 12 ==> InInt(Factorial(n))
    ensures n >= 13 ==> !InInt(Factorial(n))
  {
    if n <= 12 {
      FactorialMonotone(n, 12);
      assert Factorial(12) == 479001600;
    } else {
      FactorialMonotone(13, n);
      assert Factorial(13) == 6227020800;
    }
  }

  lemma {:induction false} FactorialMonotone(m: nat, n: nat)
    requires m <= n
    ensures Factorial(m) <= Factorial(n)
  {
    if m < n {
      FactorialMonotone(m, n - 1);
      LessTimes(1, n, Factorial(n - 1));
    }
  }

  /** The `constexpr` `factorial(n)`: start from 1 and multiply by every `i`
      from 2 up to `n`. For `n <= 1`, negative `n` included, the loop does
      not run and the result is 1. The product is an `int`, so `n` is at most
      12. */
  method LoopFactorial(n: int) returns (r: int)
    requires n <= 12
    ensures n >= 0 ==> r == Factorial(n)
    ensures n < 0 ==> r == 1
    ensures InInt(r)
  {
    var tmp := 1;
    var i := 2;
    while i <= n
      invariant 2 <= i <= if n >= 1 then n + 1 else 2
      invariant tmp == Factorial(i - 1)
    {
      tmp := tmp * i;
      i := i + 1;
    }
    r := tmp;
    assert Factorial(1) == Factorial(0) == 1;
    if n >= 0 {
      FactorialFitsInt(n);
    }
  }

  /** The two `static_assert`s of the factorial test. */
  lemma FactorialOfFive()
    ensures Factorial(5) == 120
  {
  }

  /** `Log2<N>`: `Log2<1>` is 0 and every other positive `N` adds one to
      `Log2<N / 2>`; the result is the floor of the binary logarithm. */
  function Log2(n: int): (r: nat)
    requires n > 0
    ensures Pow(2, r) <= n < Pow(2, r + 1)
  {
    DivFacts(n, 2);
    if n == 1 then 0 else 1 + Log2(n / 2)
  }

  /** `Max<A, B>`. */
  function Max(a: int, b: int): (r: int)
    ensures r >= a && r >= b
    ensures r == a || r == b
  {
    if a > b then a else b
  }

  /** `Log<N, BASE>`: the specialisation `Log<1, BASE>` is 0 for any `BASE`;
      every other `N` adds one to `Log<Max<1, N / BASE>, BASE>`. For `N > 1`
      the recursion reaches 1 only when `BASE >= 2`: for `BASE == 1` it
      instantiates `Log<N, 1>` again, and `BASE <= 0` fails its
      `static_assert`. */
  function Log(n: int, base: int): (r: nat)
    requires n > 0 && (n == 1 || base >= 2)
    ensures r == 0 <==> n == 1
    ensures base >= 2 ==> FloorLog(n, base) <= r <= FloorLog(n, base) + 1
    decreases n
  {
    if n == 1 then 0 else
      DivFacts(n, base);
      1 + Log(Max(1, n / base), base)
  }

  /** `Log<1, BASE>` is 0 whatever `BASE` is, the base of the recursion
      included. */
  lemma LogOfOne(base: int)
    ensures Log(1, base) == 0
  {
  }

  /** `Log<BASE^k, BASE>` is `k`. */
  lemma {:induction false} LogOfPower(base: int, k: nat)
    requires base >= 2
    ensures Pow(base, k) > 0 && Log(Pow(base, k), base) == k
  {
    if k > 0 {
      LogOfPower(base, k - 1);
      var p := Pow(base, k - 1);
      MulDivCancel(p, base);
      LessTimes(1, base, p);
      assert Pow(base, k) == p * base > 1;
    }
  }

  /** In base 2 the general `Log` is `Log2`. */
  lemma {:induction false} LogBaseTwoIsLog2(n: int)
    requires n > 0
    ensures Log(n, 2) == Log2(n)
  {
    DivFacts(n, 2);
    if n > 1 {
      LogBaseTwoIsLog2(n / 2);
    }
  }

  /** The `static_assert`s of the `Log2` test. */
  lemma Log2StaticAsserts()
    ensures Log2(8) == 3 && Log2(1024) == 10
  {
    assert Pow(2, 3) == 8 && Pow(2, 10) == 1024;
  }

  /** The `static_assert`s of the `Log` test. */
  lemma LogStaticAsserts()
    ensures Log(8, 2) == 3 && Log(1024, 2) == 10 && Log(1000, 10) == 3
  {
    assert Pow(2, 3) == 8 && Pow(2, 10) == 1024 && Pow(10, 3) == 1000;
    LogOfPower(2, 3);
    LogOfPower(2, 10);
    LogOfPower(10, 3);
  }

  /** The floor of the logarithm of `n` in base `base`. */
  function FloorLog(n: int, base: int): (r: nat)
    requires n > 0 && base >= 2
    ensures Pow(base, r) <= n < Pow(base, r + 1)
    decreases n
  {
    DivFacts(n, base);
    if n < base then 0 else
      var r' := FloorLog(n / base, base);
      FloorLogStep(n, base, r');
      1 + r'
  }

  /** If `r` is the floor of the logarithm of `n / base`, then `r + 1` is
      that of `n`. */
  lemma FloorLogStep(n: int, base: int, r: nat)
    requires n > 0 && base >= 2
    requires Pow(base, r) <= n / base < Pow(base, r + 1)
    ensures Pow(base, r + 1) <= n < Pow(base, r + 2)
  {
    DivFacts(n, base);
    ScaleBounds(n / base, Pow(base, r), Pow(base, r + 1), base, n);
    assert Pow(base, r + 1) == base * Pow(base, r);
    assert Pow(base, r + 2) == base * Pow(base, r + 1);
  }

  lemma ScaleBounds(q: int, p: int, p1: int, b: int, n: int)
    requires p <= q < p1 && b > 0 && q * b <= n < q * b + b
    ensures p * b <= n < p1 * b
  {
    LessTimes(p, q, b);
    LessTimes(q + 1, p1, b);
    assert (q + 1) * b == q * b + b;
  }

  /** The most significant digit of `n` written in base `base`. */
  function LeadingDigit(n: int, base: int): (d: int)
    requires n > 0 && base >= 2
    ensures 1 <= d < base
    decreases n
  {
    DivFacts(n, base);
    if n < base then n else LeadingDigit(n / base, base)
  }

  /** What `Log` computes: the floor of the logarithm when the leading digit
      is 1 (always so in base 2, and for every power of the base), and one
      more otherwise. */
  lemma {:induction false} LogIsFloorLogUpToLeadingDigit(n: int, base: int)
    requires n > 0 && base >= 2
    ensures Log(n, base) == FloorLog(n, base) + (if LeadingDigit(n, base) == 1 then 0 else 1)
    decreases n
  {
    DivFacts(n, base);
    if n >= base {
      LogIsFloorLogUpToLeadingDigit(n / base, base);
    }
  }

  /** `Log<20, 10>` is 2, although 10^2 exceeds 20: the floor is 1. */
  lemma LogOverestimatesExample()
    ensures Log(20, 10) == 2 && FloorLog(20, 10) == 1 && Pow(10, 2) > 20
  {
  }
}
