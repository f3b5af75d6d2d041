/** The function templates of src/template/func.cpp, at the instantiations
    the file uses with integers: `add` for `int` and for `std::string`,
    `add<T, U>()` and `sub<T, U>()` on `int` template arguments,
    `ceil_div<a>(b)` for `int`, and the generic `equal`. */
module Func {
  import opened IntArith

  /** `add(a, b)` for `T = int`; signed overflow is undefined, hence excluded. */
  function Add(a: int, b: int): (r: int)
    requires InInt(a) && InInt(b) && InInt(a + b)
    ensures InInt(r) && r - b == a && r - a == b
  {
    a + b
  }

  /** `add<std::string>`, the explicit instantiation: `+` concatenates. */
  function AddStrings(a: string, b: string): (r: string)
    ensures |r| == |a| + |b|
    ensures r[..|a|] == a && r[|a|..] == b
  {
    a + b
  }

  /** `add<T, U>()`: the sum of two `int` template arguments, computed at
      compile time, where overflow makes the program ill-formed. */
  function AddConst(T: int, U: int): (r: int)
    requires InInt(T) && InInt(U) && InInt(T + U)
    ensures InInt(r) && r - U == T && r - T == U
  {
    T + U
  }

  /** `sub<T, U>()` for signed template arguments of a common type that holds
      the difference. */
  function SubConst(T: int, U: int): (r: int)
    requires InInt(T) && InInt(U) && InInt(T - U)
    ensures InInt(r) && r + U == T && T - r == U
  {
    T - U
  }

  /** The call `sub<1ll, 2u>()` in `f`: with a 32-bit `unsigned`, `2u`
      converts to `long long`, so the difference is the signed -1. */
  lemma SubConstExample()
    ensures SubConst(1, 2) == -1
  {
  }

  /** `sub` undoes `add` and `add` undoes `sub`. */
  lemma AddSubInverse(T: int, U: int)
    requires InInt(T) && InInt(U)
    ensures InInt(T + U) ==> SubConst(AddConst(T, U), U) == T
    ensures InInt(T - U) ==> AddConst(SubConst(T, U), U) == T
  {
  }

  /** `ceil_div<a>(b)` for `T = int`: `(a + b - 1) / b` with C++ division.
      For a non-negative `a` and a positive `b` it is the ceiling of `a / b`. */
  function CeilDivConst(a: int, b: int): (r: int)
    requires InInt(a) && InInt(b) && b != 0
    requires InInt(a + b) && InInt(a + b - 1)
    requires !(a + b - 1 == INT_MIN && b == -1)
    ensures InInt(r)
    ensures a >= 0 && b > 0 ==> IsCeilingOf(r, a, b)
  {
    TruncDivBound(a + b - 1, b);
    if a >= 0 && b > 0 then
      OffsetQuotientIsCeiling(a, b);
      TruncDiv(a + b - 1, b)
    else
      TruncDiv(a + b - 1, b)
  }

  /** The call `ceil_div<3>(2)` in `f`, whose comment gives 2. */
  lemma CeilDivConstExample()
    ensures CeilDivConst(3, 2) == 2
  {
  }

  /** The primary `equal` template compares with `==`. */
  function Equal<T(==)>(a: T, b: T): (r: bool)
  {
    a == b
  }

  /** `equal` is an equivalence relation that holds exactly of equal values. */
  lemma EqualIsEquivalence<T>(a: T, b: T, c: T)
    ensures Equal(a, a)
    ensures Equal(a, b) <==> Equal(b, a)
    ensures Equal(a, b) && Equal(b, c) ==> Equal(a, c)
    ensures Equal(a, b) <==> a == b
  {
  }
}
