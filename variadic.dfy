/** The variadic templates of src/template/variadic.cpp. A parameter pack of
    arithmetic arguments is a sequence of integers, first argument first. */
module Variadic {

  /** Reference meaning of "the sum of the pack": the arguments added from
      the first to the last. */
  function Sum(xs: seq<int>): int {
    if xs == [] then 0 else Sum(xs[..|xs| - 1]) + xs[|xs| - 1]
  }

  /** Putting an argument in front of a pack adds it to the sum. */
  lemma {:induction false} SumCons(x: int, xs: seq<int>)
    ensures Sum([x] + xs) == x + Sum(xs)
  {
    if xs != [] {
      var ys := [x] + xs;
      assert ys[..|ys| - 1] == [x] + xs[..|xs| - 1];
      SumCons(x, xs[..|xs| - 1]);
    }
  }

  /** `Basic::add`: the two-argument overload adds its arguments; the
      variadic one adds its first argument to `add` of the rest. A pack of
      fewer than two arguments matches no overload. */
  function Add(args: seq<int>): (r: int)
    requires |args| >= 2
    ensures r == Sum(args)
    decreases |args|
  {
    assert args == [args[0]] + args[1..];
    SumCons(args[0], args[1..]);
    if |args| == 2 then
      SumCons(args[1], []);
      args[0] + args[1]
    else
      args[0] + Add(args[1..])
  }

  /** `Basic::square`. */
  function Square(x: int): (r: int)
    ensures r >= 0
  {
    x * x
  }

  /** Reference meaning of `add_square`: the squares of the arguments added
      from the first to the last. */
  function SumOfSquares(xs: seq<int>): int {
    if xs == [] then 0 else SumOfSquares(xs[..|xs| - 1]) + xs[|xs| - 1] * xs[|xs| - 1]
  }

  /** The pack expansion `square(args)...`. */
  function Squares(args: seq<int>): (r: seq<int>)
    ensures |r| == |args|
  {
    seq(|args|, i requires 0 <= i < |args| => Square(args[i]))
  }

  lemma {:induction false} SumOfSquaresIsSumOfSquared(xs: seq<int>)
    ensures Sum(Squares(xs)) == SumOfSquares(xs)
  {
    if xs != [] {
      var init := xs[..|xs| - 1];
      assert Squares(xs)[..|xs| - 1] == Squares(init);
      SumOfSquaresIsSumOfSquared(init);
    }
  }

  /** `Basic::add_square`: `add(square(args)...)`, so at least two arguments. */
  function AddSquare(args: seq<int>): (r: int)
    requires |args| >= 2
    ensures r == SumOfSquares(args)
    ensures r >= 0
  {
    SumOfSquaresIsSumOfSquared(args);
    SquaresNonNegative(args);
    Add(Squares(args))
  }

  lemma {:induction false} SquaresNonNegative(xs: seq<int>)
    ensures SumOfSquares(xs) >= 0
  {
    if xs != [] {
      SquaresNonNegative(xs[..|xs| - 1]);
    }
  }

  /** `Folding::add1`, the unary right fold `(args + ...)`: the first argument
      plus the fold of the rest. A unary fold over `+` needs a non-empty pack. */
  function Add1(args: seq<int>): (r: int)
    requires |args| >= 1
    ensures r == Sum(args)
    decreases |args|
  {
    assert args == [args[0]] + args[1..];
    SumCons(args[0], args[1..]);
    if |args| == 1 then args[0] else args[0] + Add1(args[1..])
  }

  /** The binary left fold `(init + ... + args)`: `((init + a1) + a2) + ...`. */
  function LeftFoldAdd(init: int, args: seq<int>): (r: int)
    ensures r == init + Sum(args)
    decreases |args|
  {
    if args == [] then init else
      assert args == [args[0]] + args[1..];
      SumCons(args[0], args[1..]);
      LeftFoldAdd(init + args[0], args[1..])
  }

  /** `Folding::add2`, `(0 + ... + args)`: the sum, 0 for an empty pack. */
  function Add2(args: seq<int>): (r: int)
    ensures r == Sum(args)
    ensures args == [] ==> r == 0
  {
    LeftFoldAdd(0, args)
  }

  /** The built-in comma operator: evaluate both operands, yield the right one. */
  function Comma(a: int, b: int): int {
    b
  }

  /** `Folding::comma1`, the unary right fold `(args, ...)`. An empty pack
      yields `void`, not a value, so the pack is non-empty. */
  function Comma1(args: seq<int>): (r: int)
    requires |args| >= 1
    ensures r == args[|args| - 1]
    decreases |args|
  {
    if |args| == 1 then args[0] else Comma(args[0], Comma1(args[1..]))
  }

  /** The unary left fold `(..., args)` over the comma operator, carried out
      from an accumulated left operand. */
  function LeftFoldComma(acc: int, rest: seq<int>): (r: int)
    ensures r == if rest == [] then acc else rest[|rest| - 1]
    decreases |rest|
  {
    if rest == [] then acc else LeftFoldComma(Comma(acc, rest[0]), rest[1..])
  }

  /** `Folding::comma2`, `(..., args)`: `((a1, a2), a3), ...`. */
  function Comma2(args: seq<int>): (r: int)
    requires |args| >= 1
    ensures r == args[|args| - 1]
  {
    LeftFoldComma(args[0], args[1..])
  }

  /** Both comma folds yield the last argument, and both additive folds and
      the recursive `add` yield the same sum. */
  lemma FoldsAgree(args: seq<int>)
    requires |args| >= 2
    ensures Comma1(args) == Comma2(args)
    ensures Add(args) == Add1(args) == Add2(args)
  {
  }
}
