/** `struct A` and `struct B` of src/oop/oo.cpp: an `int` counter with
    prefix and postfix increment, conversions to `int` and `double`, `swap`
    and copy-and-swap assignment, and `B`'s equality. */
module Operators {
  import opened IntArith

  class A {
    var x: int

    /** `x` is an `int`. */
    predicate Valid()
      reads this
    {
      InInt(x)
    }

    /** The default member initializer `x = 0`. */
    constructor ()
      ensures Valid() && x == 0
    {
      x := 0;
    }

    /** The implicit copy constructor. */
    constructor Copy(other: A)
      ensures x == other.x
    {
      x := other.x;
    }

    /** `explicit operator int`: 1, whatever `x` holds. */
    function ToInt(): int {
      1
    }

    /** `operator double`: 2.0, whatever `x` holds. */
    function ToDouble(): real {
      2.0
    }

    /** Prefix `++`: increments `x` and returns this very object. Signed
        overflow is undefined, so `x` is below `INT_MAX`. */
    method PreIncrement() returns (self: A)
      requires Valid() && x < INT_MAX
      modifies this
      ensures Valid() && self == this && x == old(x) + 1
    {
      x := x + 1;
      self := this;
    }

    /** Postfix `++`: a fresh copy of the old value is returned and the
        object itself is incremented through the prefix operator. */
    method PostIncrement() returns (before: A)
      requires Valid() && x < INT_MAX
      modifies this
      ensures Valid() && fresh(before) && before.Valid()
      ensures before.x == old(x) && x == old(x) + 1
    {
      before := new A.Copy(this);
      var _ := PreIncrement();
    }

    /** The friend `swap`. */
    static method Swap(a: A, b: A)
      modifies a, b
      ensures a.x == old(b.x) && b.x == old(a.x)
    {
      a.x, b.x := b.x, a.x;
    }

    /** `operator=(A a)`: the argument is copied into the by-value parameter,
        which is swapped with this object; the source is left as it was,
        even on self-assignment. */
    method Assign(source: A) returns (self: A)
      requires Valid() && source.Valid()
      modifies this
      ensures Valid() && self == this
      ensures x == old(source.x) && source.x == old(source.x)
      ensures Equal(this, source)
    {
      var parameter := new A.Copy(source);
      Swap(this, parameter);
      self := this;
    }
  }

  /** `B`'s friend `operator==`. `B` adds no state to `A`, so a `B` is
      modelled as an `A`. */
  predicate Equal(lhs: A, rhs: A)
    reads lhs, rhs
  {
    lhs.x == rhs.x
  }

  /** `operator==` is an equivalence relation. */
  lemma EqualIsEquivalence(a: A, b: A, c: A)
    ensures Equal(a, a)
    ensures Equal(a, b) <==> Equal(b, a)
    ensures Equal(a, b) && Equal(b, c) ==> Equal(a, c)
  {
  }

  /** `main`: a value-initialized `A` converts explicitly to the `int` 1 and
      implicitly to the `double` 2.0. */
  method ConversionsExample() returns (x: int, y: real)
    ensures x == 1 && y == 2.0
  {
    var a := new A();
    x := a.ToInt();
    var b := new A();
    y := b.ToDouble();
  }

  /** Pre- and postfix increment agree on the new state and differ only in
      what they return: the object itself against a copy of the old value. */
  method IncrementExample() returns (pre: A, post: A, before: A)
    ensures pre.x == 1 && post.x == 1 && before.x == 0 && Equal(pre, post)
    ensures pre != post && before != post
  {
    var a := new A();
    pre := a.PreIncrement();
    post := new A();
    before := post.PostIncrement();
  }
}
