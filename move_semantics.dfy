/** `struct A` of test/test.cpp: an object owning a heap array of `s`
    integers through the pointer `p`, with a deep copy, a move that steals
    the buffer, `swap`, copy assignment and the three designs of move
    assignment the file selects between with `DESIGN`. A null `p` is a
    moved-from object. */
module MoveSemantics {

  class A {
    var s: nat
    var p: array?<int>

    /** `p` owns exactly `s` integers, or is null with `s == 0`. */
    predicate Valid()
      reads this
    {
      if p == null then s == 0 else p.Length == s
    }

    /** The integers the object owns. */
    function Contents(): (c: seq<int>)
      requires Valid()
      reads this, p
      ensures |c| == s
    {
      if p == null then [] else p[..]
    }

    /** `A(s)`: a fresh buffer of `s` integers (their values are
        indeterminate in C++, so nothing is said about them). */
    constructor (s: nat)
      ensures Valid() && this.s == s && p != null && fresh(p)
    {
      this.s := s;
      p := new int[s];
    }

    /** The copy constructor: a fresh buffer holding the same integers. */
    constructor Copy(other: A)
      requires other.Valid()
      ensures Valid() && s == other.s && p != null && fresh(p)
      ensures Contents() == other.Contents()
    {
      var buffer := new int[other.s];
      var i := 0;
      while i < other.s
        invariant 0 <= i <= other.s
        invariant buffer[..i] == other.Contents()[..i]
      {
        buffer[i] := other.p[i];
        i := i + 1;
      }
      s := other.s;
      p := buffer;
    }

    /** The move constructor: takes over the other's buffer and leaves the
        other empty. */
    constructor Move(other: A)
      requires other.Valid()
      modifies other
      ensures Valid() && s == old(other.s) && p == old(other.p)
      ensures other.Valid() && other.s == 0 && other.p == null
    {
      s := other.s;
      p := other.p;
      new;
      other.s := 0;
      other.p := null;
    }

    /** The friend `swap`: exchanges `s` and `p`, and nothing else. */
    static method Swap(a: A, b: A)
      modifies a, b
      ensures a.s == old(b.s) && a.p == old(b.p)
      ensures b.s == old(a.s) && b.p == old(a.p)
    {
      a.s, b.s := b.s, a.s;
      a.p, b.p := b.p, a.p;
    }

    /** Copy assignment (designs 1 and 2): nothing happens on self-assignment;
        otherwise the old buffer is released and a fresh copy of the other's
        integers takes its place. */
    method CopyAssign(other: A)
      requires Valid() && other.Valid()
      modifies this
      ensures Valid()
      ensures this == other ==> s == old(s) && p == old(p)
      ensures this != other ==> s == old(other.s) && p != null && fresh(p)
      ensures Contents() == old(other.Contents())
    {
      if this != other {
        var buffer := new int[other.s];
        var i := 0;
        while i < other.s
          invariant 0 <= i <= other.s
          invariant buffer[..i] == other.Contents()[..i]
        {
          buffer[i] := other.p[i];
          i := i + 1;
        }
        p := buffer;
        s := other.s;
      }
    }

    /** Move assignment, design 1: swap with the source, which receives the
        target's old buffer. */
    method MoveAssignBySwap(other: A)
      requires Valid() && other.Valid()
      modifies this, other
      ensures Valid() && other.Valid()
      ensures s == old(other.s) && p == old(other.p)
      ensures other.s == old(s) && other.p == old(p)
    {
      Swap(this, other);
    }

    /** Move assignment, design 2: release the target's buffer, take the
        source's, and empty the source. Moving an object into itself
        releases its buffer and leaves it empty. */
    method MoveAssignBySteal(other: A)
      requires Valid() && other.Valid()
      modifies this, other
      ensures Valid() && other.Valid()
      ensures this != other ==> s == old(other.s) && p == old(other.p)
      ensures other.s == 0 && other.p == null
    {
      s := other.s;
      p := other.p;
      other.s := 0;
      other.p := null;
    }

    /** Assignment, design 3: the parameter is taken by value, so it is a
        separate object, and the target swaps its state with it; the
        parameter then dies with the target's old buffer. */
    method AssignByValue(arg: A)
      requires Valid() && arg.Valid() && arg != this
      modifies this, arg
      ensures Valid() && arg.Valid()
      ensures s == old(arg.s) && p == old(arg.p)
      ensures arg.s == old(s) && arg.p == old(p)
    {
      Swap(this, arg);
    }

    /** `a2 = a1` under design 3: the parameter is copy-constructed from
        `a1`, so `a2` ends with a fresh copy and `a1` is untouched, even when
        `a2` and `a1` are the same object. */
    method CopyAssignByValue(other: A)
      requires Valid() && other.Valid()
      modifies this
      ensures Valid() && s == old(other.s) && p != null && fresh(p)
      ensures Contents() == old(other.Contents())
      ensures this != other ==> other.s == old(other.s) && other.p == old(other.p)
    {
      var arg := new A.Copy(other);
      AssignByValue(arg);
    }

    /** `a2 = std::move(a1)` under design 3: the parameter is move-constructed
        from `a1`, so `a2` takes `a1`'s buffer and `a1` is left empty; an
        object moved into itself gets its own buffer back. */
    method MoveAssignByValue(other: A)
      requires Valid() && other.Valid()
      modifies this, other
      ensures Valid() && other.Valid()
      ensures this != other ==> s == old(other.s) && p == old(other.p) && other.s == 0 && other.p == null
      ensures this == other ==> s == old(s) && p == old(p)
    {
      var arg := new A.Move(other);
      AssignByValue(arg);
    }
  }

  /** The body of `test_copy` and `test_move` without the clock, built with
      `DESIGN == 2`: two objects of 2048 integers, then a copy assignment or
      a move assignment that steals the buffer. `stolen` is the buffer the
      moved-from object held before the move. */
  method AssignmentTest() returns (copied: A, source: A, moved: A, emptied: A, stolen: array?<int>)
    ensures copied.Valid() && source.Valid() && copied.p != source.p
    ensures copied.Contents() == source.Contents() && copied.s == 2048
    ensures moved.Valid() && moved.s == 2048 && emptied.Valid() && emptied.s == 0 && emptied.p == null
    ensures stolen != null && moved.p == stolen
  {
    source := new A(2 * 1024);
    copied := new A(2 * 1024);
    copied.CopyAssign(source);
    emptied := new A(2 * 1024);
    stolen := emptied.p;
    moved := new A(2 * 1024);
    moved.MoveAssignBySteal(emptied);
  }

  /** `test_move` built without `DESIGN`: no move assignment is declared and
      copy assignment is, so `a2 = std::move(a1)` copies, and `a1` keeps its
      buffer. */
  method MoveWithoutDesignTest() returns (target: A, source: A)
    ensures target.Valid() && source.Valid() && target.p != source.p
    ensures target.Contents() == source.Contents() && target.s == 2048 && source.s == 2048
  {
    source := new A(2 * 1024);
    target := new A(2 * 1024);
    target.CopyAssign(source);
  }
}
