/** The SOLID examples of src/design/SOLID.cpp that carry behaviour: the
    journal with its entry counter, the product filters and
    specifications, the rectangle and the square that breaks substitution,
    and the parent/child relationship store with its query. */
module Solid {
  import opened IntArith

  datatype Option<T> = None | Some(value: T)

  // ---------------------------------------------------------------------
  // Single responsibility: Journal

  predicate IsDigit(c: char) {
    '0' <= c <= '9'
  }

  function DigitChar(d: int): (c: char)
    requires 0 <= d < 10
    ensures IsDigit(c) && c as int - '0' as int == d
  {
    (d + '0' as int) as char
  }

  /** The decimal text `fmt::format` writes for a non-negative integer. */
  function DecimalString(n: nat): (s: string)
    ensures |s| >= 1
    ensures forall i :: 0 <= i < |s| ==> IsDigit(s[i])
    decreases n
  {
    if n < 10 then [DigitChar(n)] else DecimalString(n / 10) + [DigitChar(n % 10)]
  }

  function DigitValue(c: char): nat
    requires IsDigit(c)
  {
    c as int - '0' as int
  }

  /** Reads a string of decimal digits back as a number. */
  function ParseDecimal(s: string): nat
    requires forall i :: 0 <= i < |s| ==> IsDigit(s[i])
  {
    if s == [] then 0 else ParseDecimal(s[..|s| - 1]) * 10 + DigitValue(s[|s| - 1])
  }

  lemma {:induction false} ParseDecimalString(n: nat)
    ensures ParseDecimal(DecimalString(n)) == n
  {
    if n >= 10 {
      var s := DecimalString(n);
      assert s[..|s| - 1] == DecimalString(n / 10);
      ParseDecimalString(n / 10);
    }
  }

  /** `fmt::format("{}: {}", count, entry)`. */
  function FormatEntry(count: nat, entry: string): (r: string)
    ensures |r| == |DecimalString(count)| + 2 + |entry|
    ensures IndexOf(r, ':') == |DecimalString(count)|
    ensures r[..|DecimalString(count)|] == DecimalString(count)
    ensures r[|r| - |entry|..] == entry
  {
    var d := DecimalString(count);
    var r := d + ": " + entry;
    assert r[|d|] == ':';
    r
  }

  /** The position of the first `c` in `s`, or `|s|` when there is none. */
  function IndexOf(s: string, c: char): (k: nat)
    ensures k <= |s|
    ensures k < |s| ==> s[k] == c
    ensures forall i :: 0 <= i < k ==> s[i] != c
  {
    if s == [] then 0 else if s[0] == c then 0 else 1 + IndexOf(s[1..], c)
  }

  /** Splits a journal entry "n: text" back into its number and its text. */
  function ParseEntry(e: string): Option<(nat, string)> {
    var k := IndexOf(e, ':');
    if 1 <= k && k + 2 <= |e| && e[k + 1] == ' ' && forall i :: 0 <= i < k ==> IsDigit(e[i]) then
      Some((ParseDecimal(e[..k]), e[k + 2..]))
    else
      None
  }

  /** An entry is its number, a colon, a space and the text, and nothing is
      lost: the number and the text can be read back, whatever the text holds. */
  lemma ParseFormattedEntry(count: nat, entry: string)
    ensures ParseEntry(FormatEntry(count, entry)) == Some((count, entry))
  {
    var d := DecimalString(count);
    var e := FormatEntry(count, entry);
    var k := IndexOf(e, ':');
    assert e[|d|] == ':';
    assert k == |d|;
    assert e[..k] == d;
    assert e[k + 2..] == entry;
    ParseDecimalString(count);
  }

  /** The function-local `static int count` of `Journal::add_entry`: a
      single counter shared by every journal, starting at 1. */
  class EntryCounter {
    var count: int

    predicate Valid()
      reads this
    {
      1 <= count <= INT_MAX
    }

    constructor ()
      ensures Valid() && count == 1
    {
      count := 1;
    }
  }

  class Journal {
    const title: string
    var entries: seq<string>

    constructor (title: string)
      ensures this.title == title && entries == []
    {
      this.title := title;
      entries := [];
    }

    /** Appends one entry numbered by the shared counter and advances the
        counter; `count++` past `INT_MAX` is undefined. */
    method AddEntry(counter: EntryCounter, entry: string)
      requires counter.Valid() && counter.count < INT_MAX
      modifies this, counter
      ensures counter.Valid() && counter.count == old(counter.count) + 1
      ensures entries == old(entries) + [FormatEntry(old(counter.count), entry)]
    {
      entries := entries + [FormatEntry(counter.count, entry)];
      counter.count := counter.count + 1;
    }
  }

  /** `Single_Responsibility_Principle::test` up to the save. */
  method JournalTest() returns (journal: Journal)
    ensures journal.title == "Dear Diary"
    ensures journal.entries == ["1: I ate a bug", "2: I cried today"]
  {
    var counter := new EntryCounter();
    journal := new Journal("Dear Diary");
    journal.AddEntry(counter, "I ate a bug");
    journal.AddEntry(counter, "I cried today");
    assert DigitChar(1) == '1' && DigitChar(2) == '2';
    assert DecimalString(1) == "1" && DecimalString(2) == "2";
    assert FormatEntry(1, "I ate a bug") == "1: I ate a bug";
    assert FormatEntry(2, "I cried today") == "2: I cried today";
  }

  // ---------------------------------------------------------------------
  // Open/closed: products, specifications, filters

  datatype Color = Red | Green | Blue
  datatype Size = Small | Medium | Large
  datatype Product = Product(name: string, color: Color, size: Size)

  /** The concrete `Specification<Product>` classes: a colour, a size, or
      the conjunction of two specifications. */
  datatype Specification =
    | ColorSpecification(color: Color)
    | SizeSpecification(size: Size)
    | AndSpecification(first: Specification, second: Specification)

  /** The virtual `is_satisfied` of each specification. */
  predicate IsSatisfied(spec: Specification, item: Product) {
    match spec
    case ColorSpecification(c) => item.color == c
    case SizeSpecification(s) => item.size == s
    case AndSpecification(a, b) => IsSatisfied(a, item) && IsSatisfied(b, item)
  }

  /** `Specification::operator&&`. */
  function Conjoin(first: Specification, second: Specification): (r: Specification)
    ensures forall item :: IsSatisfied(r, item) <==> IsSatisfied(first, item) && IsSatisfied(second, item)
  {
    AndSpecification(first, second)
  }

  /** `a` keeps a selection of the elements of `b` in their order. */
  predicate IsSubsequence<T(==)>(a: seq<T>, b: seq<T>)
    decreases |b|
  {
    a == [] ||
    (b != [] &&
      ((a[|a| - 1] == b[|b| - 1] && IsSubsequence(a[..|a| - 1], b[..|b| - 1])) ||
       IsSubsequence(a, b[..|b| - 1])))
  }

  /** The items that satisfy `spec`, in input order: what both filters
      accumulate with `push_back`. */
  function Select(items: seq<Product>, spec: Specification): seq<Product> {
    if items == [] then [] else
      var r := Select(items[..|items| - 1], spec);
      if IsSatisfied(spec, items[|items| - 1]) then r + [items[|items| - 1]] else r
  }

  /** One more item extends the selection exactly when it satisfies `spec`. */
  lemma SelectSnoc(items: seq<Product>, spec: Specification, item: Product)
    ensures Select(items + [item], spec) ==
      if IsSatisfied(spec, item) then Select(items, spec) + [item] else Select(items, spec)
  {
    assert (items + [item])[..|items|] == items;
  }

  /** The selection keeps the input order, holds only items that satisfy
      `spec`, and holds each satisfying item as often as the input does. */
  lemma {:induction false} SelectSound(items: seq<Product>, spec: Specification)
    ensures IsSubsequence(Select(items, spec), items)
    ensures forall p :: p in Select(items, spec) ==> IsSatisfied(spec, p)
    ensures forall p :: (multiset(Select(items, spec))[p] ==
      if IsSatisfied(spec, p) then multiset(items)[p] else 0)
  {
    if items != [] {
      var init, last := items[..|items| - 1], items[|items| - 1];
      SelectSound(init, spec);
      var r := Select(init, spec);
      assert items == init + [last];
      if IsSatisfied(spec, last) {
        assert (r + [last])[..|r|] == r;
      }
    }
  }

  /** Filtering by a conjunction is filtering by each part in turn. */
  lemma {:induction false} SelectConjunction(items: seq<Product>, a: Specification, b: Specification)
    ensures Select(items, AndSpecification(a, b)) == Select(Select(items, a), b)
  {
    if items != [] {
      var init, last := items[..|items| - 1], items[|items| - 1];
      SelectConjunction(init, a, b);
      var s := Select(init, a);
      if IsSatisfied(a, last) {
        assert (s + [last])[..|s|] == s;
      }
    }
  }

  /** `ProductFilter::by_color`. */
  method ByColor(items: seq<Product>, color: Color) returns (result: seq<Product>)
    ensures result == Select(items, ColorSpecification(color))
  {
    result := [];
    var i := 0;
    while i < |items|
      invariant 0 <= i <= |items|
      invariant result == Select(items[..i], ColorSpecification(color))
    {
      assert items[..i + 1] == items[..i] + [items[i]];
      SelectSnoc(items[..i], ColorSpecification(color), items[i]);
      if items[i].color == color {
        result := result + [items[i]];
      }
      i := i + 1;
    }
    assert items[..i] == items;
  }

  /** `BetterFilter::filter`. */
  method Filter(items: seq<Product>, spec: Specification) returns (result: seq<Product>)
    ensures result == Select(items, spec)
  {
    result := [];
    var i := 0;
    while i < |items|
      invariant 0 <= i <= |items|
      invariant result == Select(items[..i], spec)
    {
      assert items[..i + 1] == items[..i] + [items[i]];
      SelectSnoc(items[..i], spec, items[i]);
      if IsSatisfied(spec, items[i]) {
        result := result + [items[i]];
      }
      i := i + 1;
    }
    assert items[..i] == items;
  }

  /** `Open_Closed_Principle::test`: the apple and the tree are green, and
      only the tree is green and large. */
  method FilterTest() returns (green: seq<Product>, greenAndLarge: seq<Product>)
    ensures green == [Product("Apple", Green, Small), Product("Tree", Green, Large)]
    ensures greenAndLarge == [Product("Tree", Green, Large)]
  {
    var apple := Product("Apple", Green, Small);
    var tree := Product("Tree", Green, Large);
    var house := Product("House", Blue, Large);
    var items := [apple, tree, house];
    var greenSpec := ColorSpecification(Green);
    var both := Conjoin(ColorSpecification(Green), SizeSpecification(Large));
    assert [apple] == [] + [apple] && [apple, tree] == [apple] + [tree];
    assert items == [apple, tree] + [house];
    SelectSnoc([], greenSpec, apple);
    SelectSnoc([apple], greenSpec, tree);
    SelectSnoc([apple, tree], greenSpec, house);
    SelectSnoc([], both, apple);
    SelectSnoc([apple], both, tree);
    SelectSnoc([apple, tree], both, house);
    green := Filter(items, ColorSpecification(Green));
    greenAndLarge := Filter(items, Conjoin(ColorSpecification(Green), SizeSpecification(Large)));
  }

  // ---------------------------------------------------------------------
  // Liskov substitution: Rectangle and Square

  /** A `Rectangle`, or a `Square` when `isSquare`: the square overrides both
      setters so that they set both sides. */
  class Rectangle {
    var width: int
    var height: int
    const isSquare: bool

    predicate Valid()
      reads this
    {
      InInt(width) && InInt(height) && (isSquare ==> width == height)
    }

    constructor (width: int, height: int)
      requires InInt(width) && InInt(height)
      ensures Valid() && !isSquare && this.width == width && this.height == height
    {
      this.width, this.height := width, height;
      isSquare := false;
    }

    /** `Square(size)`. */
    constructor Square(size: int)
      requires InInt(size)
      ensures Valid() && isSquare && width == size && height == size
    {
      width, height := size, size;
      isSquare := true;
    }

    method SetWidth(width: int)
      requires Valid() && InInt(width)
      modifies this
      ensures Valid() && this.width == width
      ensures this.height == if isSquare then width else old(this.height)
    {
      if isSquare {
        this.width, this.height := width, width;
      } else {
        this.width := width;
      }
    }

    method SetHeight(height: int)
      requires Valid() && InInt(height)
      modifies this
      ensures Valid() && this.height == height
      ensures this.width == if isSquare then height else old(this.width)
    {
      if isSquare {
        this.width, this.height := height, height;
      } else {
        this.height := height;
      }
    }

    function Area(): (a: int)
      requires InInt(width * height)
      reads this
      ensures InInt(a)
    {
      width * height
    }
  }

  /** `process`: remembers the width, sets the height to 10, and reports the
      area a caller of `Rectangle` expects next to the area obtained. They
      agree for a rectangle; a square reports 100 whatever its width was. */
  method Process(r: Rectangle) returns (expected: int, actual: int)
    requires r.Valid() && InInt(r.width * 10)
    modifies r
    ensures r.Valid() && r.height == 10
    ensures r.width == if r.isSquare then 10 else old(r.width)
    ensures expected == old(r.width) * 10
    ensures !r.isSquare ==> actual == expected
    ensures r.isSquare ==> actual == 100 && (actual == expected <==> old(r.width) == 10)
  {
    var w := r.width;
    r.SetHeight(10);
    expected := w * 10;
    actual := r.Area();
  }

  // ---------------------------------------------------------------------
  // Dependency inversion: Relationships

  datatype Relationship = Parent | Child | Sibling
  datatype Person = Person(name: string)
  datatype Relation = Relation(first: Person, rel: Relationship, second: Person)

  /** The second person of every parent relation whose first person is
      called `name`, in insertion order. */
  function ChildrenIn(relations: seq<Relation>, name: string): (r: seq<Person>)
    ensures |r| <= |relations|
  {
    if relations == [] then [] else
      var init, last := relations[..|relations| - 1], relations[|relations| - 1];
      ChildrenIn(init, name) +
        (if last.first.name == name && last.rel == Parent then [last.second] else [])
  }

  /** A person is among the children found for `name` exactly when a
      parent relation from `name` to that person was recorded. */
  lemma {:induction false} ChildrenInMembership(relations: seq<Relation>, name: string, c: Person)
    ensures c in ChildrenIn(relations, name) <==> Relation(Person(name), Parent, c) in relations
  {
    if relations != [] {
      var init, last := relations[..|relations| - 1], relations[|relations| - 1];
      assert relations == init + [last];
      ChildrenInMembership(init, name, c);
    }
  }

  /** Appending relations appends their children. */
  lemma {:induction false} ChildrenInAppend(relations: seq<Relation>, more: seq<Relation>, name: string)
    ensures ChildrenIn(relations + more, name) == ChildrenIn(relations, name) + ChildrenIn(more, name)
    decreases |more|
  {
    if more != [] {
      var init, last := more[..|more| - 1], more[|more| - 1];
      var all := relations + more;
      var tail := if last.first.name == name && last.rel == Parent then [last.second] else [];
      assert all[..|all| - 1] == relations + init && all[|all| - 1] == last;
      assert ChildrenIn(all, name) == ChildrenIn(relations + init, name) + tail;
      assert ChildrenIn(more, name) == ChildrenIn(init, name) + tail;
      ChildrenInAppend(relations, init, name);
    } else {
      assert relations + more == relations;
    }
  }

  class Relationships {
    var relations: seq<Relation>

    constructor ()
      ensures relations == []
    {
      relations := [];
    }

    /** Records the pair both ways: parent-of and child-of. */
    method AddParentAndChild(parent: Person, child: Person)
      modifies this
      ensures relations == old(relations) + [Relation(parent, Parent, child), Relation(child, Child, parent)]
      ensures forall name :: (ChildrenIn(relations, name) ==
        ChildrenIn(old(relations), name) + (if parent.name == name then [child] else []))
    {
      var added := [Relation(parent, Parent, child), Relation(child, Child, parent)];
      forall name | true
        ensures ChildrenIn(relations + added, name) ==
          ChildrenIn(relations, name) + (if parent.name == name then [child] else [])
      {
        ChildrenInAppend(relations, added, name);
        assert added[..1] == [Relation(parent, Parent, child)];
      }
      relations := relations + added;
    }

    /** `find_all_children_of`. */
    method FindAllChildrenOf(name: string) returns (result: seq<Person>)
      ensures result == ChildrenIn(relations, name)
    {
      result := [];
      var i := 0;
      while i < |relations|
        invariant 0 <= i <= |relations|
        invariant result == ChildrenIn(relations[..i], name)
      {
        assert relations[..i + 1][..i] == relations[..i];
        var r := relations[i];
        if r.first.name == name && r.rel == Parent {
          result := result + [r.second];
        }
        i := i + 1;
      }
      assert relations[..i] == relations;
    }
  }

  /** `Dependency_Inversion_Principle::test` followed by the query that
      `Research` makes about John. */
  method RelationshipsTest() returns (children: seq<Person>)
    ensures children == [Person("Chris"), Person("Matt")]
  {
    var john := Person("John");
    var relationships := new Relationships();
    relationships.AddParentAndChild(john, Person("Chris"));
    relationships.AddParentAndChild(john, Person("Matt"));
    assert ChildrenIn([], "John") == [];
    children := relationships.FindAllChildrenOf("John");
  }
}
