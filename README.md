# CppNote core, modelled in Dafny

CppNote is a collection of C++ teaching snippets. This project models the
snippets that have small, sequential, deterministic behaviour, one Dafny
module per C++ file:

- `Solid` (src/design/SOLID.cpp) models the journal with its entry counter, the product filters and their specification combinators, and the `Rectangle`/`Square` pair that breaks substitutability. It also covers the parent/child relationship store.
- `Sfinae` (src/template/SFINAE.cpp) models the three `ceil_div` overloads over signed and unsigned 32- and 64-bit integers. Unsigned wrap-around is written out.
- `Meta` (src/template/meta.cpp) models `Factorial<N>`, the `constexpr` loop `factorial`, `Log2<N>`, `Max<A, B>` and `Log<N, BASE>`.
- `Func` (src/template/func.cpp) models `add`, `add<T, U>()`, `sub<T, U>()`, `ceil_div<a>(b)` and `equal`.
- `Variadic` (src/template/variadic.cpp) models the recursive variadic `add`, `add_square` and the four fold expressions. A parameter pack is a `seq<int>`.
- `Multiton` (src/design/creational/multiton.cpp) models the get-or-create instance registry.
- `MoveSemantics` (test/test.cpp) models the buffer-owning `struct A`: its copy and move constructors, `swap`, copy assignment and the three move-assignment designs. It also models the build without `DESIGN`, where `a2 = std::move(a1)` falls back to copy assignment.
- `Operators` (src/oop/oo.cpp) models the counter `A`: increments, conversions, copy-and-swap assignment, and `B`'s equality.
- `Builder` (src/design/builder.cpp) models the fluent `Person` builder.
- `Adapter` (src/design/structural/adapter.cpp) models the string-reversing adapter.
- `IntArith` holds the shared arithmetic:
  - the 32-bit `int` range;
  - C++'s truncating `/` (`TruncDiv`, because Dafny's `/` is Euclidean);
  - the ceiling and floor predicates that state what a division helper promises.

Signed `int` overflow is undefined behaviour in C++. Most operations that compute with `int` require that the result fits. `Meta.Factorial` and `Variadic.Square` do not; "## Left out" says how each is handled. Objects the source mutates in place are Dafny classes with `modifies` clauses. Pure templates are functions. Each loop in the source is a method, proved against a specification function.

## Model

| member | source | states |
|---|---|---|
| IntArith.TruncDiv | src/template/SFINAE.cpp:30 | C++ `/` on `int`: the quotient is 0 exactly when the dividend is smaller in magnitude than the divisor; a positive quotient means equal signs and a negative one opposite signs |
| IntArith.TruncDivIsTruncation | src/template/SFINAE.cpp:30 | C++ `/` truncates toward zero: `q * b` lies between 0 and `a`, and it is less than one divisor away from `a` |
| IntArith.TruncDivIsCeiling | src/template/SFINAE.cpp:30 | when the exact quotient is not positive, truncating division is its ceiling |
| IntArith.OffsetQuotientIsCeiling | src/template/SFINAE.cpp:30 | for `value >= 0` and `div > 0`, `(value + div - 1) / div` is the ceiling of `value / div` |
| IntArith.CeilingUnique | src/template/SFINAE.cpp:28-43 | a ceiling of a quotient is unique, so two ceiling-division functions that both meet the ceiling predicate agree |
| Sfinae.IntType.Wrap | src/template/SFINAE.cpp:36 | unsigned arithmetic is reduced modulo 2^bits; the result is in range, and a value already in range is kept |
| Sfinae.CeilDivSigned | src/template/SFINAE.cpp:28-31 | defined only when the sum `value + div` and the quotient do not overflow; then the signed overload stays in range. It is the ceiling of `value / div` unless both operands are negative; then it is the floor |
| Sfinae.CeilDivUnsigned | src/template/SFINAE.cpp:34-37 | the unsigned overload stays in range. Without wrap-around it is the ceiling; when `value + div - 1` passes the maximum, it is 0 |
| Sfinae.SignedQuotientInRange | src/template/SFINAE.cpp:30 | a truncated signed quotient is representable unless it is `MIN / -1` |
| Sfinae.CeilDivIntegral | src/template/SFINAE.cpp:40-43 | the `enable_if` return-type overload stays in range. It is the ceiling of `value / div` unless both operands are negative (then the floor) or an unsigned `value + div - 1` wraps (then 0) |
| Sfinae.IntegralAgreesWithOverloads | src/template/SFINAE.cpp:40-43 | the `enable_if` return-type overload equals the signed overload on signed types and the unsigned overload on unsigned types |
| Sfinae.UnsignedWrapExample | src/template/SFINAE.cpp:34-37 | `ceil_div(0xffffffffu, 2u)` is 0, not the true ceiling 0x80000000 |
| Sfinae.SignedNegativeExample | src/template/SFINAE.cpp:28-31 | `ceil_div(-3, -2)` is 1, not the ceiling 2 |
| Sfinae.CeilDivUnsignedIntended | src/template/SFINAE.cpp:34-37 | the remainder-based unsigned ceiling division never wraps and is always the ceiling |
| Sfinae.CeilDivSignedIntended | src/template/SFINAE.cpp:28-31 | signed ceiling division rounding up for every sign combination is always the ceiling |
| Sfinae.SignedIntendedExtendsSigned | src/template/SFINAE.cpp:28-31 | wherever the signed overload does not have two negative operands, it agrees with the corrected one |
| Meta.Factorial | src/template/meta.cpp:7-14 | `Factorial<0>` is 1 and `Factorial<N>` is `N * Factorial<N-1>`; the value is at least 1 and at least `N` |
| Meta.FactorialFitsInt | src/template/meta.cpp:9 | `Factorial<N>` fits in `int` exactly for `N <= 12` |
| Meta.FactorialMonotone | src/template/meta.cpp:7-14 | `Factorial` never decreases |
| Meta.LoopFactorial | src/template/meta.cpp:17-24 | the loop `factorial(n)` equals the recursive `Factorial<n>` for `n >= 0`, and it is 1 for negative `n` |
| Meta.FactorialOfFive | src/template/meta.cpp:26-29 | `Factorial<5>` is 120 |
| Meta.Log2 | src/template/meta.cpp:34-42 | `Log2<N>` for `N > 0` is the floor of log2 N: `2^r <= N < 2^(r+1)` |
| Meta.Max | src/template/meta.cpp:51-54 | `Max<A, B>` is one of `A` and `B`, and not smaller than either |
| Meta.Log | src/template/meta.cpp:56-68 | `Log<N, BASE>` is 0 exactly for `N == 1`, for any `BASE`; for `BASE >= 2` it is the floor logarithm or one more |
| Meta.LogOfOne | src/template/meta.cpp:65-68 | the specialisation `Log<1, BASE>` is 0 for every `BASE` |
| Meta.LogOfPower | src/template/meta.cpp:56-68 | `Log<BASE^k, BASE>` is `k` for every `BASE >= 2` |
| Meta.LogBaseTwoIsLog2 | src/template/meta.cpp:56-68 | in base 2, `Log` equals `Log2` |
| Meta.Log2StaticAsserts | src/template/meta.cpp:44-45 | the `Log2` static_asserts: `Log2<8>` is 3 and `Log2<1024>` is 10 |
| Meta.LogStaticAsserts | src/template/meta.cpp:70-73 | the `Log` static_asserts: `Log<8,2>` is 3, `Log<1024,2>` is 10 and `Log<1000,10>` is 3 |
| Meta.FloorLog | src/template/meta.cpp:56-68 | the floor of the base-`BASE` logarithm: `BASE^r <= N < BASE^(r+1)` |
| Meta.LogIsFloorLogUpToLeadingDigit | src/template/meta.cpp:56-68 | `Log<N, BASE>` is the floor log when N's leading base-`BASE` digit is 1, and one more otherwise |
| Meta.LogOverestimatesExample | src/template/meta.cpp:56-68 | `Log<20, 10>` is 2 while the floor log is 1 |
| Func.Add | src/template/func.cpp:3-6 | `add(a, b)` on `int` is the sum: subtracting either argument gives the other back |
| Func.AddStrings | src/template/func.cpp:13 | `add<std::string>` yields `a` followed by `b` |
| Func.AddConst | src/template/func.cpp:30-33 | `add<T, U>()` is the sum of its template arguments: subtracting either gives the other |
| Func.SubConst | src/template/func.cpp:35-38 | `sub<T, U>()` is the difference: adding `U` back gives `T` |
| Func.SubConstExample | src/template/func.cpp:63 | `sub<1ll, 2u>()` is the signed -1 |
| Func.AddSubInverse | src/template/func.cpp:30-38 | `sub<T, U>()` undoes `add<T, U>()`, and the reverse |
| Func.CeilDivConst | src/template/func.cpp:50-53 | `ceil_div<a>(b)` stays in `int` and is the ceiling of `a / b` for `a >= 0`, `b > 0` |
| Func.CeilDivConstExample | src/template/func.cpp:65 | `ceil_div<3>(2)` is 2 |
| Func.Equal | src/template/func.cpp:69-74 | the primary `equal` compares with `==`; its properties are stated by `EqualIsEquivalence` |
| Func.EqualIsEquivalence | src/template/func.cpp:69-74 | `equal(a, b)` holds exactly when `a == b`; it is reflexive, symmetric and transitive |
| Variadic.SumCons | src/template/variadic.cpp:23-28 | putting an argument in front of a pack adds it to the sum |
| Variadic.Add | src/template/variadic.cpp:18-28 | the recursive `add` of at least two arguments is the sum of all of them |
| Variadic.Square | src/template/variadic.cpp:31-34 | a square is never negative |
| Variadic.SumOfSquaresIsSumOfSquared | src/template/variadic.cpp:35-38 | summing the expansion `square(args)...` gives the sum of squares |
| Variadic.AddSquare | src/template/variadic.cpp:35-38 | `add_square` is the sum of the squares of its arguments, so it is not negative |
| Variadic.Add1 | src/template/variadic.cpp:72-75 | the unary right fold `(args + ...)` of a non-empty pack is its sum |
| Variadic.LeftFoldAdd | src/template/variadic.cpp:76-79 | a left fold over `+` from `init` is `init` plus the sum |
| Variadic.Add2 | src/template/variadic.cpp:76-79 | `(0 + ... + args)` is the sum, and 0 for an empty pack |
| Variadic.Comma1 | src/template/variadic.cpp:83-87 | the right comma fold yields the last argument |
| Variadic.Comma2 | src/template/variadic.cpp:88-92 | the left comma fold yields the last argument |
| Variadic.FoldsAgree | src/template/variadic.cpp:18-92 | both comma folds agree, and the recursive `add`, `add1` and `add2` agree |
| Solid.DigitChar | src/design/SOLID.cpp:30 | a decimal digit becomes the character of that digit |
| Solid.DecimalString | src/design/SOLID.cpp:30 | `{}` formats a count as a non-empty string of digits |
| Solid.ParseDecimalString | src/design/SOLID.cpp:30 | reading the digits back gives the count |
| Solid.FormatEntry | src/design/SOLID.cpp:30 | `"{}: {}"` gives the digits of the count, then `": "`, then the text unchanged. The first colon is the one right after the digits, whatever the text holds |
| Solid.ParseFormattedEntry | src/design/SOLID.cpp:30 | an entry `"n: text"` can be split back into `n` and `text` at its first colon |
| Solid.EntryCounter.constructor | src/design/SOLID.cpp:29 | the shared counter starts at 1 |
| Solid.Journal.constructor | src/design/SOLID.cpp:26 | a journal starts with its title and no entries |
| Solid.Journal.AddEntry | src/design/SOLID.cpp:28-31 | appends exactly the entry `"n: text"`, where `n` is the shared count, and increments the count |
| Solid.JournalTest | src/design/SOLID.cpp:48-55 | two entries added in turn read `"1: I ate a bug"` and `"2: I cried today"` |
| Solid.IsSatisfied | src/design/SOLID.cpp:117-138 | `is_satisfied` of a colour, a size or a conjunction of specifications; `Conjoin` and `SelectConjunction` state what it means for a conjunction |
| Solid.Conjoin | src/design/SOLID.cpp:94-96 | `operator&&` builds a specification satisfied exactly when both operands are |
| Solid.SelectSound | src/design/SOLID.cpp:104-127 | the selection is an order-preserving subsequence in which every item satisfies the spec. Each satisfying item appears as often as in the input; no other item appears |
| Solid.SelectSnoc | src/design/SOLID.cpp:108-112 | one more item extends the selection by itself exactly when it satisfies the spec, and leaves it unchanged otherwise |
| Solid.SelectConjunction | src/design/SOLID.cpp:129-138 | filtering by an `AndSpecification` equals filtering by the first spec and then by the second |
| Solid.ByColor | src/design/SOLID.cpp:75-83 | `by_color`'s loop returns exactly the selection by colour |
| Solid.Filter | src/design/SOLID.cpp:104-115 | `BetterFilter::filter`'s loop returns exactly the selection by the spec |
| Solid.FilterTest | src/design/SOLID.cpp:140-165 | among apple, tree and house, green selects apple and tree, and green-and-large selects tree |
| Solid.Rectangle.constructor | src/design/SOLID.cpp:182 | a rectangle keeps both given sides |
| Solid.Rectangle.Square | src/design/SOLID.cpp:194 | a square has both sides equal to the given size |
| Solid.Rectangle.SetWidth | src/design/SOLID.cpp:185-195 | sets the width. A rectangle's height is unchanged; a square's height follows the width |
| Solid.Rectangle.SetHeight | src/design/SOLID.cpp:187-196 | sets the height. A rectangle's width is unchanged; a square's width follows the height |
| Solid.Rectangle.Area | src/design/SOLID.cpp:189 | the area of `int` sides, in `int` range |
| Solid.Process | src/design/SOLID.cpp:199-205 | sets the height to 10. A rectangle keeps its width and a square's width becomes 10. The expected area `w * 10` matches the actual one for a rectangle. For a square the actual area is 100, which matches only when `w` was 10 |
| Solid.ChildrenInMembership | src/design/SOLID.cpp:298-306 | a person is among the children of `name` exactly when a parent triple from `name` to that person is stored |
| Solid.ChildrenInAppend | src/design/SOLID.cpp:298-306 | the lookup distributes over appended triples, so it keeps insertion order |
| Solid.Relationships.AddParentAndChild | src/design/SOLID.cpp:293-296 | appends exactly the two triples (parent, parent, child) and (child, child, parent); the lookup of the parent's name gains the child at its end, and other lookups are unchanged |
| Solid.Relationships.FindAllChildrenOf | src/design/SOLID.cpp:298-306 | the loop returns the lookup over the stored triples |
| Solid.RelationshipsTest | src/design/SOLID.cpp:332-340 | after John gets Chris and then Matt, John's children are Chris and Matt, in that order |
| Multiton.DistinctKeysDistinctInstances | src/design/creational/multiton.cpp:11-21 | distinct keys never share an instance |
| Multiton.Registry.GetInstance | src/design/creational/multiton.cpp:9-14 | returns an instance with the requested key that is stored under that key. A present key leaves the map unchanged and returns the stored instance. A missing key adds one fresh entry. No entry is removed or replaced |
| Multiton.MultitonTest | src/design/creational/multiton.cpp:27-44 | asking twice for the same key returns the identical instance |
| MoveSemantics.A.constructor | test/test.cpp:9 | `A(s)` has size `s` and a fresh buffer of length `s` |
| MoveSemantics.A.Copy | test/test.cpp:11-13 | a copy has the same size and contents in a fresh buffer |
| MoveSemantics.A.Move | test/test.cpp:14-17 | a moved-to object takes the buffer and size, and leaves the source with size 0 and a null buffer |
| MoveSemantics.A.Swap | test/test.cpp:18-22 | exchanges size and buffer |
| MoveSemantics.A.CopyAssign | test/test.cpp:24-34 | a no-op on self-assignment. Otherwise the target gets the source's size and contents in a fresh buffer, and the source is unchanged |
| MoveSemantics.A.MoveAssignBySwap | test/test.cpp:38-41 | design 1: the objects exchange state, so the source receives the target's old buffer |
| MoveSemantics.A.MoveAssignBySteal | test/test.cpp:44-51 | design 2: the target takes the source's buffer and the source is emptied. A self-move empties the object |
| MoveSemantics.A.AssignByValue | test/test.cpp:53-56 | design 3: the target gets the parameter's state and the parameter the target's |
| MoveSemantics.A.CopyAssignByValue | test/test.cpp:11-56 | `a2 = a1` under design 3 gives `a2` a fresh copy of `a1`'s contents |
| MoveSemantics.A.MoveAssignByValue | test/test.cpp:14-56 | `a2 = std::move(a1)` under design 3 takes `a1`'s buffer and empties `a1`; a self-move changes nothing |
| MoveSemantics.AssignmentTest | test/test.cpp:62-92 | with `DESIGN == 2`, `a2 = a1` leaves a distinct buffer with equal contents. `a2 = std::move(a1)` leaves `a2` holding `a1`'s former buffer, and `a1` with size 0 and a null buffer |
| MoveSemantics.MoveWithoutDesignTest | test/test.cpp:23-35 | without `DESIGN`, `a2 = std::move(a1)` is a copy assignment: `a2` gets a distinct buffer with `a1`'s contents, and `a1` keeps its size |
| Operators.A.constructor | src/oop/oo.cpp:8 | a new `A` has `x == 0` |
| Operators.A.Copy | src/oop/oo.cpp:17 | the copy holds the same `x` |
| Operators.A.PreIncrement | src/oop/oo.cpp:12-15 | increases `x` by exactly 1 and returns the same object |
| Operators.A.PostIncrement | src/oop/oo.cpp:16-20 | returns a fresh copy holding the old `x` and increases the object's `x` by 1 |
| Operators.A.Swap | src/oop/oo.cpp:23-26 | exchanges `x` |
| Operators.A.Assign | src/oop/oo.cpp:27-30 | after `a = b`, `a.x` equals `b.x`, `b` is unchanged and `a == b` holds |
| Operators.A.ToInt | src/oop/oo.cpp:9 | `explicit operator int` gives 1 whatever `x` holds; `ConversionsExample` states it at the call in `main` |
| Operators.A.ToDouble | src/oop/oo.cpp:10 | `operator double` gives 2.0 whatever `x` holds |
| Operators.Equal | src/oop/oo.cpp:42 | `B`'s `==` compares `x`; `EqualIsEquivalence` states its properties |
| Operators.EqualIsEquivalence | src/oop/oo.cpp:42 | `B`'s `==` is an equivalence relation |
| Operators.ConversionsExample | src/oop/oo.cpp:9-49 | the explicit `int` conversion gives 1 and the `double` conversion 2.0 |
| Operators.IncrementExample | src/oop/oo.cpp:12-20 | prefix and postfix `++` leave equal counters but return the object itself and a copy of the old value, respectively |
| Builder.Person.constructor | src/design/builder.cpp:29-37 | a new person has empty strings and `annual_income` 0 |
| Builder.PersonBuilder.constructor | src/design/builder.cpp:62-68 | the builder owns a fresh, empty person |
| Builder.Create | src/design/builder.cpp:114 | `Person::create()` gives a builder over a fresh, empty person |
| Builder.Lives | src/design/builder.cpp:115-117 | `lives()` gives an address builder over the same person |
| Builder.Works | src/design/builder.cpp:118 | `works()` gives a job builder over the same person |
| Builder.ToPerson | src/design/builder.cpp:59 | `operator Person` yields a fresh person with the built fields |
| Builder.PersonAddressBuilder.At | src/design/builder.cpp:76-79 | sets the street address, changes no other field and returns the same builder |
| Builder.PersonAddressBuilder.WithPostCode | src/design/builder.cpp:81-84 | sets the post code only and returns the same builder |
| Builder.PersonAddressBuilder.In | src/design/builder.cpp:86-89 | sets the city only and returns the same builder |
| Builder.PersonJobBuilder.At | src/design/builder.cpp:98-101 | sets the company name only and returns the same builder |
| Builder.PersonJobBuilder.AsA | src/design/builder.cpp:103-106 | sets the position only and returns the same builder |
| Builder.PersonJobBuilder.Earning | src/design/builder.cpp:108-111 | sets the annual income only and returns the same builder |
| Builder.BuildExample | src/design/builder.cpp:120-129 | the chain in `main` fills all six fields of the one person, across the switch from the address builder to the job builder |
| Adapter.Reversed | src/design/structural/adapter.cpp:29 | the reverse of a string has its length; `ReversedIndex` states where each character goes |
| Adapter.ReversedIndex | src/design/structural/adapter.cpp:29 | position `i` of the reversed string is position `n - 1 - i` of the original |
| Adapter.ReversedInvolution | src/design/structural/adapter.cpp:29 | reversing twice restores the string |
| Adapter.ReversedConcat | src/design/structural/adapter.cpp:29 | reversing a concatenation reverses the parts and their order |
| Adapter.Reverse | src/design/structural/adapter.cpp:29 | `std::reverse` in place leaves the reverse of the old contents |
| Adapter.ReverseCopy | src/design/structural/adapter.cpp:28-29 | copying the adaptee's text into a local buffer and reversing it there yields its reverse |
| Adapter.Request | src/design/structural/adapter.cpp:9-31 | a `Target` answers with the default text. An `Adapter` answers with the prefix followed by the reversed adaptee text, and the length is the prefix's plus the text's |
| Adapter.SpecificRequest | src/design/structural/adapter.cpp:17 | `specificRequest()` returns `"Special behavior of the Adaptee."` written backwards |
| Adapter.AdapterTranslation | src/design/structural/adapter.cpp:17 | the reversed adaptee text is `"Special behavior of the Adaptee."` |
| Adapter.ClientExample | src/design/structural/adapter.cpp:34-51 | the client sees the default text from the target and `"Adapter: (TRANSLATED) Special behavior of the Adaptee."` from the adapter |

## Left out

- `PersistenceManager::save` (src/design/SOLID.cpp:39-46), the printing in `Research`, and every `fmt::print`, `std::cout` or `display()` call are output only.
- The green-and-large specification in the filter test binds references to temporaries that have died by the time it is used. The model uses the specification values directly.
- `Product *` pointers are modelled as values. Filtering by pointer identity is not distinguished from filtering by value.
- Solid.Journal.AddEntry: the function-local `static int count` becomes an `EntryCounter` object that each call receives. The model does not force every journal to use the same counter; `JournalTest` passes one counter to both calls.
- `ceil_div<5>(2.0)`, `add(1.0, 2.0)`, `equal<float>` and `operator double`'s use as a `double` are floating point. `ToDouble` returns the real 2.0 only.
- `move<Dir>()` and `g()` in src/template/func.cpp have no behaviour.
- `Has_x` in src/template/SFINAE.cpp is a compile-time trait with no runtime behaviour.
- Sfinae.CeilDivSigned: types narrower than `int` (`short`, `signed char`) are promoted to `int` before the arithmetic. Only 32- and 64-bit types are modelled.
- Sfinae.CeilDivUnsigned: `unsigned short` and `unsigned char` are promoted to `int`, so their `value + div - 1` does not wrap. Only 32- and 64-bit types are modelled.
- Func.SubConst: only template arguments whose common type is signed are modelled; a difference in an unsigned common type, which would wrap, is not. With a 32-bit `unsigned`, the file's one call `sub<1ll, 2u>()` has the signed common type `long long`.
- Variadic.Add: the arithmetic type `T` of the pack is unbounded here. Overflow of a concrete `T` is not modelled, and packs of mixed types are not distinguished.
- Variadic.AddSquare, Variadic.Add1 and Variadic.Add2: overflow of the pack's type is not modelled, as for `Add`.
- Meta.Factorial: no `int` range is required. `Factorial<13>` and beyond overflow `int`, which makes the constant expression ill-formed; `FactorialFitsInt` states where that happens.
- Variadic.Square: `x * x` is unbounded here, as for `Add`; overflow of the argument type is not modelled.
- Meta.Log: for `N > 1`, a `BASE <= 1` never reaches the specialisation (or fails `static_assert(BASE > 0)`), so the program does not compile. The model requires `BASE >= 2` unless `N == 1`; `Log<1, BASE>` is 0 for every `BASE`.
- MoveSemantics.A: the destructor's `delete[]` and the transient states inside copy assignment matter only when allocation throws. Freeing and exceptions are not modelled. The values in a new buffer are indeterminate in C++, and nothing is said about them.
- The timing in `test_copy` and `test_move` (clock reads, the 100 repetitions, the averages) is left out.
- Builder.ToPerson: the moved-from person's fields are left unspecified, as they are after `std::move` of its strings.
- Builder.BuildExample: in `main`, `auto p` copies the last job builder. Its reference to the person dies with the temporary from `create()`. Object lifetimes are not modelled.

## Findings

| source | as written | input that shows it | evidently intended | confidence | as-written member | corrected member |
|---|---|---|---|---|---|---|
| src/template/SFINAE.cpp:34-37 | unsigned `ceil_div` computes `value + div - 1`, which wraps modulo 2^bits | `ceil_div(0xffffffffu, 2u)` gives 0 | the ceiling 0x80000000 | not executed; high, since unsigned wrap-around is defined behaviour | Sfinae.UnsignedWrapExample | Sfinae.CeilDivUnsignedIntended |
| src/template/SFINAE.cpp:28-31 | signed `ceil_div` falls back to truncating `value / div` whenever one operand is not positive | `ceil_div(-3, -2)` gives 1 | the ceiling of 1.5, which is 2 | not executed; medium, since the overload may only be meant for positive operands | Sfinae.SignedNegativeExample | Sfinae.CeilDivSignedIntended |
| src/template/meta.cpp:56-68 | `Log<N, BASE>` counts divisions until the quotient drops below `BASE` and is raised back to 1, which adds one step | `Log<20, 10>` is 2 | the floor logarithm, 1 | not executed; low, since the static_asserts only check exact powers | Meta.LogOverestimatesExample | Meta.FloorLog |
