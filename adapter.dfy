/** The object adapter of src/design/structural/adapter.cpp: a `Target`
    answers `request()` with its default text, and an `Adapter` answers it
    by reversing what its `Adaptee` returns from `specificRequest()`. */
module Adapter {

  const DefaultText := "Target: The default target's behavior."
  const AdapteeText := ".eetpadA eht fo roivaheb laicepS"
  const AdapterPrefix := "Adapter: (TRANSLATED) "

  /** A string read back to front. */
  function Reversed(s: string): (r: string)
    ensures |r| == |s|
  {
    if s == [] then [] else Reversed(s[1..]) + [s[0]]
  }

  /** Position `i` of the reversed string holds position `|s| - 1 - i` of
      the original. */
  lemma {:induction false} ReversedIndex(s: string)
    ensures forall i :: 0 <= i < |s| ==> Reversed(s)[i] == s[|s| - 1 - i]
  {
    if s != [] {
      ReversedIndex(s[1..]);
    }
  }

  /** Reversing twice gives the string back. */
  lemma ReversedInvolution(s: string)
    ensures Reversed(Reversed(s)) == s
  {
    ReversedIndex(s);
    ReversedIndex(Reversed(s));
  }

  /** Reversing a concatenation reverses the order of the parts. */
  lemma {:induction false} ReversedConcat(a: string, b: string)
    ensures Reversed(a + b) == Reversed(b) + Reversed(a)
  {
    if a == [] {
      assert a + b == b;
    } else {
      assert (a + b)[1..] == a[1..] + b;
      ReversedConcat(a[1..], b);
    }
  }

  /** `std::reverse` on the characters of a string, in place. */
  method Reverse(a: array<char>)
    modifies a
    ensures a[..] == Reversed(old(a[..]))
  {
    ReversedIndex(a[..]);
    var i, j := 0, a.Length - 1;
    while i < j
      invariant 0 <= i <= a.Length && j == a.Length - 1 - i && i <= j + 1
      invariant forall k :: 0 <= k < i || j < k < a.Length ==> a[k] == old(a[a.Length - 1 - k])
      invariant forall k :: i <= k <= j ==> a[k] == old(a[k])
    {
      a[i], a[j] := a[j], a[i];
      i, j := i + 1, j - 1;
    }
  }

  /** A copy of `text` put in a buffer and reversed there. */
  method ReverseCopy(text: string) returns (r: string)
    ensures r == Reversed(text)
  {
    var buffer := new char[|text|](i requires 0 <= i < |text| => text[i]);
    assert buffer[..] == text;
    Reverse(buffer);
    r := buffer[..];
  }

  /** `Adaptee`, which has no state. */
  datatype Adaptee = Adaptee

  /** `Adaptee::specificRequest()`. */
  function SpecificRequest(adaptee: Adaptee): (r: string)
    ensures Reversed(r) == "Special behavior of the Adaptee."
  {
    AdapterTranslation();
    AdapteeText
  }

  /** What a `std::shared_ptr<Target>` may point to: a plain `Target` or an
      `Adapter` holding an adaptee. */
  datatype Target = Target | Adapter(adaptee: Adaptee)

  /** The virtual `request()`: the default text for a `Target`; for an
      `Adapter`, the adaptee's answer reversed behind the adapter's prefix. */
  method Request(target: Target) returns (r: string)
    ensures target.Target? ==> r == DefaultText
    ensures target.Adapter? ==> r == AdapterPrefix + Reversed(SpecificRequest(target.adaptee))
    ensures target.Adapter? ==> |r| == |AdapterPrefix| + |SpecificRequest(target.adaptee)|
  {
    match target
    case Target =>
      r := DefaultText;
    case Adapter(adaptee) =>
      var toReverse := ReverseCopy(SpecificRequest(adaptee));
      r := AdapterPrefix + toReverse;
  }

  /** Reversing four parts reverses each and their order. */
  lemma ReversedConcat4(w1: string, w2: string, w3: string, w4: string)
    ensures Reversed(w1 + w2 + w3 + w4) == Reversed(w4) + Reversed(w3) + Reversed(w2) + Reversed(w1)
  {
    ReversedConcat(w1 + w2 + w3, w4);
    ReversedConcat(w1 + w2, w3);
    ReversedConcat(w1, w2);
  }

  lemma ReversedWord1()
    ensures Reversed(".eetpadA") == "Adaptee."
  {
    ReversedConcat(".eet", "padA");
    assert Reversed(".eet") == "tee." && Reversed("padA") == "Adap";
  }

  lemma ReversedWord2()
    ensures Reversed(" eht fo") == "of the "
  {
    ReversedConcat(" eht", " fo");
    assert Reversed(" eht") == "the " && Reversed(" fo") == "of ";
  }

  lemma ReversedWord3()
    ensures Reversed(" roivaheb") == "behavior "
  {
    ReversedConcat(" roi", "vaheb");
    assert Reversed(" roi") == "ior " && Reversed("vaheb") == "behav";
  }

  lemma ReversedWord4()
    ensures Reversed(" laicepS") == "Special "
  {
    ReversedConcat(" lai", "cepS");
    assert Reversed(" lai") == "ial " && Reversed("cepS") == "Spec";
  }

  /** The adaptee's text, reversed word by word. */
  lemma AdapteeWordsReversed()
    ensures Reversed(AdapteeText) == "Special " + "behavior " + "of the " + "Adaptee."
  {
    assert AdapteeText == ".eetpadA" + " eht fo" + " roivaheb" + " laicepS";
    ReversedConcat4(".eetpadA", " eht fo", " roivaheb", " laicepS");
    ReversedWord1();
    ReversedWord2();
    ReversedWord3();
    ReversedWord4();
  }

  /** The four words joined; kept apart so that the literal concatenation is
      settled in a small proof of its own. */
  lemma TranslationWords()
    ensures "Special " + "behavior " + "of the " + "Adaptee." == "Special behavior of the Adaptee."
  {
  }

  /** The adapter's translation reads the adaptee's text forwards. */
  lemma AdapterTranslation()
    ensures Reversed(AdapteeText) == "Special behavior of the Adaptee."
  {
    AdapteeWordsReversed();
    TranslationWords();
  }

  /** The prefix joined to the translation, settled on its own like
      `TranslationWords`. */
  lemma PrefixedTranslation()
    ensures AdapterPrefix + "Special behavior of the Adaptee." == "Adapter: (TRANSLATED) Special behavior of the Adaptee."
  {
  }

  /** `main`'s two calls of `clientCode`: the client sees the default text
      from the target and a readable sentence from the adapter. */
  method ClientExample() returns (fromTarget: string, fromAdapter: string)
    ensures fromTarget == "Target: The default target's behavior."
    ensures fromAdapter == "Adapter: (TRANSLATED) Special behavior of the Adaptee."
  {
    fromTarget := Request(Target);
    fromAdapter := Request(Adapter(Adaptee));
    AdapterTranslation();
    PrefixedTranslation();
  }
}
