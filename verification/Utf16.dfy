// Strings as JavaScript sees them: sequences of UTF-16 code units.
module Utf16 {

  newtype Unit = n: int | 0 <= n < 0x10000

  type Text = seq<Unit>

  const SPACE: Unit := 32

  predicate IsHigh(u: Unit) { 0xD800 <= u <= 0xDBFF }

  predicate IsLow(u: Unit) { 0xDC00 <= u <= 0xDFFF }

  /** White space as the \s class and trim() understand it. */
  predicate IsSpace(u: Unit) {
    9 <= u <= 13 || u == SPACE || u == 0xA0 || u == 0x1680 || 0x2000 <= u <= 0x200A || u == 0x2028 || u == 0x2029
    || u == 0x202F || u == 0x205F || u == 0x3000 || u == 0xFEFF
  }

  /** Cutting the text at i would separate the two halves of a surrogate pair. */
  predicate SplitsPair(text: Text, i: int) {
    0 < i < |text| && IsHigh(text[i - 1]) && IsLow(text[i])
  }

  /** Every low surrogate follows a high one. */
  predicate WellFormedText(text: Text) {
    forall i :: 0 <= i < |text| && IsLow(text[i]) ==> i > 0 && IsHigh(text[i - 1])
  }

  /** The characters that are not white space, in order. */
  function NonSpace(t: Text): Text {
    if t == [] then [] else (if IsSpace(t[0]) then [] else [t[0]]) + NonSpace(t[1..])
  }

  lemma {:induction false} NonSpaceConcat(a: Text, b: Text)
    ensures NonSpace(a + b) == NonSpace(a) + NonSpace(b)
  {
    if a == [] {
      assert a + b == b;
    } else {
      assert (a + b)[1..] == a[1..] + b;
      NonSpaceConcat(a[1..], b);
    }
  }

  lemma {:induction false} NonSpaceOfSpaces(t: Text)
    requires forall i :: 0 <= i < |t| ==> IsSpace(t[i])
    ensures NonSpace(t) == []
  {
    if t != [] { NonSpaceOfSpaces(t[1..]); }
  }
}
