/** The character classes of src/unicode.h, used by the tokenizer, the
    whitespace splitter and the identifier check of lambda. */
module UnicodeClass {
  /** The code points whose chr() Python's str.isspace accepts, in
      increasing order. */
  const SpaceChars: seq<int> := [
    0x9, 0xa, 0xb, 0xc, 0xd, 0x1c, 0x1d, 0x1e, 0x1f, 0x20, 0x85, 0xa0, 0x1680,
    0x2000, 0x2001, 0x2002, 0x2003, 0x2004, 0x2005, 0x2006, 0x2007, 0x2008,
    0x2009, 0x200a, 0x2028, 0x2029, 0x202f, 0x205f, 0x3000]

  /** unicode_isspace, written as the macro's chain of comparisons. */
  predicate IsSpace(x: int) {
    x == 0x9 || x == 0xa || x == 0xb || x == 0xc || x == 0xd
    || x == 0x1c || x == 0x1d || x == 0x1e || x == 0x1f || x == 0x20 || x == 0x85
    || x == 0xa0 || x == 0x1680 || x == 0x2000 || x == 0x2001 || x == 0x2002
    || x == 0x2003 || x == 0x2004 || x == 0x2005 || x == 0x2006 || x == 0x2007
    || x == 0x2008 || x == 0x2009 || x == 0x200a || x == 0x2028 || x == 0x2029
    || x == 0x202f || x == 0x205f || x == 0x3000
  }

  /** unicode_isalpha: ASCII letters and six Finnish letters. */
  predicate IsAlpha(x: int) {
    ('a' as int <= x <= 'z' as int) || ('A' as int <= x <= 'Z' as int)
    || x == 0xc5 || x == 0xc4 || x == 0xd6 || x == 0xe5 || x == 0xe4 || x == 0xf6
  }

  predicate IsIdentifier1st(x: int) {
    x == '_' as int || IsAlpha(x)
  }

  predicate IsIdentifierNot1st(x: int) {
    x == '_' as int || IsAlpha(x) || ('0' as int <= x <= '9' as int)
  }

  /** The whitespace class is exactly the 29 distinct listed code points. */
  lemma SpaceClassIsListed(x: int)
    ensures IsSpace(x) <==> x in SpaceChars
    ensures |SpaceChars| == 29
    ensures forall i, j :: 0 <= i < j < |SpaceChars| ==> SpaceChars[i] < SpaceChars[j]
  {
    assert forall i :: 0 <= i < |SpaceChars| - 1 ==> SpaceChars[i] < SpaceChars[i + 1];
    forall i, j | 0 <= i < j < |SpaceChars|
      ensures SpaceChars[i] < SpaceChars[j]
    {
      IncreasingBetween(SpaceChars, i, j);
    }
  }

  /** A sequence that increases from each element to the next increases
      between any two positions. */
  lemma {:induction false} IncreasingBetween(s: seq<int>, i: nat, j: nat)
    requires forall k :: 0 <= k < |s| - 1 ==> s[k] < s[k + 1]
    requires i < j < |s|
    ensures s[i] < s[j]
    decreases j - i
  {
    if i + 1 < j {
      IncreasingBetween(s, i, j - 1);
    }
  }

  /** Every identifier-first char may also continue an identifier, and no
      whitespace char is an identifier char. */
  lemma ClassesNest(x: int)
    ensures IsIdentifier1st(x) ==> IsIdentifierNot1st(x)
    ensures IsSpace(x) ==> !IsIdentifierNot1st(x) && !IsIdentifier1st(x)
    ensures IsIdentifierNot1st(x) <==> IsIdentifier1st(x) || ('0' as int <= x <= '9' as int)
  {
  }
}
