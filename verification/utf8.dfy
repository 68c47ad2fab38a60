/** UTF-8 encoding and decoding of the interpreter's code-point strings
    (src/utf8.c), following the byte layout of section 3 of RFC 3629.

    Bytes and code points are bounded integers; the shifts and masks of the C
    code are written as division and remainder by powers of two, and an `|`
    of disjoint bit fields as `+`. */
module Utf8 {
  import opened Wrappers

  /** An unsigned char of the encoded buffer. */
  type Byte = b: int | 0 <= b < 0x100

  /** unicode_char is a 32-bit unsigned integer: it can hold values that are
      not Unicode scalar values, and the encoder has to reject those. */
  type UnicodeChar = c: int | 0 <= c < 0x1_0000_0000

  /** Code points that UTF-8 may encode: at most U+10FFFF and not a
      surrogate (RFC 3629 section 3). */
  predicate IsScalarValue(c: int) {
    0 <= c <= 0x10FFFF && !(0xD800 <= c <= 0xDFFF)
  }

  predicate AllScalar(s: seq<UnicodeChar>) {
    forall i :: 0 <= i < |s| ==> IsScalarValue(s[i])
  }

  /** How many code points the payload bits of an n-byte form can hold:
      7, 11, 16 and 21 bits. */
  function Capacity(n: int): int
    requires 1 <= n <= 4
  {
    if n == 1 then 0x80 else if n == 2 then 0x800 else if n == 3 then 0x1_0000 else 0x20_0000
  }

  /** The lead-byte patterns 0xxxxxxx, 110xxxxx, 1110xxxx and 11110xxx. */
  predicate IsLead(b: int, n: int) {
    (n == 1 && 0 <= b <= 0x7F) || (n == 2 && 0xC0 <= b <= 0xDF)
    || (n == 3 && 0xE0 <= b <= 0xEF) || (n == 4 && 0xF0 <= b <= 0xF7)
  }

  /** The continuation-byte pattern 10xxxxxx. */
  predicate IsContinuation(b: int) {
    0x80 <= b <= 0xBF
  }

  datatype Utf8Error =
    | InvalidCodePoint(c: UnicodeChar)
    | InvalidStartByte(b: Byte)
    | UnexpectedEnd
    | InvalidContinuation(b: Byte)
    | Overlong(form: seq<Byte>)

  /** how_many_bytes: the length of the shortest UTF-8 form of c, or -1
      (with a ValueError) for a surrogate or a value above U+10FFFF. */
  function HowManyBytes(c: UnicodeChar): (r: int)
    ensures r == -1 <==> !IsScalarValue(c)
    ensures r != -1 ==> 1 <= r <= 4 && c < Capacity(r) && (r == 1 || Capacity(r - 1) <= c)
  {
    if c <= 0x7f then 1
    else if c <= 0x7ff then 2
    else if c <= 0xffff then (if 0xd800 <= c && c <= 0xdfff then -1 else 3)
    else if c <= 0x10ffff then 4
    else -1
  }

  /** The bytes utf8_encode writes for one valid code point. */
  function EncodeChar(c: UnicodeChar): (r: seq<Byte>)
    requires IsScalarValue(c)
    ensures |r| == HowManyBytes(c)
    ensures IsLead(r[0], |r|)
    ensures forall i :: 1 <= i < |r| ==> IsContinuation(r[i])
  {
    var n := HowManyBytes(c);
    if n == 1 then [c]
    else if n == 2 then [0xC0 + c / 0x40, 0x80 + c % 0x40]
    else if n == 3 then [0xE0 + c / 0x1000, 0x80 + c / 0x40 % 0x40, 0x80 + c % 0x40]
    else [0xF0 + c / 0x4_0000, 0x80 + c / 0x1000 % 0x40, 0x80 + c / 0x40 % 0x40, 0x80 + c % 0x40]
  }

  /** Total encoded size of a valid string. */
  function ByteCount(s: seq<UnicodeChar>): nat
    requires AllScalar(s)
  {
    if |s| == 0 then 0 else HowManyBytes(s[0]) + ByteCount(s[1..])
  }

  /** The second loop of utf8_encode: the forms of the code points, in order. */
  function EncodeAll(s: seq<UnicodeChar>): (r: seq<Byte>)
    requires AllScalar(s)
    ensures |r| == ByteCount(s)
    ensures |s| > 0 ==> r[..HowManyBytes(s[0])] == EncodeChar(s[0])
  {
    if |s| == 0 then [] else EncodeChar(s[0]) + EncodeAll(s[1..])
  }

  /** The first loop of utf8_encode: it sums the byte counts and stops at the
      first invalid code point. */
  function EncodedLength(s: seq<UnicodeChar>): (r: Result<nat, Utf8Error>)
    ensures r.Ok? ==> AllScalar(s) && r.value == ByteCount(s)
    ensures r.Err? ==> exists i :: 0 <= i < |s| && AllScalar(s[..i]) && r.error == InvalidCodePoint(s[i])
    ensures AllScalar(s) ==> r.Ok?
  {
    if |s| == 0 then Ok(0)
    else
      var part := HowManyBytes(s[0]);
      if part == -1 then
        assert AllScalar(s[..0]);
        Err(InvalidCodePoint(s[0]))
      else
        var rest := EncodedLength(s[1..]);
        if rest.Err? then
          assert forall i :: 0 <= i < |s| - 1 && AllScalar(s[1..][..i]) ==> AllScalar(s[..i + 1]) && s[1..][i] == s[i + 1];
          Err(rest.error)
        else
          Ok(part + rest.value)
  }

  /** utf8_encode. The empty string gives an empty buffer (NULL with length
      0); otherwise an invalid code point fails before any output exists. */
  function Encode(s: seq<UnicodeChar>): (r: Result<seq<Byte>, Utf8Error>)
    ensures |s| == 0 ==> r == Ok([])
    ensures r.Ok? <==> AllScalar(s)
    ensures r.Ok? ==> |r.value| == ByteCount(s)
    ensures r.Err? ==> exists i :: 0 <= i < |s| && AllScalar(s[..i]) && r.error == InvalidCodePoint(s[i])
  {
    if |s| == 0 then Ok([])
    else
      var n :- EncodedLength(s);
      Ok(EncodeAll(s))
  }

  /** The how_many_bytes check that ends the decoding of one sequence: the
      assembled value v must be a scalar value whose shortest form is not
      shorter than the bytes it was read from. */
  function Accept(v: UnicodeChar, form: seq<Byte>): Result<(UnicodeChar, nat), Utf8Error>
    requires 1 <= |form| <= 4
  {
    var expected := HowManyBytes(v);
    if expected == -1 then Err(InvalidCodePoint(v))
    else if |form| > expected then Err(Overlong(form))
    else Ok((v, |form|))
  }

  /** One iteration of the loop of utf8_decode: classify the lead byte,
      check the length and the continuation bytes, assemble the value. */
  function DecodeOne(b: seq<Byte>): (r: Result<(UnicodeChar, nat), Utf8Error>)
    requires |b| > 0
    ensures r.Ok? ==> 1 <= r.value.1 <= |b| && r.value.1 <= 4
    ensures (0x80 <= b[0] <= 0xBF || 0xF8 <= b[0]) ==> r == Err(InvalidStartByte(b[0]))
  {
    var b0: int := b[0];
    var b1: int := if |b| > 1 then b[1] else 0;
    var b2: int := if |b| > 2 then b[2] else 0;
    var b3: int := if |b| > 3 then b[3] else 0;
    if b0 / 0x80 == 0 then Accept(b0, b[..1])
    else if b0 / 0x20 == 6 then
      if |b| < 2 then Err(UnexpectedEnd)
      else if b[1] / 0x40 != 2 then Err(InvalidContinuation(b[1]))
      else Accept(b0 % 0x20 * 0x40 + b1 % 0x40, b[..2])
    else if b0 / 0x10 == 14 then
      if |b| < 3 then Err(UnexpectedEnd)
      else if b[1] / 0x40 != 2 then Err(InvalidContinuation(b[1]))
      else if b[2] / 0x40 != 2 then Err(InvalidContinuation(b[2]))
      else Accept(b0 % 0x10 * 0x1000 + b1 % 0x40 * 0x40 + b2 % 0x40, b[..3])
    else if b0 / 0x8 == 30 then
      if |b| < 4 then Err(UnexpectedEnd)
      else if b[1] / 0x40 != 2 then Err(InvalidContinuation(b[1]))
      else if b[2] / 0x40 != 2 then Err(InvalidContinuation(b[2]))
      else if b[3] / 0x40 != 2 then Err(InvalidContinuation(b[3]))
      else Accept(b0 % 0x8 * 0x4_0000 + b1 % 0x40 * 0x1000 + b2 % 0x40 * 0x40 + b3 % 0x40, b[..4])
    else Err(InvalidStartByte(b0))
  }

  /** A successfully decoded sequence is exactly the encoding of its value:
      the decoder accepts no overlong form, surrogate or out-of-range value. */
  lemma DecodeOneCanonical(b: seq<Byte>)
    requires |b| > 0 && DecodeOne(b).Ok?
    ensures IsScalarValue(DecodeOne(b).value.0)
    ensures EncodeChar(DecodeOne(b).value.0) == b[..DecodeOne(b).value.1]
  {
    var b0: int := b[0];
    if b0 / 0x80 == 0 {
      assert DecodeOne(b) == Accept(b0, b[..1]);
    } else if b0 / 0x20 == 6 {
      DecodedForm2(b);
    } else if b0 / 0x10 == 14 {
      DecodedForm3(b);
    } else {
      DecodedForm4(b);
    }
  }

  lemma DecodedForm2(b: seq<Byte>)
    requires |b| > 0 && (b[0] as int) / 0x20 == 6 && DecodeOne(b).Ok?
    ensures IsScalarValue(DecodeOne(b).value.0)
    ensures EncodeChar(DecodeOne(b).value.0) == b[..DecodeOne(b).value.1]
  {
    var c := (b[0] as int) % 0x20 * 0x40 + (b[1] as int) % 0x40;
    assert DecodeOne(b) == Accept(c, b[..2]) && IsContinuation(b[1]);
    hide DecodeOne;
    Canonical2(b[0], b[1]);
    assert b[..2] == [b[0], b[1]];
  }

  lemma DecodedForm3(b: seq<Byte>)
    requires |b| > 0 && (b[0] as int) / 0x10 == 14 && DecodeOne(b).Ok?
    ensures IsScalarValue(DecodeOne(b).value.0)
    ensures EncodeChar(DecodeOne(b).value.0) == b[..DecodeOne(b).value.1]
  {
    var c := (b[0] as int) % 0x10 * 0x1000 + (b[1] as int) % 0x40 * 0x40 + (b[2] as int) % 0x40;
    assert DecodeOne(b) == Accept(c, b[..3]) && IsContinuation(b[1]) && IsContinuation(b[2]);
    hide DecodeOne;
    Canonical3(b[0], b[1], b[2]);
    assert b[..3] == [b[0], b[1], b[2]];
  }

  lemma DecodedForm4(b: seq<Byte>)
    requires |b| > 0 && (b[0] as int) / 0x8 == 30 && DecodeOne(b).Ok?
    ensures IsScalarValue(DecodeOne(b).value.0)
    ensures EncodeChar(DecodeOne(b).value.0) == b[..DecodeOne(b).value.1]
  {
    var c := (b[0] as int) % 0x8 * 0x4_0000 + (b[1] as int) % 0x40 * 0x1000 + (b[2] as int) % 0x40 * 0x40 + (b[3] as int) % 0x40;
    assert DecodeOne(b) == Accept(c, b[..4]) && IsContinuation(b[1]) && IsContinuation(b[2]) && IsContinuation(b[3]);
    hide DecodeOne;
    Canonical4(b[0], b[1], b[2], b[3]);
    assert b[..4] == [b[0], b[1], b[2], b[3]];
  }

  lemma Canonical2(b0: Byte, b1: Byte)
    requires IsLead(b0, 2) && IsContinuation(b1)
    requires HowManyBytes((b0 as int) % 0x20 * 0x40 + (b1 as int) % 0x40) == 2
    ensures EncodeChar((b0 as int) % 0x20 * 0x40 + (b1 as int) % 0x40) == [b0, b1]
  {
    var c := (b0 as int) % 0x20 * 0x40 + (b1 as int) % 0x40;
    DivMod64(c, (b0 as int) % 0x20, (b1 as int) % 0x40);
  }

  lemma Canonical3(b0: Byte, b1: Byte, b2: Byte)
    requires IsLead(b0, 3) && IsContinuation(b1) && IsContinuation(b2)
    requires HowManyBytes((b0 as int) % 0x10 * 0x1000 + (b1 as int) % 0x40 * 0x40 + (b2 as int) % 0x40) == 3
    ensures EncodeChar((b0 as int) % 0x10 * 0x1000 + (b1 as int) % 0x40 * 0x40 + (b2 as int) % 0x40) == [b0, b1, b2]
  {
    var hi := (b0 as int) % 0x10 * 0x40 + (b1 as int) % 0x40;
    var c := hi * 0x40 + (b2 as int) % 0x40;
    DivMod64(c, hi, (b2 as int) % 0x40);
    DivMod64(hi, (b0 as int) % 0x10, (b1 as int) % 0x40);
    assert c / 0x1000 == c / 0x40 / 0x40;
  }

  lemma Canonical4(b0: Byte, b1: Byte, b2: Byte, b3: Byte)
    requires IsLead(b0, 4) && IsContinuation(b1) && IsContinuation(b2) && IsContinuation(b3)
    requires HowManyBytes((b0 as int) % 0x8 * 0x4_0000 + (b1 as int) % 0x40 * 0x1000 + (b2 as int) % 0x40 * 0x40 + (b3 as int) % 0x40) == 4
    ensures EncodeChar((b0 as int) % 0x8 * 0x4_0000 + (b1 as int) % 0x40 * 0x1000 + (b2 as int) % 0x40 * 0x40 + (b3 as int) % 0x40)
         == [b0, b1, b2, b3]
  {
    var d0, d1, d2, d3 := (b0 as int) % 0x8, (b1 as int) % 0x40, (b2 as int) % 0x40, (b3 as int) % 0x40;
    var c := d0 * 0x4_0000 + d1 * 0x1000 + d2 * 0x40 + d3;
    DigitsOf4(d0, d1, d2, d3);
    LeadLow(b0);
    ContinuationLow(b1);
    ContinuationLow(b2);
    ContinuationLow(b3);
    EncodeChar4(c);
  }

  /** A four-byte lead byte is 0xF0 plus its low three bits. */
  lemma LeadLow(b: int)
    requires 0xF0 <= b <= 0xF7
    ensures b == 0xF0 + b % 0x8
  {
  }

  /** A continuation byte is 0x80 plus its low six bits. */
  lemma ContinuationLow(b: int)
    requires IsContinuation(b)
    ensures b == 0x80 + b % 0x40
  {
  }

  /** Four base-64 digits, the top one below 8, are read back by division. */
  lemma DigitsOf4(d0: int, d1: int, d2: int, d3: int)
    requires 0 <= d0 < 0x8 && 0 <= d1 < 0x40 && 0 <= d2 < 0x40 && 0 <= d3 < 0x40
    ensures var c := d0 * 0x4_0000 + d1 * 0x1000 + d2 * 0x40 + d3;
      c / 0x4_0000 == d0 && c / 0x1000 % 0x40 == d1 && c / 0x40 % 0x40 == d2 && c % 0x40 == d3
  {
    var top := d0 * 0x40 + d1;
    var mid := top * 0x40 + d2;
    var c := mid * 0x40 + d3;
    DivMod64(c, mid, d3);
    DivMod64(mid, top, d2);
    DivMod64(top, d0, d1);
    assert c / 0x1000 == c / 0x40 / 0x40;
    assert c / 0x4_0000 == c / 0x1000 / 0x40;
  }

  /** c = 64 q + r with r < 64 determines q and r. */
  lemma DivMod64(c: int, q: int, r: int)
    requires c == q * 0x40 + r && 0 <= r < 0x40
    ensures c / 0x40 == q && c % 0x40 == r
  {
  }

  lemma DecodeEncoded2(c: UnicodeChar, rest: seq<Byte>)
    requires IsScalarValue(c) && HowManyBytes(c) == 2
    ensures DecodeOne(EncodeChar(c) + rest) == Ok((c, 2))
  {
    var b := EncodeChar(c) + rest;
    assert b[..2] == EncodeChar(c);
    DivMod64(c, c / 0x40, c % 0x40);
    assert (b[0] as int) % 0x20 == c / 0x40;
    assert (b[1] as int) % 0x40 == c % 0x40;
  }

  lemma DecodeEncoded3(c: UnicodeChar, rest: seq<Byte>)
    requires IsScalarValue(c) && HowManyBytes(c) == 3
    ensures DecodeOne(EncodeChar(c) + rest) == Ok((c, 3))
  {
    var b := EncodeChar(c) + rest;
    assert b[..3] == EncodeChar(c);
    var q1 := c / 0x40;
    DivMod64(q1, c / 0x1000, q1 % 0x40);
    assert (b[0] as int) % 0x10 == c / 0x1000;
    assert (b[1] as int) % 0x40 == q1 % 0x40;
    assert (b[2] as int) % 0x40 == c % 0x40;
  }

  lemma DecodeEncoded4(c: UnicodeChar, rest: seq<Byte>)
    requires IsScalarValue(c) && HowManyBytes(c) == 4
    ensures DecodeOne(EncodeChar(c) + rest) == Ok((c, 4))
  {
    var d0, d1, d2, d3 := c / 0x4_0000, c / 0x1000 % 0x40, c / 0x40 % 0x40, c % 0x40;
    EncodeChar4(c);
    Digits4(c);
    hide EncodeChar, DecodeOne;
    var b := EncodeChar(c) + rest;
    assert b[..4] == EncodeChar(c);
    assert b[0] as int == 0xF0 + d0 && b[1] as int == 0x80 + d1;
    assert b[2] as int == 0x80 + d2 && b[3] as int == 0x80 + d3;
    ContinuationDigits(d0, d1, d2, d3);
    DecodeLead4(b);
  }

  /** The four bytes of a four-byte form. */
  lemma EncodeChar4(c: UnicodeChar)
    requires IsScalarValue(c) && HowManyBytes(c) == 4
    ensures EncodeChar(c) == [0xF0 + c / 0x4_0000, 0x80 + c / 0x1000 % 0x40, 0x80 + c / 0x40 % 0x40, 0x80 + c % 0x40]
  {
  }

  /** A lead byte and continuation bytes give back the digits they carry. */
  lemma ContinuationDigits(d0: int, d1: int, d2: int, d3: int)
    requires 0 <= d0 < 0x8 && 0 <= d1 < 0x40 && 0 <= d2 < 0x40 && 0 <= d3 < 0x40
    ensures (0xF0 + d0) % 0x8 == d0 && (0x80 + d1) % 0x40 == d1
    ensures (0x80 + d2) % 0x40 == d2 && (0x80 + d3) % 0x40 == d3
  {
  }

  /** The four base-64 digits of a four-byte code point, top digit below 8. */
  lemma Digits4(c: int)
    requires 0x1_0000 <= c <= 0x10_FFFF
    ensures 0 <= c / 0x4_0000 < 0x8
    ensures c == c / 0x4_0000 * 0x4_0000 + c / 0x1000 % 0x40 * 0x1000 + c / 0x40 % 0x40 * 0x40 + c % 0x40
  {
    var q1 := c / 0x40;
    var q2 := c / 0x1000;
    DivMod64(q1, q2, q1 % 0x40);
    DivMod64(q2, c / 0x4_0000, q2 % 0x40);
  }

  /** A four-byte lead followed by three continuation bytes reaches the
      final check with the value the four bytes assemble to. */
  lemma DecodeLead4(b: seq<Byte>)
    requires |b| >= 4 && IsLead(b[0], 4) && IsContinuation(b[1]) && IsContinuation(b[2]) && IsContinuation(b[3])
    ensures DecodeOne(b) == Accept((b[0] as int) % 0x8 * 0x4_0000 + (b[1] as int) % 0x40 * 0x1000
                                   + (b[2] as int) % 0x40 * 0x40 + (b[3] as int) % 0x40, b[..4])
  {
  }

  /** Decoding the encoding of a valid code point yields it back, whatever
      follows it. */
  lemma DecodeEncodedChar(c: UnicodeChar, rest: seq<Byte>)
    requires IsScalarValue(c)
    ensures DecodeOne(EncodeChar(c) + rest) == Ok((c, |EncodeChar(c)|))
  {
    var n := HowManyBytes(c);
    if n == 1 {
      assert (EncodeChar(c) + rest)[..1] == EncodeChar(c);
    } else if n == 2 {
      DecodeEncoded2(c, rest);
    } else if n == 3 {
      DecodeEncoded3(c, rest);
    } else {
      DecodeEncoded4(c, rest);
    }
  }

  /** utf8_decode. Zero bytes decode to the empty string; otherwise the
      sequences are decoded one after another and the first malformed one
      fails the whole call. A decoded string never has more code points than
      the input has bytes, and re-encoding it gives back exactly the input. */
  function Decode(b: seq<Byte>): (r: Result<seq<UnicodeChar>, Utf8Error>)
    ensures |b| == 0 ==> r == Ok([])
    ensures r.Ok? ==> |r.value| <= |b|
    ensures r.Ok? ==> AllScalar(r.value) && EncodeAll(r.value) == b
    decreases |b|
  {
    if |b| == 0 then Ok([])
    else
      var step :- DecodeOne(b);
      var rest :- Decode(b[step.1..]);
      DecodeCons(b, step.0, step.1, rest);
      Ok([step.0] + rest)
  }

  /** One decoded character in front of a decoded rest encodes back to the
      whole input. */
  lemma DecodeCons(b: seq<Byte>, c: UnicodeChar, n: nat, rest: seq<UnicodeChar>)
    requires |b| > 0 && DecodeOne(b) == Ok((c, n))
    requires |rest| <= |b| - n && AllScalar(rest) && EncodeAll(rest) == b[n..]
    ensures |[c] + rest| <= |b| && AllScalar([c] + rest) && EncodeAll([c] + rest) == b
  {
    DecodeOneCanonical(b);
    hide DecodeOne, EncodeChar, HowManyBytes;
    var s := [c] + rest;
    assert s[0] == c && s[1..] == rest;
    assert AllScalar(s) by {
      forall i | 0 <= i < |s| ensures IsScalarValue(s[i]) {
        if i > 0 { assert s[i] == rest[i - 1]; }
      }
    }
    assert EncodeAll(s) == EncodeChar(c) + EncodeAll(rest);
    assert b == b[..n] + b[n..];
  }

  /** Round trip: every valid string survives encoding and decoding. */
  lemma {:induction false} DecodeEncodeAll(s: seq<UnicodeChar>)
    requires AllScalar(s)
    ensures Decode(EncodeAll(s)) == Ok(s)
    decreases |s|
  {
    if |s| > 0 {
      var e := EncodeChar(s[0]);
      var tail := EncodeAll(s[1..]);
      assert EncodeAll(s) == e + tail;
      DecodeEncodedChar(s[0], tail);
      assert (e + tail)[|e|..] == tail;
      DecodeEncodeAll(s[1..]);
      assert s == [s[0]] + s[1..];
    }
  }

  /** Encoding then decoding is the identity on valid strings. */
  lemma RoundTrip(s: seq<UnicodeChar>)
    requires AllScalar(s)
    ensures Encode(s).Ok? && Decode(Encode(s).value) == Ok(s)
  {
    DecodeEncodeAll(s);
  }

  /** Decoding then encoding is the identity on accepted inputs: the decoder
      is the exact inverse of the encoder. */
  lemma DecodeThenEncode(b: seq<Byte>)
    requires Decode(b).Ok?
    ensures Encode(Decode(b).value) == Ok(b)
  {
  }
}
