/** The older twin of the UTF-8 codec together with the code-point string
    copies (src/unicode.c). Its classification and byte layout are the ones
    of module Utf8; what differs is the error reporting: every failure is a
    status code, and the result buffers are allocated before validation, so
    an allocation failure is an outcome the caller can observe. Whether an
    allocation succeeds is a parameter. */
module LegacyUnicode {
  import opened Wrappers
  import Utf8

  /** STATUS_ERROR and STATUS_NOMEM. */
  datatype Status = StatusError | StatusNomem

  /** unicodestring_copyinto / unicodestring_copy: a code-point by
      code-point copy (memcpy) into a fresh buffer, or STATUS_ERROR / NULL
      when the buffer cannot be allocated. */
  method Copy(src: seq<Utf8.UnicodeChar>, allocOk: bool) returns (r: Result<seq<Utf8.UnicodeChar>, Status>)
    ensures !allocOk <==> r == Err(StatusError)
    ensures r.Ok? ==> |r.value| == |src| && forall i :: 0 <= i < |src| ==> r.value[i] == src[i]
  {
    if !allocOk {
      return Err(StatusError);
    }
    var dst: seq<Utf8.UnicodeChar> := [];
    var i := 0;
    while i < |src|
      invariant 0 <= i <= |src|
      invariant |dst| == i
      invariant forall k :: 0 <= k < i ==> dst[k] == src[k]
    {
      dst := dst + [src[i]];
      i := i + 1;
    }
    return Ok(dst);
  }

  /** how_many_bytes: the same classification as the current codec. */
  function HowManyBytes(c: Utf8.UnicodeChar): (r: int)
    ensures r == -1 <==> !Utf8.IsScalarValue(c)
    ensures r != -1 ==> 1 <= r <= 4 && c < Utf8.Capacity(r) && (r == 1 || Utf8.Capacity(r - 1) <= c)
  {
    if c <= 0x7f then 1
    else if c <= 0x7ff then 2
    else if c <= 0xffff then (if 0xd800 <= c && c <= 0xdfff then -1 else 3)
    else if c <= 0x10ffff then 4
    else -1
  }

  /** The first loop of utf8_encode: sum of the byte counts, or
      STATUS_ERROR at the first invalid code point. */
  function EncodedLength(s: seq<Utf8.UnicodeChar>): (r: Result<nat, Status>)
    ensures r.Ok? <==> Utf8.AllScalar(s)
    ensures r.Ok? ==> r.value == Utf8.ByteCount(s)
    ensures r.Err? ==> r.error == StatusError
  {
    if |s| == 0 then Ok(0)
    else if HowManyBytes(s[0]) == -1 then Err(StatusError)
    else
      var rest :- EncodedLength(s[1..]);
      Ok(HowManyBytes(s[0]) + rest)
  }

  /** utf8_encode. Unlike the current codec there is no special case for
      the empty string: the buffer of utf8len bytes is always allocated, so
      even an empty input fails when malloc does. The output is only written
      on success. */
  function Encode(s: seq<Utf8.UnicodeChar>, allocOk: bool): (r: Result<seq<Utf8.Byte>, Status>)
    ensures r.Ok? <==> Utf8.AllScalar(s) && allocOk
    ensures r.Err? ==> r.error == StatusError
    ensures r.Ok? ==> |r.value| == Utf8.ByteCount(s) && Utf8.Decode(r.value) == Ok(s)
  {
    var n :- EncodedLength(s);
    if !allocOk then Err(StatusError)
    else
      Utf8.DecodeEncodeAll(s);
      Ok(Utf8.EncodeAll(s))
  }

  /** utf8_decode. The result buffer (one code point per input byte) is
      allocated before anything is validated, so an allocation failure gives
      STATUS_NOMEM whatever the input; after that the loop is the one of the
      current codec and every malformed input gives STATUS_ERROR. */
  function Decode(b: seq<Utf8.Byte>, allocOk: bool): (r: Result<seq<Utf8.UnicodeChar>, Status>)
    ensures !allocOk ==> r == Err(StatusNomem)
    ensures allocOk ==> (r.Ok? <==> Utf8.Decode(b).Ok?)
    ensures allocOk && r.Err? ==> r.error == StatusError
    ensures r.Ok? ==> |r.value| <= |b| && Utf8.AllScalar(r.value) && Utf8.EncodeAll(r.value) == b
  {
    if !allocOk then Err(StatusNomem)
    else Utf8.Decode(b).MapError(_ => StatusError)
  }

  /** Round trip through the old codec, when both buffers can be allocated. */
  lemma RoundTrip(s: seq<Utf8.UnicodeChar>)
    requires Utf8.AllScalar(s)
    ensures Encode(s, true).Ok? && Decode(Encode(s, true).value, true) == Ok(s)
  {
    Utf8.DecodeEncodeAll(s);
  }
}
