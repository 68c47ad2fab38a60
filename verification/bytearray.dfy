/**
 * The ByteArray class (src/objects/bytearray.c): an immutable sequence of
 * bytes built from an Array of Integers.
 */
module ByteArray {
  import opened Wrappers
  import opened Objects
  import StringObject

  type Byte = b: int | 0 <= b < 256

  /** The bytes made from the elements of the Array passed to `new
      ByteArray`: each must be an Integer (TypeError) between 0 and 255
      (ValueError); the first offending element decides the error. */
  function FromIntegers(elems: seq<Obj>): (r: Result<seq<Byte>, Exception>)
    ensures r.Ok? <==> forall i :: 0 <= i < |elems| ==> elems[i].data.Int? && 0 <= elems[i].data.value <= 255
    ensures r.Ok? ==> |r.value| == |elems| && forall i :: 0 <= i < |elems| ==> r.value[i] == elems[i].data.value
    ensures r.Err? ==>
      exists i :: 0 <= i < |elems| && Fine(elems[..i]) && !Fine([elems[i]]) &&
        r.error == (if elems[i].data.Int? then RangeError else TypeError)
  {
    if |elems| == 0 then Ok([])
    else if !elems[0].data.Int? then
      assert [elems[0]][0] == elems[0] && elems[..0] == [];
      Err(TypeError)
    else if !(0 <= elems[0].data.value <= 255) then
      assert [elems[0]][0] == elems[0] && elems[..0] == [];
      Err(RangeError)
    else
      var rest := FromIntegers(elems[1..]);
      assert Fine(elems[..1]);
      if rest.Err? then
        assert forall i :: 0 <= i < |elems| - 1 && Fine(elems[1..][..i]) ==> Fine(elems[..i + 1]) && elems[1..][i] == elems[i + 1] by {
          forall i | 0 <= i < |elems| - 1 && Fine(elems[1..][..i])
            ensures Fine(elems[..i + 1]) && elems[1..][i] == elems[i + 1]
          {
            assert elems[..i + 1] == [elems[0]] + elems[1..][..i];
          }
        }
        rest
      else
        Ok([elems[0].data.value as Byte] + rest.value)
  }

  const TypeError := Exception("TypeError", "expected an instance of %U, got %D")
  const RangeError := Exception("ValueError", "expected an integer between 0 and 255, got %D")

  /** Every element is an Integer between 0 and 255. */
  predicate Fine(elems: seq<Obj>)
  {
    forall i :: 0 <= i < |elems| ==> elems[i].data.Int? && 0 <= elems[i].data.value <= 255
  }

  /** setup accepts any arguments. */
  function Setup(args: seq<Obj>): (ok: bool)
    ensures ok
  {
    true
  }

  /** validate_index accepts exactly the indexes of the bytes. */
  function ValidateIndex(len: nat, i: int): (r: Option<Exception>)
    ensures r.None? <==> 0 <= i < len
    ensures i < 0 ==> r == Some(Exception("ValueError", "%L is not a valid array index"))
    ensures i >= len && i >= 0 ==>
      r == Some(Exception("ValueError", "%L is not a valid index for an array of length %L"))
  {
    if i < 0 then Some(Exception("ValueError", "%L is not a valid array index"))
    else if i >= len then Some(Exception("ValueError", "%L is not a valid index for an array of length %L"))
    else None
  }

  /** get: the byte at index i, as the value of a new Integer. */
  function Get(b: seq<Byte>, i: int): (r: Result<int, Exception>)
    ensures r.Ok? <==> 0 <= i < |b|
    ensures r.Ok? ==> r.value == b[i] && 0 <= r.value <= 255
    ensures r.Err? ==> Some(r.error) == ValidateIndex(|b|, i)
  {
    match ValidateIndex(|b|, i)
    case Some(e) => Err(e)
    case None => Ok(b[i] as int)
  }

  /** slice: always a fresh ByteArray; the one-argument form ends at the
      length. */
  function Slice(b: seq<Byte>, start: int, end: Option<int>): (r: seq<Byte>)
    ensures var e := if end.None? then |b| else end.value;
      var (lo, hi) := ClampedRange(|b|, start, e);
      r == b[lo..hi]
  {
    var e := if end.None? then |b| else end.value;
    var st := if start < 0 then 0 else start;
    if e < 0 then []
    else
      var en := if e > |b| then |b| else e;
      if st >= en then []
      else b[st..en]
  }

  /** A ByteArray slice holds the same elements as a String slice of the
      same sequence with the same bounds. */
  lemma SliceLikeString(b: seq<Byte>, start: int, end: Option<int>)
    ensures Slice(b, start, end) ==
      StringObject.SliceChars(b, StringObject.Slice(b, start, end))
  {
  }

  function Length(b: seq<Byte>): (r: nat)
    ensures r == |b|
  {
    |b|
  }

  /** eq: none unless both operands are ByteArrays, true for the same
      object, otherwise whether the lengths and the bytes agree. */
  function Eq(a: Obj, b: Obj): (r: EqAnswer)
    ensures r.NotMine? <==> !(a.data.Bytes? && b.data.Bytes?)
    ensures a.data.Bytes? && b.data.Bytes? && a.id == b.id ==> r == Answer(true)
    ensures r.Answer? && a.id != b.id ==> (r.equal <==> a.data.bytes == b.data.bytes)
  {
    if !(a.data.Bytes? && b.data.Bytes?) then NotMine
    else if a.id == b.id then Answer(true)
    else if |a.data.bytes| != |b.data.bytes| then Answer(false)
    else Answer(a.data.bytes == b.data.bytes)
  }

  /** When one address means one object, the answer is exactly byte
      equality, and it is an equivalence. */
  lemma EqIsByteEquality(a: Obj, b: Obj, c: Obj)
    requires a.data.Bytes? && b.data.Bytes? && c.data.Bytes?
    requires a.id == b.id ==> a == b
    requires b.id == c.id ==> b == c
    requires a.id == c.id ==> a == c
    ensures Eq(a, b) == Answer(a.data.bytes == b.data.bytes)
    ensures Eq(a, a) == Answer(true)
    ensures Eq(a, b) == Eq(b, a)
    ensures Eq(a, b) == Answer(true) && Eq(b, c) == Answer(true) ==> Eq(a, c) == Answer(true)
  {
  }

  /** bytearrayobject_new: a byte array made here is not hashable. */
  function NewByteArray(id: nat, hash: int, bytes: seq<Byte>): (r: Obj)
    ensures !r.hashable && r.data == Bytes(bytes) && r.id == id
  {
    Obj(id, false, hash, Bytes(bytes))
  }
}
