/**
 * The growable array of the older prototype, c-interpreter/dynamicarray.c.
 * Its push counts the new value before making room for it, and its resize
 * doubles maxlen and overwrites the buffer pointer with realloc's result
 * before checking it; a failed resize therefore leaves len one too high,
 * maxlen doubled and the buffer gone (`values` is `None` for the NULL
 * pointer).  PushAsWritten models that; DynamicArray.Push is the push that
 * keeps the array unchanged on failure.  Pop and the in-use buffer are the
 * same as in DynamicArray.
 */
module LegacyDynamicArray {
  import opened Wrappers
  import DA = DynamicArray

  /** The three fields of the struct: the buffer pointer, len and maxlen. */
  datatype Raw<T> = Raw(values: Option<seq<Option<T>>>, len: nat, maxlen: nat)

  /** A usable array: a buffer of maxlen slots that holds a valid DynamicArray. */
  predicate Valid<T>(r: Raw<T>)
  {
    r.values.Some? && |r.values.value| == r.maxlen && DA.Valid(DA.Array(r.values.value, r.len))
  }

  /** The DynamicArray a usable raw array stands for. */
  function Abs<T>(r: Raw<T>): (a: DA.Array<T>)
    requires Valid(r)
    ensures DA.Valid(a) && DA.MaxLen(a) == r.maxlen && a.len == r.len
  {
    DA.Array(r.values.value, r.len)
  }

  function FromArray<T>(a: DA.Array<T>): (r: Raw<T>)
    requires DA.Valid(a)
    ensures Valid(r) && Abs(r) == a
  {
    Raw(Some(a.values), a.len, |a.values|)
  }

  /** dynamicarray_new: no values, room for three. */
  function New<T>(): Raw<T>
  {
    FromArray(DA.New())
  }

  /** A new struct is valid, has no values and has room for three. */
  lemma NewIsEmpty<T>(r: Raw<T>)
    requires r == New()
    ensures Valid(r) && DA.Elems(Abs(r)) == [] && r.maxlen == DA.InitialMaxLen
  {
    DA.NewIsEmpty(DA.New<T>());
  }

  /** The outcome of a push: the status returned (true for the 1 of a
      failed resize) and the struct afterwards. */
  datatype Pushed<T> = Pushed(failed: bool, r: Raw<T>)

  /** dynamicarray_push as written: len++ first; if that overflows maxlen,
      double maxlen and reallocate, losing the buffer when realloc fails;
      then write the value at index len-1. */
  function PushAsWritten<T>(a: Raw<T>, x: T, reallocOk: bool): (p: Pushed<T>)
    requires Valid(a)
    ensures !p.failed ==> Valid(p.r) && p.r.len <= p.r.maxlen
    ensures p.failed <==> a.len == a.maxlen && !reallocOk
    ensures p.failed ==> p.r == Raw(None, a.len + 1, 2 * a.maxlen)
  {
    var len := a.len + 1;
    if len > a.maxlen then
      var maxlen := a.maxlen * 2;
      if !reallocOk then Pushed(true, Raw(None, len, maxlen))
      else
        var vs := a.values.value + seq(a.maxlen, _ => None);
        Pushed(false, Store(Raw(Some(vs), len, maxlen), x))
    else
      Pushed(false, Store(Raw(a.values, len, a.maxlen), x))
  }

  /** values[len-1] = obj, on a struct whose len already counts obj. */
  function Store<T>(a: Raw<T>, x: T): (r: Raw<T>)
    requires a.values.Some? && 0 < a.len <= a.maxlen == |a.values.value|
    requires forall i :: 0 <= i < a.len - 1 ==> a.values.value[i].Some?
    ensures Valid(r) && r.len == a.len && r.maxlen == a.maxlen
  {
    Raw(Some(a.values.value[a.len - 1 := Some(x)]), a.len, a.maxlen)
  }

  /** When every resize succeeds the prototype's push is the current one. */
  lemma AsWrittenSucceedsLikePush<T>(a: Raw<T>, x: T, reallocOk: bool)
    requires Valid(a) && !PushAsWritten(a, x, reallocOk).failed
    ensures !DA.Push(Abs(a), x, reallocOk).failed
    ensures Abs(PushAsWritten(a, x, reallocOk).r) == DA.Push(Abs(a), x, reallocOk).a
  {
  }

  /** A failed push as written returns 1, yet len counts a value that was
      never stored and the buffer is lost, whereas DynamicArray.Push leaves
      the array as it was: the fourth push onto a new array whose realloc
      fails shows it. */
  lemma FailedPushCountsMissingValue(x: int)
    ensures var a := PushAll(New<int>(), [1, 2, 3]);
      var p := PushAsWritten(a, x, false);
      p.failed && p.r.len == 4 && p.r.values.None? && !Valid(p.r)
    ensures var d := DA.Push(DA.PushAll(DA.New<int>(), [1, 2, 3]), x, false);
      d.failed && DA.Elems(d.a) == [1, 2, 3]
  {
    var a := PushAll(New<int>(), [1, 2, 3]);
    assert a.len == 3 && a.maxlen == 3;
  }

  /** Pushing each value with the prototype's push, every resize succeeding. */
  function PushAll<T>(a: Raw<T>, xs: seq<T>): (r: Raw<T>)
    requires Valid(a)
    ensures Valid(r) && DA.Elems(Abs(r)) == DA.Elems(Abs(a)) + xs
    ensures r.maxlen >= a.maxlen && (|xs| <= a.maxlen - a.len ==> r.maxlen == a.maxlen)
    decreases |xs|
  {
    if |xs| == 0 then a
    else
      AsWrittenSucceedsLikePush(a, xs[0], true);
      var b := PushAsWritten(a, xs[0], true).r;
      assert DA.Elems(Abs(b)) + xs[1..] == DA.Elems(Abs(a)) + xs;
      PushAll(b, xs[1..])
  }

  /** dynamicarray_pop on a non-empty array: the last value, len one less. */
  function Pop<T>(a: Raw<T>): (r: (T, Raw<T>))
    requires Valid(a) && a.len > 0
    ensures Valid(r.1) && r.1.maxlen == a.maxlen
    ensures DA.Elems(Abs(r.1)) + [r.0] == DA.Elems(Abs(a))
  {
    var p := DA.Pop(Abs(a));
    (p.0, FromArray(p.1))
  }

  /** dynamicarray_free2: pop until empty, calling free_func on each value
      popped (the calls are returned), so the last pushed is freed first. */
  method Free2<T>(a: Raw<T>) returns (freed: seq<T>)
    requires Valid(a)
    ensures freed == DA.Reverse(DA.Elems(Abs(a)))
  {
    freed := [];
    var cur := a;
    while cur.len > 0
      invariant Valid(cur)
      invariant DA.Elems(Abs(cur)) + DA.Reverse(freed) == DA.Elems(Abs(a))
      decreases cur.len
    {
      var p := Pop(cur);
      FreeStep(DA.Elems(Abs(p.1)), p.0, freed, DA.Elems(Abs(a)));
      cur := p.1;
      freed := freed + [p.0];
    }
    assert DA.Elems(Abs(cur)) == [];
    DA.ReverseReverse(freed);
  }

  /** Freeing the popped value keeps the values still held, followed by
      those freed in reverse, equal to what the array first held. */
  lemma FreeStep<T>(kept: seq<T>, x: T, freed: seq<T>, all: seq<T>)
    requires (kept + [x]) + DA.Reverse(freed) == all
    ensures kept + DA.Reverse(freed + [x]) == all
  {
    assert DA.Reverse(freed + [x]) == [x] + DA.Reverse(freed);
    assert kept + ([x] + DA.Reverse(freed)) == (kept + [x]) + DA.Reverse(freed);
  }
}
