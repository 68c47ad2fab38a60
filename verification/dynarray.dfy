/**
 * The growable array of src/dynamicarray.c: a buffer of `maxlen` pointer
 * slots of which the first `len` are in use.  The buffer is modelled slot
 * by slot (an unwritten slot is `None`) and `Elems` abstracts it to the
 * sequence of stored values.  Whether `realloc` succeeds is a parameter of
 * the operations that call it; the allocations of `dynamicarray_new` are
 * treated as total.
 */
module DynamicArray {
  import opened Wrappers

  const InitialMaxLen: nat := 3

  /** `values` is the buffer (its length is maxlen), `len` the slots in use. */
  datatype Array<T> = Array(values: seq<Option<T>>, len: nat)

  /** len <= maxlen, a non-empty buffer, and every slot in use written. */
  predicate Valid<T>(a: Array<T>)
  {
    0 < |a.values| && a.len <= |a.values| &&
    forall i :: 0 <= i < a.len ==> a.values[i].Some?
  }

  function MaxLen<T>(a: Array<T>): nat
  {
    |a.values|
  }

  /** The values stored, first pushed first. */
  function Elems<T>(a: Array<T>): (r: seq<T>)
    requires Valid(a)
    ensures |r| == a.len
  {
    seq(a.len, i requires 0 <= i < a.len && Valid(a) => a.values[i].value)
  }

  function Reverse<T>(s: seq<T>): (r: seq<T>)
    ensures |r| == |s|
    ensures forall i :: 0 <= i < |s| ==> r[i] == s[|s| - 1 - i]
  {
    if |s| == 0 then [] else [s[|s| - 1]] + Reverse(s[..|s| - 1])
  }

  /** dynamicarray_new: no values, room for three. */
  function New<T>(): Array<T>
  {
    Array(seq(InitialMaxLen, _ => None), 0)
  }

  /** A new array is valid, has no values and has room for three. */
  lemma NewIsEmpty<T>(a: Array<T>)
    requires a == New()
    ensures Valid(a) && Elems(a) == [] && MaxLen(a) == InitialMaxLen
  {
  }

  /** resize: realloc to twice the slots, keeping the written ones; on
      failure (`reallocOk` false) the array is left as it was. */
  function Resize<T>(a: Array<T>, reallocOk: bool): (r: Option<Array<T>>)
    requires Valid(a)
    ensures r.Some? <==> reallocOk
    ensures r.Some? ==> Valid(r.value) && MaxLen(r.value) == 2 * MaxLen(a) && Elems(r.value) == Elems(a)
  {
    if !reallocOk then None
    else
      var r := Array(a.values + seq(|a.values|, _ => None), a.len);
      assert forall i :: 0 <= i < a.len ==> r.values[i] == a.values[i];
      Some(r)
  }

  /** The outcome of a push: the status returned (true for the 1 of a
      failed resize) and the array afterwards. */
  datatype Pushed<T> = Pushed(failed: bool, a: Array<T>)

  /** dynamicarray_push: make room if the array is full, then write the
      value at index len and count it. */
  function Push<T>(a: Array<T>, x: T, reallocOk: bool): (r: Pushed<T>)
    requires Valid(a)
    ensures Valid(r.a)
    ensures r.failed <==> a.len == MaxLen(a) && !reallocOk
    ensures r.failed ==> r.a == a
    ensures !r.failed ==> Elems(r.a) == Elems(a) + [x]
    ensures !r.failed && a.len < MaxLen(a) ==> MaxLen(r.a) == MaxLen(a)
    ensures !r.failed && a.len == MaxLen(a) ==> MaxLen(r.a) == 2 * MaxLen(a)
  {
    var room := if a.len + 1 > MaxLen(a) then Resize(a, reallocOk) else Some(a);
    match room
    case None => Pushed(true, a)
    case Some(b) =>
      var r := Array(b.values[b.len := Some(x)], b.len + 1);
      assert forall i :: 0 <= i < b.len ==> r.values[i] == b.values[i];
      assert Elems(r)[..b.len] == Elems(b);
      Pushed(false, r)
  }

  /** dynamicarray_pop on a non-empty array: the last value, and the array
      without it (the slot keeps its stale value). */
  function Pop<T>(a: Array<T>): (r: (T, Array<T>))
    requires Valid(a) && a.len > 0
    ensures Valid(r.1) && MaxLen(r.1) == MaxLen(a)
    ensures Elems(r.1) + [r.0] == Elems(a)
  {
    var b := Array(a.values, a.len - 1);
    assert Elems(b) + [a.values[a.len - 1].value] == Elems(a);
    (a.values[a.len - 1].value, b)
  }

  /** Popping undoes a successful push. */
  lemma PushThenPop<T>(a: Array<T>, x: T, reallocOk: bool)
    requires Valid(a) && !Push(a, x, reallocOk).failed
    ensures var p := Pop(Push(a, x, reallocOk).a); p.0 == x && Elems(p.1) == Elems(a)
  {
    var p := Pop(Push(a, x, reallocOk).a);
    assert Elems(p.1) + [p.0] == Elems(a) + [x];
    assert Elems(p.1) == (Elems(p.1) + [p.0])[..a.len];
  }

  /** Pushing each value in turn, every resize succeeding. */
  function PushAll<T>(a: Array<T>, xs: seq<T>): (r: Array<T>)
    requires Valid(a)
    ensures Valid(r) && Elems(r) == Elems(a) + xs
    decreases |xs|
  {
    if |xs| == 0 then a
    else
      var b := Push(a, xs[0], true).a;
      assert Elems(b) + xs[1..] == Elems(a) + xs;
      PushAll(b, xs[1..])
  }

  /** Popping k times: the values in the order they come out, and the array left. */
  function PopMany<T>(a: Array<T>, k: nat): (r: (seq<T>, Array<T>))
    requires Valid(a) && k <= a.len
    ensures Valid(r.1) && r.1.len == a.len - k
    ensures Elems(r.1) + Reverse(r.0) == Elems(a)
    decreases k
  {
    if k == 0 then
      assert Elems(a) + [] == Elems(a);
      ([], a)
    else
      var p := Pop(a);
      var rest := PopMany(p.1, k - 1);
      ReverseCons(p.0, rest.0);
      assert Elems(rest.1) + Reverse([p.0] + rest.0) == Elems(rest.1) + Reverse(rest.0) + [p.0];
      ([p.0] + rest.0, rest.1)
  }

  lemma ReverseCons<T>(x: T, s: seq<T>)
    ensures Reverse([x] + s) == Reverse(s) + [x]
  {
  }

  lemma {:induction false} ReverseReverse<T>(s: seq<T>)
    ensures Reverse(Reverse(s)) == s
  {
  }

  /** LIFO: after pushing xs, popping any k of them gives the last k in
      reverse order and leaves the array as it was plus the first |xs|-k. */
  lemma {:induction false} Lifo<T>(a: Array<T>, xs: seq<T>, k: nat)
    requires Valid(a) && k <= |xs|
    ensures var r := PopMany(PushAll(a, xs), k);
      r.0 == Reverse(xs[|xs| - k..]) && Elems(r.1) == Elems(a) + xs[..|xs| - k]
  {
    var b := PushAll(a, xs);
    var r := PopMany(b, k);
    var n := |Elems(a)| + |xs| - k;
    assert Elems(r.1) + Reverse(r.0) == Elems(a) + xs;
    assert Elems(r.1) == (Elems(a) + xs)[..n];
    assert (Elems(a) + xs)[..n] == Elems(a) + xs[..|xs| - k];
    assert Reverse(r.0) == (Elems(a) + xs)[n..];
    assert (Elems(a) + xs)[n..] == xs[|xs| - k..];
    ReverseReverse(r.0);
  }

  /** The values 1..n, in increasing order. */
  function Upto(n: nat): (r: seq<int>)
    ensures |r| == n && forall i :: 0 <= i < n ==> r[i] == i + 1
  {
    seq(n, i => i + 1)
  }

  /** Pushing 1..n onto a new array and popping k times gives n down to
      n-k+1 and leaves n-k values (the test does n = 100, k = 50). */
  lemma CountDown(n: nat, k: nat)
    requires k <= n
    ensures var r := PopMany(PushAll(New<int>(), Upto(n)), k);
      r.0 == seq(k, i => n - i) && r.1.len == n - k
  {
    var xs := Upto(n);
    Lifo(New<int>(), xs, k);
    hide PopMany, PushAll, Reverse, Upto, Elems, New, Valid;
    var r := PopMany(PushAll(New<int>(), xs), k);
    var out := Reverse(xs[n - k..]);
    assert r.0 == out && |Elems(r.1)| == n - k;
    forall i | 0 <= i < k
      ensures out[i] == n - i
    {
      assert out[i] == xs[n - k..][k - 1 - i];
    }
    DownFrom(out, n);
  }

  lemma DownFrom(out: seq<int>, n: int)
    requires forall i :: 0 <= i < |out| ==> out[i] == n - i
    ensures out == seq(|out|, i => n - i)
  {
  }

  /** dynamicarray_freeall: free_func is called once on each value, in
      index order (the calls are returned), before the buffer is freed. */
  method FreeAll<T>(a: Array<T>) returns (freed: seq<T>)
    requires Valid(a)
    ensures freed == Elems(a)
  {
    freed := [];
    var i := 0;
    while i < a.len
      invariant 0 <= i <= a.len
      invariant freed == Elems(a)[..i]
    {
      freed := freed + [a.values[i].value];
      i := i + 1;
    }
  }
}
