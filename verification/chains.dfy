/**
 * Bucket arrays of chains, as the chained hash tables of the runtime keep
 * them (src/hashtable.c, src/allobjects.c): each bucket lists its chain
 * from the head.  This module holds what those tables share: the items in
 * iteration order, what replacing one chain does to them, and the
 * iterator that walks the buckets in order and each chain from its head.
 */
module Chains {

  /** The items bucket by bucket, each chain from its head. */
  function Concat<T>(bs: seq<seq<T>>): (r: seq<T>)
    ensures |bs| == 0 ==> r == []
  {
    if |bs| == 0 then [] else bs[0] + Concat(bs[1..])
  }

  lemma {:induction false} ConcatAppend<T>(a: seq<seq<T>>, b: seq<seq<T>>)
    ensures Concat(a + b) == Concat(a) + Concat(b)
  {
    if |a| == 0 {
      assert a + b == b;
    } else {
      assert (a + b)[1..] == a[1..] + b;
      ConcatAppend(a[1..], b);
    }
  }

  /** Replacing one chain changes the items by exactly that chain. */
  lemma ConcatUpdate<T>(bs: seq<seq<T>>, i: nat, c: seq<T>)
    requires i < |bs|
    ensures multiset(Concat(bs[i := c])) + multiset(bs[i]) == multiset(Concat(bs)) + multiset(c)
    ensures |Concat(bs[i := c])| + |bs[i]| == |Concat(bs)| + |c|
  {
    var pre, post := bs[..i], bs[i + 1..];
    assert bs == pre + [bs[i]] + post;
    assert bs[i := c] == pre + [c] + post;
    ConcatAppend(pre + [bs[i]], post);
    ConcatAppend(pre, [bs[i]]);
    ConcatAppend(pre + [c], post);
    ConcatAppend(pre, [c]);
    assert Concat([bs[i]]) == bs[i];
    assert Concat([c]) == c;
  }

  /** An item is among the items iff some bucket holds it. */
  lemma {:induction false} InConcat<T>(bs: seq<seq<T>>, x: T)
    ensures x in Concat(bs) <==> exists b :: 0 <= b < |bs| && x in bs[b]
  {
    if |bs| > 0 {
      InConcat(bs[1..], x);
      if x in Concat(bs[1..]) {
        var b :| 0 <= b < |bs[1..]| && x in bs[1..][b];
        assert x in bs[b + 1];
      }
      if exists b :: 0 <= b < |bs| && x in bs[b] {
        var b :| 0 <= b < |bs| && x in bs[b];
        if b > 0 {
          assert x in bs[1..][b - 1];
        }
      }
    }
  }

  /** n empty buckets. */
  function Empty<T>(n: nat): seq<seq<T>>
  {
    seq(n, _ => [])
  }

  /** Buckets whose chains are all empty hold no items. */
  lemma {:induction false} ConcatOfEmpties<T>(bs: seq<seq<T>>)
    requires forall b :: 0 <= b < |bs| ==> bs[b] == []
    ensures Concat(bs) == []
  {
    if |bs| > 0 {
      ConcatOfEmpties(bs[1..]);
    }
  }

  lemma MultisetCancel<T>(a: multiset<T>, b: multiset<T>, c: multiset<T>)
    requires a + c == b + c
    ensures a == b
  {
    assert forall x :: a[x] == (a + c)[x] - c[x];
    assert forall x :: b[x] == (b + c)[x] - c[x];
  }

  /** Overwriting one element of a sequence trades that element for the new one. */
  lemma SwapOne<T>(c: seq<T>, j: nat, x: T)
    requires j < |c|
    ensures multiset(c) + multiset{x} == multiset(c[j := x]) + multiset{c[j]}
  {
    assert c == c[..j] + [c[j]] + c[j + 1..];
    assert c[j := x] == c[..j] + [x] + c[j + 1..];
  }

  /** Trading y for x on one side of an equation of multisets. */
  lemma Exchange<T>(a: multiset<T>, b: multiset<T>, c: multiset<T>, d: multiset<T>, y: T, x: T)
    requires a + c == b + d && c + multiset{x} == d + multiset{y}
    ensures a + multiset{y} == b + multiset{x}
  {
    var l, r := a + multiset{y} + d, b + multiset{x} + d;
    forall z
      ensures l[z] == r[z]
    {
      assert (a + c)[z] == (b + d)[z];
      assert (c + multiset{x})[z] == (d + multiset{y})[z];
    }
    assert l == r;
    MultisetCancel(a + multiset{y}, b + multiset{x}, d);
  }

  /** Put an item at the head of bucket i. */
  function Push<T>(bs: seq<seq<T>>, i: nat, x: T): (r: seq<seq<T>>)
    requires i < |bs|
    ensures |r| == |bs| && r[i] == [x] + bs[i]
    ensures forall b :: 0 <= b < |bs| && b != i ==> r[b] == bs[b]
    ensures multiset(Concat(r)) == multiset(Concat(bs)) + multiset{x}
    ensures |Concat(r)| == |Concat(bs)| + 1
  {
    var r := bs[i := [x] + bs[i]];
    ConcatUpdate(bs, i, [x] + bs[i]);
    assert multiset([x] + bs[i]) == multiset{x} + multiset(bs[i]);
    MultisetCancel(multiset(Concat(r)), multiset(Concat(bs)) + multiset{x}, multiset(bs[i]));
    r
  }

  /** Unlink item j of bucket i. */
  function Unlink<T>(bs: seq<seq<T>>, i: nat, j: nat): (r: seq<seq<T>>)
    requires i < |bs| && j < |bs[i]|
    ensures |r| == |bs| && r[i] == bs[i][..j] + bs[i][j + 1..]
    ensures forall b :: 0 <= b < |bs| && b != i ==> r[b] == bs[b]
    ensures multiset(Concat(r)) + multiset{bs[i][j]} == multiset(Concat(bs))
    ensures |Concat(r)| + 1 == |Concat(bs)|
  {
    var c := bs[i];
    var c2 := c[..j] + c[j + 1..];
    var r := bs[i := c2];
    ConcatUpdate(bs, i, c2);
    assert c == c[..j] + [c[j]] + c[j + 1..];
    assert multiset(c) == multiset(c2) + multiset{c[j]};
    MultisetCancel(multiset(Concat(r)) + multiset{c[j]}, multiset(Concat(bs)), multiset(c2));
    r
  }

  // ---------------------------------------------------------------------
  // The bucket iterator shared by the tables: before the first call it has
  // not started; afterwards it points at the last item produced (bucket,
  // position in the chain), or at bucket |bs| once exhausted.

  datatype Cursor = Cursor(started: bool, bucket: nat, pos: nat)

  function Begin(): Cursor
  {
    Cursor(false, 0, 0)
  }

  /** The first non-empty bucket at or after b (or the count if none). */
  function NextNonEmpty<T>(bs: seq<seq<T>>, b: nat): (r: nat)
    requires b <= |bs|
    ensures b <= r <= |bs|
    ensures r < |bs| ==> |bs[r]| > 0
    ensures forall k :: b <= k < r ==> bs[k] == []
    decreases |bs| - b
  {
    if b == |bs| || |bs[b]| > 0 then b else NextNonEmpty(bs, b + 1)
  }

  predicate Valid<T>(bs: seq<seq<T>>, it: Cursor)
  {
    !it.started || it.bucket == |bs| || (it.bucket < |bs| && it.pos < |bs[it.bucket]|)
  }

  /** Moving on to the buckets from b: the head of the first non-empty
      one, or the end. */
  function Enter<T>(bs: seq<seq<T>>, b: nat): (r: (Cursor, seq<T>))
    requires b <= |bs|
    ensures Valid(bs, r.0) && r.0.started && b <= r.0.bucket && |r.1| <= 1
    ensures |r.1| == 0 <==> r.0.bucket == |bs|
    ensures |r.1| == 1 ==> r.1[0] == bs[r.0.bucket][r.0.pos]
  {
    var n := NextNonEmpty(bs, b);
    if n == |bs| then (Cursor(true, n, 0), []) else (Cursor(true, n, 0), [bs[n][0]])
  }

  /** One call of the iterator: the next item, or nothing at the end. */
  function Next<T>(bs: seq<seq<T>>, it: Cursor): (r: (Cursor, seq<T>))
    requires Valid(bs, it)
    ensures Valid(bs, r.0) && r.0.started && |r.1| <= 1
    ensures |r.1| == 0 <==> r.0.bucket == |bs|
    ensures |r.1| == 1 ==> r.1[0] == bs[r.0.bucket][r.0.pos]
  {
    if !it.started then Enter(bs, 0)
    else if it.bucket == |bs| then (it, [])
    else if it.pos + 1 < |bs[it.bucket]| then
      (Cursor(true, it.bucket, it.pos + 1), [bs[it.bucket][it.pos + 1]])
    else Enter(bs, it.bucket + 1)
  }

  /** The items the iterator has yet to produce. */
  function Remaining<T>(bs: seq<seq<T>>, it: Cursor): seq<T>
    requires Valid(bs, it)
  {
    if !it.started then Concat(bs)
    else if it.bucket == |bs| then []
    else bs[it.bucket][it.pos + 1..] + Concat(bs[it.bucket + 1..])
  }

  lemma {:induction false} ConcatSkipEmpty<T>(bs: seq<seq<T>>, b: nat)
    requires b <= |bs|
    ensures Concat(bs[b..]) == Concat(bs[NextNonEmpty(bs, b)..])
    decreases |bs| - b
  {
    if b < |bs| && |bs[b]| == 0 {
      assert bs[b..][1..] == bs[b + 1..];
      ConcatSkipEmpty(bs, b + 1);
    }
  }

  lemma StepInto<T>(bs: seq<seq<T>>, b: nat)
    requires b <= |bs| && (b < |bs| ==> |bs[b]| > 0)
    ensures b == |bs| ==> Concat(bs[b..]) == []
    ensures b < |bs| ==> Concat(bs[b..]) == [bs[b][0]] + (bs[b][1..] + Concat(bs[b + 1..]))
  {
    if b < |bs| {
      assert bs[b..][1..] == bs[b + 1..];
      assert bs[b] == [bs[b][0]] + bs[b][1..];
    }
  }

  /** Moving on yields the items of the buckets from b, in order. */
  lemma StepFrom<T>(bs: seq<seq<T>>, b: nat)
    requires b <= |bs|
    ensures Concat(bs[b..]) == Enter(bs, b).1 + Remaining(bs, Enter(bs, b).0)
  {
    hide Concat;
    var n := NextNonEmpty(bs, b);
    ConcatSkipEmpty(bs, b);
    StepInto(bs, n);
    if n < |bs| {
      assert Remaining(bs, Cursor(true, n, 0)) == bs[n][1..] + Concat(bs[n + 1..]);
    }
  }

  lemma StepWithin<T>(bs: seq<seq<T>>, it: Cursor)
    requires it.started && it.bucket < |bs| && it.pos + 1 < |bs[it.bucket]|
    ensures Remaining(bs, it) == [bs[it.bucket][it.pos + 1]] + Remaining(bs, Cursor(true, it.bucket, it.pos + 1))
  {
    var c := bs[it.bucket];
    assert c[it.pos + 1..] == [c[it.pos + 1]] + c[it.pos + 2..];
  }

  /** The cases of one step, each with what remains before it. */
  lemma NextCases<T>(bs: seq<seq<T>>, it: Cursor)
    requires Valid(bs, it)
    ensures !it.started ==> Next(bs, it) == Enter(bs, 0) && Remaining(bs, it) == Concat(bs[0..])
    ensures it.started && it.bucket == |bs| ==> Next(bs, it) == (it, []) && Remaining(bs, it) == []
    ensures it.started && it.bucket < |bs| && it.pos + 1 < |bs[it.bucket]| ==>
      Next(bs, it) == (Cursor(true, it.bucket, it.pos + 1), [bs[it.bucket][it.pos + 1]])
    ensures it.started && it.bucket < |bs| && it.pos + 1 >= |bs[it.bucket]| ==>
      Next(bs, it) == Enter(bs, it.bucket + 1) && Remaining(bs, it) == Concat(bs[it.bucket + 1..])
  {
    hide Concat, Enter;
    assert bs[0..] == bs;
    if it.started && it.bucket < |bs| && it.pos + 1 >= |bs[it.bucket]| {
      assert bs[it.bucket][it.pos + 1..] == [];
    }
  }

  /** One step produces the head of what remains and leaves the rest. */
  lemma NextStep<T>(bs: seq<seq<T>>, it: Cursor)
    requires Valid(bs, it)
    ensures Remaining(bs, it) == Next(bs, it).1 + Remaining(bs, Next(bs, it).0)
  {
    NextCases(bs, it);
    hide *;
    if !it.started {
      StepFrom(bs, 0);
    } else if it.bucket < |bs| {
      if it.pos + 1 < |bs[it.bucket]| {
        StepWithin(bs, it);
      } else {
        StepFrom(bs, it.bucket + 1);
      }
    }
  }

  function Left<T>(bs: seq<seq<T>>, it: Cursor): nat
    requires Valid(bs, it)
  {
    |Remaining(bs, it)| + (if it.started then 0 else 1)
  }

  method Advance<T>(bs: seq<seq<T>>, it: Cursor, out: seq<T>) returns (it2: Cursor, out2: seq<T>, done: bool)
    requires Valid(bs, it)
    ensures Valid(bs, it2) && it2.started
    ensures out2 + Remaining(bs, it2) == out + Remaining(bs, it)
    ensures done ==> Remaining(bs, it2) == []
    ensures !done ==> Left(bs, it2) < Left(bs, it)
  {
    NextStep(bs, it);
    var next := Next(bs, it);
    it2 := next.0;
    done := |next.1| == 0;
    out2 := out + next.1;
  }

  /** Calling the iterator until it reports the end produces every item
      exactly once, in bucket order. */
  method IterateAll<T>(bs: seq<seq<T>>) returns (out: seq<T>)
    ensures out == Concat(bs)
  {
    var it := Begin();
    out := [];
    var done := false;
    while !done
      invariant Valid(bs, it)
      invariant out + Remaining(bs, it) == Concat(bs)
      invariant done ==> Remaining(bs, it) == []
      decreases !done, Left(bs, it)
    {
      it, out, done := Advance(bs, it, out);
    }
  }
}
