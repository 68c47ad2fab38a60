/**
 * The older chained hash map of src/mapping.c.  Its lookup, pop, store and
 * clear code is the code of src/hashtable.c, so the model uses HashTable's
 * Get, Pop, Store and Clear for them.  What differs is the hash width
 * (unsigned long), the bucket count type (size_t) and make_bigger, which
 * grows the bucket array in place and relinks the items that move.
 *
 * The relinking loop as written loses items: RelinkBucket models it on an
 * explicit node heap, and RelinkLosesItem exhibits a map whose growth
 * drops a key and links another one into two buckets.  MakeBigger is the
 * growth the loop evidently intends, and it is the growth Set uses.
 */
module LegacyMapping {
  import opened Wrappers
  import Chains
  import Integer
  import HT = HashTable

  const U64: int := Integer.U64
  const InitialBuckets: nat := 50

  type ULong = h: nat | h < U64

  /** A map src/mapping.c keeps: consistent, with a bucket count that fits
      a size_t. */
  predicate WellFormed<K, V>(t: HT.Table<K, V>)
  {
    HT.Consistent(t) && |t.buckets| < U64
  }

  /** mapping_new: 50 empty buckets, size 0. */
  function New<K, V>(): HT.Table<K, V>
  {
    HT.New()
  }

  /** A new map is well formed, with 50 buckets, size 0 and no entries. */
  lemma NewIsEmpty<K, V>(t: HT.Table<K, V>)
    requires t == New()
    ensures WellFormed(t) && t.size == 0 && |t.buckets| == InitialBuckets
    ensures HT.Entries(t) == multiset{}
  {
    HT.NewIsEmpty(t);
  }

  // ---------------------------------------------------------------------
  // Growth, as intended

  /** The size_t product nbuckets*3, wrapping modulo 2^64. */
  function Tripled(n: nat): (r: nat)
    ensures r < U64
    ensures 3 * n < U64 ==> r == 3 * n
  {
    (3 * n) % U64
  }

  /** The overflow test of make_bigger: for a count that fits a size_t the
      wrapped product is below the count only if the product overflowed, and
      a product that did not overflow is never below it. */
  lemma OverflowDetected(n: nat)
    requires 0 < n < U64
    ensures Tripled(n) < n ==> 3 * n >= U64
    ensures Tripled(n) > 0
  {
    if 3 * n >= U64 {
      assert 3 * n < 3 * U64;
      if 3 * n < 2 * U64 {
        assert Tripled(n) == 3 * n - U64;
      } else {
        assert Tripled(n) == 3 * n - 2 * U64;
      }
    }
  }

  /** Adding whole multiples of n does not change the remainder. */
  lemma {:induction false} ModMultiple(m: nat, n: nat, x: nat)
    requires n > 0
    ensures (m * n + x) % n == x % n
  {
    if m > 0 {
      ModMultiple(m - 1, n, x);
      var y := (m - 1) * n + x;
      assert m * n + x == y + n;
      AddDivisor(y, n);
    }
  }

  lemma AddDivisor(y: nat, n: nat)
    requires n > 0
    ensures (y + n) % n == y % n
  {
    var q, r := y / n, y % n;
    assert y + n == (q + 1) * n + r;
    ModUnique(y + n, n, q + 1, r);
  }

  /** The remainder is the only r in [0, n) with y == q*n + r. */
  lemma ModUnique(y: int, n: nat, q: int, r: int)
    requires n > 0 && 0 <= r < n && y == q * n + r
    ensures y % n == r
  {
    var d := q - y / n;
    assert y == (y / n) * n + y % n;
    assert d * n == q * n - (y / n) * n;
    assert d * n == y % n - r;
  }

  /** Where an item of bucket oldi goes when the count triples: the bucket
      it already is in, or one of the newly allocated ones, and always one
      congruent to oldi. */
  lemma NewIndex(h: nat, n: nat)
    requires n > 0
    ensures (h % (3 * n)) % n == h % n
    ensures h % (3 * n) != h % n ==> h % (3 * n) >= n
  {
    var m := 3 * n;
    var q, r := h / m, h % m;
    assert h == q * m + r && 0 <= r < m;
    var q2, r2 := r / n, r % n;
    assert r == q2 * n + r2 && 0 <= r2 < n;
    assert q * m == (3 * q) * n;
    ModUnique(h, n, 3 * q + q2, r2);
    if q2 > 0 {
      assert q2 * n >= n;
    }
  }

  datatype Grown<K, V> = Grew(t: HT.Table<K, V>) | NoMem

  /** make_bigger as intended: STATUS_NOMEM when nbuckets*3 overflows, and
      otherwise every item kept exactly once, each in the bucket its hash
      selects among the new count. */
  function MakeBigger<K, V>(t: HT.Table<K, V>): (r: Grown<K, V>)
    requires WellFormed(t)
    ensures r.NoMem? <==> Tripled(|t.buckets|) < |t.buckets|
    ensures r.NoMem? ==> 3 * |t.buckets| >= U64
    ensures r.Grew? ==> WellFormed(r.t) && |r.t.buckets| == Tripled(|t.buckets|)
    ensures r.Grew? ==> HT.Entries(r.t) == HT.Entries(t) && r.t.size == t.size
    ensures 3 * |t.buckets| < U64 ==> r.Grew? && |r.t.buckets| == 3 * |t.buckets|
  {
    var n := |t.buckets|;
    OverflowDetected(n);
    var m := Tripled(n);
    if m < n then NoMem
    else
      var nb := Chains.Empty(m);
      Chains.ConcatOfEmpties(nb);
      Grew(HT.Table(HT.Rehash(Chains.Concat(t.buckets), nb), t.size))
  }

  /** The map set scans: the original, the grown one, or no memory. */
  function Prepared<K, V>(t: HT.Table<K, V>): (r: Grown<K, V>)
    requires WellFormed(t)
    ensures r.Grew? ==> WellFormed(r.t) && HT.Entries(r.t) == HT.Entries(t) && r.t.size == t.size
    ensures r.NoMem? <==> HT.Overloaded(t.size, |t.buckets|) && MakeBigger(t).NoMem?
  {
    if HT.Overloaded(t.size, |t.buckets|) then MakeBigger(t) else Grew(t)
  }

  // ---------------------------------------------------------------------
  // set

  datatype SetResult<K, V> = Stored(t: HT.Table<K, V>) | CmpError(code: int) | SetNoMem

  /** mapping_set: grow when the load factor is over 3/4, failing when the
      bucket count cannot triple, then store the pair as hashtable_set
      does. */
  function Set<K(!new), V>(t: HT.Table<K, V>, key: K, keyhash: ULong, value: V, cmp: (K, K) -> int): (r: SetResult<K, V>)
    requires WellFormed(t) && HT.Comparator(cmp)
    ensures r.Stored? ==> WellFormed(r.t)
    ensures r.SetNoMem? <==> HT.Overloaded(t.size, |t.buckets|) && 3 * |t.buckets| >= U64 &&
                             Tripled(|t.buckets|) < |t.buckets|
    ensures r.CmpError? ==> r.code < 0
  {
    match Prepared(t)
    case NoMem => SetNoMem
    case Grew(t1) =>
      match HT.Store(t1, key, keyhash, value, cmp)
      case Stored(t2) => Stored(t2)
      case CmpError(code) => CmpError(code)
  }

  /** A key that no stored key compares equal to is added (when the map
      need not or can grow): the size grows by one. */
  lemma SetNewKey<K(!new), V>(t: HT.Table<K, V>, key: K, keyhash: ULong, value: V, cmp: (K, K) -> int)
    requires WellFormed(t) && HT.Comparator(cmp) && Prepared(t).Grew?
    requires forall e :: e in HT.Entries(t) ==> cmp(e.key, key) == 0
    ensures Set(t, key, keyhash, value, cmp).Stored?
    ensures var r := Set(t, key, keyhash, value, cmp).t;
      r.size == t.size + 1 && HT.Entries(r) == HT.Entries(t) + multiset{HT.Entry(keyhash, key, value)}
  {
    HT.StoreNewKey(Prepared(t).t, key, keyhash, value, cmp);
  }

  /** After a successful set, mapping_get finds the new value (for a
      comparison that finds a key equal to itself). */
  lemma SetThenGet<K(!new), V>(t: HT.Table<K, V>, key: K, keyhash: ULong, value: V, cmp: (K, K) -> int)
    requires WellFormed(t) && HT.Comparator(cmp) && cmp(key, key) == 1
    requires Set(t, key, keyhash, value, cmp).Stored?
    ensures HT.Get(Set(t, key, keyhash, value, cmp).t, key, keyhash, cmp) == HT.Got(value)
  {
    HT.StoreThenGet(Prepared(t).t, key, keyhash, value, cmp);
  }

  // ---------------------------------------------------------------------
  // The relinking loop of make_bigger as written, on a heap of nodes.

  /** A pointer to a MappingItem: NULL or an address. */
  datatype Ptr = Null | To(addr: nat)

  /** A MappingItem as far as relinking is concerned: its stored hash and
      its next pointer.  Its key is its address. */
  datatype Node = Node(keyhash: nat, next: Ptr)

  /** The items (the node at address a is nodes[a]) and the bucket array
      (the heads of the chains). */
  datatype Heap = Heap(nodes: seq<Node>, heads: seq<Ptr>)

  /** What running the loop gives: the relinked heap, or a run the C code
      cannot complete (a dangling pointer, a failing assert, or a chain
      longer than the fuel allows). */
  datatype Run = Done(h: Heap) | Broken

  /** The inner loop of make_bigger for bucket oldi of an n-bucket map whose
      bucket array has already been enlarged to |h.heads| buckets, from the
      item `item` on with the pointer `prev` as the loop keeps it.  Written
      as the source does it: `next` is read first; a moving item is unlinked
      through prev (or the bucket head) and pushed onto its new bucket, but
      its next pointer is only overwritten when that bucket is non-empty;
      and prev becomes the item whether it moved or not. */
  function RelinkBucket(h: Heap, n: nat, oldi: nat, item: Ptr, prev: Ptr, fuel: nat): (r: Run)
    requires oldi < n <= |h.heads|
    ensures r.Done? ==> |r.h.heads| == |h.heads| && |r.h.nodes| == |h.nodes|
    decreases fuel
  {
    if item.Null? then Done(h)
    else if fuel == 0 || item.addr >= |h.nodes| then Broken
    else
      var a := item.addr;
      var next := h.nodes[a].next;
      var newi := h.nodes[a].keyhash % |h.heads|;
      if oldi == newi then RelinkBucket(h, n, oldi, next, item, fuel - 1)
      else if newi < n then Broken
      else if prev.To? && prev.addr >= |h.nodes| then Broken
      else
        // skip the item in this bucket
        var h1 :=
          if prev.Null? then h.(heads := h.heads[oldi := h.nodes[a].next])
          else h.(nodes := h.nodes[prev.addr := h.nodes[prev.addr].(next := h.nodes[a].next)]);
        // put the item to the new bucket
        var moved := if h1.heads[newi].To? then h1.nodes[a].(next := h1.heads[newi]) else h1.nodes[a];
        var h2 := Heap(h1.nodes[a := moved], h1.heads[newi := item]);
        RelinkBucket(h2, n, oldi, next, item, fuel - 1)
  }

  /** The outer loop: buckets oldi, oldi+1, ..., n-1 in turn. */
  function RelinkFrom(h: Heap, n: nat, oldi: nat, fuel: nat): (r: Run)
    requires oldi <= n <= |h.heads|
    ensures r.Done? ==> |r.h.heads| == |h.heads|
    decreases n - oldi
  {
    if oldi == n then Done(h)
    else
      match RelinkBucket(h, n, oldi, h.heads[oldi], Null, fuel)
      case Broken => Broken
      case Done(h1) => RelinkFrom(h1, n, oldi + 1, fuel)
  }

  datatype Growth = Relinked(h: Heap) | Overflow | Failed

  /** The bucket array after realloc and memset: NULL heads for the new
      buckets. */
  function Enlarged(h: Heap, m: nat): (r: Heap)
    requires |h.heads| <= m
    ensures |r.heads| == m && r.heads[..|h.heads|] == h.heads && r.nodes == h.nodes
    ensures forall b :: |h.heads| <= b < m ==> r.heads[b] == Null
  {
    Heap(h.nodes, h.heads + seq(m - |h.heads|, _ => Null))
  }

  /** make_bigger as written: the overflow test, the enlarged bucket array,
      then the relinking loop.  Chains are followed for at most as many
      steps as there are items. */
  function MakeBiggerAsWritten(h: Heap): (r: Growth)
    requires 0 < |h.heads| < U64
    ensures r.Overflow? <==> Tripled(|h.heads|) < |h.heads|
    ensures r.Relinked? ==> |r.h.heads| == Tripled(|h.heads|)
  {
    var n := |h.heads|;
    var m := Tripled(n);
    if m < n then Overflow
    else
      match RelinkFrom(Enlarged(h, m), n, 0, |h.nodes|)
      case Broken => Failed
      case Done(h1) => Relinked(h1)
  }

  /** The addresses met following next pointers from p, at most fuel of them. */
  function Walk(h: Heap, p: Ptr, fuel: nat): (r: seq<nat>)
    ensures |r| <= fuel
    decreases fuel
  {
    if fuel == 0 || p.Null? || p.addr >= |h.nodes| then []
    else [p.addr] + Walk(h, h.nodes[p.addr].next, fuel - 1)
  }

  // ---------------------------------------------------------------------
  // A map the relinking loop damages.

  /** 38 items in 50 buckets, as mapping_set builds them: bucket 0 holds,
      from its head, items with hashes 50, 200 and 100 (set in the order
      100, 200, 50), and buckets 1 to 35 hold one item each whose hash is
      the bucket number.  Item 0 has hash 50, item 1 hash 200, item 2 hash
      100, and item b + 2 sits alone in bucket b.  Setting a 39th key finds
      the load factor 38/50 over 3/4 and calls make_bigger. */
  function Sample(): (h: Heap)
    ensures |h.heads| == 50 && |h.nodes| == 38
  {
    Heap(seq(38, (a: nat) => if a == 0 then Node(50, To(1))
                      else if a == 1 then Node(200, To(2))
                      else if a == 2 then Node(100, Null)
                      else Node(a - 2, Null)),
         seq(50, (b: nat) => if b == 0 then To(0) else if b <= 35 then To(b + 2) else Null))
  }

  /** A bucket that is empty, or holds one item that stays, is left alone. */
  predicate Settled(h: Heap, b: nat)
    requires b < |h.heads|
  {
    h.heads[b].Null? ||
    (h.heads[b].addr < |h.nodes| && h.nodes[h.heads[b].addr].next.Null? &&
     h.nodes[h.heads[b].addr].keyhash % |h.heads| == b)
  }

  lemma {:induction false} SettledUntouched(h: Heap, n: nat, oldi: nat, fuel: nat)
    requires oldi <= n <= |h.heads| && fuel > 0
    requires forall b :: oldi <= b < n ==> Settled(h, b)
    ensures RelinkFrom(h, n, oldi, fuel) == Done(h)
    decreases n - oldi
  {
    if oldi < n {
      assert Settled(h, oldi);
      var p := h.heads[oldi];
      if p.To? {
        assert RelinkBucket(h, n, oldi, h.nodes[p.addr].next, p, fuel - 1) == Done(h);
      }
      SettledUntouched(h, n, oldi + 1, fuel);
    }
  }

  // The three steps of the inner loop over bucket 0 of Sample grown to 150.

  function Start(): Heap { Enlarged(Sample(), 150) }

  /** Item 0 moved to bucket 50; bucket 0 now starts at item 1; item 0's
      next still points at item 1, since bucket 50 was empty. */
  function AfterFirst(): Heap { Heap(Start().nodes, Start().heads[0 := To(1)][50 := To(0)]) }

  /** Item 1 moved to bucket 50: prev is item 0, so it is item 0 (now in
      bucket 50) whose next is set to item 2, and item 1 is pushed in front
      of item 0. */
  function AfterSecond(): Heap
  {
    Heap(AfterFirst().nodes[0 := Node(50, To(2))][1 := Node(200, To(0))], AfterFirst().heads[50 := To(1)])
  }

  /** Item 2 moved to bucket 100: prev is item 1, whose next becomes NULL. */
  function AfterThird(): Heap
  {
    Heap(AfterSecond().nodes[1 := Node(200, Null)], AfterSecond().heads[100 := To(2)])
  }

  lemma StepOne()
    ensures RelinkBucket(Start(), 50, 0, To(0), Null, 38) == RelinkBucket(AfterFirst(), 50, 0, To(1), To(0), 37)
  {
    var h := Start();
    assert h.nodes[0] == Node(50, To(1)) && h.heads[50] == Null;
    assert 50 % 150 == 50;
    assert h.nodes[0 := h.nodes[0]] == h.nodes;
  }

  lemma StepTwo()
    ensures RelinkBucket(AfterFirst(), 50, 0, To(1), To(0), 37) == RelinkBucket(AfterSecond(), 50, 0, To(2), To(1), 36)
  {
    var h := AfterFirst();
    assert h.nodes[1] == Node(200, To(2)) && h.nodes[0] == Node(50, To(1)) && h.heads[50] == To(0);
    assert 200 % 150 == 50;
  }

  lemma StepThree()
    ensures RelinkBucket(AfterSecond(), 50, 0, To(2), To(1), 36) == Done(AfterThird())
  {
    var h := AfterSecond();
    assert h.nodes[2] == Node(100, Null) && h.nodes[1] == Node(200, To(0)) && h.heads[100] == Null;
    assert 100 % 150 == 100;
    var h2 := Heap(h.nodes[1 := Node(200, Null)][2 := h.nodes[2]], h.heads[100 := To(2)]);
    assert h2 == AfterThird();
  }

  /** Growing Sample as written: item 0 (hash 50) is reachable from no
      bucket, so mapping_get no longer finds its key although the size still
      counts it, and item 1 (hash 200) heads both bucket 0 and bucket 50. */
  lemma RelinkLosesItem()
    ensures var r := MakeBiggerAsWritten(Sample());
      r.Relinked? && |r.h.heads| == 150 &&
      Walk(r.h, r.h.heads[50], 38) == [1] &&
      Walk(r.h, r.h.heads[0], 38) == [1] &&
      Walk(r.h, r.h.heads[100], 38) == [2] &&
      forall b :: 0 <= b < 150 ==> 0 !in Walk(r.h, r.h.heads[b], 38)
  {
    StepOne();
    StepTwo();
    StepThree();
    var h1 := AfterThird();
    Settle(h1);
    SettledUntouched(h1, 50, 1, 38);
    assert Tripled(50) == 150;
    assert RelinkFrom(Start(), 50, 0, 38) == Done(h1);
    assert MakeBiggerAsWritten(Sample()) == Relinked(h1);
    Reach(h1);
  }

  lemma Settle(h1: Heap)
    requires h1 == AfterThird()
    ensures |h1.heads| == 150
    ensures forall b :: 1 <= b < 50 ==> Settled(h1, b)
  {
    forall b | 1 <= b < 50
      ensures Settled(h1, b)
    {
      if b <= 35 {
        assert h1.heads[b] == To(b + 2) && h1.nodes[b + 2] == Node(b, Null);
      } else {
        assert h1.heads[b] == Null;
      }
    }
  }

  lemma Reach(h1: Heap)
    requires h1 == AfterThird()
    ensures |h1.heads| == 150
    ensures Walk(h1, h1.heads[50], 38) == [1] && Walk(h1, h1.heads[0], 38) == [1]
    ensures Walk(h1, h1.heads[100], 38) == [2]
    ensures forall b :: 0 <= b < 150 ==> 0 !in Walk(h1, h1.heads[b], 38)
  {
    assert h1.nodes[1] == Node(200, Null) && h1.nodes[2] == Node(100, Null);
    assert Walk(h1, To(1), 38) == [1];
    assert Walk(h1, To(2), 38) == [2];
    forall b | 0 <= b < 150
      ensures 0 !in Walk(h1, h1.heads[b], 38)
    {
      if 1 <= b <= 35 {
        assert h1.heads[b] == To(b + 2) && h1.nodes[b + 2] == Node(b, Null);
        assert Walk(h1, h1.heads[b], 38) == [b + 2];
      } else if b != 0 && b != 50 && b != 100 {
        assert h1.heads[b] == Null;
      }
    }
  }
}
