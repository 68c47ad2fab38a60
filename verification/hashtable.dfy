/**
 * The generic chained hash table of src/hashtable.c.  Keys and values are
 * opaque; the caller supplies each key's unsigned-int hash and a comparison
 * function that answers 1 (equal), 0 (not equal) or a negative error code.
 * Allocation is treated as total: the out-of-memory outcomes of the source
 * are not modelled.
 */
module HashTable {
  import Chains

  const UIntMax: nat := 0xFFFF_FFFF
  const InitialBuckets: nat := 50

  type Hash = h: nat | h <= UIntMax

  datatype Entry<K, V> = Entry(keyhash: nat, key: K, value: V)

  datatype Table<K, V> = Table(buckets: seq<seq<Entry<K, V>>>, size: nat)

  /** The comparison contract of hashtable.h: never 2 or greater. */
  ghost predicate Comparator<K(!new)>(cmp: (K, K) -> int)
  {
    forall a, b :: cmp(a, b) <= 1
  }

  /** Every entry is in the bucket its stored hash selects. */
  predicate Placed<K, V>(bs: seq<seq<Entry<K, V>>>)
  {
    |bs| > 0 &&
    forall b, j :: 0 <= b < |bs| && 0 <= j < |bs[b]| ==> bs[b][j].keyhash % |bs| == b
  }

  /** Every entry placed and the size field counting the entries: what
      get, pop and clear rely on, here and in src/mapping.c. */
  predicate Consistent<K, V>(t: Table<K, V>)
  {
    Placed(t.buckets) && t.size == |Chains.Concat(t.buckets)|
  }

  /** A table hashtable.c keeps: consistent, with a bucket count that fits
      an unsigned int (make_bigger's result type). */
  predicate WellFormed<K, V>(t: Table<K, V>)
  {
    Consistent(t) && |t.buckets| <= UIntMax
  }

  /** Hashes that fit the unsigned int hashtable_set takes. */
  predicate HashesFit<K, V>(es: seq<Entry<K, V>>)
  {
    forall k :: 0 <= k < |es| ==> es[k].keyhash <= UIntMax
  }

  ghost function Entries<K, V>(t: Table<K, V>): multiset<Entry<K, V>>
  {
    multiset(Chains.Concat(t.buckets))
  }

  /** hashtable_new: 50 empty buckets, size 0. */
  function New<K, V>(): Table<K, V>
  {
    Table(Chains.Empty(InitialBuckets), 0)
  }

  /** A new table is well formed, with 50 buckets, size 0 and no entries. */
  lemma NewIsEmpty<K, V>(t: Table<K, V>)
    requires t == New()
    ensures WellFormed(t) && t.size == 0 && |t.buckets| == InitialBuckets && Entries(t) == multiset{}
  {
    Chains.ConcatOfEmpties(t.buckets);
  }

  // ---------------------------------------------------------------------
  // Scanning a chain

  /** Where a scan of a chain stops. */
  datatype Scan = Failed(code: int) | Miss | At(pos: nat)

  function Find<K(!new), V>(c: seq<Entry<K, V>>, key: K, cmp: (K, K) -> int, j: nat): (r: Scan)
    requires Comparator(cmp) && j <= |c|
    ensures r.At? ==> j <= r.pos < |c| && cmp(c[r.pos].key, key) == 1 &&
                      forall p :: j <= p < r.pos ==> cmp(c[p].key, key) == 0
    ensures r.Miss? ==> forall p :: j <= p < |c| ==> cmp(c[p].key, key) == 0
    ensures r.Failed? ==> r.code < 0 && exists p :: j <= p < |c| && cmp(c[p].key, key) == r.code
    decreases |c| - j
  {
    if j == |c| then Miss
    else
      var res := cmp(c[j].key, key);
      if res < 0 then Failed(res)
      else if res == 1 then At(j)
      else Find(c, key, cmp, j + 1)
  }

  /** With a comparator, the scan stops at the first non-zero answer: a hit
      when it is 1, the error code otherwise. */
  lemma {:induction false} FindFirst<K(!new), V>(c: seq<Entry<K, V>>, key: K, cmp: (K, K) -> int, j: nat, q: nat)
    requires Comparator(cmp)
    requires j <= q < |c| && cmp(c[q].key, key) != 0
    requires forall s :: j <= s < q ==> cmp(c[s].key, key) == 0
    ensures Find(c, key, cmp, j) == if cmp(c[q].key, key) == 1 then At(q) else Failed(cmp(c[q].key, key))
    decreases q - j
  {
    if j < q {
      FindFirst(c, key, cmp, j + 1, q);
    }
  }

  // ---------------------------------------------------------------------
  // Growth

  /** make_bigger's new count: three times as many, saturating at UINT_MAX. */
  function Grown(n: nat): (r: nat)
    requires 0 < n < UIntMax
    ensures n < r <= UIntMax
  {
    if n > UIntMax / 3 then UIntMax else n * 3
  }

  /** Moving the entries, in iteration order, to the head of their new bucket. */
  function Rehash<K, V>(es: seq<Entry<K, V>>, nb: seq<seq<Entry<K, V>>>): (r: seq<seq<Entry<K, V>>>)
    requires |nb| > 0
    ensures |r| == |nb|
    ensures multiset(Chains.Concat(r)) == multiset(Chains.Concat(nb)) + multiset(es)
    ensures |Chains.Concat(r)| == |Chains.Concat(nb)| + |es|
    ensures Placed(nb) ==> Placed(r)
    decreases |es|
  {
    if |es| == 0 then nb
    else
      var e := es[0];
      var pushed := Chains.Push(nb, e.keyhash % |nb|, e);
      assert Placed(nb) ==> Placed(pushed) by {
        if Placed(nb) {
          forall b, j | 0 <= b < |pushed| && 0 <= j < |pushed[b]|
            ensures pushed[b][j].keyhash % |pushed| == b
          {
            if b == e.keyhash % |nb| && j > 0 {
              assert pushed[b][j] == nb[b][j - 1];
            }
          }
        }
      }
      assert es == [e] + es[1..];
      assert multiset(es) == multiset{e} + multiset(es[1..]);
      Rehash(es[1..], pushed)
  }

  /** make_bigger: the buckets triple (saturating) and every entry moves to
      the bucket its stored hash selects among the new count. */
  function MakeBigger<K, V>(t: Table<K, V>): (r: Table<K, V>)
    requires WellFormed(t) && |t.buckets| < UIntMax
    ensures WellFormed(r) && |r.buckets| == Grown(|t.buckets|)
    ensures Entries(r) == Entries(t) && r.size == t.size
  {
    var nb := Chains.Empty(Grown(|t.buckets|));
    Chains.ConcatOfEmpties(nb);
    Table(Rehash(Chains.Concat(t.buckets), nb), t.size)
  }

  /** The load-factor test size/nbuckets > 0.75, in integers. */
  predicate Overloaded(size: nat, n: nat)
  {
    4 * size > 3 * n
  }

  // ---------------------------------------------------------------------
  // set, get, pop

  datatype SetResult<K, V> = Stored(t: Table<K, V>) | CmpError(code: int)

  /** The table set scans: the original, or the grown one. */
  function Prepared<K, V>(t: Table<K, V>): (r: Table<K, V>)
    requires WellFormed(t)
    ensures WellFormed(r) && Entries(r) == Entries(t) && r.size == t.size
  {
    if |t.buckets| != UIntMax && Overloaded(t.size, |t.buckets|) then MakeBigger(t) else t
  }

  /** hashtable_set: grow when the load factor is over 3/4 (unless the
      count is already UINT_MAX), then store the pair. */
  function Set<K(!new), V>(t: Table<K, V>, key: K, keyhash: Hash, value: V, cmp: (K, K) -> int): (r: SetResult<K, V>)
    requires WellFormed(t) && Comparator(cmp)
    ensures r.Stored? ==> WellFormed(r.t)
    ensures r.CmpError? ==> r.code < 0
  {
    Store(Prepared(t), key, keyhash, value, cmp)
  }

  /** The part of set after growing, shared with mapping_set of
      src/mapping.c: scan the key's chain; an equal key gets the new value,
      an error code is passed back, and otherwise a new entry goes to the
      head of the chain. */
  function Store<K(!new), V>(t: Table<K, V>, key: K, keyhash: nat, value: V, cmp: (K, K) -> int): (r: SetResult<K, V>)
    requires Consistent(t) && Comparator(cmp)
    ensures r.Stored? ==> Consistent(r.t) && |r.t.buckets| == |t.buckets|
    ensures var c := t.buckets[keyhash % |t.buckets|];
      (r.CmpError? <==> Find(c, key, cmp, 0).Failed?) &&
      (r.CmpError? ==> r.code < 0) &&
      (Find(c, key, cmp, 0).At? ==>
         var i, e := keyhash % |t.buckets|, c[Find(c, key, cmp, 0).pos];
         r.Stored? && r.t.size == t.size &&
         r.t.buckets == t.buckets[i := c[Find(c, key, cmp, 0).pos := e.(value := value)]] &&
         Entries(r.t) + multiset{e} == Entries(t) + multiset{e.(value := value)}) &&
      (Find(c, key, cmp, 0).Miss? ==>
         r.Stored? && r.t.size == t.size + 1 &&
         Entries(r.t) == Entries(t) + multiset{Entry(keyhash, key, value)})
  {
    var i := keyhash % |t.buckets|;
    match Find(t.buckets[i], key, cmp, 0)
    case Failed(code) => CmpError(code)
    case At(j) => Stored(Replace(t, i, j, value))
    case Miss => Stored(Insert(t, i, Entry(keyhash, key, value)))
  }

  /** Giving entry j of bucket i a new value. */
  function Replace<K, V>(t: Table<K, V>, i: nat, j: nat, value: V): (r: Table<K, V>)
    requires Consistent(t) && i < |t.buckets| && j < |t.buckets[i]|
    ensures Consistent(r) && r.size == t.size && |r.buckets| == |t.buckets|
    ensures r.buckets == t.buckets[i := t.buckets[i][j := t.buckets[i][j].(value := value)]]
    ensures Entries(r) + multiset{t.buckets[i][j]} == Entries(t) + multiset{t.buckets[i][j].(value := value)}
  {
    var e := t.buckets[i][j];
    var c := t.buckets[i][j := e.(value := value)];
    var nb := t.buckets[i := c];
    ReplaceFacts(t.buckets, i, j, e.(value := value));
    Table(nb, t.size)
  }

  lemma ReplaceFacts<K, V>(bs: seq<seq<Entry<K, V>>>, i: nat, j: nat, e: Entry<K, V>)
    requires i < |bs| && j < |bs[i]| && e.keyhash == bs[i][j].keyhash
    ensures multiset(Chains.Concat(bs[i := bs[i][j := e]])) + multiset{bs[i][j]} ==
            multiset(Chains.Concat(bs)) + multiset{e}
    ensures |Chains.Concat(bs[i := bs[i][j := e]])| == |Chains.Concat(bs)|
    ensures Placed(bs) ==> Placed(bs[i := bs[i][j := e]])
  {
    var c := bs[i];
    var c2 := c[j := e];
    Chains.ConcatUpdate(bs, i, c2);
    Chains.SwapOne(c, j, e);
    Chains.Exchange(multiset(Chains.Concat(bs[i := c2])), multiset(Chains.Concat(bs)), multiset(c), multiset(c2), c[j], e);
    var nb: seq<seq<Entry<K, V>>> := bs[i := c2];
    if Placed(bs) {
      forall b, k | 0 <= b < |nb| && 0 <= k < |nb[b]|
        ensures nb[b][k].keyhash % |nb| == b
      {
        assert nb[b][k].keyhash == bs[b][k].keyhash;
      }
    }
  }

  /** Putting a new entry at the head of bucket i, its own bucket. */
  function Insert<K, V>(t: Table<K, V>, i: nat, e: Entry<K, V>): (r: Table<K, V>)
    requires Consistent(t) && i < |t.buckets| && e.keyhash % |t.buckets| == i
    ensures Consistent(r) && r.size == t.size + 1 && |r.buckets| == |t.buckets|
    ensures r.buckets[i] == [e] + t.buckets[i]
    ensures Entries(r) == Entries(t) + multiset{e}
  {
    var nb := Chains.Push(t.buckets, i, e);
    assert Placed(nb) by {
      forall b, j | 0 <= b < |nb| && 0 <= j < |nb[b]|
        ensures nb[b][j].keyhash % |nb| == b
      {
        if b == i && j > 0 {
          assert nb[b][j] == t.buckets[b][j - 1];
        }
      }
    }
    Table(nb, t.size + 1)
  }

  datatype GetResult<V> = Got(value: V) | NotFound | GetError(code: int)

  /** hashtable_get: the value of the first entry of the key's chain that
      compares equal, nothing, or the comparison's error code. */
  function Get<K(!new), V>(t: Table<K, V>, key: K, keyhash: nat, cmp: (K, K) -> int): (r: GetResult<V>)
    requires Consistent(t) && Comparator(cmp)
    ensures var c := t.buckets[keyhash % |t.buckets|];
      (r.Got? <==> Find(c, key, cmp, 0).At?) &&
      (r.NotFound? <==> Find(c, key, cmp, 0).Miss?) &&
      (r.Got? ==> r.value == c[Find(c, key, cmp, 0).pos].value) &&
      (r.GetError? ==> r.code < 0)
  {
    var c := t.buckets[keyhash % |t.buckets|];
    match Find(c, key, cmp, 0)
    case At(j) => Got(c[j].value)
    case Miss => NotFound
    case Failed(code) => GetError(code)
  }

  /** The entry a successful lookup stops at. */
  function Match<K(!new), V>(t: Table<K, V>, key: K, keyhash: nat, cmp: (K, K) -> int): (e: Entry<K, V>)
    requires Consistent(t) && Comparator(cmp) && Get(t, key, keyhash, cmp).Got?
    ensures cmp(e.key, key) == 1 && e.value == Get(t, key, keyhash, cmp).value
    ensures e in Entries(t)
  {
    var c := t.buckets[keyhash % |t.buckets|];
    var e := c[Find(c, key, cmp, 0).pos];
    Chains.InConcat(t.buckets, e);
    e
  }

  datatype PopResult<K, V> = Popped(t: Table<K, V>, value: V) | NotThere | PopError(code: int)

  /** hashtable_pop: unlink the first entry that compares equal and hand
      back its value (writing it is up to the caller). */
  function Pop<K(!new), V>(t: Table<K, V>, key: K, keyhash: nat, cmp: (K, K) -> int): (r: PopResult<K, V>)
    requires Consistent(t) && Comparator(cmp)
    ensures r.Popped? ==> Consistent(r.t) && r.t.size == t.size - 1 && |r.t.buckets| == |t.buckets|
    ensures r.Popped? ==> Get(t, key, keyhash, cmp) == Got(r.value)
    ensures r.Popped? ==> Entries(r.t) + multiset{Match(t, key, keyhash, cmp)} == Entries(t)
    ensures r.NotThere? <==> Get(t, key, keyhash, cmp).NotFound?
    ensures r.PopError? ==> Get(t, key, keyhash, cmp) == GetError(r.code)
  {
    var i := keyhash % |t.buckets|;
    match Find(t.buckets[i], key, cmp, 0)
    case Failed(code) => PopError(code)
    case Miss => NotThere
    case At(j) =>
      var nb := Chains.Unlink(t.buckets, i, j);
      assert Placed(nb) by {
        forall b, k | 0 <= b < |nb| && 0 <= k < |nb[b]|
          ensures nb[b][k].keyhash % |nb| == b
        {
          if b == i && k >= j {
            assert nb[b][k] == t.buckets[i][k + 1];
          } else {
            assert nb[b][k] == t.buckets[b][k];
          }
        }
      }
      Popped(Table(nb, t.size - 1), t.buckets[i][j].value)
  }

  // ---------------------------------------------------------------------
  // What set does

  /** Every chain entry is one of the table's entries. */
  lemma ChainEntry<K, V>(t: Table<K, V>, i: nat, j: nat)
    requires i < |t.buckets| && j < |t.buckets[i]|
    ensures t.buckets[i][j] in Entries(t)
  {
    Chains.InConcat(t.buckets, t.buckets[i][j]);
  }

  /** A key that no stored key compares equal to is added as a new entry:
      the size grows by one and the entries gain exactly that entry. */
  lemma StoreNewKey<K(!new), V>(t: Table<K, V>, key: K, keyhash: nat, value: V, cmp: (K, K) -> int)
    requires Consistent(t) && Comparator(cmp)
    requires forall e :: e in Entries(t) ==> cmp(e.key, key) == 0
    ensures Store(t, key, keyhash, value, cmp).Stored?
    ensures var r := Store(t, key, keyhash, value, cmp).t;
      r.size == t.size + 1 && Entries(r) == Entries(t) + multiset{Entry(keyhash, key, value)}
  {
    var i := keyhash % |t.buckets|;
    var c := t.buckets[i];
    forall p | 0 <= p < |c|
      ensures cmp(c[p].key, key) == 0
    {
      ChainEntry(t, i, p);
    }
  }

  /** The same for hashtable_set, whose growth keeps the entries. */
  lemma SetNewKey<K(!new), V>(t: Table<K, V>, key: K, keyhash: Hash, value: V, cmp: (K, K) -> int)
    requires WellFormed(t) && Comparator(cmp)
    requires forall e :: e in Entries(t) ==> cmp(e.key, key) == 0
    ensures Set(t, key, keyhash, value, cmp).Stored?
    ensures var r := Set(t, key, keyhash, value, cmp).t;
      r.size == t.size + 1 && Entries(r) == Entries(t) + multiset{Entry(keyhash, key, value)}
  {
    StoreNewKey(Prepared(t), key, keyhash, value, cmp);
  }

  /** After a successful store, getting the key gives the new value (for a
      comparison that finds a key equal to itself). */
  lemma StoreThenGet<K(!new), V>(t: Table<K, V>, key: K, keyhash: nat, value: V, cmp: (K, K) -> int)
    requires Consistent(t) && Comparator(cmp) && cmp(key, key) == 1
    requires Store(t, key, keyhash, value, cmp).Stored?
    ensures Get(Store(t, key, keyhash, value, cmp).t, key, keyhash, cmp) == Got(value)
  {
    var i := keyhash % |t.buckets|;
    var c := t.buckets[i];
    var r := Store(t, key, keyhash, value, cmp).t;
    match Find(c, key, cmp, 0)
    case At(j) =>
      var d := r.buckets[i];
      assert forall p :: 0 <= p < j ==> d[p].key == c[p].key;
      FindFirst(d, key, cmp, 0, j);
    case Miss =>
      assert r.buckets[i][0] == Entry(keyhash, key, value);
      FindFirst(r.buckets[i], key, cmp, 0, 0);
  }

  /** After a successful set, getting the key gives the new value. */
  lemma SetThenGet<K(!new), V>(t: Table<K, V>, key: K, keyhash: Hash, value: V, cmp: (K, K) -> int)
    requires WellFormed(t) && Comparator(cmp) && cmp(key, key) == 1
    requires Set(t, key, keyhash, value, cmp).Stored?
    ensures Get(Set(t, key, keyhash, value, cmp).t, key, keyhash, cmp) == Got(value)
  {
    StoreThenGet(Prepared(t), key, keyhash, value, cmp);
  }

  /** Keys that pairwise compare unequal. */
  ghost predicate Distinct<K, V>(es: seq<Entry<K, V>>, cmp: (K, K) -> int)
  {
    forall a, b :: 0 <= a < |es| && 0 <= b < |es| && a != b ==> cmp(es[a].key, es[b].key) == 0
  }

  /** After the first of pairwise distinct new keys is stored, the others
      are still new and still pairwise distinct. */
  lemma StillNew<K, V>(t: Table<K, V>, es: seq<Entry<K, V>>, cmp: (K, K) -> int, stored: multiset<Entry<K, V>>)
    requires |es| > 0 && Distinct(es, cmp) && stored == Entries(t) + multiset{es[0]}
    requires forall e, k :: e in Entries(t) && 0 <= k < |es| ==> cmp(e.key, es[k].key) == 0
    ensures Distinct(es[1..], cmp)
    ensures forall e, k :: e in stored && 0 <= k < |es[1..]| ==> cmp(e.key, es[1..][k].key) == 0
  {
    forall e, k | e in stored && 0 <= k < |es[1..]|
      ensures cmp(e.key, es[1..][k].key) == 0
    {
      if e != es[0] {
        assert e in Entries(t);
      }
    }
  }

  /** Entries to set that fit the unsigned int hash, have pairwise distinct
      keys, and are new to table t. */
  ghost predicate FreshKeys<K(!new), V>(t: Table<K, V>, es: seq<Entry<K, V>>, cmp: (K, K) -> int)
  {
    WellFormed(t) && Comparator(cmp) && Distinct(es, cmp) && HashesFit(es) &&
    forall e, k :: e in Entries(t) && 0 <= k < |es| ==> cmp(e.key, es[k].key) == 0
  }

  /** One step of DistinctKeysAdded: the first key is added, and the rest
      are still fresh to the table it gives. */
  lemma FirstAdded<K(!new), V>(t: Table<K, V>, es: seq<Entry<K, V>>, cmp: (K, K) -> int) returns (t1: Table<K, V>)
    requires FreshKeys(t, es, cmp) && |es| > 0
    ensures FreshKeys(t1, es[1..], cmp)
    ensures t1.size == t.size + 1 && Entries(t1) == Entries(t) + multiset{es[0]}
    ensures Set(t, es[0].key, es[0].keyhash, es[0].value, cmp) == Stored(t1)
  {
    var e0 := es[0];
    SetNewKey(t, e0.key, e0.keyhash, e0.value, cmp);
    t1 := Set(t, e0.key, e0.keyhash, e0.value, cmp).t;
    assert Entry(e0.keyhash, e0.key, e0.value) == e0;
    StillNew(t, es, cmp, Entries(t1));
  }

  /** A stored entry sits in the bucket its hash selects. */
  lemma EntryInItsBucket<K, V>(t: Table<K, V>, e: Entry<K, V>)
    requires Consistent(t) && e in Entries(t)
    ensures e in t.buckets[e.keyhash % |t.buckets|]
  {
    Chains.InConcat(t.buckets, e);
    var b :| 0 <= b < |t.buckets| && e in t.buckets[b];
    var q :| 0 <= q < |t.buckets[b]| && t.buckets[b][q] == e;
  }

  /** When the only entries of a chain that do not compare 0 are copies of
      one entry that compares 1, the scan stops at such a copy. */
  lemma FindOnly<K(!new), V>(c: seq<Entry<K, V>>, key: K, cmp: (K, K) -> int, e: Entry<K, V>)
    requires Comparator(cmp) && e in c && cmp(e.key, key) == 1
    requires forall p :: 0 <= p < |c| && cmp(c[p].key, key) != 0 ==> c[p] == e
    ensures Find(c, key, cmp, 0).At? && c[Find(c, key, cmp, 0).pos] == e
  {
    var q :| 0 <= q < |c| && c[q] == e;
    match Find(c, key, cmp, 0)
    case At(j) =>
    case Miss =>
    case Failed(code) =>
  }

  /** In a table holding exactly pairwise distinct entries, the only
      entry of a key's bucket that does not compare 0 to it is its own. */
  lemma OnlyOneMatches<K(!new), V>(t: Table<K, V>, es: seq<Entry<K, V>>, cmp: (K, K) -> int, a: nat)
    requires Consistent(t) && Entries(t) == multiset(es) && Distinct(es, cmp) && a < |es|
    ensures var c := t.buckets[es[a].keyhash % |t.buckets|];
      forall p :: 0 <= p < |c| && cmp(c[p].key, es[a].key) != 0 ==> c[p] == es[a]
  {
    var i := es[a].keyhash % |t.buckets|;
    var c := t.buckets[i];
    forall p | 0 <= p < |c| && cmp(c[p].key, es[a].key) != 0
      ensures c[p] == es[a]
    {
      ChainEntry(t, i, p);
      assert c[p] in multiset(es);
      var x :| 0 <= x < |es| && es[x] == c[p];
    }
  }

  /** A table holding exactly pairwise distinct entries finds each one. */
  lemma HoldsExactly<K(!new), V>(t: Table<K, V>, es: seq<Entry<K, V>>, cmp: (K, K) -> int, a: nat)
    requires Consistent(t) && Comparator(cmp) && Entries(t) == multiset(es)
    requires Distinct(es, cmp) && a < |es| && cmp(es[a].key, es[a].key) == 1
    ensures Get(t, es[a].key, es[a].keyhash, cmp) == Got(es[a].value)
  {
    var c := t.buckets[es[a].keyhash % |t.buckets|];
    EntryInItsBucket(t, es[a]);
    OnlyOneMatches(t, es, cmp, a);
    FindOnly(c, es[a].key, cmp, es[a]);
  }

  /** Setting entries one after another, as test_hashtable.c does with its
      keys, stopping at the first error.  Keys that are fresh to the table
      and pairwise distinct are all added: the size grows by their number
      and nothing is overwritten; and starting from an empty table (a new
      one, or one just cleared) every one of them is then found with its
      value. */
  method SetEach<K(!new), V>(t: Table<K, V>, es: seq<Entry<K, V>>, cmp: (K, K) -> int) returns (r: SetResult<K, V>)
    requires WellFormed(t) && Comparator(cmp) && HashesFit(es)
    ensures r.Stored? ==> WellFormed(r.t)
    ensures r.CmpError? ==> r.code < 0
    ensures FreshKeys(t, es, cmp) ==>
      r.Stored? && r.t.size == t.size + |es| && Entries(r.t) == Entries(t) + multiset(es)
    ensures FreshKeys(t, es, cmp) && Entries(t) == multiset{} &&
            (forall k :: 0 <= k < |es| ==> cmp(es[k].key, es[k].key) == 1) ==>
      r.Stored? && forall a :: 0 <= a < |es| ==> Get(r.t, es[a].key, es[a].keyhash, cmp) == Got(es[a].value)
  {
    var cur := t;
    var i := 0;
    while i < |es|
      invariant 0 <= i <= |es| && WellFormed(cur)
      invariant FreshKeys(t, es, cmp) ==>
        FreshKeys(cur, es[i..], cmp) && cur.size == t.size + i && Entries(cur) == Entries(t) + multiset(es[..i])
    {
      var res := Set(cur, es[i].key, es[i].keyhash, es[i].value, cmp);
      SetEachStep(t, cur, es, i, cmp);
      if res.CmpError? {
        return res;
      }
      cur := res.t;
      i := i + 1;
    }
    assert es[..i] == es;
    r := Stored(cur);
    if FreshKeys(t, es, cmp) && Entries(t) == multiset{} &&
       (forall k :: 0 <= k < |es| ==> cmp(es[k].key, es[k].key) == 1) {
      AllFound(t, cur, es, cmp);
    }
  }

  /** One round of SetEach: a fresh key is added and the rest stay fresh. */
  lemma SetEachStep<K(!new), V>(t: Table<K, V>, cur: Table<K, V>, es: seq<Entry<K, V>>, i: nat, cmp: (K, K) -> int)
    requires WellFormed(cur) && Comparator(cmp) && i < |es|
    requires FreshKeys(t, es, cmp) ==>
      FreshKeys(cur, es[i..], cmp) && cur.size == t.size + i && Entries(cur) == Entries(t) + multiset(es[..i])
    ensures FreshKeys(t, es, cmp) ==>
      var res := Set(cur, es[i].key, es[i].keyhash, es[i].value, cmp);
      res.Stored? && FreshKeys(res.t, es[i + 1..], cmp) && res.t.size == t.size + i + 1 &&
      Entries(res.t) == Entries(t) + multiset(es[..i + 1])
  {
    if FreshKeys(t, es, cmp) {
      assert es[i..][1..] == es[i + 1..] && es[i..][0] == es[i];
      assert es[..i + 1] == es[..i] + [es[i]];
      assert multiset(es[..i + 1]) == multiset(es[..i]) + multiset{es[i]};
      hide FreshKeys, Entries, Set, WellFormed;
      var t1 := FirstAdded(cur, es[i..], cmp);
    }
  }

  /** Fresh distinct keys stored into an empty table are all found. */
  lemma AllFound<K(!new), V>(t: Table<K, V>, cur: Table<K, V>, es: seq<Entry<K, V>>, cmp: (K, K) -> int)
    requires WellFormed(cur) && FreshKeys(t, es, cmp) && Entries(t) == multiset{}
    requires Entries(cur) == Entries(t) + multiset(es)
    requires forall k :: 0 <= k < |es| ==> cmp(es[k].key, es[k].key) == 1
    ensures forall a :: 0 <= a < |es| ==> Get(cur, es[a].key, es[a].keyhash, cmp) == Got(es[a].value)
  {
    forall a | 0 <= a < |es|
      ensures Get(cur, es[a].key, es[a].keyhash, cmp) == Got(es[a].value)
    {
      HoldsExactly(cur, es, cmp, a);
    }
  }

  // ---------------------------------------------------------------------
  // Iteration and clearing

  /** The iterator of hashtable.c is the bucket iterator of Chains: it
      yields every stored pair exactly once, `size` pairs in all. */
  method IterateAll<K, V>(t: Table<K, V>) returns (out: seq<Entry<K, V>>)
    requires Consistent(t)
    ensures out == Chains.Concat(t.buckets) && |out| == t.size
  {
    out := Chains.IterateAll(t.buckets);
  }

  /** hashtable_fclear: f is called on every pair, bucket by bucket and
      each chain from its head; then every bucket is empty and the size 0.
      The calls are returned in the order they are made. */
  method FClear<K, V>(t: Table<K, V>) returns (calls: seq<(K, V)>, r: Table<K, V>)
    requires Consistent(t)
    ensures |calls| == t.size
    ensures forall k :: 0 <= k < |calls| ==>
      calls[k] == (Chains.Concat(t.buckets)[k].key, Chains.Concat(t.buckets)[k].value)
    ensures Consistent(r) && r.size == 0 && |r.buckets| == |t.buckets|
    ensures forall b :: 0 <= b < |r.buckets| ==> r.buckets[b] == []
  {
    var bs: seq<seq<Entry<K, V>>> := t.buckets;
    var i := 0;
    calls := [];
    while i < |bs|
      invariant 0 <= i <= |bs|
      invariant |calls| == |Chains.Concat(bs[..i])|
      invariant forall k :: 0 <= k < |calls| ==>
        calls[k] == (Chains.Concat(bs[..i])[k].key, Chains.Concat(bs[..i])[k].value)
    {
      var c: seq<Entry<K, V>> := bs[i];
      var j := 0;
      ghost var before := calls;
      while j < |c|
        invariant 0 <= j <= |c|
        invariant |calls| == |before| + j && calls[..|before|] == before
        invariant forall k :: 0 <= k < j ==> calls[|before| + k] == (c[k].key, c[k].value)
      {
        calls := calls + [(c[j].key, c[j].value)];
        j := j + 1;
      }
      Chains.ConcatAppend(bs[..i], [c]);
      assert bs[..i + 1] == bs[..i] + [c];
      assert Chains.Concat([c]) == c;
      i := i + 1;
    }
    assert bs[..|bs|] == bs;
    r := Table(Chains.Empty(|bs|), 0);
    Chains.ConcatOfEmpties(r.buckets);
  }

  /** hashtable_clear: fclear with a callback that does nothing. */
  method Clear<K, V>(t: Table<K, V>) returns (r: Table<K, V>)
    requires Consistent(t)
    ensures Consistent(r) && r.size == 0 && |r.buckets| == |t.buckets| && Entries(r) == multiset{}
  {
    var _, r' := FClear(t);
    r := r';
    Chains.ConcatOfEmpties(r.buckets);
  }
}
