/**
 * The registry of every object of the interpreter, src/allobjects.c: a
 * chained hash table with keys only, the key being the object's address and
 * its hash the address shifted right by two.  It is the table of HashTable
 * with pointer equality as the comparison and no values; add never looks
 * for duplicates, and the bucket count doubles (saturating at ULONG_MAX).
 *
 * allobjects_remove reduces the bucket index to an unsigned int; that is
 * RemoveAsWritten, and RemoveMissesObject exhibits a table it fails on.
 * Remove is the lookup add evidently pairs with.  Allocation is treated as
 * total: the out-of-memory outcomes are not modelled.
 */
module AllObjects {
  import Chains
  import Integer
  import HT = HashTable

  const ULongMax: nat := Integer.U64 - 1
  const UIntRange: nat := 0x1_0000_0000
  const InitialBuckets: nat := 100

  /** An object pointer. */
  type Addr = a: nat | a < Integer.U64

  /** object_hash: (uintptr_t)obj >> 2. */
  function ObjectHash(obj: Addr): nat
  {
    obj / 4
  }

  /** The item an object is kept as: its hash, itself, and no value. */
  function Item(obj: Addr): HT.Entry<Addr, ()>
  {
    HT.Entry(ObjectHash(obj), obj, ())
  }

  type Table = HT.Table<Addr, ()>

  /** Pointer equality, as the comparison of HashTable answers it. */
  function SameObject(a: Addr, b: Addr): (r: int)
    ensures r == 1 <==> a == b
    ensures 0 <= r <= 1
  {
    if a == b then 1 else 0
  }

  lemma SameObjectCompares()
    ensures HT.Comparator(SameObject)
  {
  }

  /** The items are exactly the objects' items: each carries its object's hash. */
  ghost predicate ItemsOfObjects(t: Table)
  {
    forall e :: e in HT.Entries(t) ==> e == Item(e.key)
  }

  ghost predicate WellFormed(t: Table)
  {
    HT.Consistent(t) && |t.buckets| <= ULongMax && ItemsOfObjects(t)
  }

  /** allobjects_init: 100 empty buckets, size 0. */
  function Init(): (t: Table)
    ensures WellFormed(t) && t.size == 0 && |t.buckets| == InitialBuckets
    ensures HT.Entries(t) == multiset{}
  {
    var t := HT.Table(Chains.Empty(InitialBuckets), 0);
    Chains.ConcatOfEmpties(t.buckets);
    t
  }

  // ---------------------------------------------------------------------
  // add

  /** make_bigger's new count: twice as many, saturating at ULONG_MAX. */
  function Doubled(n: nat): (r: nat)
    requires 0 < n < ULongMax
    ensures n < r <= ULongMax
    ensures n <= ULongMax / 2 ==> r == 2 * n
  {
    if n > ULongMax / 2 then ULongMax else n * 2
  }

  /** make_bigger: every item moves, in iteration order, to the head of the
      bucket its hash selects among the doubled count. */
  function MakeBigger(t: Table): (r: Table)
    requires WellFormed(t) && |t.buckets| < ULongMax
    ensures WellFormed(r) && |r.buckets| == Doubled(|t.buckets|)
    ensures HT.Entries(r) == HT.Entries(t) && r.size == t.size
  {
    var nb := Chains.Empty(Doubled(|t.buckets|));
    Chains.ConcatOfEmpties(nb);
    HT.Table(HT.Rehash(Chains.Concat(t.buckets), nb), t.size)
  }

  /** allobjects_add: grow when the load factor is over 3/4 (unless the
      count is already ULONG_MAX), then push the object onto the head of its
      bucket, whether or not it is already there. */
  function Add(t: Table, obj: Addr): (r: Table)
    requires WellFormed(t)
    ensures WellFormed(r) && r.size == t.size + 1
    ensures HT.Entries(r) == HT.Entries(t) + multiset{Item(obj)}
    ensures |t.buckets| != ULongMax && HT.Overloaded(t.size, |t.buckets|) ==>
      |r.buckets| == Doubled(|t.buckets|)
    ensures !(|t.buckets| != ULongMax && HT.Overloaded(t.size, |t.buckets|)) ==>
      |r.buckets| == |t.buckets|
  {
    var t1 := if |t.buckets| != ULongMax && HT.Overloaded(t.size, |t.buckets|) then MakeBigger(t) else t;
    var r := HT.Insert(t1, ObjectHash(obj) % |t1.buckets|, Item(obj));
    AddKeepsItems(t1, obj, r);
    r
  }

  /** Adding an object's own item keeps every item its object's. */
  lemma AddKeepsItems(t: Table, obj: Addr, r: Table)
    requires ItemsOfObjects(t) && HT.Entries(r) == HT.Entries(t) + multiset{Item(obj)}
    ensures ItemsOfObjects(r)
  {
    hide HT.Entries;
    forall e | e in HT.Entries(r) ensures e == Item(e.key) {
      assert e in HT.Entries(t) || e == Item(obj);
    }
  }

  // ---------------------------------------------------------------------
  // remove

  /** The outcome of a removal: whether the object was found, and the table. */
  datatype Removal = Removal(found: bool, t: Table)

  /** allobjects_remove with the bucket index add uses: unlink the first
      item of the object's bucket that is that very object. */
  function Remove(t: Table, obj: Addr): (r: Removal)
    requires WellFormed(t)
    ensures r.found <==> Item(obj) in HT.Entries(t)
    ensures r.found ==> WellFormed(r.t) && r.t.size == t.size - 1 &&
                        HT.Entries(r.t) == HT.Entries(t) - multiset{Item(obj)}
    ensures !r.found ==> r.t == t
  {
    SameObjectCompares();
    var res := HT.Pop(t, obj, ObjectHash(obj), SameObject);
    RemoveFacts(t, obj);
    if res.Popped? then Removal(true, res.t) else Removal(false, t)
  }

  lemma RemoveFacts(t: Table, obj: Addr)
    requires WellFormed(t) && HT.Comparator(SameObject)
    ensures var res := HT.Pop(t, obj, ObjectHash(obj), SameObject);
      !res.PopError? &&
      (res.Popped? <==> Item(obj) in HT.Entries(t)) &&
      (res.Popped? ==> WellFormed(res.t) && HT.Entries(res.t) == HT.Entries(t) - multiset{Item(obj)})
  {
    var res := HT.Pop(t, obj, ObjectHash(obj), SameObject);
    if res.Popped? {
      var e := HT.Match(t, obj, ObjectHash(obj), SameObject);
      assert e == Item(e.key);
      assert HT.Entries(res.t) + multiset{e} == HT.Entries(t);
      assert e == Item(obj);
      assert HT.Entries(res.t) == HT.Entries(t) - multiset{Item(obj)};
      assert HT.Entries(res.t) <= HT.Entries(t);
    } else if res.NotThere? && Item(obj) in HT.Entries(t) {
      HT.EntryInItsBucket(t, Item(obj));
    }
  }

  /** allobjects_remove as written: the index is computed as an unsigned
      long and stored in an unsigned int, so it is taken modulo 2^32. */
  function RemoveAsWritten(t: Table, obj: Addr): (r: Removal)
    requires WellFormed(t)
    ensures r.found ==> Item(obj) in HT.Entries(t)
    ensures !r.found ==> r.t == t
  {
    var i := (ObjectHash(obj) % |t.buckets|) % UIntRange;
    var c := t.buckets[i];
    SameObjectCompares();
    match HT.Find(c, obj, SameObject, 0)
    case At(j) =>
      HT.ChainEntry(t, i, j);
      assert t.buckets[i][j] == Item(obj);
      Removal(true, HT.Table(Chains.Unlink(t.buckets, i, j), t.size - 1))
    case _ => Removal(false, t)
  }

  /** With at most 2^32 buckets the truncation changes nothing. */
  lemma AsWrittenAgreesUpTo2To32(t: Table, obj: Addr)
    requires WellFormed(t) && |t.buckets| <= UIntRange
    ensures RemoveAsWritten(t, obj) == Remove(t, obj)
  {
    assert |t.buckets| > 0;
    hide HT.Entries, HT.Get, HT.Match, HT.Consistent, ItemsOfObjects;
    var i := ObjectHash(obj) % |t.buckets|;
    assert i % UIntRange == i;
    SameObjectCompares();
    var res := HT.Pop(t, obj, ObjectHash(obj), SameObject);
    var found := HT.Find(t.buckets[i], obj, SameObject, 0);
    if found.At? {
      assert res.t == HT.Table(Chains.Unlink(t.buckets, i, found.pos), t.size - 1);
    } else {
      assert !res.Popped?;
    }
  }

  /** 100 * 2^26 buckets: the count after 26 doublings. */
  const GrownCount: nat := 6_710_886_400

  /** The object at address 2^34, whose hash is 2^32. */
  const Far: Addr := 0x4_0000_0000

  /** A table grown to 100 * 2^26 buckets (as adding a few billion objects
      does) holding only Far, in bucket 2^32. */
  function FarTable(): (t: Table)
    ensures WellFormed(t) && |t.buckets| == GrownCount && t.size == 1
    ensures HT.Entries(t) == multiset{Item(Far)} && t.buckets[0] == []
  {
    var e: seq<seq<HT.Entry<Addr, ()>>> := Chains.Empty(GrownCount);
    var bs: seq<seq<HT.Entry<Addr, ()>>> := e[UIntRange := [Item(Far)]];
    FarFacts(e, bs);
    HT.Table(bs, 1)
  }

  lemma FarFacts(e: seq<seq<HT.Entry<Addr, ()>>>, bs: seq<seq<HT.Entry<Addr, ()>>>)
    requires e == Chains.Empty(GrownCount) && bs == e[UIntRange := [Item(Far)]]
    ensures multiset(Chains.Concat(bs)) == multiset{Item(Far)} && |Chains.Concat(bs)| == 1
    ensures HT.Placed(bs) && bs[0] == []
  {
    Chains.ConcatOfEmpties(e);
    assert e[UIntRange] == [];
    hide Chains.Concat, Chains.Empty;
    Chains.ConcatUpdate(e, UIntRange, [Item(Far)]);
    assert multiset(e[UIntRange]) == multiset{} && multiset(Chains.Concat(e)) == multiset{};
    assert multiset([Item(Far)]) == multiset{Item(Far)};
    assert bs[0] == e[0] == [];
    var m := multiset(Chains.Concat(bs));
    assert m + multiset{} == multiset{} + multiset{Item(Far)};
    assert m + multiset{} == m && multiset{} + multiset{Item(Far)} == multiset{Item(Far)};
    FarMod();
    forall b, j | 0 <= b < |bs| && 0 <= j < |bs[b]|
      ensures bs[b][j].keyhash % |bs| == b
    {
      assert b == UIntRange && bs[b][j] == Item(Far);
    }
  }

  lemma FarMod()
    ensures Item(Far).keyhash % GrownCount == UIntRange
  {
    assert ObjectHash(Far) == UIntRange;
  }

  /** Remove as written looks for Far in bucket (2^32 mod 2^32) = 0 and
      reports it absent, although it is stored, and Remove finds it. */
  lemma RemoveMissesObject()
    ensures Item(Far) in HT.Entries(FarTable())
    ensures Remove(FarTable(), Far).found && !RemoveAsWritten(FarTable(), Far).found
  {
    AsWrittenLooksInBucketZero();
  }

  lemma AsWrittenLooksInBucketZero()
    ensures !RemoveAsWritten(FarTable(), Far).found
  {
    var t := FarTable();
    FarIndex(ObjectHash(Far), |t.buckets|);
  }

  lemma FarIndex(h: nat, n: nat)
    requires h == ObjectHash(Far) && n == GrownCount
    ensures (h % n) % UIntRange == 0
  {
    assert h == UIntRange;
    assert h % n == h;
  }

  // ---------------------------------------------------------------------
  // iteration

  function Keys(es: seq<HT.Entry<Addr, ()>>): (r: seq<Addr>)
    ensures |r| == |es|
  {
    if |es| == 0 then [] else [es[0].key] + Keys(es[1..])
  }

  lemma {:induction false} KeysCount(es: seq<HT.Entry<Addr, ()>>, obj: Addr)
    requires forall k :: 0 <= k < |es| ==> es[k] == Item(es[k].key)
    ensures multiset(Keys(es))[obj] == multiset(es)[Item(obj)]
  {
    if |es| > 0 {
      KeysCount(es[1..], obj);
      assert es == [es[0]] + es[1..];
      assert multiset(es) == multiset{es[0]} + multiset(es[1..]);
    }
  }

  /** allobjects_iterbegin / allobjects_iternext run to the end: each stored
      object comes out as many times as it was added and not removed, and
      the number of objects visited is the size. */
  method IterateAll(t: Table) returns (objs: seq<Addr>)
    requires WellFormed(t)
    ensures |objs| == t.size
    ensures forall obj: Addr :: multiset(objs)[obj] == HT.Entries(t)[Item(obj)]
  {
    var items: seq<HT.Entry<Addr, ()>> := HT.IterateAll(t);
    objs := Keys(items);
    forall k | 0 <= k < |items|
      ensures items[k] == Item(items[k].key)
    {
      assert items[k] in HT.Entries(t);
    }
    forall obj: Addr
      ensures multiset(objs)[obj] == HT.Entries(t)[Item(obj)]
    {
      KeysCount(items, obj);
    }
  }
}
