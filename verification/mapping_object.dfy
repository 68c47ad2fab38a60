/**
 * The Mapping class (src/objects/mapping.c): a chained hash table whose
 * keys are compared with operator_eqint.  A Mapping object is an `Obj`
 * whose data is `Map(buckets, size)`; every operation returns the updated
 * object (same identity).  Buckets are chains listed from head to tail;
 * new items are put at the head, as the source does.
 */
module MappingObject {
  import opened Wrappers
  import opened Objects
  import opened Operator
  import Check
  import Chains

  const ULongMax: int := U64 - 1
  const LongMax: int := 0x7FFF_FFFF_FFFF_FFFF
  const InitialBuckets: nat := 10

  const KeyError := Exception("KeyError", "cannot find key %D")

  // ---------------------------------------------------------------------
  // Creation

  /** create_empty_data and new_empty: size 0, ten empty buckets, and the
      Mapping itself is not hashable. */
  function NewEmpty(id: nat, hash: int): (r: Obj)
    ensures WellFormed(r.data) && !r.hashable && r.id == id
    ensures r.data.size == 0 && |r.data.buckets| == InitialBuckets
    ensures ItemsOf(r) == []
  {
    Obj(id, false, hash, Map(EmptyBuckets(InitialBuckets), 0))
  }

  /** The length attribute. */
  function Length(m: Obj): (r: nat)
    requires WellFormed(m.data)
    ensures r == |ItemsOf(m)|
  {
    m.data.size
  }

  // ---------------------------------------------------------------------
  // Bucket surgery and what it does to the multiset of items

  function Items(bs: seq<Chain>): multiset<Item>
  {
    multiset(Flatten(bs))
  }

  /** Every key hashable and in the bucket its hash selects. */
  predicate Placed(bs: seq<Chain>)
  {
    |bs| > 0 &&
    forall b, j :: 0 <= b < |bs| && 0 <= j < |bs[b].items| ==>
      bs[b].items[j].key.hashable && HashModulus(bs[b].items[j].key.hash, |bs|) == b
  }

  lemma WellFormedIsPlaced(m: Data)
    ensures WellFormed(m) <==> m.Map? && Placed(m.buckets) && |m.buckets| <= ULongMax && m.size == Count(m.buckets)
  {
  }

  /** Replacing one chain changes the items by exactly that chain. */
  lemma FlattenUpdate(bs: seq<Chain>, i: nat, c: seq<Item>)
    requires i < |bs|
    ensures Items(bs[i := Chain(c)]) + multiset(bs[i].items) == Items(bs) + multiset(c)
    ensures |Flatten(bs[i := Chain(c)])| + |bs[i].items| == |Flatten(bs)| + |c|
  {
    var pre, post := bs[..i], bs[i + 1..];
    assert bs == pre + [bs[i]] + post;
    assert bs[i := Chain(c)] == pre + [Chain(c)] + post;
    FlattenAppend(pre + [bs[i]], post);
    FlattenAppend(pre, [bs[i]]);
    FlattenAppend(pre + [Chain(c)], post);
    FlattenAppend(pre, [Chain(c)]);
    assert Flatten([bs[i]]) == bs[i].items;
    assert Flatten([Chain(c)]) == c;
  }

  /** Put an item at the head of bucket i. */
  function Prepend(bs: seq<Chain>, i: nat, it: Item): (r: seq<Chain>)
    requires i < |bs|
    ensures |r| == |bs| && r[i].items == [it] + bs[i].items
    ensures Items(r) == Items(bs) + multiset{it}
    ensures |Flatten(r)| == |Flatten(bs)| + 1
    ensures Placed(bs) && it.key.hashable && HashModulus(it.key.hash, |bs|) == i ==> Placed(r)
  {
    var r := bs[i := Chain([it] + bs[i].items)];
    FlattenUpdate(bs, i, [it] + bs[i].items);
    assert multiset([it] + bs[i].items) == multiset{it} + multiset(bs[i].items);
    Chains.MultisetCancel(Items(r), Items(bs) + multiset{it}, multiset(bs[i].items));
    PrependPlaced(bs, i, it);
    r
  }

  lemma PrependPlaced(bs: seq<Chain>, i: nat, it: Item)
    requires i < |bs|
    ensures Placed(bs) && it.key.hashable && HashModulus(it.key.hash, |bs|) == i ==>
      Placed(bs[i := Chain([it] + bs[i].items)])
  {
    var r := bs[i := Chain([it] + bs[i].items)];
    if Placed(bs) && it.key.hashable && HashModulus(it.key.hash, |bs|) == i {
      forall b, j | 0 <= b < |r| && 0 <= j < |r[b].items|
        ensures r[b].items[j].key.hashable && HashModulus(r[b].items[j].key.hash, |r|) == b
      {
        if b == i && j > 0 {
          assert r[b].items[j] == bs[i].items[j - 1];
        }
      }
    }
  }

  // ---------------------------------------------------------------------
  // Finding a key in a chain

  /** Where the scan of a chain stops: at an error (-1), at the end, or at
      the first stored key equal to the wanted one. */
  datatype Hit = ScanError | Miss | At(pos: nat)

  function FindIndex(c: seq<Item>, key: Obj, j: nat): (r: Hit)
    requires j <= |c|
    ensures r.At? ==> j <= r.pos < |c| && EqInt(c[r.pos].key, key) == 1 &&
                      forall p :: j <= p < r.pos ==> EqInt(c[p].key, key) == 0
    ensures r.Miss? ==> forall p :: j <= p < |c| ==> EqInt(c[p].key, key) == 0
    ensures r.ScanError? ==> exists p :: j <= p < |c| && EqInt(c[p].key, key) == -1
    decreases |c| - j
  {
    if j == |c| then Miss
    else
      var res := EqInt(c[j].key, key);
      if res == -1 then ScanError
      else if res == 1 then At(j)
      else FindIndex(c, key, j + 1)
  }

  /** The index scan and the lookup of operator.c agree. */
  lemma FindAgreesWithGet(m: Obj, key: Obj)
    requires m.data.Map? && |m.data.buckets| > 0 && key.hashable
    ensures var i := HashModulus(key.hash, |m.data.buckets|);
      var c := m.data.buckets[i].items;
      var h := FindIndex(c, key, 0);
      (h.At? ==> MapGet(m, key) == Found(c[h.pos].value)) &&
      (h.Miss? <==> MapGet(m, key).Absent?) &&
      (h.ScanError? <==> MapGet(m, key).Failed?)
  {
    var i := HashModulus(key.hash, |m.data.buckets|);
    var c := m.data.buckets[i].items;
    assert MapGet(m, key) == ChainFind(m, key, i, 0);
    ChainFindSpec(m, key, i, 0);
    var h := FindIndex(c, key, 0);
    var g := MapGet(m, key);
    match h
    case At(p) =>
      assert g == Found(c[p].value);
    case Miss =>
      assert g.Absent?;
    case ScanError =>
      var p :| 0 <= p < |c| && EqInt(c[p].key, key) == -1;
      FirstNonZero(c, key, p);
      var q :| 0 <= q <= p && EqInt(c[q].key, key) != 0 &&
               forall s :: 0 <= s < q ==> EqInt(c[s].key, key) == 0;
      FindFirstNonZero(c, key, 0, q);
      assert g.Failed?;
  }

  /** If some comparison is non-zero, there is a first one. */
  lemma FirstNonZero(c: seq<Item>, key: Obj, p: nat)
    requires p < |c| && EqInt(c[p].key, key) != 0
    ensures exists q :: 0 <= q <= p && EqInt(c[q].key, key) != 0 &&
                        forall s :: 0 <= s < q ==> EqInt(c[s].key, key) == 0
    decreases p
  {
    if exists q :: 0 <= q < p && EqInt(c[q].key, key) != 0 {
      var q :| 0 <= q < p && EqInt(c[q].key, key) != 0;
      FirstNonZero(c, key, q);
    }
  }

  // ---------------------------------------------------------------------
  // make_bigger

  /** The new bucket count: three times as many, saturating at ULONG_MAX. */
  function GrownCount(n: nat): (r: nat)
    requires 0 < n < ULongMax
    ensures r > n
  {
    if n > ULongMax / 3 then ULongMax else n * 3
  }

  /** Moving the items, in iteration order, to the head of their new
      bucket. */
  function Rehash(items: seq<Item>, nb: seq<Chain>): (r: seq<Chain>)
    requires |nb| > 0
    ensures |r| == |nb|
    ensures Items(r) == Items(nb) + multiset(items)
    ensures |Flatten(r)| == |Flatten(nb)| + |items|
    ensures Placed(nb) && (forall k :: 0 <= k < |items| ==> items[k].key.hashable) ==> Placed(r)
    decreases |items|
  {
    if |items| == 0 then nb
    else
      var it := items[0];
      var r := Rehash(items[1..], Prepend(nb, HashModulus(it.key.hash, |nb|), it));
      assert items == [it] + items[1..];
      assert multiset(items) == multiset{it} + multiset(items[1..]);
      r
  }

  /** make_bigger: the buckets triple (saturating) and every item moves to
      the bucket its hash selects among the new count. */
  function MakeBigger(bs: seq<Chain>): (r: seq<Chain>)
    requires Placed(bs) && |bs| < ULongMax
    ensures |r| == GrownCount(|bs|)
    ensures Items(r) == Items(bs) && Count(r) == Count(bs)
    ensures Placed(r)
  {
    var empty := EmptyBuckets(GrownCount(|bs|));
    AllKeysHashable(bs);
    assert Placed(empty);
    Rehash(Flatten(bs), empty)
  }

  lemma AllKeysHashable(bs: seq<Chain>)
    requires Placed(bs)
    ensures forall k :: 0 <= k < |Flatten(bs)| ==> Flatten(bs)[k].key.hashable
  {
    forall k | 0 <= k < |Flatten(bs)|
      ensures Flatten(bs)[k].key.hashable
    {
      var it := Flatten(bs)[k];
      InFlatten(bs, it);
      var b :| 0 <= b < |bs| && it in bs[b].items;
      var j :| 0 <= j < |bs[b].items| && bs[b].items[j] == it;
    }
  }

  /** The load-factor test size/nbuckets > 0.75, in integers. */
  predicate Overloaded(size: nat, n: nat)
  {
    4 * size > 3 * n
  }

  // ---------------------------------------------------------------------
  // mappingobject_set

  /** A tripped assert of the source (make_bigger's check that the bucket
      count is not ULONG_MAX), kept as an outcome of its own. */
  const GrowAssert := Exception("assert", "data->nbuckets != ULONG_MAX")

  /** The buckets with item j of bucket i given a new value. */
  function Replaced(bs: seq<Chain>, i: nat, j: nat, val: Obj): seq<Chain>
    requires i < |bs| && j < |bs[i].items|
  {
    var c := bs[i].items;
    bs[i := Chain(c[j := Item(c[j].key, val)])]
  }

  /** Replacing a value swaps one item for another with the same key. */
  lemma ReplacedItems(bs: seq<Chain>, i: nat, j: nat, val: Obj)
    requires i < |bs| && j < |bs[i].items|
    ensures var c := bs[i].items;
      Items(Replaced(bs, i, j, val)) + multiset{c[j]} == Items(bs) + multiset{Item(c[j].key, val)}
    ensures |Replaced(bs, i, j, val)| == |bs| && Count(Replaced(bs, i, j, val)) == Count(bs)
  {
    var c := bs[i].items;
    var it := Item(c[j].key, val);
    FlattenUpdate(bs, i, c[j := it]);
    Chains.SwapOne(c, j, it);
    Chains.Exchange(Items(Replaced(bs, i, j, val)), Items(bs), multiset(c), multiset(c[j := it]), c[j], it);
  }

  /** Replacing a value leaves every key where it was. */
  lemma ReplacedPlaced(bs: seq<Chain>, i: nat, j: nat, val: Obj)
    requires i < |bs| && j < |bs[i].items|
    ensures Placed(bs) ==> Placed(Replaced(bs, i, j, val))
  {
    var nbs := Replaced(bs, i, j, val);
    if Placed(bs) {
      forall b, k | 0 <= b < |nbs| && 0 <= k < |nbs[b].items|
        ensures nbs[b].items[k].key.hashable && HashModulus(nbs[b].items[k].key.hash, |nbs|) == b
      {
        assert nbs[b].items[k].key == bs[b].items[k].key;
      }
    }
  }

  /** Put a new value in item j of bucket i, keeping the stored key. */
  function UpdateAt(m: Obj, i: nat, j: nat, val: Obj): (r: Obj)
    requires WellFormed(m.data) && i < |m.data.buckets| && j < |m.data.buckets[i].items|
    ensures r.id == m.id && r.hashable == m.hashable && WellFormed(r.data)
    ensures r.data.buckets == Replaced(m.data.buckets, i, j, val) && r.data.size == m.data.size
  {
    ReplacedItems(m.data.buckets, i, j, val);
    ReplacedPlaced(m.data.buckets, i, j, val);
    m.(data := Map(Replaced(m.data.buckets, i, j, val), m.data.size))
  }

  /** The bucket count after an insertion decided to grow or not. */
  function CountAfterInsert(size: nat, n: nat): nat
    requires 0 < n <= ULongMax
  {
    if n != LongMax && n != ULongMax && Overloaded(size, n) then GrownCount(n) else n
  }

  /** The growth step of set: make_bigger when the table is more than three
      quarters full, unless the count is LONG_MAX. */
  function MaybeGrow(bs: seq<Chain>, size: nat): (r: seq<Chain>)
    requires Placed(bs) && |bs| <= ULongMax
    requires !(|bs| == ULongMax && Overloaded(size, |bs|))
    ensures |r| == CountAfterInsert(size, |bs|)
    ensures Placed(r) && Items(r) == Items(bs) && Count(r) == Count(bs)
  {
    if |bs| != LongMax && Overloaded(size, |bs|) then MakeBigger(bs) else bs
  }

  /** Add a new item at the head of its bucket, after the growth step.  The
      growth step trips make_bigger's assert when the count is already
      ULONG_MAX, which the LONG_MAX guard does not exclude. */
  function Insert(m: Obj, key: Obj, val: Obj): (r: Result<Obj, Exception>)
    requires WellFormed(m.data) && key.hashable
    ensures r.Err? <==> |m.data.buckets| == ULongMax && Overloaded(m.data.size, |m.data.buckets|)
    ensures r.Err? ==> r.error == GrowAssert
    ensures r.Ok? ==> r.value.id == m.id && r.value.hashable == m.hashable && WellFormed(r.value.data)
    ensures r.Ok? ==> (r.value.data.size == m.data.size + 1 &&
      Items(r.value.data.buckets) == Items(m.data.buckets) + multiset{Item(key, val)})
    ensures r.Ok? ==> |r.value.data.buckets| == CountAfterInsert(m.data.size, |m.data.buckets|)
    ensures r.Ok? ==> var c := r.value.data.buckets[HashModulus(key.hash, |r.value.data.buckets|)].items;
      |c| > 0 && c[0] == Item(key, val)
  {
    var bs := m.data.buckets;
    if |bs| == ULongMax && Overloaded(m.data.size, |bs|) then Err(GrowAssert)
    else
      var nbs := MaybeGrow(bs, m.data.size);
      var r := Prepend(nbs, HashModulus(key.hash, |nbs|), Item(key, val));
      Ok(m.(data := Map(r, m.data.size + 1)))
  }

  /** mappingobject_set: the hashable check, the scan of the key's chain
      (an equal stored key gets the new value), otherwise an insertion. */
  function Set(m: Obj, key: Obj, val: Obj): (r: Result<Obj, Exception>)
    requires WellFormed(m.data)
    ensures r.Ok? ==> r.value.id == m.id && r.value.hashable == m.hashable && WellFormed(r.value.data)
    ensures !key.hashable ==> r == Err(HashError)
    ensures key.hashable ==>
      var bs := m.data.buckets;
      var h := FindIndex(bs[HashModulus(key.hash, |bs|)].items, key, 0);
      (h.ScanError? ==> r == Err(HashError)) &&
      (h.At? ==> r.Ok? && r.value.data.size == m.data.size && |r.value.data.buckets| == |bs|) &&
      (h.Miss? ==> (r.Err? <==> |bs| == ULongMax && Overloaded(m.data.size, |bs|)))
  {
    if !key.hashable then Err(HashError)
    else
      var bs := m.data.buckets;
      var i := HashModulus(key.hash, |bs|);
      match FindIndex(bs[i].items, key, 0)
      case ScanError => Err(HashError)
      case At(j) => Ok(UpdateAt(m, i, j, val))
      case Miss => Insert(m, key, val)
  }

  /** What set does to the items: a present key keeps its (stored) key and
      gets the new value; an absent key is added once and the size grows by
      one; growth moves items but neither adds nor drops any. */
  lemma SetItems(m: Obj, key: Obj, val: Obj)
    requires WellFormed(m.data)
    requires Set(m, key, val).Ok?
    ensures var bs := m.data.buckets;
      var c := bs[HashModulus(key.hash, |bs|)].items;
      var h := FindIndex(c, key, 0);
      var r := Set(m, key, val).value;
      (h.At? ==> r.data.size == m.data.size &&
                 Items(r.data.buckets) + multiset{c[h.pos]} ==
                 Items(bs) + multiset{Item(c[h.pos].key, val)}) &&
      (h.Miss? ==> r.data.size == m.data.size + 1 &&
                   Items(r.data.buckets) == Items(bs) + multiset{Item(key, val)})
  {
    var bs := m.data.buckets;
    var i := HashModulus(key.hash, |bs|);
    var h := FindIndex(bs[i].items, key, 0);
    if h.At? {
      ReplacedItems(bs, i, h.pos, val);
    }
  }

  /** After a successful set, looking the key up finds the new value. */
  lemma SetThenGet(m: Obj, key: Obj, val: Obj)
    requires WellFormed(m.data)
    requires Set(m, key, val).Ok?
    ensures MapGet(Set(m, key, val).value, key) == Found(val)
  {
    var bs := m.data.buckets;
    var i := HashModulus(key.hash, |bs|);
    match FindIndex(bs[i].items, key, 0)
    case At(j) => UpdateThenGet(m, key, i, j, val);
    case Miss => InsertThenGet(m, key, val);
  }

  lemma UpdateThenGet(m: Obj, key: Obj, i: nat, j: nat, val: Obj)
    requires WellFormed(m.data) && key.hashable && i == HashModulus(key.hash, |m.data.buckets|)
    requires j < |m.data.buckets[i].items| && FindIndex(m.data.buckets[i].items, key, 0) == At(j)
    ensures MapGet(UpdateAt(m, i, j, val), key) == Found(val)
  {
    var r := UpdateAt(m, i, j, val);
    var c := r.data.buckets[i].items;
    FindPrefixSame(m.data.buckets[i].items, c, key, j);
    FindAgreesWithGet(r, key);
  }

  lemma InsertThenGet(m: Obj, key: Obj, val: Obj)
    requires WellFormed(m.data) && key.hashable && Insert(m, key, val).Ok?
    ensures MapGet(Insert(m, key, val).value, key) == Found(val)
  {
    var r := Insert(m, key, val).value;
    var c := r.data.buckets[HashModulus(key.hash, |r.data.buckets|)].items;
    assert c[0] == Item(key, val);
    EqIntReflexive(key);
    assert FindIndex(c, key, 0) == At(0);
    FindAgreesWithGet(r, key);
  }

  /** Two chains with the same keys up to and including position j are
      scanned alike up to j. */
  lemma FindPrefixSame(c: seq<Item>, d: seq<Item>, key: Obj, j: nat)
    requires j < |c| == |d|
    requires forall p :: 0 <= p <= j ==> c[p].key == d[p].key
    requires FindIndex(c, key, 0) == At(j)
    ensures FindIndex(d, key, 0) == At(j)
  {
    assert forall p :: 0 <= p < j ==> EqInt(d[p].key, key) == EqInt(c[p].key, key) == 0;
    FindFirstNonZero(d, key, 0, j);
  }

  /** The scan stops at the first non-zero comparison. */
  lemma FindFirstNonZero(c: seq<Item>, key: Obj, j: nat, q: nat)
    requires j <= q < |c| && EqInt(c[q].key, key) != 0
    requires forall s :: j <= s < q ==> EqInt(c[s].key, key) == 0
    ensures FindIndex(c, key, j) == if EqInt(c[q].key, key) == 1 then At(q) else ScanError
    decreases q - j
  {
    if j < q {
      FindFirstNonZero(c, key, j + 1, q);
    }
  }

  // ---------------------------------------------------------------------
  // get, get_and_delete

  /** The `get` method: the value, a KeyError, or the hashing error. */
  function GetMethod(m: Obj, key: Obj): (r: Result<Obj, Exception>)
    requires m.data.Map?
    ensures r.Ok? <==> MapGet(m, key).Found?
    ensures r.Ok? ==> r.value == MapGet(m, key).value
    ensures MapGet(m, key).Absent? <==> r == Err(KeyError)
    ensures !key.hashable ==> r == Err(HashError)
  {
    match MapGet(m, key)
    case Found(v) => Ok(v)
    case Absent => Err(KeyError)
    case Failed => Err(HashError)
  }

  /** The buckets with item j of bucket i unlinked. */
  function Removed(bs: seq<Chain>, i: nat, j: nat): seq<Chain>
    requires i < |bs| && j < |bs[i].items|
  {
    var c := bs[i].items;
    bs[i := Chain(c[..j] + c[j + 1..])]
  }

  /** Unlinking drops exactly that item. */
  lemma RemovedItems(bs: seq<Chain>, i: nat, j: nat)
    requires i < |bs| && j < |bs[i].items|
    ensures Items(Removed(bs, i, j)) + multiset{bs[i].items[j]} == Items(bs)
    ensures |Removed(bs, i, j)| == |bs| && Count(Removed(bs, i, j)) + 1 == Count(bs)
  {
    var c := bs[i].items;
    var c2 := c[..j] + c[j + 1..];
    FlattenUpdate(bs, i, c2);
    assert c == c[..j] + [c[j]] + c[j + 1..];
    assert multiset(c) == multiset(c2) + multiset{c[j]};
    Chains.MultisetCancel(Items(Removed(bs, i, j)) + multiset{c[j]}, Items(bs), multiset(c2));
  }

  /** Unlinking leaves the other keys where they were. */
  lemma RemovedPlaced(bs: seq<Chain>, i: nat, j: nat)
    requires i < |bs| && j < |bs[i].items|
    ensures Placed(bs) ==> Placed(Removed(bs, i, j))
  {
    var c := bs[i].items;
    var nbs := Removed(bs, i, j);
    if Placed(bs) {
      forall b, k | 0 <= b < |nbs| && 0 <= k < |nbs[b].items|
        ensures nbs[b].items[k].key.hashable && HashModulus(nbs[b].items[k].key.hash, |nbs|) == b
      {
        if b == i && k >= j {
          assert nbs[b].items[k] == c[k + 1];
        } else {
          assert nbs[b].items[k] == bs[b].items[k];
        }
      }
    }
  }

  /** mappingobject_getanddelete: unlink the first matching item of the
      key's chain and hand back its value. */
  function GetAndDelete(m: Obj, key: Obj): (r: (Lookup, Obj))
    requires WellFormed(m.data)
    ensures r.1.id == m.id && r.1.hashable == m.hashable && WellFormed(r.1.data)
    ensures r.0 == MapGet(m, key)
    ensures !r.0.Found? ==> r.1 == m
    ensures r.0.Found? ==> (r.1.data.size == m.data.size - 1 &&
      Items(r.1.data.buckets) + multiset{Item(FoundKey(m, key), r.0.value)} == Items(m.data.buckets))
  {
    if !key.hashable then (Failed, m)
    else
      var bs := m.data.buckets;
      var i := HashModulus(key.hash, |bs|);
      var c := bs[i].items;
      FindAgreesWithGet(m, key);
      match FindIndex(c, key, 0)
      case ScanError => (Failed, m)
      case Miss => (Absent, m)
      case At(j) =>
        RemovedItems(bs, i, j);
        RemovedPlaced(bs, i, j);
        (Found(c[j].value), m.(data := Map(Removed(bs, i, j), m.data.size - 1)))
  }

  /** The stored key that a successful lookup matched. */
  function FoundKey(m: Obj, key: Obj): Obj
    requires WellFormed(m.data) && MapGet(m, key).Found?
  {
    FindAgreesWithGet(m, key);
    var c := m.data.buckets[HashModulus(key.hash, |m.data.buckets|)].items;
    var h := FindIndex(c, key, 0);
    assert h.At?;
    c[h.pos].key
  }

  /** Deleting a key that was just set removes exactly what set added. */
  lemma SetThenDelete(m: Obj, key: Obj, val: Obj)
    requires WellFormed(m.data)
    requires Set(m, key, val).Ok?
    requires MapGet(m, key).Absent?
    ensures var r := Set(m, key, val).value;
      var d := GetAndDelete(r, key);
      d.0 == Found(val) && Items(d.1.data.buckets) == Items(m.data.buckets) &&
      d.1.data.size == m.data.size
  {
    FindAgreesWithGet(m, key);
    assert Set(m, key, val) == Insert(m, key, val);
    InsertThenDelete(m, key, val);
  }

  lemma InsertThenDelete(m: Obj, key: Obj, val: Obj)
    requires WellFormed(m.data) && key.hashable && Insert(m, key, val).Ok?
    ensures var r := Insert(m, key, val).value;
      var d := GetAndDelete(r, key);
      d.0 == Found(val) && Items(d.1.data.buckets) == Items(m.data.buckets) &&
      d.1.data.size == m.data.size
  {
    var r := Insert(m, key, val).value;
    InsertThenGet(m, key, val);
    var c := r.data.buckets[HashModulus(key.hash, |r.data.buckets|)].items;
    EqIntReflexive(key);
    assert FindIndex(c, key, 0) == At(0);
    assert FoundKey(r, key) == key;
    var d := GetAndDelete(r, key);
    assert Items(d.1.data.buckets) + multiset{Item(key, val)} == Items(m.data.buckets) + multiset{Item(key, val)};
    Chains.MultisetCancel(Items(d.1.data.buckets), Items(m.data.buckets), multiset{Item(key, val)});
  }

  // ---------------------------------------------------------------------
  // Iteration: mappingobject_iterbegin/iternext walk the buckets in order
  // and each chain from its head, exactly as the bucket iterator of Chains.

  /** The chains of a bucket array as plain item sequences. */
  function Lists(bs: seq<Chain>): (r: seq<seq<Item>>)
    ensures |r| == |bs| && forall b :: 0 <= b < |bs| ==> r[b] == bs[b].items
  {
    seq(|bs|, b requires 0 <= b < |bs| => bs[b].items)
  }

  lemma {:induction false} ListsConcat(bs: seq<Chain>)
    ensures Chains.Concat(Lists(bs)) == Flatten(bs)
  {
    if |bs| > 0 {
      assert Lists(bs)[1..] == Lists(bs[1..]);
      ListsConcat(bs[1..]);
    }
  }

  /** Driving the iterator from the start to its end produces every item
      of the mapping exactly once, in bucket order. */
  method IterateAll(m: Obj) returns (out: seq<Item>)
    requires m.data.Map?
    ensures out == ItemsOf(m)
  {
    ListsConcat(m.data.buckets);
    out := Chains.IterateAll(Lists(m.data.buckets));
  }

  /** For a well-formed mapping the iterator produces `size` items. */
  lemma IterationCountsSize(m: Obj)
    requires WellFormed(m.data)
    ensures |Flatten(m.data.buckets)| == m.data.size
  {
  }

  // ---------------------------------------------------------------------
  // setup

  /** Setting the items one after another, stopping at the first error. */
  function SetAll(m: Obj, items: seq<Item>): (r: Result<Obj, Exception>)
    requires WellFormed(m.data)
    ensures r.Ok? ==> WellFormed(r.value.data) && r.value.id == m.id && r.value.hashable == m.hashable
    ensures r.Ok? ==> forall k :: 0 <= k < |items| ==> items[k].key.hashable
    decreases |items|
  {
    if |items| == 0 then Ok(m)
    else
      var m1 :- Set(m, items[0].key, items[0].value);
      SetAll(m1, items[1..])
  }

  /** Setting a sequence of items is setting all but the last, then the last. */
  lemma {:induction false} SetAllSnoc(m: Obj, items: seq<Item>, last: Item)
    requires WellFormed(m.data)
    ensures SetAll(m, items).Ok? ==>
      SetAll(m, items + [last]) == Set(SetAll(m, items).value, last.key, last.value)
    ensures SetAll(m, items).Err? ==> SetAll(m, items + [last]) == SetAll(m, items)
    decreases |items|
  {
    if |items| == 0 {
      assert (items + [last])[1..] == [];
    } else {
      assert (items + [last])[1..] == items[1..] + [last];
      match Set(m, items[0].key, items[0].value)
      case Ok(m1) => SetAllSnoc(m1, items[1..], last);
      case Err(_) =>
    }
  }

  /** After setting a sequence of items, the last one set is the one found. */
  lemma LastSetWins(m: Obj, items: seq<Item>, last: Item)
    requires WellFormed(m.data) && SetAll(m, items + [last]).Ok?
    ensures MapGet(SetAll(m, items + [last]).value, last.key) == Found(last.value)
  {
    SetAllSnoc(m, items, last);
    var m1 := SetAll(m, items).value;
    SetThenGet(m1, last.key, last.value);
  }

  const NotAPair := Exception("TypeError", "expected a [key value] pair, got %D")
  const BadPairLength := Exception("ValueError", "expected a [key value] pair, got %D")

  /** Every pair is an Array of two elements. */
  predicate PairsFine(pairs: seq<Obj>)
  {
    forall i :: 0 <= i < |pairs| ==> pairs[i].data.Arr? && |pairs[i].data.elems| == 2
  }

  /** The [key value] pairs as items. */
  function PairItems(pairs: seq<Obj>): (r: seq<Item>)
    requires PairsFine(pairs)
    ensures |r| == |pairs|
    ensures forall i :: 0 <= i < |r| ==> r[i] == Item(pairs[i].data.elems[0], pairs[i].data.elems[1])
  {
    seq(|pairs|, i requires 0 <= i < |pairs| => Item(pairs[i].data.elems[0], pairs[i].data.elems[1]))
  }

  /** The pairs loop of setup: each element must be an Array (TypeError) of
      two elements (ValueError), and is set as soon as it is checked. */
  function SetPairs(m: Obj, pairs: seq<Obj>): (r: Result<Obj, Exception>)
    requires WellFormed(m.data)
    ensures r.Ok? ==> WellFormed(r.value.data) && r.value.id == m.id && r.value.hashable == m.hashable
    ensures r.Ok? ==> PairsFine(pairs)
    decreases |pairs|
  {
    if |pairs| == 0 then Ok(m)
    else
      var p := pairs[0];
      if !p.data.Arr? then Err(NotAPair)
      else if |p.data.elems| != 2 then Err(BadPairLength)
      else
        var m1 :- Set(m, p.data.elems[0], p.data.elems[1]);
        var r := SetPairs(m1, pairs[1..]);
        assert r.Ok? ==> PairsFine(pairs) by {
          if r.Ok? {
            forall i | 0 <= i < |pairs|
              ensures pairs[i].data.Arr? && |pairs[i].data.elems| == 2
            {
              if i > 0 {
                assert pairs[i] == pairs[1..][i - 1];
              }
            }
          }
        }
        r
  }

  /** Good pairs are set exactly as the items they hold; at the first bad
      pair, the pairs before it have been set and its error is reported. */
  lemma {:induction false} SetPairsSpec(m: Obj, pairs: seq<Obj>, bad: nat)
    requires WellFormed(m.data)
    requires bad <= |pairs| && PairsFine(pairs[..bad])
    requires bad < |pairs| ==> !(pairs[bad].data.Arr? && |pairs[bad].data.elems| == 2)
    ensures SetAll(m, PairItems(pairs[..bad])).Err? ==> SetPairs(m, pairs) == SetAll(m, PairItems(pairs[..bad]))
    ensures SetAll(m, PairItems(pairs[..bad])).Ok? && bad == |pairs| ==>
      SetPairs(m, pairs) == SetAll(m, PairItems(pairs[..bad]))
    ensures SetAll(m, PairItems(pairs[..bad])).Ok? && bad < |pairs| ==>
      SetPairs(m, pairs) == Err(if pairs[bad].data.Arr? then BadPairLength else NotAPair)
    decreases |pairs|
  {
    if |pairs| > 0 && bad > 0 {
      var p := pairs[0];
      PairItemsCons(pairs, bad);
      match Set(m, p.data.elems[0], p.data.elems[1])
      case Ok(m1) =>
        SetPairsSpec(m1, pairs[1..], bad - 1);
      case Err(_) =>
    } else if |pairs| > 0 {
      assert pairs[..bad] == [];
    }
  }

  lemma PairItemsCons(pairs: seq<Obj>, bad: nat)
    requires 0 < bad <= |pairs| && PairsFine(pairs[..bad])
    ensures pairs[0].data.Arr? && |pairs[0].data.elems| == 2
    ensures PairsFine(pairs[1..][..bad - 1])
    ensures var items := PairItems(pairs[..bad]);
      items[0] == Item(pairs[0].data.elems[0], pairs[0].data.elems[1]) &&
      PairItems(pairs[1..][..bad - 1]) == items[1..]
  {
    assert pairs[..bad][0] == pairs[0];
    assert pairs[1..][..bad - 1] == pairs[..bad][1..];
  }

  /** With every pair fine, the pairs loop sets exactly their items. */
  lemma SetPairsAllFine(m: Obj, pairs: seq<Obj>)
    requires WellFormed(m.data) && PairsFine(pairs)
    ensures SetPairs(m, pairs) == SetAll(m, PairItems(pairs))
  {
    assert pairs[..|pairs|] == pairs;
    SetPairsSpec(m, pairs, |pairs|);
  }

  /** The argument part of setup: nothing, or check_args for one Array and
      the pairs loop. */
  function SetupArgs(m: Obj, args: seq<Obj>): (r: Result<Obj, Exception>)
    requires WellFormed(m.data)
    ensures r.Ok? ==> WellFormed(r.value.data) && r.value.id == m.id
    ensures |args| == 0 ==> r == Ok(m)
    ensures |args| > 1 ==> r == Err(Check.ArgCountError(|args|, 1))
    ensures |args| == 1 && !args[0].data.Arr? ==> r == Err(Check.TypeMismatch)
    ensures |args| == 1 && args[0].data.Arr? ==> r == SetPairs(m, args[0].data.elems)
  {
    if |args| == 0 then Ok(m)
    else
      var check := Check.CheckArgs(args, ["Array"]);
      if check.Err? then Err(check.error)
      else SetPairs(m, args[0].data.elems)
  }

  /** setup: the arguments, then every option, in the options Mapping's
      iteration order. */
  function Setup(m: Obj, args: seq<Obj>, opts: seq<Item>): (r: Result<Obj, Exception>)
    requires WellFormed(m.data)
    ensures r.Ok? ==> WellFormed(r.value.data) && r.value.id == m.id
    ensures SetupArgs(m, args).Err? ==> r == Err(SetupArgs(m, args).error)
    ensures SetupArgs(m, args).Ok? ==> r == SetAll(SetupArgs(m, args).value, opts)
  {
    var m1 :- SetupArgs(m, args);
    SetAll(m1, opts)
  }

  /** new Mapping [[k v] ...] with fine pairs and no options holds what
      setting the pairs' items in order gives. */
  lemma SetupFromPairs(m: Obj, pairs: Obj)
    requires WellFormed(m.data) && pairs.data.Arr? && PairsFine(pairs.data.elems)
    ensures Setup(m, [pairs], []) == SetAll(m, PairItems(pairs.data.elems))
  {
    SetPairsAllFine(m, pairs.data.elems);
    var r := SetAll(m, PairItems(pairs.data.elems));
    if r.Ok? {
      assert SetAll(r.value, []) == r;
    }
  }

  // ---------------------------------------------------------------------
  // eq

  /** The Mapping eq operator function: none unless both operands are
      Mappings; otherwise the sizes, then each key of the first looked up
      in the second and the values compared; a failed lookup or comparison
      is an error. */
  function Eq(a: Obj, b: Obj): (r: Result<EqAnswer, Exception>)
    ensures r.Ok? && r.value.NotMine? <==> !(a.data.Map? && b.data.Map?)
    ensures a.data.Map? && b.data.Map? ==>
      (r == Ok(Answer(true)) <==> a.data.size == b.data.size && KeysMatchFrom(a, b, 0))
  {
    if !(a.data.Map? && b.data.Map?) then Ok(NotMine)
    else if a.data.size != b.data.size then Ok(Answer(false))
    else
      MapEqSpec(a, b, 0);
      var res := MapEq(a, b, 0);
      if res == -1 then Err(HashError) else Ok(Answer(res == 1))
  }

  /** For two distinct Mapping objects the operator function and the
      built-in equality give the same verdict. */
  lemma EqAgreesWithEqInt(a: Obj, b: Obj)
    requires a.data.Map? && b.data.Map? && a.id != b.id
    ensures Eq(a, b).Err? <==> EqInt(a, b) == -1
    ensures Eq(a, b).Ok? ==> Eq(a, b).value == Answer(EqInt(a, b) == 1)
  {
  }
}
