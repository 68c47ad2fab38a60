/**
 * The object values that the equality operators, the Mapping, String and
 * ByteArray classes work on.  An object has an identity (`id`, standing for
 * its address), a hashable flag and a stored hash (both fields of every
 * object in the runtime), and class-specific data; a class object carries
 * the name of the class it stands for.  A Mapping object keeps
 * its bucket array inline so that equality can look keys up in it.
 */
module Objects {
  import opened Wrappers
  import Integer

  const U64: int := Integer.U64

  datatype Obj = Obj(id: nat, hashable: bool, hash: int, data: Data)

  datatype Data =
    | Str(chars: seq<int>)
    | Int(value: int)
    | Arr(elems: seq<Obj>)
    | Map(buckets: seq<Chain>, size: nat)
    | Bytes(bytes: seq<int>)
    | Cls(name: string)
    | Other(className: string)

  /** One bucket: its items from the head of the linked list to the tail. */
  datatype Chain = Chain(items: seq<Item>)

  datatype Item = Item(key: Obj, value: Obj)

  /** The runtime's exception: the error class name and the message template. */
  datatype Exception = Exception(cls: string, msg: string)

  /** What a class's `eq` operator function answers: `NotMine` is the null
      (or `none`) it returns when an operand is not of its class, so that the
      next function of the operator array gets a turn. */
  datatype EqAnswer = NotMine | Answer(equal: bool)

  /** classobject_isinstanceof for the built-in classes the model knows:
      every object is an Object, and the class-specific data tells the
      class.  An `Other` object is an instance of its own class only (a
      class of the same name as a built-in one is a different class), and
      inheritance between user-defined classes is not modelled. */
  predicate IsInstance(o: Obj, cls: string)
  {
    cls == "Object" ||
    match o.data
    case Str(_) => cls == "String"
    case Int(_) => cls == "Integer"
    case Arr(_) => cls == "Array"
    case Map(_, _) => cls == "Mapping"
    case Bytes(_) => cls == "ByteArray"
    case Cls(_) => cls == "Class"
    case Other(name) => cls == name && name !in BuiltinDataClasses
  }

  /** The classes whose instances carry their own kind of data. */
  const BuiltinDataClasses: set<string> := {"String", "Integer", "Array", "Mapping", "ByteArray", "Class"}

  /** Casting a signed long hash to unsigned long and reducing it, as mapping.c does. */
  function HashModulus(hash: int, nbuckets: nat): (r: nat)
    requires nbuckets > 0
    ensures r < nbuckets
    ensures 0 <= hash < U64 ==> r == hash % nbuckets
    ensures -U64 <= hash < 0 ==> r == (hash + U64) % nbuckets
  {
    (hash % U64) % nbuckets
  }

  /** The range a String or ByteArray slice covers, written independently
      of the branches of the source: start clamped up to 0, end clamped down
      to the length, and an empty range when they cross. */
  function ClampedRange(len: nat, start: int, end: int): (r: (nat, nat))
    ensures r.0 <= r.1 <= len
  {
    var lo := if start < 0 then 0 else start;
    var hi := if end > len then len else end;
    if lo < hi then (lo, hi) else (0, 0)
  }

  // ---------------------------------------------------------------------
  // Integer objects

  /** integerobject_toint64: the int64_t an Integer object holds. */
  function ToInt64(o: Obj): int
    requires o.data.Int?
  {
    o.data.value
  }

  /** An Integer object made from the text of a literal, as the parser's
      integerobject_newfromustr does; integers get the default (address)
      hash, an arbitrary value here. */
  function IntegerFromUstr(id: nat, hash: int, u: seq<int>): (r: Option<Obj>)
    ensures r.Some? <==> Integer.NewFromUstr(u).Some?
    ensures r.Some? ==> r.value.id == id && r.value.hashable && r.value.data.Int?
  {
    var v :- Integer.NewFromUstr(u);
    Some(Obj(id, true, hash, Int(v)))
  }

  /** Reading an Integer object back gives the signed decimal value of the
      literal it was made from. */
  lemma ToInt64OfLiteral(id: nat, hash: int, u: seq<int>)
    requires IntegerFromUstr(id, hash, u).Some?
    ensures var negative := u[0] == '-' as int;
      ToInt64(IntegerFromUstr(id, hash, u).value) ==
      Integer.SignedValue(negative, Integer.Digits(if negative then u[1..] else u).value)
    ensures Integer.Int64Min <= ToInt64(IntegerFromUstr(id, hash, u).value) <= Integer.Int64Max
  {
  }

  // ---------------------------------------------------------------------
  // Size measure used for termination of the structural equality.

  function Size(o: Obj): (r: nat)
    ensures r >= 1
  {
    1 + match o.data
        case Arr(es) => SeqSize(es)
        case Map(bs, _) => BucketsSize(bs)
        case _ => 0
  }

  function SeqSize(es: seq<Obj>): nat
  {
    if |es| == 0 then 0 else Size(es[0]) + SeqSize(es[1..])
  }

  function BucketsSize(bs: seq<Chain>): nat
  {
    if |bs| == 0 then 0 else ChainSize(bs[0].items) + BucketsSize(bs[1..])
  }

  function ChainSize(c: seq<Item>): nat
  {
    if |c| == 0 then 0 else ItemSize(c[0]) + ChainSize(c[1..])
  }

  function ItemSize(it: Item): nat
  {
    Size(it.key) + Size(it.value)
  }

  lemma {:induction false} ElemSmaller(es: seq<Obj>, i: int)
    requires 0 <= i < |es|
    ensures Size(es[i]) <= SeqSize(es)
  {
    if i > 0 {
      ElemSmaller(es[1..], i - 1);
    }
  }

  lemma {:induction false} ChainItemSmaller(c: seq<Item>, j: int)
    requires 0 <= j < |c|
    ensures ItemSize(c[j]) <= ChainSize(c)
  {
    if j > 0 {
      ChainItemSmaller(c[1..], j - 1);
    }
  }

  lemma {:induction false} BucketSmaller(bs: seq<Chain>, b: int)
    requires 0 <= b < |bs|
    ensures ChainSize(bs[b].items) <= BucketsSize(bs)
  {
    if b > 0 {
      BucketSmaller(bs[1..], b - 1);
    }
  }

  /** Every key and value stored in a mapping is smaller than the mapping. */
  lemma MapItemSmaller(m: Obj, b: int, j: int)
    requires m.data.Map? && 0 <= b < |m.data.buckets| && 0 <= j < |m.data.buckets[b].items|
    ensures Size(m.data.buckets[b].items[j].key) < Size(m)
    ensures Size(m.data.buckets[b].items[j].value) < Size(m)
  {
    BucketSmaller(m.data.buckets, b);
    ChainItemSmaller(m.data.buckets[b].items, j);
  }

  lemma ArrElemSmaller(a: Obj, i: int)
    requires a.data.Arr? && 0 <= i < |a.data.elems|
    ensures Size(a.data.elems[i]) < Size(a)
  {
    ElemSmaller(a.data.elems, i);
  }

  // ---------------------------------------------------------------------
  // The items of a mapping in iteration order: bucket by bucket, each chain
  // from its head.

  function Flatten(bs: seq<Chain>): (r: seq<Item>)
    ensures |bs| == 0 ==> r == []
  {
    if |bs| == 0 then [] else bs[0].items + Flatten(bs[1..])
  }

  function Count(bs: seq<Chain>): (r: nat)
  {
    |Flatten(bs)|
  }

  lemma {:induction false} FlattenAppend(a: seq<Chain>, b: seq<Chain>)
    ensures Flatten(a + b) == Flatten(a) + Flatten(b)
  {
    if |a| == 0 {
      assert a + b == b;
    } else {
      assert (a + b)[1..] == a[1..] + b;
      FlattenAppend(a[1..], b);
    }
  }

  /** An item is in the flattened sequence iff some bucket holds it. */
  lemma {:induction false} InFlatten(bs: seq<Chain>, it: Item)
    ensures it in Flatten(bs) <==> exists b :: 0 <= b < |bs| && it in bs[b].items
  {
    if |bs| > 0 {
      InFlatten(bs[1..], it);
      if it in Flatten(bs[1..]) {
        var b :| 0 <= b < |bs[1..]| && it in bs[1..][b].items;
        assert it in bs[b + 1].items;
      }
      if exists b :: 0 <= b < |bs| && it in bs[b].items {
        var b :| 0 <= b < |bs| && it in bs[b].items;
        if b > 0 {
          assert it in bs[1..][b - 1].items;
        }
      }
    }
  }

  /** A well-formed mapping: a non-empty bucket array whose count fits an
      unsigned long, a size field equal to the number of items, hashable
      keys, and every key in the bucket its hash selects. */
  predicate WellFormed(m: Data)
  {
    m.Map? && 0 < |m.buckets| < U64 && m.size == Count(m.buckets) &&
    forall b, j :: 0 <= b < |m.buckets| && 0 <= j < |m.buckets[b].items| ==>
      m.buckets[b].items[j].key.hashable &&
      HashModulus(m.buckets[b].items[j].key.hash, |m.buckets|) == b
  }

  function EmptyBuckets(n: nat): (r: seq<Chain>)
    ensures |r| == n && Flatten(r) == []
    ensures forall b :: 0 <= b < n ==> r[b].items == []
  {
    if n == 0 then [] else
      var rest := EmptyBuckets(n - 1);
      assert ([Chain([])] + rest)[1..] == rest;
      [Chain([])] + rest
  }
}
