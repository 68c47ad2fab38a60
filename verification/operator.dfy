/**
 * Structural equality of runtime objects (src/operator.c) and the
 * operator-array dispatch used by `+`, `-`, `*` and `/`.
 *
 * Equality answers 1 (equal), 0 (not equal) or -1 (an error was raised; the
 * only error source in the model is an unhashable key met while looking a
 * key up in a Mapping).
 */
module Operator {
  import opened Objects
  import opened Wrappers

  /** The three answers of a Mapping lookup: -1, 0 and 1 in the source. */
  datatype Lookup = Failed | Absent | Found(value: Obj)

  const HashError := Exception("TypeError", "%U objects are not hashable, so %D can't be used as a Mapping key")

  /** The items of a mapping in iteration order. */
  function ItemsOf(m: Obj): seq<Item>
    requires m.data.Map?
  {
    Flatten(m.data.buckets)
  }

  lemma FlatItemSmaller(m: Obj, k: int)
    requires m.data.Map? && 0 <= k < |ItemsOf(m)|
    ensures Size(ItemsOf(m)[k].key) < Size(m)
    ensures Size(ItemsOf(m)[k].value) < Size(m)
  {
    var it := ItemsOf(m)[k];
    InFlatten(m.data.buckets, it);
    var b :| 0 <= b < |m.data.buckets| && it in m.data.buckets[b].items;
    var j :| 0 <= j < |m.data.buckets[b].items| && m.data.buckets[b].items[j] == it;
    MapItemSmaller(m, b, j);
  }

  // ---------------------------------------------------------------------
  // operator_eqint and the mapping lookup it relies on.

  function EqInt(a: Obj, b: Obj): (r: int)
    decreases Size(a) + Size(b), 2, 0
    ensures -1 <= r <= 1
  {
    if a.id == b.id then 1
    else match (a.data, b.data)
      case (Str(x), Str(y)) => if |x| != |y| then 0 else if x == y then 1 else 0
      case (Int(x), Int(y)) => if x == y then 1 else 0
      case (Arr(x), Arr(y)) => if |x| != |y| then 0 else ArrEq(a, b, 0)
      case (Map(_, sa), Map(_, sb)) => if sa != sb then 0 else MapEq(a, b, 0)
      case _ => 0
  }

  /** The element loop for two arrays of equal length, from index i on. */
  function ArrEq(a: Obj, b: Obj, i: nat): (r: int)
    requires a.data.Arr? && b.data.Arr? && |a.data.elems| == |b.data.elems|
    requires i <= |a.data.elems|
    decreases Size(a) + Size(b), 1, |a.data.elems| - i
    ensures -1 <= r <= 1
  {
    if i == |a.data.elems| then 1
    else
      ArrElemSmaller(a, i);
      ArrElemSmaller(b, i);
      var res := EqInt(a.data.elems[i], b.data.elems[i]);
      if res != 1 then res else ArrEq(a, b, i + 1)
  }

  /** The loop over the items of a (iteration order) from position k on. */
  function MapEq(a: Obj, b: Obj, k: nat): (r: int)
    requires a.data.Map? && b.data.Map? && k <= |ItemsOf(a)|
    decreases Size(a) + Size(b), 1, |ItemsOf(a)| - k
    ensures -1 <= r <= 1
  {
    if k == |ItemsOf(a)| then 1
    else
      FlatItemSmaller(a, k);
      var it := ItemsOf(a)[k];
      var got := MapGet(b, it.key);
      if got.Failed? then -1
      else if got.Absent? then 0
      else
        var res := EqInt(it.value, got.value);
        if res != 1 then res else MapEq(a, b, k + 1)
  }

  /** mappingobject_get: the hashable check, then the chain of the key's
      bucket, comparing each stored key with the wanted one. */
  function MapGet(m: Obj, key: Obj): (r: Lookup)
    requires m.data.Map?
    decreases Size(m) + Size(key), 1, 0
    ensures r.Found? ==> Size(r.value) < Size(m)
  {
    if !key.hashable then Failed
    else if |m.data.buckets| == 0 then Absent
    else ChainFind(m, key, HashModulus(key.hash, |m.data.buckets|), 0)
  }

  function ChainFind(m: Obj, key: Obj, bkt: nat, j: nat): (r: Lookup)
    requires m.data.Map? && bkt < |m.data.buckets| && j <= |m.data.buckets[bkt].items|
    decreases Size(m) + Size(key), 0, |m.data.buckets[bkt].items| - j
    ensures r.Found? ==> Size(r.value) < Size(m)
  {
    var chain := m.data.buckets[bkt].items;
    if j == |chain| then Absent
    else
      MapItemSmaller(m, bkt, j);
      var res := EqInt(chain[j].key, key);
      if res == -1 then Failed
      else if res == 1 then Found(chain[j].value)
      else ChainFind(m, key, bkt, j + 1)
  }

  // ---------------------------------------------------------------------
  // What the loops compute, stated without the loops.

  /** c[l] is the first item from j on whose key does not compare as
      different from key, and it compares as v. */
  predicate FirstAnswer(c: seq<Item>, key: Obj, j: nat, l: int, v: int)
  {
    j <= l < |c| && EqInt(c[l].key, key) == v && forall p :: j <= p < l ==> EqInt(c[p].key, key) == 0
  }

  /** The chain scan finds the first stored key that compares equal, unless a
      comparison before it fails. */
  lemma {:induction false} ChainFindSpec(m: Obj, key: Obj, bkt: nat, j: nat)
    requires m.data.Map? && bkt < |m.data.buckets| && j <= |m.data.buckets[bkt].items|
    ensures var c := m.data.buckets[bkt].items;
      var r := ChainFind(m, key, bkt, j);
      (r.Absent? <==> forall l :: j <= l < |c| ==> EqInt(c[l].key, key) == 0) &&
      (r.Found? <==> exists l :: FirstAnswer(c, key, j, l, 1)) &&
      (forall l :: FirstAnswer(c, key, j, l, 1) ==> r == Found(c[l].value)) &&
      (r.Failed? <==> exists l :: FirstAnswer(c, key, j, l, -1))
    decreases |m.data.buckets[bkt].items| - j
  {
    var c := m.data.buckets[bkt].items;
    if j < |c| {
      ChainFindSpec(m, key, bkt, j + 1);
      var res := EqInt(c[j].key, key);
      var r := ChainFind(m, key, bkt, j);
      if res == 0 {
        assert r == ChainFind(m, key, bkt, j + 1);
        hide ChainFind, EqInt;
        forall l, v | FirstAnswer(c, key, j, l, v) && v != 0 ensures FirstAnswer(c, key, j + 1, l, v) {
          FirstAnswerStep(c, key, j, l, v);
        }
        forall l, v | FirstAnswer(c, key, j + 1, l, v) ensures FirstAnswer(c, key, j, l, v) {
          FirstAnswerStep(c, key, j, l, v);
        }
        SameFirst(c, key, j, j + 1, 1);
        SameFirst(c, key, j, j + 1, -1);
      } else {
        assert r == (if res == 1 then Found(c[j].value) else Failed);
        hide ChainFind, EqInt;
        assert FirstAnswer(c, key, j, j, res);
        forall l, v | FirstAnswer(c, key, j, l, v) ensures l == j {
          if l > j {
            FirstAnswerStep(c, key, j, l, v);
          }
        }
      }
    }
  }

  lemma SameFirst(c: seq<Item>, key: Obj, j: nat, k: nat, v: int)
    requires forall l :: FirstAnswer(c, key, j, l, v) <==> FirstAnswer(c, key, k, l, v)
    ensures (exists l :: FirstAnswer(c, key, j, l, v)) <==> (exists l :: FirstAnswer(c, key, k, l, v))
  {
    hide FirstAnswer;
    if exists l :: FirstAnswer(c, key, j, l, v) {
      var l :| FirstAnswer(c, key, j, l, v);
      assert FirstAnswer(c, key, k, l, v);
    }
    if exists l :: FirstAnswer(c, key, k, l, v) {
      var l :| FirstAnswer(c, key, k, l, v);
      assert FirstAnswer(c, key, j, l, v);
    }
  }

  /** An answer after position j is the first from j exactly when c[j]'s key
      compares as different. */
  lemma FirstAnswerStep(c: seq<Item>, key: Obj, j: nat, l: int, v: int)
    requires j < |c| && j < l
    ensures FirstAnswer(c, key, j, l, v) <==> EqInt(c[j].key, key) == 0 && FirstAnswer(c, key, j + 1, l, v)
  {
    hide EqInt;
  }

  /** The array loop yields 1 iff every pair of elements is equal, and
      otherwise the answer of the first pair that is not. */
  lemma {:induction false} ArrEqSpec(a: Obj, b: Obj, i: nat)
    requires a.data.Arr? && b.data.Arr? && |a.data.elems| == |b.data.elems|
    requires i <= |a.data.elems|
    ensures var x, y := a.data.elems, b.data.elems;
      var r := ArrEq(a, b, i);
      (r == 1 <==> forall k :: i <= k < |x| ==> EqInt(x[k], y[k]) == 1) &&
      (r != 1 ==> exists k :: i <= k < |x| && r == EqInt(x[k], y[k]) &&
                    forall l :: i <= l < k ==> EqInt(x[l], y[l]) == 1)
    decreases |a.data.elems| - i
  {
    var x, y := a.data.elems, b.data.elems;
    if i < |x| {
      ArrEqSpec(a, b, i + 1);
      var r := ArrEq(a, b, i);
      if EqInt(x[i], y[i]) == 1 {
        assert r == ArrEq(a, b, i + 1);
        if r != 1 {
          var k :| i + 1 <= k < |x| && r == EqInt(x[k], y[k]) &&
                   forall l :: i + 1 <= l < k ==> EqInt(x[l], y[l]) == 1;
          assert forall l :: i <= l < k ==> EqInt(x[l], y[l]) == 1;
        }
      }
    }
  }

  /** Each key of a, looked up in b, is found with a value equal to a's. */
  predicate KeysMatchFrom(a: Obj, b: Obj, k: nat)
    requires a.data.Map? && b.data.Map?
  {
    forall l :: k <= l < |ItemsOf(a)| ==>
      MapGet(b, ItemsOf(a)[l].key).Found? &&
      EqInt(ItemsOf(a)[l].value, MapGet(b, ItemsOf(a)[l].key).value) == 1
  }

  /** Looking up a's l-th key in b, or comparing the values, raises an error. */
  predicate LookupFails(a: Obj, b: Obj, l: int)
    requires a.data.Map? && b.data.Map? && 0 <= l < |ItemsOf(a)|
  {
    var got := MapGet(b, ItemsOf(a)[l].key);
    got.Failed? || (got.Found? && EqInt(ItemsOf(a)[l].value, got.value) == -1)
  }

  lemma {:induction false} MapEqSpec(a: Obj, b: Obj, k: nat)
    requires a.data.Map? && b.data.Map? && k <= |ItemsOf(a)|
    ensures MapEq(a, b, k) == 1 <==> KeysMatchFrom(a, b, k)
    ensures MapEq(a, b, k) == -1 ==>
      exists l :: k <= l < |ItemsOf(a)| && LookupFails(a, b, l)
    decreases |ItemsOf(a)| - k
  {
    if k < |ItemsOf(a)| {
      MapEqSpec(a, b, k + 1);
      var it := ItemsOf(a)[k];
      var got := MapGet(b, it.key);
      if got.Found? && EqInt(it.value, got.value) == 1 {
        assert MapEq(a, b, k) == MapEq(a, b, k + 1);
        if KeysMatchFrom(a, b, k + 1) {
          assert KeysMatchFrom(a, b, k);
        }
      } else {
        assert !KeysMatchFrom(a, b, k);
        if MapEq(a, b, k) == -1 {
          assert LookupFails(a, b, k);
        }
      }
    }
  }

  /** The whole of operator_eqint on each pair of kinds. */
  lemma EqIntCases(a: Obj, b: Obj)
    ensures a.id == b.id ==> EqInt(a, b) == 1
    ensures a.id != b.id && a.data.Str? && b.data.Str? ==>
      (EqInt(a, b) == 1 <==> a.data.chars == b.data.chars) && EqInt(a, b) != -1
    ensures a.id != b.id && a.data.Int? && b.data.Int? ==>
      (EqInt(a, b) == 1 <==> a.data.value == b.data.value) && EqInt(a, b) != -1
    ensures a.id != b.id && a.data.Arr? && b.data.Arr? ==>
      (EqInt(a, b) == 1 <==>
        (|a.data.elems| == |b.data.elems| &&
         forall k :: 0 <= k < |a.data.elems| ==> EqInt(a.data.elems[k], b.data.elems[k]) == 1))
    ensures a.id != b.id && a.data.Map? && b.data.Map? ==>
      (EqInt(a, b) == 1 <==> a.data.size == b.data.size && KeysMatchFrom(a, b, 0))
    ensures a.id != b.id && a.data.Map? && b.data.Map? && EqInt(a, b) == -1 ==>
      exists l :: 0 <= l < |ItemsOf(a)| && LookupFails(a, b, l)
    ensures (a.id != b.id && !(a.data.Str? && b.data.Str?) && !(a.data.Int? && b.data.Int?) &&
             !(a.data.Arr? && b.data.Arr?) && !(a.data.Map? && b.data.Map?)) ==> EqInt(a, b) == 0
  {
    if a.id != b.id && a.data.Arr? && b.data.Arr? && |a.data.elems| == |b.data.elems| {
      ArrEqSpec(a, b, 0);
    }
    if a.id != b.id && a.data.Map? && b.data.Map? && a.data.size == b.data.size {
      MapEqSpec(a, b, 0);
    }
  }

  /** An error can only come from a Mapping lookup: comparing values that
      hold no Mapping never fails. */
  predicate MapFree(o: Obj)
    decreases Size(o)
  {
    match o.data
    case Map(_, _) => false
    case Arr(es) => forall i :: 0 <= i < |es| ==> (ArrElemSmaller(o, i); MapFree(es[i]))
    case _ => true
  }

  lemma {:induction false} MapFreeNeverFails(a: Obj, b: Obj)
    requires MapFree(a) && MapFree(b)
    ensures EqInt(a, b) != -1
    decreases Size(a) + Size(b)
  {
    if a.id != b.id && a.data.Arr? && b.data.Arr? && |a.data.elems| == |b.data.elems| {
      ArrEqSpec(a, b, 0);
      if EqInt(a, b) == -1 {
        var k :| 0 <= k < |a.data.elems| && -1 == EqInt(a.data.elems[k], b.data.elems[k]);
        ArrElemSmaller(a, k);
        ArrElemSmaller(b, k);
        MapFreeNeverFails(a.data.elems[k], b.data.elems[k]);
      }
    }
  }

  // ---------------------------------------------------------------------
  // operator_neint, operator_eq and operator_ne

  function NeInt(a: Obj, b: Obj): (r: int)
    ensures r == -1 <==> EqInt(a, b) == -1
    ensures r == 1 <==> EqInt(a, b) == 0
    ensures r == 0 <==> EqInt(a, b) == 1
  {
    var res := EqInt(a, b);
    if res == -1 then -1 else 1 - res
  }

  /** operator_eq: None stands for the NULL that reports the raised error. */
  function Eq(a: Obj, b: Obj): (r: Option<bool>)
    ensures r.None? <==> EqInt(a, b) == -1
    ensures r.Some? ==> (r.value <==> EqInt(a, b) == 1)
  {
    var res := EqInt(a, b);
    if res == -1 then None else Some(res == 1)
  }

  function Ne(a: Obj, b: Obj): (r: Option<bool>)
    ensures r.None? <==> EqInt(a, b) == -1
    ensures r.Some? ==> (r.value <==> EqInt(a, b) == 0)
  {
    var res := NeInt(a, b);
    if res == -1 then None else Some(res == 1)
  }

  /** `==` and `!=` fail together and otherwise give opposite answers. */
  lemma EqNeComplement(a: Obj, b: Obj)
    ensures Eq(a, b).None? <==> Ne(a, b).None?
    ensures Eq(a, b).Some? ==> Ne(a, b) == Some(!Eq(a, b).value)
  {
  }

  /** Every object equals itself. */
  lemma EqIntReflexive(a: Obj)
    ensures EqInt(a, a) == 1 && Eq(a, a) == Some(true) && Ne(a, a) == Some(false)
  {
  }

  // ---------------------------------------------------------------------
  // use_oparray

  /** What calling one operator function with (a, b) gives. */
  datatype CallOutcome = Returned(o: Obj) | Raised(e: Exception)

  /** The functions of an operator array are tried in order; `isFunction`
      stands for the class check and `call` for calling a function object
      with the two operands.  The first result other than the `null` object
      wins; `opError` is the TypeError naming both classes and the operator. */
  function UseOparray(oparray: seq<Obj>, isFunction: Obj -> bool, call: Obj -> CallOutcome,
                      nullObj: Obj, opError: Exception): (r: Result<Obj, Exception>)
    ensures r.Ok? ==> r.value.id != nullObj.id && exists f :: f in oparray && call(f) == Returned(r.value)
    decreases |oparray|
  {
    if |oparray| == 0 then Err(opError)
    else
      var f := oparray[0];
      if !isFunction(f) then Err(Exception("TypeError", "expected an instance of %U, got %D"))
      else match call(f)
        case Raised(e) => Err(e)
        case Returned(o) =>
          if o.id == nullObj.id then
            var rest := UseOparray(oparray[1..], isFunction, call, nullObj, opError);
            assert rest.Ok? ==> exists g :: g in oparray && call(g) == Returned(rest.value) by {
              if rest.Ok? {
                var g :| g in oparray[1..] && call(g) == Returned(rest.value);
                assert g in oparray;
              }
            }
            rest
          else Ok(o)
  }

  /** The first i functions of the array are functions that returned null. */
  predicate NullsBefore(oparray: seq<Obj>, i: int, isFunction: Obj -> bool, call: Obj -> CallOutcome, nullObj: Obj)
    requires 0 <= i <= |oparray|
  {
    forall j :: 0 <= j < i ==>
      (isFunction(oparray[j]) && call(oparray[j]).Returned? && call(oparray[j]).o.id == nullObj.id)
  }

  lemma {:induction false} UseOparraySpec(oparray: seq<Obj>, isFunction: Obj -> bool, call: Obj -> CallOutcome,
                                         nullObj: Obj, opError: Exception)
    ensures NullsBefore(oparray, |oparray|, isFunction, call, nullObj) ==>
      UseOparray(oparray, isFunction, call, nullObj, opError) == Err(opError)
    ensures forall i :: (0 <= i < |oparray| && NullsBefore(oparray, i, isFunction, call, nullObj) &&
                         isFunction(oparray[i]) && call(oparray[i]).Returned? &&
                         call(oparray[i]).o.id != nullObj.id) ==>
      UseOparray(oparray, isFunction, call, nullObj, opError) == Ok(call(oparray[i]).o)
    ensures forall i :: (0 <= i < |oparray| && NullsBefore(oparray, i, isFunction, call, nullObj) &&
                         isFunction(oparray[i]) && call(oparray[i]).Raised?) ==>
      UseOparray(oparray, isFunction, call, nullObj, opError) == Err(call(oparray[i]).e)
    decreases |oparray|
  {
    if |oparray| > 0 {
      var tail := oparray[1..];
      UseOparraySpec(tail, isFunction, call, nullObj, opError);
      forall i | 1 <= i <= |oparray| && NullsBefore(oparray, i, isFunction, call, nullObj)
        ensures NullsBefore(tail, i - 1, isFunction, call, nullObj)
      {
        assert forall j :: 0 <= j < i - 1 ==> tail[j] == oparray[j + 1];
      }
    }
  }
}
