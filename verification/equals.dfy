/**
 * The older equality function of src/equals.c.  It has the same shape as
 * operator_eqint but recurses into itself for array elements and mapping
 * values; keys are still looked up with the Mapping lookup.
 */
module Equals {
  import opened Objects
  import opened Operator

  function Equals(a: Obj, b: Obj): (r: int)
    decreases Size(a) + Size(b), 2, 0
    ensures -1 <= r <= 1
    ensures a.id == b.id ==> r == 1
  {
    if a.id == b.id then 1
    else match (a.data, b.data)
      case (Str(x), Str(y)) => if |x| != |y| then 0 else if x == y then 1 else 0
      case (Int(x), Int(y)) => if x == y then 1 else 0
      case (Arr(x), Arr(y)) => if |x| != |y| then 0 else ElemsFrom(a, b, 0)
      case (Map(_, sa), Map(_, sb)) => if sa != sb then 0 else ItemsFrom(a, b, 0)
      case _ => 0
  }

  function ElemsFrom(a: Obj, b: Obj, i: nat): (r: int)
    requires a.data.Arr? && b.data.Arr? && |a.data.elems| == |b.data.elems|
    requires i <= |a.data.elems|
    decreases Size(a) + Size(b), 1, |a.data.elems| - i
    ensures -1 <= r <= 1
  {
    if i == |a.data.elems| then 1
    else
      ArrElemSmaller(a, i);
      ArrElemSmaller(b, i);
      var res := Equals(a.data.elems[i], b.data.elems[i]);
      if res != 1 then res else ElemsFrom(a, b, i + 1)
  }

  function ItemsFrom(a: Obj, b: Obj, k: nat): (r: int)
    requires a.data.Map? && b.data.Map? && k <= |ItemsOf(a)|
    decreases Size(a) + Size(b), 1, |ItemsOf(a)| - k
    ensures -1 <= r <= 1
  {
    if k == |ItemsOf(a)| then 1
    else
      FlatItemSmaller(a, k);
      var it := ItemsOf(a)[k];
      var got := MapGet(b, it.key);
      if got.Failed? then -1
      else if got.Absent? then 0
      else
        var res := Equals(it.value, got.value);
        if res != 1 then res else ItemsFrom(a, b, k + 1)
  }

  /** The two equality functions give the same answer on every pair of
      objects, errors included. */
  lemma {:induction false} EqualsIsEqInt(a: Obj, b: Obj)
    ensures Equals(a, b) == EqInt(a, b)
    decreases Size(a) + Size(b), 2, 0
  {
    if a.id != b.id {
      match (a.data, b.data)
      case (Arr(x), Arr(y)) =>
        if |x| == |y| {
          ElemsAgree(a, b, 0);
        }
      case (Map(_, sa), Map(_, sb)) =>
        if sa == sb {
          ItemsAgree(a, b, 0);
        }
      case _ =>
    }
  }

  lemma {:induction false} ElemsAgree(a: Obj, b: Obj, i: nat)
    requires a.data.Arr? && b.data.Arr? && |a.data.elems| == |b.data.elems|
    requires i <= |a.data.elems|
    ensures ElemsFrom(a, b, i) == ArrEq(a, b, i)
    decreases Size(a) + Size(b), 1, |a.data.elems| - i
  {
    if i < |a.data.elems| {
      ArrElemSmaller(a, i);
      ArrElemSmaller(b, i);
      EqualsIsEqInt(a.data.elems[i], b.data.elems[i]);
      ElemsAgree(a, b, i + 1);
    }
  }

  lemma {:induction false} ItemsAgree(a: Obj, b: Obj, k: nat)
    requires a.data.Map? && b.data.Map? && k <= |ItemsOf(a)|
    ensures ItemsFrom(a, b, k) == MapEq(a, b, k)
    decreases Size(a) + Size(b), 1, |ItemsOf(a)| - k
  {
    if k < |ItemsOf(a)| {
      FlatItemSmaller(a, k);
      var it := ItemsOf(a)[k];
      var got := MapGet(b, it.key);
      if got.Found? {
        EqualsIsEqInt(it.value, got.value);
      }
      ItemsAgree(a, b, k + 1);
    }
  }
}
