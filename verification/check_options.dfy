/**
 * Option checking (src/check.c): check_opts builds a Mapping from option
 * names to classes and check_opts_with_mapping walks the passed options in
 * their Mapping's iteration order.
 */
module CheckOptions {
  import opened Wrappers
  import opened Objects
  import opened Operator
  import MappingObject
  import Check

  const UnexpectedOption := Exception("ArgError", "unexpected option %D")

  /** check_type against a class object; a non-class never matches (the
      source leaves that case undefined). */
  function CheckAgainst(klass: Obj, o: Obj): (r: Result<(), Exception>)
    ensures r.Ok? <==> klass.data.Cls? && IsInstance(o, klass.data.name)
    ensures r.Err? ==> r.error == Check.TypeMismatch
  {
    if klass.data.Cls? then Check.CheckType(klass.data.name, o) else Err(Check.TypeMismatch)
  }

  /** An option is declared in `types` with a class its value belongs to. */
  predicate Accepted(types: Obj, opt: Item)
    requires types.data.Map?
  {
    var got := MapGet(types, opt.key);
    got.Found? && got.value.data.Cls? && IsInstance(opt.value, got.value.data.name)
  }

  /** check_opts_with_mapping, from the k-th option on. */
  function CheckWithMapping(opts: seq<Item>, types: Obj, k: nat): (r: Result<(), Exception>)
    requires types.data.Map? && k <= |opts|
    ensures r.Ok? <==> forall i :: k <= i < |opts| ==> Accepted(types, opts[i])
    ensures r.Err? ==> r.error in {UnexpectedOption, Check.TypeMismatch, HashError}
    decreases |opts| - k
  {
    if k == |opts| then Ok(())
    else
      match MapGet(types, opts[k].key)
      case Found(klass) =>
        var _ :- CheckAgainst(klass, opts[k].value);
        CheckWithMapping(opts, types, k + 1)
      case Absent => Err(UnexpectedOption)
      case Failed => Err(HashError)
  }

  /** The first option that is not accepted decides the error: an
      undeclared name is an ArgError, a value of the wrong class a TypeError. */
  lemma {:induction false} FirstRejected(opts: seq<Item>, types: Obj, k: nat, bad: nat)
    requires types.data.Map? && k <= bad < |opts|
    requires forall i :: k <= i < bad ==> Accepted(types, opts[i])
    requires !Accepted(types, opts[bad])
    ensures MapGet(types, opts[bad].key).Absent? ==> CheckWithMapping(opts, types, k) == Err(UnexpectedOption)
    ensures MapGet(types, opts[bad].key).Found? ==> CheckWithMapping(opts, types, k) == Err(Check.TypeMismatch)
    decreases bad - k
  {
    if k < bad {
      assert Accepted(types, opts[k]);
      FirstRejected(opts, types, k + 1, bad);
    }
  }

  /** check_opts: with no specifications any option is unexpected (the
      first one in iteration order is reported); otherwise the specification
      pairs are set into a fresh Mapping and every option is checked against
      it. */
  function CheckOpts(opts: Obj, specs: seq<Item>, id: nat, hash: int): (r: Result<(), Exception>)
    requires WellFormed(opts.data)
    ensures |specs| == 0 ==> (r.Ok? <==> opts.data.size == 0)
    ensures |specs| == 0 && r.Err? ==> r.error == UnexpectedOption
    ensures |specs| > 0 && MappingObject.SetAll(MappingObject.NewEmpty(id, hash), specs).Ok? ==>
      (r.Ok? <==> forall i :: 0 <= i < |ItemsOf(opts)| ==>
                    Accepted(MappingObject.SetAll(MappingObject.NewEmpty(id, hash), specs).value, ItemsOf(opts)[i]))
  {
    if |specs| == 0 then
      if opts.data.size == 0 then Ok(()) else Err(UnexpectedOption)
    else
      var types :- MappingObject.SetAll(MappingObject.NewEmpty(id, hash), specs);
      CheckWithMapping(ItemsOf(opts), types, 0)
  }

  /** An option named by the last specification for that name, whose value
      is an instance of the class given there, is accepted. */
  lemma DeclaredOptionAccepted(id: nat, hash: int, specs: seq<Item>, spec: Item, value: Obj)
    requires MappingObject.SetAll(MappingObject.NewEmpty(id, hash), specs + [spec]).Ok?
    requires spec.value.data.Cls? && IsInstance(value, spec.value.data.name)
    ensures Accepted(MappingObject.SetAll(MappingObject.NewEmpty(id, hash), specs + [spec]).value,
                     Item(spec.key, value))
  {
    MappingObject.LastSetWins(MappingObject.NewEmpty(id, hash), specs, spec);
  }
}
