/**
 * What the built-in functions of the C runtime see of the interpreter.
 * Objects are references; the part of the heap these functions create or
 * change themselves is explicit (the next free reference, scope objects
 * with their parent and local variables, array objects, and the attrdata
 * slot every object has), and everything else is the abstract rest `A`.
 * Class tests, attribute reads, running a block and calling a function
 * are collaborators the interpreter supplies (`Env`).
 *
 * String objects used as names (mapping keys, attribute names) compare by
 * their code points, so a name is its code-point sequence here.
 */
module Interp {
  import opened Wrappers
  import Objects
  import Check
  import CheckOptions

  type Ref = nat

  type Name = seq<int>

  /** Why a C function returned NULL or false: an error object that code it
      called has already set, one it throws itself with
      errorobject_throwfmt (class name and message format), or a failed
      assert or NULL dereference, which ends the process. */
  datatype Failure = Raised(err: Ref) | Thrown(e: Objects.Exception) | Aborted

  /** The builtins struct of the interpreter: classes and singletons. */
  datatype Known = Known(
    objectClass: Ref, classClass: Ref, functionClass: Ref, blockClass: Ref, boolClass: Ref,
    arrayClass: Ref, stringClass: Ref, integerClass: Ref, errorClass: Ref, optionClass: Ref, nullClass: Ref,
    yes: Ref, no: Ref, nullObject: Ref, none: Ref, noReturn: Ref)

  /** A scope object: its parent_scope and its local_vars mapping. */
  datatype ScopeData = ScopeData(parent: Ref, localVars: map<Name, Ref>)

  datatype World<A> = World(
    next: Ref,
    scopes: map<Ref, ScopeData>,
    arrays: map<Ref, seq<Ref>>,
    attrdata: map<Ref, Ref>,
    rest: A)

  /** Every reference the explicit part of the heap knows is taken. */
  predicate Fresh<A>(w: World<A>)
  {
    (forall r :: r in w.scopes ==> r < w.next) &&
    (forall r :: r in w.arrays ==> r < w.next) &&
    (forall r :: r in w.attrdata ==> r < w.next && w.attrdata[r] < w.next)
  }

  /** The collaborators.  `attr` is attribute_get, `runBlock` is
      blockobject_run, `runWithReturn` runs a block and gives the value its
      last statement leaves, `call` is functionobject_vcall with an
      argument array and an option mapping, `newInstance` is the class's
      newinstance (or a plain new object), and `order` is the order in which
      a Mapping's iterator visits a set of keys. */
  datatype Env<!A> = Env(
    known: Known,
    isInstance: (World<A>, Ref, Ref) -> bool,
    isSubclass: (World<A>, Ref, Ref) -> bool,
    chars: (World<A>, Ref) -> seq<int>,
    intValue: (World<A>, Ref) -> int,
    attr: (World<A>, Ref, Name) -> Result<Ref, Failure>,
    runBlock: (World<A>, Ref, Ref) -> (World<A>, Result<(), Ref>),
    runWithReturn: (World<A>, Ref, Ref) -> (World<A>, Result<Ref, Ref>),
    call: (World<A>, Ref, seq<Ref>, map<Name, Ref>) -> (World<A>, Result<Ref, Ref>),
    newInstance: (World<A>, Ref, seq<Ref>, map<Name, Ref>) -> (World<A>, Result<Ref, Ref>),
    order: set<Name> -> seq<Name>)

  /** The code points of an ASCII C string literal. */
  function Text(s: string): (r: Name)
    ensures |r| == |s| && forall i :: 0 <= i < |s| ==> r[i] == s[i] as int
  {
    seq(|s|, i requires 0 <= i < |s| => s[i] as int)
  }

  /** ks lists every element of s exactly once. */
  predicate Enumerates(ks: seq<Name>, s: set<Name>)
  {
    (forall k :: k in s ==> k in ks) &&
    (forall i :: 0 <= i < |ks| ==> ks[i] in s) &&
    (forall i, j :: 0 <= i < j < |ks| ==> ks[i] != ks[j])
  }

  // ---------------------------------------------------------------------
  // scopes and arrays

  /** scopeobject_newsub: a fresh scope with no local variables whose
      parent is the given scope. */
  function NewSub<A>(w: World<A>, parent: Ref): (r: (World<A>, Ref))
    ensures r.1 == w.next && r.0.next == w.next + 1
    ensures r.0.scopes == w.scopes[r.1 := ScopeData(parent, map[])]
    ensures r.0.arrays == w.arrays && r.0.attrdata == w.attrdata && r.0.rest == w.rest
    ensures Fresh(w) ==> Fresh(r.0) && r.1 !in w.scopes
  {
    (w.(next := w.next + 1, scopes := w.scopes[w.next := ScopeData(parent, map[])]), w.next)
  }

  /** mappingobject_set on a scope's local_vars. */
  function SetLocal<A>(w: World<A>, scope: Ref, name: Name, v: Ref): (r: World<A>)
    requires scope in w.scopes
    ensures r.scopes.Keys == w.scopes.Keys && r.scopes[scope].parent == w.scopes[scope].parent
    ensures r.scopes[scope].localVars == w.scopes[scope].localVars[name := v]
    ensures forall s :: s in w.scopes && s != scope ==> r.scopes[s] == w.scopes[s]
    ensures r.next == w.next && r.arrays == w.arrays && r.attrdata == w.attrdata && r.rest == w.rest
  {
    var d := w.scopes[scope];
    w.(scopes := w.scopes[scope := d.(localVars := d.localVars[name := v])])
  }

  /** A new Array object holding the given elements. */
  function NewArray<A>(w: World<A>, elems: seq<Ref>): (r: (World<A>, Ref))
    ensures r.1 == w.next && r.0.next == w.next + 1 && r.0.arrays == w.arrays[r.1 := elems]
    ensures r.0.scopes == w.scopes && r.0.attrdata == w.attrdata && r.0.rest == w.rest
    ensures Fresh(w) ==> Fresh(r.0) && r.1 !in w.arrays
  {
    (w.(next := w.next + 1, arrays := w.arrays[w.next := elems]), w.next)
  }

  /** The elements of an Array object; every Array object is in the
      explicit heap, so the empty fallback is never used for one. */
  function Elems<A>(w: World<A>, arr: Ref): seq<Ref>
  {
    if arr in w.arrays then w.arrays[arr] else []
  }

  const DefinitionScope: Name := Text("definition_scope")

  /** subscope_of_defscope: a fresh subscope of the block's
      definition_scope attribute. */
  function SubscopeOfDefscope<A>(env: Env<A>, w: World<A>, block: Ref): (r: Result<(World<A>, Ref), Failure>)
    ensures r.Ok? <==> env.attr(w, block, DefinitionScope).Ok?
    ensures r.Err? ==> r.error == env.attr(w, block, DefinitionScope).error
    ensures r.Ok? ==> r.value == NewSub(w, env.attr(w, block, DefinitionScope).value)
  {
    var defscope :- env.attr(w, block, DefinitionScope);
    Ok(NewSub(w, defscope))
  }

  // ---------------------------------------------------------------------
  // check.c over references

  predicate IsInstance<A>(env: Env<A>, w: World<A>, obj: Ref, klass: Ref)
  {
    env.isInstance(w, obj, klass)
  }

  /** check_args: the count first, then each argument against its class
      in order. */
  function CheckArgs<A>(env: Env<A>, w: World<A>, args: seq<Ref>, classes: seq<Ref>): (r: Result<(), Failure>)
    ensures r.Ok? <==> |args| == |classes| && forall i :: 0 <= i < |args| ==> IsInstance(env, w, args[i], classes[i])
    ensures |args| != |classes| ==> r == Err(Thrown(Check.ArgCountError(|args|, |classes|)))
    ensures |args| == |classes| && r.Err? ==> r == Err(Thrown(Check.TypeMismatch))
  {
    if |args| != |classes| then Err(Thrown(Check.ArgCountError(|args|, |classes|)))
    else CheckEach(env, w, args, classes, 0)
  }

  function CheckEach<A>(env: Env<A>, w: World<A>, args: seq<Ref>, classes: seq<Ref>, i: nat): (r: Result<(), Failure>)
    requires |args| == |classes| && i <= |args|
    ensures r.Ok? <==> forall k :: i <= k < |args| ==> IsInstance(env, w, args[k], classes[k])
    ensures r.Err? ==> r == Err(Thrown(Check.TypeMismatch))
    decreases |args| - i
  {
    if i == |args| then Ok(())
    else if !IsInstance(env, w, args[i], classes[i]) then Err(Thrown(Check.TypeMismatch))
    else CheckEach(env, w, args, classes, i + 1)
  }

  /** check_type. */
  function CheckType<A>(env: Env<A>, w: World<A>, klass: Ref, obj: Ref): (r: Result<(), Failure>)
    ensures r.Ok? <==> IsInstance(env, w, obj, klass)
    ensures r.Err? ==> r.error == Thrown(Check.TypeMismatch)
  {
    if IsInstance(env, w, obj, klass) then Ok(()) else Err(Thrown(Check.TypeMismatch))
  }

  /** check_no_opts: check_opts with no option names throws for the first
      option there is. */
  function CheckNoOpts(opts: map<Name, Ref>): (r: Result<(), Failure>)
    ensures r.Ok? <==> opts == map[]
    ensures r.Err? ==> r.error == Thrown(CheckOptions.UnexpectedOption)
  {
    if |opts| == 0 then Ok(()) else Err(Thrown(CheckOptions.UnexpectedOption))
  }

  /** check_opts_with_mapping: each passed option, in the Mapping's
      iteration order, must be declared and an instance of its class. */
  function CheckOpts<A>(env: Env<A>, w: World<A>, opts: map<Name, Ref>, specs: map<Name, Ref>): (r: Result<(), Failure>)
    ensures Enumerates(env.order(opts.Keys), opts.Keys) ==>
      (r.Ok? <==> forall k :: k in opts ==> k in specs && IsInstance(env, w, opts[k], specs[k]))
    ensures r.Err? ==> r.error in {Thrown(CheckOptions.UnexpectedOption), Thrown(Check.TypeMismatch)}
  {
    CheckOptsFrom(env, w, opts, specs, env.order(opts.Keys), 0)
  }

  function CheckOptsFrom<A>(env: Env<A>, w: World<A>, opts: map<Name, Ref>, specs: map<Name, Ref>, ks: seq<Name>, i: nat): (r: Result<(), Failure>)
    requires i <= |ks|
    ensures (forall k :: k in ks[i..] ==> k in opts) ==>
      (r.Ok? <==> forall k :: k in ks[i..] ==> k in specs && IsInstance(env, w, opts[k], specs[k]))
    ensures r.Err? ==> r.error in {Thrown(CheckOptions.UnexpectedOption), Thrown(Check.TypeMismatch)}
    decreases |ks| - i
  {
    if i == |ks| then Ok(())
    else
      var k := ks[i];
      assert ks[i..] == [k] + ks[i + 1..];
      if k !in opts then CheckOptsFrom(env, w, opts, specs, ks, i + 1)
      else if k !in specs then Err(Thrown(CheckOptions.UnexpectedOption))
      else if !IsInstance(env, w, opts[k], specs[k]) then Err(Thrown(Check.TypeMismatch))
      else CheckOptsFrom(env, w, opts, specs, ks, i + 1)
  }

  /** check_no_opts is check_opts with nothing declared. */
  lemma NoSpecsMeansNoOpts<A>(env: Env<A>, w: World<A>, opts: map<Name, Ref>)
    requires Enumerates(env.order(opts.Keys), opts.Keys)
    ensures CheckOpts(env, w, opts, map[]).Ok? <==> CheckNoOpts(opts).Ok?
  {
    if opts != map[] {
      var k :| k in opts;
      var none: map<Name, Ref> := map[];
      assert k !in none;
    }
  }
}
