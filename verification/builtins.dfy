/**
 * Built-in functions of src/builtins.c: `if`, `for`, `catch`, `chr`,
 * `same_object`, `new` and `get_attrdata`.  Each takes an argument array
 * and an option mapping; a block runs in a fresh subscope of its
 * definition scope unless said otherwise.
 */
module Builtins {
  import opened Wrappers
  import opened Interp
  import Objects
  import Check
  import CheckOptions

  const Else: Name := Text("else")

  const Setup: Name := Text("setup")

  /** subscope_of_defscope, then blockobject_run in that scope. */
  function RunInSubscope<A>(env: Env<A>, w: World<A>, block: Ref): (r: (World<A>, Result<(), Failure>))
    ensures SubscopeOfDefscope(env, w, block).Err? ==> r == (w, Err(SubscopeOfDefscope(env, w, block).error))
    ensures SubscopeOfDefscope(env, w, block).Ok? ==>
      var (w1, scope) := SubscopeOfDefscope(env, w, block).value;
      r.0 == env.runBlock(w1, block, scope).0 &&
      (r.1.Ok? <==> env.runBlock(w1, block, scope).1.Ok?) &&
      (r.1.Err? ==> r.1.error == Raised(env.runBlock(w1, block, scope).1.error))
  {
    match SubscopeOfDefscope(env, w, block)
    case Err(f) => (w, Err(f))
    case Ok((w1, scope)) =>
      var (w2, ran) := env.runBlock(w1, block, scope);
      (w2, ran.MapError(e => Raised(e)))
  }

  // ---------------------------------------------------------------------
  // if

  /** if_: a Bool and a Block, and optionally `else:` a Block.  Only the
      yes object counts as true. */
  function If<A>(env: Env<A>, w: World<A>, args: seq<Ref>, opts: map<Name, Ref>): (r: (World<A>, Result<(), Failure>))
    ensures CheckArgs(env, w, args, [env.known.boolClass, env.known.blockClass]).Err? ==>
      r == (w, Err(CheckArgs(env, w, args, [env.known.boolClass, env.known.blockClass]).error))
    ensures CheckArgs(env, w, args, [env.known.boolClass, env.known.blockClass]).Ok? &&
            CheckOpts(env, w, opts, map[Else := env.known.blockClass]).Ok? ==>
      (args[0] == env.known.yes ==> r == RunInSubscope(env, w, args[1])) &&
      (args[0] != env.known.yes && Else in opts ==> r == RunInSubscope(env, w, opts[Else])) &&
      (args[0] != env.known.yes && Else !in opts ==> r == (w, Ok(())))
  {
    match CheckArgs(env, w, args, [env.known.boolClass, env.known.blockClass])
    case Err(f) => (w, Err(f))
    case Ok(_) =>
      match CheckOpts(env, w, opts, map[Else := env.known.blockClass])
      case Err(f) => (w, Err(f))
      case Ok(_) =>
        if args[0] == env.known.yes then RunInSubscope(env, w, args[1])
        else if Else in opts then RunInSubscope(env, w, opts[Else])
        else (w, Ok(()))
  }

  /** Whether `if` accepts its options: `else` alone, holding a Block. */
  lemma IfOptions<A>(env: Env<A>, w: World<A>, opts: map<Name, Ref>)
    requires Enumerates(env.order(opts.Keys), opts.Keys)
    ensures CheckOpts(env, w, opts, map[Else := env.known.blockClass]).Ok? <==>
      opts.Keys <= {Else} && (Else in opts ==> IsInstance(env, w, opts[Else], env.known.blockClass))
  {
  }

  // ---------------------------------------------------------------------
  // for

  const ConditionNotBool := Objects.Exception("TypeError", "the condition of a for loop must return true or false, but it returned %D")

  /** The loop of for_, for at most `fuel` evaluations of the condition;
      None when the loop has not ended by then.  All four blocks share the
      one scope. */
  function Loop<A>(env: Env<A>, w: World<A>, cond: Ref, incr: Ref, body: Ref, scope: Ref, fuel: nat): (r: Option<(World<A>, Result<(), Failure>)>)
    ensures fuel == 0 ==> r.None?
    ensures fuel > 0 ==>
      var (w1, k) := env.runWithReturn(w, cond, scope);
      (k.Err? ==> r == Some((w1, Err(Raised(k.error))))) &&
      (k.Ok? && k.value != env.known.yes && k.value != env.known.no ==> r == Some((w1, Err(Thrown(ConditionNotBool))))) &&
      (k.Ok? && k.value == env.known.no && env.known.yes != env.known.no ==> r == Some((w1, Ok(()))))
    decreases fuel
  {
    if fuel == 0 then None
    else
      var (w1, k) := env.runWithReturn(w, cond, scope);
      if k.Err? then Some((w1, Err(Raised(k.error))))
      else if k.value != env.known.yes && k.value != env.known.no then Some((w1, Err(Thrown(ConditionNotBool))))
      else if k.value != env.known.yes then Some((w1, Ok(())))
      else
        var (w2, ranBody) := env.runBlock(w1, body, scope);
        if ranBody.Err? then Some((w2, Err(Raised(ranBody.error))))
        else
          var (w3, ranIncr) := env.runBlock(w2, incr, scope);
          if ranIncr.Err? then Some((w3, Err(Raised(ranIncr.error))))
          else Loop(env, w3, cond, incr, body, scope, fuel - 1)
  }

  /** More fuel does not change a loop that has ended. */
  lemma {:induction false} LoopFuel<A>(env: Env<A>, w: World<A>, cond: Ref, incr: Ref, body: Ref, scope: Ref, fuel: nat, more: nat)
    requires Loop(env, w, cond, incr, body, scope, fuel).Some? && fuel <= more
    ensures Loop(env, w, cond, incr, body, scope, more) == Loop(env, w, cond, incr, body, scope, fuel)
    decreases fuel
  {
    var (w1, k) := env.runWithReturn(w, cond, scope);
    if k.Ok? && k.value == env.known.yes {
      var (w2, ranBody) := env.runBlock(w1, body, scope);
      if ranBody.Ok? {
        var (w3, ranIncr) := env.runBlock(w2, incr, scope);
        if ranIncr.Ok? {
          LoopFuel(env, w3, cond, incr, body, scope, fuel - 1, more - 1);
        }
      }
    }
  }

  /** for_: four Blocks (init, cond, incr, body) and no options.  The
      shared scope is a subscope of the body's definition scope; init runs
      once, then the loop. */
  function For<A>(env: Env<A>, w: World<A>, args: seq<Ref>, opts: map<Name, Ref>, fuel: nat): (r: Option<(World<A>, Result<(), Failure>)>)
    ensures var k := env.known.blockClass;
      CheckArgs(env, w, args, [k, k, k, k]).Err? ==> r == Some((w, Err(CheckArgs(env, w, args, [k, k, k, k]).error)))
    ensures var k := env.known.blockClass;
      CheckArgs(env, w, args, [k, k, k, k]).Ok? && opts != map[] ==> r == Some((w, Err(Thrown(CheckOptions.UnexpectedOption))))
    ensures var k := env.known.blockClass;
      CheckArgs(env, w, args, [k, k, k, k]).Ok? && opts == map[] && SubscopeOfDefscope(env, w, args[3]).Ok? ==>
      var (w1, scope) := SubscopeOfDefscope(env, w, args[3]).value;
      var (w2, ranInit) := env.runBlock(w1, args[0], scope);
      (ranInit.Err? ==> r == Some((w2, Err(Raised(ranInit.error))))) &&
      (ranInit.Ok? ==> r == Loop(env, w2, args[1], args[2], args[3], scope, fuel))
  {
    var k := env.known.blockClass;
    match CheckArgs(env, w, args, [k, k, k, k])
    case Err(f) => Some((w, Err(f)))
    case Ok(_) =>
      match CheckNoOpts(opts)
      case Err(f) => Some((w, Err(f)))
      case Ok(_) =>
        match SubscopeOfDefscope(env, w, args[3])
        case Err(f) => Some((w, Err(f)))
        case Ok((w1, scope)) =>
          var (w2, ranInit) := env.runBlock(w1, args[0], scope);
          if ranInit.Err? then Some((w2, Err(Raised(ranInit.error))))
          else Loop(env, w2, args[1], args[2], args[3], scope, fuel)
  }

  // ---------------------------------------------------------------------
  // catch

  /** What to catch: an error class and, optionally, the name to bind the
      caught error to. */
  datatype ErrSpec = ErrSpec(errclass: Ref, varname: Option<Name>)

  const NotAPair := Objects.Exception("ValueError", "expected a pair like [errorclass varname], got %D")

  const NotAnErrSpec := Objects.Exception("TypeError", "expected a subclass of Error or an [errorclass varname] array, got %D")

  const CannotCatch := Objects.Exception("TypeError", "cannot catch %U, it doesn't inherit from Error")

  /** A Class, or an Array of exactly a Class and a String. */
  function ParseErrSpec<A>(env: Env<A>, w: World<A>, errspec: Ref): (r: Result<ErrSpec, Failure>)
    ensures IsInstance(env, w, errspec, env.known.classClass) ==> r == Ok(ErrSpec(errspec, None))
    ensures r.Ok? && r.value.varname.Some? ==>
      |Elems(w, errspec)| == 2 && r.value.errclass == Elems(w, errspec)[0] &&
      IsInstance(env, w, Elems(w, errspec)[0], env.known.classClass) &&
      IsInstance(env, w, Elems(w, errspec)[1], env.known.stringClass) &&
      r.value.varname == Some(env.chars(w, Elems(w, errspec)[1]))
    ensures (!IsInstance(env, w, errspec, env.known.classClass) && IsInstance(env, w, errspec, env.known.arrayClass) &&
             |Elems(w, errspec)| != 2) ==> r == Err(Thrown(NotAPair))
    ensures !IsInstance(env, w, errspec, env.known.classClass) && !IsInstance(env, w, errspec, env.known.arrayClass) ==>
      r == Err(Thrown(NotAnErrSpec))
  {
    if IsInstance(env, w, errspec, env.known.classClass) then Ok(ErrSpec(errspec, None))
    else if IsInstance(env, w, errspec, env.known.arrayClass) then
      var pair := Elems(w, errspec);
      if |pair| != 2 then Err(Thrown(NotAPair))
      else
        var _ :- CheckType(env, w, env.known.classClass, pair[0]);
        var _ :- CheckType(env, w, env.known.stringClass, pair[1]);
        Ok(ErrSpec(pair[0], Some(env.chars(w, pair[1]))))
    else Err(Thrown(NotAnErrSpec))
  }

  /** The handler's scope: a fresh subscope of the caught block's
      definition scope, with the error bound to the name if there is one. */
  function HandlerScope<A>(env: Env<A>, w: World<A>, caught: Ref, varname: Option<Name>, err: Ref): (r: Result<(World<A>, Ref), Failure>)
    ensures r.Ok? <==> env.attr(w, caught, DefinitionScope).Ok?
    ensures r.Ok? ==>
      var (w1, scope) := r.value;
      scope == w.next && scope in w1.scopes &&
      w1.scopes[scope] == ScopeData(env.attr(w, caught, DefinitionScope).value,
                                    if varname.Some? then map[varname.value := err] else map[])
  {
    var (w1, scope) :- SubscopeOfDefscope(env, w, caught);
    if varname.Some? then Ok((SetLocal(w1, scope, varname.value, err), scope)) else Ok((w1, scope))
  }

  /** The trying block has run and failed with err. */
  function Handle<A>(env: Env<A>, w: World<A>, spec: ErrSpec, caught: Ref, err: Ref): (r: (World<A>, Result<(), Failure>))
    ensures !IsInstance(env, w, err, spec.errclass) ==> r == (w, Err(Raised(err)))
    ensures IsInstance(env, w, err, spec.errclass) && HandlerScope(env, w, caught, spec.varname, err).Ok? ==>
      var (w1, scope) := HandlerScope(env, w, caught, spec.varname, err).value;
      r.0 == env.runBlock(w1, caught, scope).0 &&
      (r.1.Ok? <==> env.runBlock(w1, caught, scope).1.Ok?)
  {
    if !IsInstance(env, w, err, spec.errclass) then (w, Err(Raised(err)))
    else
      match HandlerScope(env, w, caught, spec.varname, err)
      case Err(f) => (w, Err(f))
      case Ok((w1, scope)) =>
        var (w2, ran) := env.runBlock(w1, caught, scope);
        (w2, ran.MapError(e => Raised(e)))
  }

  /** catch: a Block, an error spec and a Block, no options.  A passing
      trying block ends it; an error of another class goes on unchanged;
      a matching one is cleared and the caught block runs instead.  The
      source does not check the trying block's scope, and running a block
      in no scope ends the process. */
  function Catch<A>(env: Env<A>, w: World<A>, args: seq<Ref>, opts: map<Name, Ref>): (r: (World<A>, Result<(), Failure>))
    ensures r.1.Ok? ==> (|args| == 3 && opts == map[] && ParseErrSpec(env, w, args[1]).Ok? &&
                         env.isSubclass(w, ParseErrSpec(env, w, args[1]).value.errclass, env.known.errorClass))
    ensures (CheckArgs(env, w, args, [env.known.blockClass, env.known.objectClass, env.known.blockClass]).Ok? && opts == map[] &&
             ParseErrSpec(env, w, args[1]).Ok? && !env.isSubclass(w, ParseErrSpec(env, w, args[1]).value.errclass, env.known.errorClass)) ==>
      r == (w, Err(Thrown(CannotCatch)))
    ensures (CheckArgs(env, w, args, [env.known.blockClass, env.known.objectClass, env.known.blockClass]).Ok? && opts == map[] &&
             ParseErrSpec(env, w, args[1]).Ok? && env.isSubclass(w, ParseErrSpec(env, w, args[1]).value.errclass, env.known.errorClass) &&
             SubscopeOfDefscope(env, w, args[0]).Ok?) ==>
      var (w1, scope) := SubscopeOfDefscope(env, w, args[0]).value;
      var (w2, ran) := env.runBlock(w1, args[0], scope);
      (ran.Ok? ==> r == (w2, Ok(()))) &&
      (ran.Err? ==> r == Handle(env, w2, ParseErrSpec(env, w, args[1]).value, args[2], ran.error))
  {
    match CheckArgs(env, w, args, [env.known.blockClass, env.known.objectClass, env.known.blockClass])
    case Err(f) => (w, Err(f))
    case Ok(_) =>
      match CheckNoOpts(opts)
      case Err(f) => (w, Err(f))
      case Ok(_) =>
        match ParseErrSpec(env, w, args[1])
        case Err(f) => (w, Err(f))
        case Ok(spec) =>
          if !env.isSubclass(w, spec.errclass, env.known.errorClass) then (w, Err(Thrown(CannotCatch)))
          else
            match SubscopeOfDefscope(env, w, args[0])
            case Err(_) => (w, Err(Aborted))
            case Ok((w1, scope)) =>
              var (w2, ran) := env.runBlock(w1, args[0], scope);
              if ran.Ok? then (w2, Ok(()))
              else Handle(env, w2, spec, args[2], ran.error)
  }

  // ---------------------------------------------------------------------
  // chr, same_object, new, get_attrdata

  const MaxCodePoint: int := 0x10FFFF

  const ChrRange := Objects.Exception("ValueError", "chr argument must be between 0 and %L")

  /** chr: an Integer from 0 to 0x10FFFF, surrogates included, gives the
      one-char string holding that code point. */
  function Chr<A>(env: Env<A>, w: World<A>, args: seq<Ref>, opts: map<Name, Ref>): (r: Result<seq<int>, Failure>)
    ensures r.Ok? <==> (CheckArgs(env, w, args, [env.known.integerClass]).Ok? && opts == map[] &&
                        0 <= env.intValue(w, args[0]) <= MaxCodePoint)
    ensures r.Ok? ==> |r.value| == 1 && r.value[0] == env.intValue(w, args[0])
    ensures (CheckArgs(env, w, args, [env.known.integerClass]).Ok? && opts == map[] &&
             !(0 <= env.intValue(w, args[0]) <= MaxCodePoint)) ==> r == Err(Thrown(ChrRange))
  {
    var _ :- CheckArgs(env, w, args, [env.known.integerClass]);
    var _ :- CheckNoOpts(opts);
    var val := env.intValue(w, args[0]);
    if val < 0 || val > MaxCodePoint then Err(Thrown(ChrRange)) else Ok([val])
  }

  /** same_object: whether the two arguments are the same object. */
  function SameObject<A>(env: Env<A>, w: World<A>, args: seq<Ref>, opts: map<Name, Ref>): (r: Result<Ref, Failure>)
    ensures r.Ok? <==> CheckArgs(env, w, args, [env.known.objectClass, env.known.objectClass]).Ok? && opts == map[]
    ensures r.Ok? ==> r.value == if args[0] == args[1] then env.known.yes else env.known.no
  {
    var _ :- CheckArgs(env, w, args, [env.known.objectClass, env.known.objectClass]);
    var _ :- CheckNoOpts(opts);
    Ok(if args[0] == args[1] then env.known.yes else env.known.no)
  }

  /** same_object is reflexive and symmetric. */
  lemma SameObjectSymmetric<A>(env: Env<A>, w: World<A>, a: Ref, b: Ref)
    requires IsInstance(env, w, a, env.known.objectClass) && IsInstance(env, w, b, env.known.objectClass)
    ensures SameObject(env, w, [a, b], map[]) == SameObject(env, w, [b, a], map[])
    ensures SameObject(env, w, [a, a], map[]) == Ok(env.known.yes)
  {
  }

  const NewNeedsClass := Objects.Exception("ArgError", "new needs at least 1 argument, the class")

  /** new: the first argument is the class; the class's newinstance (or a
      plain object) makes the object, and its `setup` method, which must
      be a Function, gets the other arguments and all the options. */
  function New<A>(env: Env<A>, w: World<A>, args: seq<Ref>, opts: map<Name, Ref>): (r: (World<A>, Result<Ref, Failure>))
    ensures |args| == 0 ==> r == (w, Err(Thrown(NewNeedsClass)))
    ensures |args| > 0 && !IsInstance(env, w, args[0], env.known.classClass) ==> r == (w, Err(Thrown(Check.TypeMismatch)))
    ensures r.1.Ok? ==>
      var (w1, made) := env.newInstance(w, args[0], args, opts);
      made == Ok(r.1.value) &&
      env.attr(w1, r.1.value, Setup).Ok? &&
      IsInstance(env, w1, env.attr(w1, r.1.value, Setup).value, env.known.functionClass) &&
      env.call(w1, env.attr(w1, r.1.value, Setup).value, args[1..], opts).1.Ok? &&
      r.0 == env.call(w1, env.attr(w1, r.1.value, Setup).value, args[1..], opts).0
    ensures |args| > 0 && IsInstance(env, w, args[0], env.known.classClass) ==>
      var (w1, made) := env.newInstance(w, args[0], args, opts);
      (made.Err? ==> r == (w1, Err(Raised(made.error)))) &&
      (made.Ok? && env.attr(w1, made.value, Setup).Err? ==> r == (w1, Err(env.attr(w1, made.value, Setup).error))) &&
      (made.Ok? && env.attr(w1, made.value, Setup).Ok? &&
       !IsInstance(env, w1, env.attr(w1, made.value, Setup).value, env.known.functionClass) ==>
         r == (w1, Err(Thrown(Check.TypeMismatch)))) &&
      (made.Ok? && env.attr(w1, made.value, Setup).Ok? &&
       IsInstance(env, w1, env.attr(w1, made.value, Setup).value, env.known.functionClass) ==>
         var (w2, ran) := env.call(w1, env.attr(w1, made.value, Setup).value, args[1..], opts);
         r == (w2, if ran.Ok? then Ok(made.value) else Err(Raised(ran.error))))
  {
    if |args| == 0 then (w, Err(Thrown(NewNeedsClass)))
    else if !IsInstance(env, w, args[0], env.known.classClass) then (w, Err(Thrown(Check.TypeMismatch)))
    else
      var (w1, made) := env.newInstance(w, args[0], args, opts);
      match made
      case Err(e) => (w1, Err(Raised(e)))
      case Ok(obj) =>
        match env.attr(w1, obj, Setup)
        case Err(f) => (w1, Err(f))
        case Ok(setup) =>
          if !IsInstance(env, w1, setup, env.known.functionClass) then (w1, Err(Thrown(Check.TypeMismatch)))
          else
            var (w2, ran) := env.call(w1, setup, args[1..], opts);
            if ran.Err? then (w2, Err(Raised(ran.error))) else (w2, Ok(obj))
  }

  /** get_attrdata: one Object, no options; the object's attrdata mapping,
      created empty the first time. */
  function GetAttrdata<A>(env: Env<A>, w: World<A>, args: seq<Ref>, opts: map<Name, Ref>): (r: (World<A>, Result<Ref, Failure>))
    ensures r.1.Ok? <==> CheckArgs(env, w, args, [env.known.objectClass]).Ok? && opts == map[]
    ensures r.1.Err? ==> r.0 == w
    ensures r.1.Ok? ==>
      r.0.attrdata == w.attrdata[args[0] := r.1.value] &&
      (args[0] in w.attrdata ==> r.0 == w && r.1.value == w.attrdata[args[0]]) &&
      (args[0] !in w.attrdata ==> r.1.value == w.next && r.0.next == w.next + 1)
  {
    match CheckArgs(env, w, args, [env.known.objectClass])
    case Err(f) => (w, Err(f))
    case Ok(_) =>
      match CheckNoOpts(opts)
      case Err(f) => (w, Err(f))
      case Ok(_) =>
        var obj := args[0];
        if obj in w.attrdata then (w, Ok(w.attrdata[obj]))
        else (w.(next := w.next + 1, attrdata := w.attrdata[obj := w.next]), Ok(w.next))
  }

  /** A second get_attrdata gives the same mapping and changes nothing. */
  lemma AttrdataOnce<A>(env: Env<A>, w: World<A>, obj: Ref)
    requires IsInstance(env, w, obj, env.known.objectClass)
    requires forall w': World<A> :: w'.rest == w.rest ==> (IsInstance(env, w', obj, env.known.objectClass) <==> IsInstance(env, w, obj, env.known.objectClass))
    ensures var (w1, first) := GetAttrdata(env, w, [obj], map[]);
      first.Ok? && GetAttrdata(env, w1, [obj], map[]) == (w1, first)
  {
    var (w1, first) := GetAttrdata(env, w, [obj], map[]);
    assert w1.rest == w.rest;
  }
}
