/**
 * Function objects (src/objects/function.c): a C function, a name object
 * and a list of partialled arguments that every call puts before its own
 * arguments.  Function objects live in a store from references to their
 * data; a reference is a Function when the store has it.
 */
module FunctionObject {
  import opened Wrappers
  import opened Interp
  import Objects
  import Check

  datatype FunctionData = FunctionData(name: Ref, cfunc: nat, partials: seq<Ref>)

  type Functions = map<Ref, FunctionData>

  /** What create_a_partial gives back: the function itself, or a new one. */
  datatype Partialled = Same | New(data: FunctionData)

  /** The function a call through a Partialled result reaches. */
  function Effective(f: FunctionData, p: Partialled): FunctionData
  {
    if p.Same? then f else p.data
  }

  /** create_a_partial: no arguments to partial gives the same function
      back; otherwise a new function with the same name and C function
      whose partialled arguments are the old ones followed by the new. */
  function CreateAPartial(f: FunctionData, args: seq<Ref>): (r: Partialled)
    ensures r.Same? <==> |args| == 0
    ensures Effective(f, r).name == f.name && Effective(f, r).cfunc == f.cfunc
    ensures Effective(f, r).partials == f.partials + args
  {
    if |args| == 0 then Same
    else New(FunctionData(f.name, f.cfunc, f.partials + args))
  }

  /** functionobject_newpartial: partial one argument. */
  function NewPartial(f: FunctionData, arg: Ref): (r: FunctionData)
    ensures r.name == f.name && r.cfunc == f.cfunc && r.partials == f.partials + [arg]
  {
    CreateAPartial(f, [arg]).data
  }

  const NotEnoughToPartial := Objects.Exception("Error", "not enough arguments to Function.partial")

  /** Function.partial: the first argument is the function, the rest are
      partialled; the source checks the function's type but nothing else. */
  function Partial(funcs: Functions, argarr: seq<Ref>): (r: Result<Partialled, Failure>)
    ensures |argarr| == 0 ==> r == Err(Thrown(NotEnoughToPartial))
    ensures r.Ok? <==> |argarr| > 0 && argarr[0] in funcs
    ensures r.Ok? ==> Effective(funcs[argarr[0]], r.value).partials == funcs[argarr[0]].partials + argarr[1..]
  {
    if |argarr| == 0 then Err(Thrown(NotEnoughToPartial))
    else if argarr[0] !in funcs then Err(Thrown(Check.TypeMismatch))
    else Ok(CreateAPartial(funcs[argarr[0]], argarr[1..]))
  }

  /** The argument array the C function gets: the partialled arguments,
      copied into a new array only when there are any, then the call's. */
  function TheArgs(f: FunctionData, argarr: seq<Ref>): (r: seq<Ref>)
    ensures |r| == |f.partials| + |argarr|
    ensures forall i :: 0 <= i < |f.partials| ==> r[i] == f.partials[i]
    ensures forall i :: 0 <= i < |argarr| ==> r[|f.partials| + i] == argarr[i]
  {
    if |f.partials| > 0 then f.partials + argarr else argarr
  }

  /** functionobject_vcall: the C function runs on TheArgs; `run` stands
      for the C functions, looked up by number. */
  function VCall<R>(f: FunctionData, argarr: seq<Ref>, run: (nat, seq<Ref>) -> R): (r: R)
    ensures r == run(f.cfunc, f.partials + argarr)
  {
    assert TheArgs(f, argarr) == f.partials + argarr;
    run(f.cfunc, TheArgs(f, argarr))
  }

  /** Calling a partial is calling the original with the partialled
      arguments in front. */
  lemma CallPartial<R>(f: FunctionData, args: seq<Ref>, more: seq<Ref>, run: (nat, seq<Ref>) -> R)
    ensures VCall(Effective(f, CreateAPartial(f, args)), more, run) == VCall(f, args + more, run)
  {
    assert f.partials + args + more == f.partials + (args + more);
  }

  /** Partialling twice is partialling the concatenation once. */
  lemma PartialOfPartial(f: FunctionData, a: seq<Ref>, b: seq<Ref>)
    ensures Effective(Effective(f, CreateAPartial(f, a)), CreateAPartial(Effective(f, CreateAPartial(f, a)), b))
         == Effective(f, CreateAPartial(f, a + b))
  {
    assert f.partials + a + b == f.partials + (a + b);
  }

  /** The arguments of functionobject_call: those before the first NULL. */
  function UpToNull(varargs: seq<Option<Ref>>): (r: seq<Ref>)
    ensures |r| <= |varargs|
    ensures forall i :: 0 <= i < |r| ==> varargs[i] == Some(r[i])
    ensures |r| == |varargs| || varargs[|r|].None?
  {
    if |varargs| == 0 || varargs[0].None? then []
    else [varargs[0].value] + UpToNull(varargs[1..])
  }

  /** functionobject_call asserts that the function's class is Function. */
  function Call<R>(funcs: Functions, func: Ref, varargs: seq<Option<Ref>>, run: (nat, seq<Ref>) -> R): (r: Result<R, Failure>)
    ensures r.Ok? <==> func in funcs
    ensures r.Ok? ==> r.value == run(funcs[func].cfunc, funcs[func].partials + UpToNull(varargs))
  {
    if func !in funcs then Err(Aborted)
    else Ok(VCall(funcs[func], UpToNull(varargs), run))
  }

  /** functionobject_new: a fresh function with no partialled arguments. */
  function NewFunction(funcs: Functions, next: Ref, name: Ref, cfunc: nat): (r: (Functions, Ref))
    requires forall f :: f in funcs ==> f < next
    ensures r.1 !in funcs && r.0 == funcs[r.1 := FunctionData(name, cfunc, [])]
  {
    (funcs[next := FunctionData(name, cfunc, [])], next)
  }

  /** The name getter and setter: a Function and, to set, a String. */
  function GetName<A>(env: Env<A>, w: World<A>, funcs: Functions, args: seq<Ref>): (r: Result<Ref, Failure>)
    requires forall f :: f in funcs ==> IsInstance(env, w, f, env.known.functionClass)
    requires forall i :: 0 <= i < |args| && IsInstance(env, w, args[i], env.known.functionClass) ==> args[i] in funcs
    ensures r.Ok? <==> |args| == 1 && args[0] in funcs
    ensures r.Ok? ==> r.value == funcs[args[0]].name
  {
    var _ :- CheckArgs(env, w, args, [env.known.functionClass]);
    Ok(funcs[args[0]].name)
  }

  function SetName<A>(env: Env<A>, w: World<A>, funcs: Functions, args: seq<Ref>): (r: Result<Functions, Failure>)
    requires forall f :: f in funcs ==> IsInstance(env, w, f, env.known.functionClass)
    requires forall i :: 0 <= i < |args| && IsInstance(env, w, args[i], env.known.functionClass) ==> args[i] in funcs
    ensures r.Ok? <==> |args| == 2 && args[0] in funcs && IsInstance(env, w, args[1], env.known.stringClass)
    ensures r.Ok? ==>
      (r.value.Keys == funcs.Keys &&
       r.value[args[0]] == funcs[args[0]].(name := args[1]) &&
       forall f :: f in funcs && f != args[0] ==> r.value[f] == funcs[f])
  {
    var _ :- CheckArgs(env, w, args, [env.known.functionClass, env.known.stringClass]);
    Ok(funcs[args[0] := funcs[args[0]].(name := args[1])])
  }

  /** Setting the name and then getting it gives the new name. */
  lemma SetThenGetName<A>(env: Env<A>, w: World<A>, funcs: Functions, f: Ref, s: Ref)
    requires forall g :: g in funcs ==> IsInstance(env, w, g, env.known.functionClass)
    requires forall g :: IsInstance(env, w, g, env.known.functionClass) ==> g in funcs
    requires f in funcs && IsInstance(env, w, s, env.known.stringClass)
    ensures SetName(env, w, funcs, [f, s]).Ok?
    ensures GetName(env, w, SetName(env, w, funcs, [f, s]).value, [f]) == Ok(s)
  {
    var funcs2 := SetName(env, w, funcs, [f, s]).value;
    assert forall g :: g in funcs2 ==> IsInstance(env, w, g, env.known.functionClass);
  }

  const CannotCreate := Objects.Exception("Error", "functions can't be created with (new Function), use func instead")

  /** Function's setup method always fails. */
  function Setup(argarr: seq<Ref>): (r: Result<Ref, Failure>)
    ensures r == Err(Thrown(CannotCreate))
  {
    Err(Thrown(CannotCreate))
  }
}
