/**
 * `array_func` (src/builtins/arrayfunc.c, and the older src/arrayfunc.c):
 * turns a block into a function that runs the block in a new subscope of
 * its definition scope with the local variable `arguments` bound to a new
 * Array of the call's arguments.  The function is a runner partialled
 * with the block, so the runner's first argument is the block.
 */
module ArrayFunc {
  import opened Wrappers
  import opened Interp
  import Method
  import FunctionObject

  const Arguments: Name := Text("arguments")

  const Run: Name := Text("run")

  /** The runner up to the method call: a subscope of the block's
      definition scope whose only local variable is `arguments`, bound to a
      new Array holding the arguments after the block. */
  function Prepare<A>(env: Env<A>, w: World<A>, argarr: seq<Ref>): (r: Result<(World<A>, Ref), Failure>)
    requires |argarr| >= 1
    ensures r.Ok? <==> env.attr(w, argarr[0], DefinitionScope).Ok?
    ensures r.Err? ==> r.error == env.attr(w, argarr[0], DefinitionScope).error
    ensures r.Ok? ==>
      var (w1, scope) := r.value;
      var arr := w.next + 1;
      scope == w.next && w1.next == w.next + 2 &&
      w1.scopes == w.scopes[scope := ScopeData(env.attr(w, argarr[0], DefinitionScope).value, map[Arguments := arr])] &&
      w1.arrays == w.arrays[arr := argarr[1..]] &&
      w1.attrdata == w.attrdata && w1.rest == w.rest
  {
    var parent :- env.attr(w, argarr[0], DefinitionScope);
    var (w1, scope) := NewSub(w, parent);
    var (w2, arr) := NewArray(w1, argarr[1..]);
    Ok((SetLocal(w2, scope, Arguments, arr), scope))
  }

  /** runner in src/builtins/arrayfunc.c: the block's `run` method is
      called with the prepared scope. */
  function Runner<A>(env: Env<A>, w: World<A>, argarr: seq<Ref>): (r: (World<A>, Result<Ref, Failure>))
    requires |argarr| >= 1
    ensures Prepare(env, w, argarr).Err? ==> r == (w, Err(Prepare(env, w, argarr).error))
    ensures Prepare(env, w, argarr).Ok? ==>
      r == Method.Call(env, Prepare(env, w, argarr).value.0, argarr[0], Run, [Prepare(env, w, argarr).value.1])
  {
    match Prepare(env, w, argarr)
    case Err(f) => (w, Err(f))
    case Ok((w1, scope)) => Method.Call(env, w1, argarr[0], Run, [scope])
  }

  /** runner in the older src/arrayfunc.c: the same steps, but a missing
      definition scope fails an assert. */
  function RunnerAsserting<A>(env: Env<A>, w: World<A>, args: seq<Ref>): (r: (World<A>, Result<Ref, Failure>))
    requires |args| >= 1
    ensures env.attr(w, args[0], DefinitionScope).Err? ==> r == (w, Err(Aborted))
  {
    match Prepare(env, w, args)
    case Err(_) => (w, Err(Aborted))
    case Ok((w1, scope)) => Method.Call(env, w1, args[0], Run, [scope])
  }

  /** The two runners differ only when the block has no definition scope. */
  lemma RunnersAgree<A>(env: Env<A>, w: World<A>, args: seq<Ref>)
    requires |args| >= 1
    ensures env.attr(w, args[0], DefinitionScope).Ok? ==> RunnerAsserting(env, w, args) == Runner(env, w, args)
    ensures env.attr(w, args[0], DefinitionScope).Err? ==>
      Runner(env, w, args).1 == Err(env.attr(w, args[0], DefinitionScope).error) && RunnerAsserting(env, w, args).1 == Err(Aborted)
  {
  }

  /** builtin_arrayfunc (and arrayfunc_builtin): one Block, and the result
      is the runner partialled with it. */
  function Builtin<A>(env: Env<A>, w: World<A>, runner: FunctionObject.FunctionData, argarr: seq<Ref>): (r: Result<FunctionObject.FunctionData, Failure>)
    requires runner.partials == []
    ensures r.Ok? <==> |argarr| == 1 && IsInstance(env, w, argarr[0], env.known.blockClass)
    ensures r.Ok? ==> r.value.cfunc == runner.cfunc && r.value.partials == [argarr[0]]
  {
    var _ :- CheckArgs(env, w, argarr, [env.known.blockClass]);
    Ok(FunctionObject.NewPartial(runner, argarr[0]))
  }

  /** Calling the function that `array_func` gives runs the runner on the block
      followed by the call's arguments, so `arguments` holds exactly those
      arguments, in a new Array. */
  lemma CallBindsArguments<A>(env: Env<A>, w: World<A>, runner: FunctionObject.FunctionData, block: Ref, args: seq<Ref>)
    requires runner.partials == [] && IsInstance(env, w, block, env.known.blockClass)
    requires env.attr(w, block, DefinitionScope).Ok?
    ensures var f := Builtin(env, w, runner, [block]);
      f.Ok? &&
      FunctionObject.VCall(f.value, args, (c, a) => a) == [block] + args &&
      var p := Prepare(env, w, [block] + args);
      p.Ok? && p.value.0.arrays[p.value.0.scopes[p.value.1].localVars[Arguments]] == args
  {
    assert ([block] + args)[1..] == args;
  }
}
