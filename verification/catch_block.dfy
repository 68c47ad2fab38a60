/**
 * The older `catch` of src/builtins/catch.c: two Blocks, no error class.
 * Any error in the first block is cleared and the second block runs
 * instead; blocks are run through their `run` method.
 */
module BlockCatch {
  import opened Wrappers
  import opened Interp
  import Method

  const Run: Name := Text("run")

  /** run_block: a new subscope of the block's definition scope, then the
      block's `run` method with that scope; the method's result is dropped. */
  function RunBlock<A>(env: Env<A>, w: World<A>, block: Ref): (r: (World<A>, Result<(), Failure>))
    ensures SubscopeOfDefscope(env, w, block).Err? ==> r == (w, Err(SubscopeOfDefscope(env, w, block).error))
    ensures SubscopeOfDefscope(env, w, block).Ok? ==>
      var (w1, scope) := SubscopeOfDefscope(env, w, block).value;
      var (w2, res) := Method.Call(env, w1, block, Run, [scope]);
      r.0 == w2 && (r.1.Ok? <==> res.Ok?) && (res.Err? ==> r.1 == Err(res.error))
  {
    match SubscopeOfDefscope(env, w, block)
    case Err(f) => (w, Err(f))
    case Ok((w1, scope)) =>
      var (w2, res) := Method.Call(env, w1, block, Run, [scope]);
      if res.Err? then (w2, Err(res.error)) else (w2, Ok(()))
  }

  /** builtin_catch: the result is null whenever one of the blocks ends
      without an error.  A failed assert ends the process and is never
      caught. */
  function BuiltinCatch<A>(env: Env<A>, w: World<A>, argarr: seq<Ref>): (r: (World<A>, Result<Ref, Failure>))
    ensures r.1.Ok? ==> r.1.value == env.known.nullObject
    ensures CheckArgs(env, w, argarr, [env.known.blockClass, env.known.blockClass]).Err? ==>
      r == (w, Err(CheckArgs(env, w, argarr, [env.known.blockClass, env.known.blockClass]).error))
    ensures CheckArgs(env, w, argarr, [env.known.blockClass, env.known.blockClass]).Ok? ==>
      var (w1, tried) := RunBlock(env, w, argarr[0]);
      (tried.Ok? ==> r == (w1, Ok(env.known.nullObject))) &&
      (tried == Err(Aborted) ==> r == (w1, Err(Aborted)))
  {
    match CheckArgs(env, w, argarr, [env.known.blockClass, env.known.blockClass])
    case Err(f) => (w, Err(f))
    case Ok(_) =>
      var (w1, tried) := RunBlock(env, w, argarr[0]);
      if tried.Ok? then (w1, Ok(env.known.nullObject))
      else if tried.error.Aborted? then (w1, Err(Aborted))
      else
        var (w2, handled) := RunBlock(env, w1, argarr[1]);
        if handled.Err? then (w2, Err(handled.error)) else (w2, Ok(env.known.nullObject))
  }

  /** An error of the first block never escapes: once it fails, the
      outcome is the second block's, run in the world the first one left. */
  lemma TryingErrorNeverEscapes<A>(env: Env<A>, w: World<A>, trying: Ref, caught: Ref)
    requires IsInstance(env, w, trying, env.known.blockClass) && IsInstance(env, w, caught, env.known.blockClass)
    requires RunBlock(env, w, trying).1.Err? && !RunBlock(env, w, trying).1.error.Aborted?
    ensures var w1 := RunBlock(env, w, trying).0;
      var (w2, handled) := RunBlock(env, w1, caught);
      BuiltinCatch(env, w, [trying, caught]).0 == w2 &&
      (BuiltinCatch(env, w, [trying, caught]).1.Ok? <==> handled.Ok?) &&
      (handled.Err? ==> BuiltinCatch(env, w, [trying, caught]).1 == Err(handled.error))
  {
    assert CheckArgs(env, w, [trying, caught], [env.known.blockClass, env.known.blockClass]).Ok?;
  }
}
