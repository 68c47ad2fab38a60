/**
 * Methods of classes written in C (src/method.c): method_add registers a
 * getter that, given an instance, creates a function object bound to it;
 * method_call looks a method up by name and calls it with no options.
 */
module Method {
  import opened Wrappers
  import opened Interp
  import Objects
  import Check

  /** The size of the name buffers, including the terminating zero byte. */
  const NameSize: nat := 100

  const MethodSuffix: string := " method"

  const GetterPrefix: string := "getter of "

  /** What the getter of a method keeps: the class whose instances it
      binds, the C function and the name of every bound method. */
  datatype GetterData = GetterData(klass: Ref, cfunc: nat, name: string)

  /** A function object the getter creates: the C function with the
      instance as its data. */
  datatype BoundMethod = BoundMethod(instance: Ref, cfunc: nat, name: string)

  /** The getter function method_add creates, under its own name. */
  datatype Getter = Getter(name: string, data: GetterData)

  /** method_add: both names must fit the buffers with their zero byte,
      which the source asserts. */
  function Add(klass: Ref, name: string, cfunc: nat): (r: Result<Getter, Failure>)
    ensures r.Ok? <==> |name| + |GetterPrefix| + 1 <= NameSize
    ensures r.Err? ==> r.error == Aborted
    ensures r.Ok? ==>
      |r.value.data.name| + 1 <= NameSize && |r.value.name| + 1 <= NameSize &&
      r.value.data.name == name + MethodSuffix && r.value.name == GetterPrefix + name &&
      r.value.data.klass == klass && r.value.data.cfunc == cfunc
  {
    var longer := if |MethodSuffix| > |GetterPrefix| then |MethodSuffix| else |GetterPrefix|;
    if |name| + longer + 1 > NameSize then Err(Aborted)
    else Ok(Getter(GetterPrefix + name, GetterData(klass, cfunc, name + MethodSuffix)))
  }

  /** method_getter: one instance of the method's class and no options. */
  function BindTo<A>(env: Env<A>, w: World<A>, g: GetterData, args: seq<Ref>, opts: map<Name, Ref>): (r: Result<BoundMethod, Failure>)
    ensures r.Ok? <==> |args| == 1 && IsInstance(env, w, args[0], g.klass) && opts == map[]
    ensures r.Ok? ==> r.value == BoundMethod(args[0], g.cfunc, g.name)
  {
    var _ :- CheckArgs(env, w, args, [g.klass]);
    var _ :- CheckNoOpts(opts);
    Ok(BoundMethod(args[0], g.cfunc, g.name))
  }

  /** method_call: the attribute must be a Function; it gets the arguments
      given before the terminating NULL and an empty option mapping. */
  function Call<A>(env: Env<A>, w: World<A>, obj: Ref, methname: Name, args: seq<Ref>): (r: (World<A>, Result<Ref, Failure>))
    ensures env.attr(w, obj, methname).Err? ==> r == (w, Err(env.attr(w, obj, methname).error))
    ensures env.attr(w, obj, methname).Ok? && !IsInstance(env, w, env.attr(w, obj, methname).value, env.known.functionClass) ==>
      r == (w, Err(Thrown(Check.TypeMismatch)))
    ensures r.1.Ok? ==>
      var m := env.attr(w, obj, methname).value;
      env.attr(w, obj, methname).Ok? && IsInstance(env, w, m, env.known.functionClass) &&
      env.call(w, m, args, map[]) == (r.0, Ok(r.1.value))
  {
    match env.attr(w, obj, methname)
    case Err(f) => (w, Err(f))
    case Ok(m) =>
      if !IsInstance(env, w, m, env.known.functionClass) then (w, Err(Thrown(Check.TypeMismatch)))
      else
        var (w1, res) := env.call(w, m, args, map[]);
        (w1, res.MapError(e => Raised(e)))
  }

  const ReturnedNothing := Objects.Exception("TypeError", "%s should return a String, but it returned nothing")

  const ReturnedNonString := Objects.Exception("TypeError", "%s should return a String, but it returned %D")

  /** to_maybe_debug_string: the method's result must be a String; the
      no-return marker is reported apart from other non-strings. */
  function ToMaybeDebugString<A>(env: Env<A>, w: World<A>, obj: Ref, methname: string): (r: (World<A>, Result<Ref, Failure>))
    ensures r.1.Ok? ==> r.1.value != env.known.noReturn && IsInstance(env, w, r.1.value, env.known.stringClass)
    ensures r.1.Ok? ==> Call(env, w, obj, Text(methname), []) == r
    ensures Call(env, w, obj, Text(methname), []).1 == Ok(env.known.noReturn) ==> r.1 == Err(Thrown(ReturnedNothing))
    ensures Call(env, w, obj, Text(methname), []).1.Err? ==> r == Call(env, w, obj, Text(methname), [])
  {
    var (w1, res) := Call(env, w, obj, Text(methname), []);
    match res
    case Err(f) => (w1, Err(f))
    case Ok(v) =>
      if v == env.known.noReturn then (w1, Err(Thrown(ReturnedNothing)))
      else if !IsInstance(env, w, v, env.known.stringClass) then (w1, Err(Thrown(ReturnedNonString)))
      else (w1, Ok(v))
  }

  /** method_call_tostring and method_call_todebugstring. */
  function ToString<A>(env: Env<A>, w: World<A>, obj: Ref): (r: (World<A>, Result<Ref, Failure>))
    ensures r.1.Ok? ==> IsInstance(env, w, r.1.value, env.known.stringClass)
  {
    ToMaybeDebugString(env, w, obj, "to_string")
  }

  function ToDebugString<A>(env: Env<A>, w: World<A>, obj: Ref): (r: (World<A>, Result<Ref, Failure>))
    ensures r.1.Ok? ==> IsInstance(env, w, r.1.value, env.known.stringClass)
  {
    ToMaybeDebugString(env, w, obj, "to_debug_string")
  }
}
