/**
 * The built-in value objects of src/objects: the two Bool singletons
 * (bool.c), the null singleton (null.c), Options (option.c) and Error
 * objects (errors.c).  Their C data lives in the `rest` of the world.
 */
module ValueObjects {
  import opened Wrappers
  import opened Interp
  import Objects
  import Check
  import Method

  /** An Error's data: its message String and, once thrown, its stack. */
  datatype ErrorData = ErrorData(message: Ref, stack: Option<Ref>)

  /** The C data of the objects made here: the code points of Strings, the
      value of each Option (None for the none object), each Error's data,
      the class each object was made with, and the base class of each
      class made here. */
  datatype Data = Data(
    strings: map<Ref, Name>,
    options: map<Ref, Option<Ref>>,
    errors: map<Ref, ErrorData>,
    classOf: map<Ref, Ref>,
    baseOf: map<Ref, Ref>)

  type W = World<Data>

  /** A new object of class klass with no C data. */
  function NewObject(w: W, klass: Ref): (r: (W, Ref))
    ensures r.1 == w.next && r.0.next == w.next + 1
    ensures r.0.rest.classOf == w.rest.classOf[r.1 := klass]
    ensures r.0.rest.strings == w.rest.strings && r.0.rest.options == w.rest.options && r.0.rest.errors == w.rest.errors
    ensures r.0.rest.baseOf == w.rest.baseOf
  {
    (w.(next := w.next + 1, rest := w.rest.(classOf := w.rest.classOf[w.next := klass])), w.next)
  }

  /** classobject_new: a new class object, itself an instance of Class,
      whose base class is base. */
  function NewClass(w: W, classClass: Ref, base: Ref): (r: (W, Ref))
    ensures r.1 == w.next && r.0.next == w.next + 1
    ensures r.0.rest.classOf == w.rest.classOf[r.1 := classClass] && r.0.rest.baseOf == w.rest.baseOf[r.1 := base]
    ensures r.0.rest.strings == w.rest.strings && r.0.rest.options == w.rest.options && r.0.rest.errors == w.rest.errors
  {
    var (w1, klass) := NewObject(w, classClass);
    (w1.(rest := w1.rest.(baseOf := w1.rest.baseOf[klass := base])), klass)
  }

  // ---------------------------------------------------------------------
  // Bool

  const BoolCannotCreate := Objects.Exception("TypeError", "new Bool objects cannot be created")

  /** Bool's newinstance: there are only the two Bools. */
  function BoolNewInstance(args: seq<Ref>, opts: map<Name, Ref>): (r: Result<Ref, Failure>)
    ensures r.Err? && r.error == Thrown(BoolCannotCreate)
  {
    Err(Thrown(BoolCannotCreate))
  }

  /** boolobject_create: the Bool class (a subclass of Object) and its two
      instances, yes and no. */
  function CreateBools(w: W, classClass: Ref, objectClass: Ref): (r: (W, Ref, Ref, Ref))
    ensures var (w1, klass, yes, no) := r;
      yes != no && klass != yes && klass != no &&
      w.next <= klass && w.next <= yes && w.next <= no && w1.next == w.next + 3 &&
      w1.rest.classOf == w.rest.classOf[klass := classClass][yes := klass][no := klass] &&
      w1.rest.baseOf == w.rest.baseOf[klass := objectClass]
  {
    var (w1, klass) := NewClass(w, classClass, objectClass);
    var (w2, yes) := NewObject(w1, klass);
    var (w3, no) := NewObject(w2, klass);
    (w3, klass, yes, no)
  }

  /** Bool's eq: two Objects and no options; null unless both are Bools,
      then whether they are the same Bool. */
  function BoolEq<A>(env: Env<A>, w: World<A>, args: seq<Ref>, opts: map<Name, Ref>): (r: Result<Ref, Failure>)
    ensures r.Ok? <==> (CheckArgs(env, w, args, [env.known.objectClass, env.known.objectClass]).Ok? && opts == map[])
    ensures r.Ok? && !(IsInstance(env, w, args[0], env.known.boolClass) && IsInstance(env, w, args[1], env.known.boolClass)) ==>
      r.value == env.known.nullObject
    ensures r.Ok? && IsInstance(env, w, args[0], env.known.boolClass) && IsInstance(env, w, args[1], env.known.boolClass) ==>
      (r.value == env.known.yes <==> args[0] == args[1] || env.known.yes == env.known.no)
  {
    var _ :- CheckArgs(env, w, args, [env.known.objectClass, env.known.objectClass]);
    var _ :- CheckNoOpts(opts);
    if !(IsInstance(env, w, args[0], env.known.boolClass) && IsInstance(env, w, args[1], env.known.boolClass)) then
      Ok(env.known.nullObject)
    else if args[0] == args[1] then Ok(env.known.yes)
    else Ok(env.known.no)
  }

  /** Bool's eq on the two Bools is their truth table for equality. */
  lemma BoolEqTable<A>(env: Env<A>, w: World<A>)
    requires env.known.yes != env.known.no
    requires IsInstance(env, w, env.known.yes, env.known.boolClass) && IsInstance(env, w, env.known.no, env.known.boolClass)
    requires IsInstance(env, w, env.known.yes, env.known.objectClass) && IsInstance(env, w, env.known.no, env.known.objectClass)
    ensures var yes, no := env.known.yes, env.known.no;
      BoolEq(env, w, [yes, yes], map[]) == Ok(yes) && BoolEq(env, w, [no, no], map[]) == Ok(yes) &&
      BoolEq(env, w, [yes, no], map[]) == Ok(no) && BoolEq(env, w, [no, yes], map[]) == Ok(no)
  {
  }

  // ---------------------------------------------------------------------
  // null

  const NullCannotCreate := Objects.Exception("Error", "new null objects cannot be created")

  /** Null's setup: no more null objects can be made. */
  function NullSetup(args: seq<Ref>, opts: map<Name, Ref>): (r: Result<Ref, Failure>)
    ensures r.Err? && r.error == Thrown(NullCannotCreate)
  {
    Err(Thrown(NullCannotCreate))
  }

  /** Null's to_debug_string: an instance of null's class and no options. */
  function NullToDebugString<A>(env: Env<A>, w: World<A>, args: seq<Ref>, opts: map<Name, Ref>): (r: Result<Name, Failure>)
    ensures r.Ok? <==> (|args| == 1 && IsInstance(env, w, args[0], env.known.nullClass) && opts == map[])
    ensures r.Ok? ==> r.value == Text("null")
  {
    var _ :- CheckArgs(env, w, args, [env.known.nullClass]);
    var _ :- CheckNoOpts(opts);
    Ok(Text("null"))
  }

  /** Numbers of the C functions the null class's methods run. */
  const NullSetupFunction: nat := 0
  const NullToDebugStringFunction: nat := 1

  /** The class nullobject_create makes: its two methods and its one
      instance. */
  datatype NullClass = NullClass(klass: Ref, setup: Method.Getter, toDebugString: Method.Getter, instance: Ref)

  /** nullobject_create: a Null class with `setup` and `to_debug_string`,
      and the one instance of it.  Both method names fit the method name
      buffer, so the source's assert always holds. */
  function NullCreate(w: W, classClass: Ref, objectClass: Ref): (r: (W, NullClass))
    ensures var (w1, n) := r;
      n.klass == w.next && n.instance == w.next + 1 && w1.next == w.next + 2 &&
      w1.rest.classOf == w.rest.classOf[n.klass := classClass][n.instance := n.klass] &&
      w1.rest.baseOf == w.rest.baseOf[n.klass := objectClass] &&
      n.setup.data == Method.GetterData(n.klass, NullSetupFunction, "setup method") &&
      n.toDebugString.data == Method.GetterData(n.klass, NullToDebugStringFunction, "to_debug_string method")
  {
    var (w1, klass) := NewClass(w, classClass, objectClass);
    var setup := Method.Add(klass, "setup", NullSetupFunction);
    var debug := Method.Add(klass, "to_debug_string", NullToDebugStringFunction);
    var (w2, obj) := NewObject(w1, klass);
    (w2, NullClass(klass, setup.value, debug.value, obj))
  }

  // ---------------------------------------------------------------------
  // Option

  /** Option's newinstance: the class and the value, no options. */
  function OptionNewInstance(env: Env<Data>, w: W, args: seq<Ref>, opts: map<Name, Ref>): (r: Result<(W, Ref), Failure>)
    ensures r.Ok? <==> (CheckArgs(env, w, args, [env.known.classClass, env.known.objectClass]).Ok? && opts == map[])
    ensures r.Ok? ==>
      var (w1, option) := r.value;
      option == w.next && w1.next == w.next + 1 &&
      w1.rest.options == w.rest.options[option := Some(args[1])] &&
      w1.rest.classOf == w.rest.classOf[option := args[0]]
  {
    var _ :- CheckArgs(env, w, args, [env.known.classClass, env.known.objectClass]);
    var _ :- CheckNoOpts(opts);
    var (w1, option) := NewObject(w, args[0]);
    Ok((w1.(rest := w1.rest.(options := w1.rest.options[option := Some(args[1])])), option))
  }

  /** optionobject_createnone_noerr: the Option holding nothing. */
  function CreateNone(w: W, optionClass: Ref): (r: (W, Ref))
    ensures r.1 == w.next && r.0.next == w.next + 1
    ensures r.0.rest.options == w.rest.options[r.1 := None]
    ensures r.0.rest.classOf == w.rest.classOf[r.1 := optionClass]
  {
    var (w1, none) := NewObject(w, optionClass);
    (w1.(rest := w1.rest.(options := w1.rest.options[none := None])), none)
  }

  /** optionobject_new: an Option holding val. */
  function OptionNew(w: W, optionClass: Ref, val: Ref): (r: (W, Ref))
    ensures r.1 == w.next && r.0.next == w.next + 1
    ensures r.0.rest.options == w.rest.options[r.1 := Some(val)]
    ensures r.0.rest.classOf == w.rest.classOf[r.1 := optionClass]
  {
    var (w1, option) := NewObject(w, optionClass);
    (w1.(rest := w1.rest.(options := w1.rest.options[option := Some(val)])), option)
  }

  /** Option's setup does nothing; newinstance did it all. */
  function OptionSetup(args: seq<Ref>, opts: map<Name, Ref>): (r: Result<(), Failure>)
    ensures r.Ok?
  {
    Ok(())
  }

  const NoValue := Objects.Exception("ValueError", "cannot get the value of none")

  /** Option's get_value method on the option it is bound to: no arguments,
      no options, and the none object has no value. */
  function GetValue(env: Env<Data>, w: W, option: Ref, args: seq<Ref>, opts: map<Name, Ref>): (r: Result<Ref, Failure>)
    requires option in w.rest.options
    ensures r.Ok? <==> (|args| == 0 && opts == map[] && w.rest.options[option].Some?)
    ensures r.Ok? ==> r.value == w.rest.options[option].value
    ensures |args| == 0 && opts == map[] && w.rest.options[option].None? ==> r == Err(Thrown(NoValue))
  {
    var _ :- CheckArgs(env, w, args, []);
    var _ :- CheckNoOpts(opts);
    match w.rest.options[option]
    case None => Err(Thrown(NoValue))
    case Some(val) => Ok(val)
  }

  /** The value put in an Option is the value get_value gives back, and
      none has none. */
  lemma OptionRoundTrip(env: Env<Data>, w: W, optionClass: Ref, val: Ref)
    ensures var (w1, option) := OptionNew(w, optionClass, val);
      option in w1.rest.options && GetValue(env, w1, option, [], map[]) == Ok(val)
    ensures var (w1, none) := CreateNone(w, optionClass);
      none in w1.rest.options && GetValue(env, w1, none, [], map[]) == Err(Thrown(NoValue))
  {
  }

  // ---------------------------------------------------------------------
  // Error

  /** Error's newinstance: a subclass-friendly placeholder whose message
      is a new empty String and which has no stack yet.  The class comes
      first in the arguments, as `new` passes them. */
  function ErrorNewInstance(w: W, args: seq<Ref>): (r: (W, Ref))
    requires |args| >= 1
    ensures var (w1, err) := r;
      err == w.next + 1 && w1.next == w.next + 2 &&
      w1.rest.errors == w.rest.errors[err := ErrorData(w.next, None)] &&
      w1.rest.strings == w.rest.strings[w.next := []] &&
      err in w1.rest.classOf && w1.rest.classOf[err] == args[0]
  {
    var msg := w.next;
    var w1 := w.(next := w.next + 1, rest := w.rest.(strings := w.rest.strings[msg := []]));
    var (w2, err) := NewObject(w1, args[0]);
    (w2.(rest := w2.rest.(errors := w2.rest.errors[err := ErrorData(msg, None)])), err)
  }

  /** Error's setup on the error it is bound to: one String, the new
      message; options are not checked.  Error data is asserted to exist. */
  function ErrorSetup(env: Env<Data>, w: W, err: Ref, args: seq<Ref>): (r: Result<(W, Ref), Failure>)
    ensures r.Ok? <==> (|args| == 1 && IsInstance(env, w, args[0], env.known.stringClass) && err in w.rest.errors)
    ensures r.Ok? ==>
      r.value.1 == env.known.none &&
      r.value.0 == w.(rest := w.rest.(errors := w.rest.errors[err := w.rest.errors[err].(message := args[0])]))
  {
    var _ :- CheckArgs(env, w, args, [env.known.stringClass]);
    if err !in w.rest.errors then Err(Aborted)
    else Ok((w.(rest := w.rest.(errors := w.rest.errors[err := w.rest.errors[err].(message := args[0])])), env.known.none))
  }

  /** Every Error instance carries error data. */
  ghost predicate ErrorsHaveData(env: Env<Data>, w: W)
  {
    forall e :: IsInstance(env, w, e, env.known.errorClass) ==> e in w.rest.errors
  }

  /** The message setter: an Error and a String, no options. */
  function MessageSetter(env: Env<Data>, w: W, args: seq<Ref>, opts: map<Name, Ref>): (r: Result<(W, Ref), Failure>)
    requires ErrorsHaveData(env, w)
    ensures r.Ok? <==> (CheckArgs(env, w, args, [env.known.errorClass, env.known.stringClass]).Ok? && opts == map[])
    ensures r.Ok? ==>
      args[0] in w.rest.errors && r.value.1 == env.known.none &&
      r.value.0.rest.errors == w.rest.errors[args[0] := w.rest.errors[args[0]].(message := args[1])] &&
      r.value.0.next == w.next
  {
    var _ :- CheckArgs(env, w, args, [env.known.errorClass, env.known.stringClass]);
    var _ :- CheckNoOpts(opts);
    var err := args[0];
    Ok((w.(rest := w.rest.(errors := w.rest.errors[err := w.rest.errors[err].(message := args[1])])), env.known.none))
  }

  /** The stack getter: an Error, no options; the stack in a new Option,
      or none before the error has been thrown. */
  function StackGetter(env: Env<Data>, w: W, args: seq<Ref>, opts: map<Name, Ref>): (r: Result<(W, Ref), Failure>)
    requires ErrorsHaveData(env, w)
    ensures r.Ok? <==> (CheckArgs(env, w, args, [env.known.errorClass]).Ok? && opts == map[])
    ensures r.Ok? && w.rest.errors[args[0]].stack.None? ==> r.value == (w, env.known.none)
    ensures r.Ok? && w.rest.errors[args[0]].stack.Some? ==>
      var (w1, option) := r.value;
      option == w.next && w1.rest.options == w.rest.options[option := w.rest.errors[args[0]].stack] &&
      w1.rest.errors == w.rest.errors
  {
    var _ :- CheckArgs(env, w, args, [env.known.errorClass]);
    var _ :- CheckNoOpts(opts);
    match w.rest.errors[args[0]].stack
    case None => Ok((w, env.known.none))
    case Some(stack) => Ok(OptionNew(w, env.known.optionClass, stack))
  }

  /** The stack setter: an Error and an Option, no options.  none removes
      the stack; otherwise the Option's value must be an Array. */
  function StackSetter(env: Env<Data>, w: W, args: seq<Ref>, opts: map<Name, Ref>): (r: Result<(W, Ref), Failure>)
    requires ErrorsHaveData(env, w)
    ensures r.Ok? ==>
      (CheckArgs(env, w, args, [env.known.errorClass, env.known.optionClass]).Ok? && opts == map[] &&
       r.value.1 == env.known.none && r.value.0.next == w.next)
    ensures r.Ok? && args[1] == env.known.none ==>
      r.value.0.rest.errors == w.rest.errors[args[0] := w.rest.errors[args[0]].(stack := None)]
    ensures r.Ok? && args[1] != env.known.none ==>
      (args[1] in w.rest.options && w.rest.options[args[1]].Some? &&
       IsInstance(env, w, w.rest.options[args[1]].value, env.known.arrayClass) &&
       r.value.0.rest.errors == w.rest.errors[args[0] := w.rest.errors[args[0]].(stack := w.rest.options[args[1]])])
    ensures (CheckArgs(env, w, args, [env.known.errorClass, env.known.optionClass]).Ok? && opts == map[] &&
             args[1] != env.known.none && args[1] in w.rest.options && w.rest.options[args[1]].Some? &&
             !IsInstance(env, w, w.rest.options[args[1]].value, env.known.arrayClass)) ==>
      r == Err(Thrown(Check.TypeMismatch))
  {
    var _ :- CheckArgs(env, w, args, [env.known.errorClass, env.known.optionClass]);
    var _ :- CheckNoOpts(opts);
    var err := args[0];
    if args[1] == env.known.none then
      Ok((w.(rest := w.rest.(errors := w.rest.errors[err := w.rest.errors[err].(stack := None)])), env.known.none))
    else if args[1] !in w.rest.options || w.rest.options[args[1]].None? then Err(Aborted)
    else
      var newstack := w.rest.options[args[1]].value;
      var _ :- CheckType(env, w, env.known.arrayClass, newstack);
      Ok((w.(rest := w.rest.(errors := w.rest.errors[err := w.rest.errors[err].(stack := Some(newstack))])), env.known.none))
  }

  /** Setting the stack through an Option and getting it back gives an
      Option holding the same stack. */
  lemma StackSetThenGet(env: Env<Data>, w: W, err: Ref, option: Ref)
    requires ErrorsHaveData(env, w)
    requires IsInstance(env, w, err, env.known.errorClass) && IsInstance(env, w, option, env.known.optionClass)
    requires StackSetter(env, w, [err, option], map[]).Ok?
    requires var w1 := StackSetter(env, w, [err, option], map[]).value.0;
      ErrorsHaveData(env, w1) && IsInstance(env, w1, err, env.known.errorClass)
    ensures var w1 := StackSetter(env, w, [err, option], map[]).value.0;
      var got := StackGetter(env, w1, [err], map[]);
      got.Ok? &&
      (option == env.known.none ==> got.value.1 == env.known.none) &&
      (option != env.known.none ==> got.value.0.rest.options[got.value.1] == w.rest.options[option])
  {
  }

  /** errorobject_throw: there must be no pending error.  An error thrown
      for the first time gets the current stack (stackframeobject_getstack,
      given as `stack`); if that fails, its error is what is pending
      instead.  A rethrown error keeps its stack. */
  function Throw(w: W, pending: Option<Ref>, err: Ref, stack: Result<Ref, Ref>): (r: Result<(W, Ref), Failure>)
    ensures pending.Some? ==> r == Err(Aborted)
    ensures r.Ok? <==> pending.None? && err in w.rest.errors
    ensures r.Ok? && w.rest.errors[err].stack.Some? ==> r.value == (w, err)
    ensures r.Ok? && w.rest.errors[err].stack.None? && stack.Err? ==> r.value == (w, stack.error)
    ensures r.Ok? && w.rest.errors[err].stack.None? && stack.Ok? ==>
      (r.value.1 == err && r.value.0.rest.errors == w.rest.errors[err := w.rest.errors[err].(stack := Some(stack.value))])
  {
    if pending.Some? || err !in w.rest.errors then Err(Aborted)
    else if w.rest.errors[err].stack.Some? then Ok((w, err))
    else
      match stack
      case Err(e) => Ok((w, e))
      case Ok(s) => Ok((w.(rest := w.rest.(errors := w.rest.errors[err := w.rest.errors[err].(stack := Some(s))])), err))
  }

  /** Throwing, catching and throwing again does not move the stack to
      where it was rethrown. */
  lemma RethrowKeepsStack(w: W, err: Ref, here: Ref, there: Ref)
    requires err in w.rest.errors && w.rest.errors[err].stack.None?
    ensures var first := Throw(w, None, err, Ok(here));
      first.Ok? && first.value.1 == err &&
      var again := Throw(first.value.0, None, err, Ok(there));
      again == Ok(first.value) && again.value.0.rest.errors[err].stack == Some(here)
  {
  }

  /** interpreter_getbuiltin's error for a name the built-in scope lacks. */
  const NoSuchBuiltin := Objects.Exception("VariableError", "cannot find a built-in variable named \"%s\"")

  /** errorobject_throwfmt: a new message String (the formatted `message`),
      the built-in class looked up by name, a new Error of that class, and
      that Error thrown. */
  function ThrowFmt(w: W, pending: Option<Ref>, builtins: map<Name, Ref>, classname: Name, message: Name, stack: Result<Ref, Ref>): (r: Result<(W, Ref), Failure>)
    ensures pending.Some? ==> r == Err(Aborted)
    ensures pending.None? && classname !in builtins ==> r == Err(Thrown(NoSuchBuiltin))
    ensures (pending.None? && classname in builtins) ==> r.Ok?
    ensures r.Ok? && stack.Ok? ==>
      var (w1, err) := r.value;
      err in w1.rest.errors && err in w1.rest.classOf &&
      w1.rest.classOf[err] == builtins[classname] &&
      w1.rest.errors[err].message in w1.rest.strings &&
      w1.rest.strings[w1.rest.errors[err].message] == message &&
      w1.rest.errors[err].stack == Some(stack.value)
  {
    if pending.Some? then Err(Aborted)
    else if classname !in builtins then Err(Thrown(NoSuchBuiltin))
    else
      var msg := w.next;
      var w1 := w.(next := w.next + 1, rest := w.rest.(strings := w.rest.strings[msg := message]));
      var (w2, err) := NewObject(w1, builtins[classname]);
      var w3 := w2.(rest := w2.rest.(errors := w2.rest.errors[err := ErrorData(msg, None)]));
      Throw(w3, None, err, stack)
  }
}
