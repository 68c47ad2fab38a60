/**
 * The runtime of the simplelang prototype: the objects of
 * simplelang/objects.py, the namespaces its tests pin down
 * (tests/test_objects.py), and the contexts and tree-walking interpreter
 * of simplelang/run.py.
 *
 * Namespaces live in one store and refer to their parent by index, so a
 * child sees later changes of its parent the way a Python reference does.
 * Every object carries an identity; `is` compares identities.  Calling a
 * builtin function runs a Python function the interpreter is given; the
 * state records each call with its arguments, which is all the
 * interpreter knows of what `print` does.
 */
module SimpleRun {
  import opened Wrappers
  import Ast = SimpleAst

  // ---------------------------------------------------------------------
  // objects

  /** The classes of objects.py; PlainObject is a bare Object(). */
  datatype Class =
    | NullClass
    | StringClass(pythonString: string)
    | BuiltinFunction(func: nat)
    | PlainObject

  datatype Obj = Obj(id: nat, cls: Class)

  /** The exceptions the runtime raises: ValueError from namespaces and
      from a second NullClass(), AttributeError when an object lacks what
      a statement asks of it, and whatever a builtin's Python function
      raised. */
  datatype Exc = ValueError | AttributeError | Raised(message: string)

  /** The one null object, made when objects.py is imported. */
  const Null := Obj(0, NullClass)

  /** NullClass(): allowed only while the module-level null does not exist
      yet. */
  function NewNull(nullExists: bool, id: nat): (r: Result<Obj, Exc>)
    ensures r.Ok? <==> !nullExists
    ensures r.Ok? ==> r.value.cls == NullClass && r.value.id == id
    ensures r.Err? ==> r.error == ValueError
  {
    if nullExists then Err(ValueError) else Ok(Obj(id, NullClass))
  }

  /** Importing objects.py runs `null = NullClass()` once, with no null
      yet; afterwards every NullClass() raises, so null is the only
      instance. */
  lemma NullIsSingleton(id: nat)
    ensures NewNull(false, 0) == Ok(Null)
    ensures NewNull(true, id) == Err(ValueError)
  {
  }

  /** String(python_string) keeps its text unchanged. */
  function NewString(id: nat, text: string): (r: Obj)
    ensures r.cls.StringClass? && r.cls.pythonString == text && r.id == id
  {
    Obj(id, StringClass(text))
  }

  /** The Python functions behind the builtin functions, by number. */
  type Natives = (nat, seq<Obj>) -> Result<Obj, string>

  /** BuiltinFunction.call(args): python_func(*args); any other object
      has no `call` method. */
  function CallObject(run: Natives, f: Obj, args: seq<Obj>): (r: Result<Obj, Exc>)
    ensures !f.cls.BuiltinFunction? ==> r == Err(AttributeError)
    ensures f.cls.BuiltinFunction? && run(f.cls.func, args).Ok? ==> r == Ok(run(f.cls.func, args).value)
    ensures f.cls.BuiltinFunction? && run(f.cls.func, args).Err? ==> r == Err(Raised(run(f.cls.func, args).error))
  {
    if !f.cls.BuiltinFunction? then Err(AttributeError)
    else match run(f.cls.func, args)
      case Ok(v) => Ok(v)
      case Err(m) => Err(Raised(m))
  }

  // ---------------------------------------------------------------------
  // namespaces

  /** A variable: its value and whether it is a constant. */
  datatype Binding = Binding(value: Obj, isConst: bool)

  datatype Namespace = Namespace(vars: map<string, Binding>, parent: Option<nat>)

  type Namespaces = seq<Namespace>

  /** Every parent was made before its children. */
  predicate WellFormed(nss: Namespaces)
  {
    forall i :: 0 <= i < |nss| ==> nss[i].parent.None? || nss[i].parent.value < i
  }

  /** The namespace `n` and its ancestors, nearest first. */
  function Ancestry(nss: Namespaces, n: nat): (r: seq<nat>)
    requires WellFormed(nss) && n < |nss|
    ensures |r| > 0 && r[0] == n
    ensures forall i :: 0 <= i < |r| ==> r[i] <= n
    decreases n
  {
    match nss[n].parent
    case None => [n]
    case Some(p) => [n] + Ancestry(nss, p)
  }

  /** The nearest namespace that defines `name`, looking from `n` up. */
  function Definer(nss: Namespaces, n: nat, name: string): (r: Option<nat>)
    requires WellFormed(nss) && n < |nss|
    ensures r.Some? ==> r.value <= n && name in nss[r.value].vars
    decreases n
  {
    if name in nss[n].vars then Some(n)
    else match nss[n].parent
      case None => None
      case Some(p) => Definer(nss, p, name)
  }

  /** get(name): the nearest binding's value; ValueError when no
      namespace on the way up defines it. */
  function Get(nss: Namespaces, n: nat, name: string): (r: Result<Obj, Exc>)
    requires WellFormed(nss) && n < |nss|
    ensures r.Err? ==> r.error == ValueError
  {
    match Definer(nss, n, name)
    case None => Err(ValueError)
    case Some(d) => Ok(nss[d].vars[name].value)
  }

  /** set(name, value): changes the nearest binding; a missing name and a
      constant raise ValueError and change nothing. */
  function Set(nss: Namespaces, n: nat, name: string, v: Obj): (r: Result<Namespaces, Exc>)
    requires WellFormed(nss) && n < |nss|
    ensures r.Ok? ==> WellFormed(r.value) && |r.value| == |nss|
    ensures r.Err? ==> r.error == ValueError
  {
    match Definer(nss, n, name)
    case None => Err(ValueError)
    case Some(d) =>
      if nss[d].vars[name].isConst then Err(ValueError)
      else Ok(nss[d := nss[d].(vars := nss[d].vars[name := Binding(v, false)])])
  }

  /** add(name, value, is_const=True): a new local binding; a name the
      namespace itself already has raises ValueError. */
  function Add(nss: Namespaces, n: nat, name: string, v: Obj, isConst: bool := true): (r: Result<Namespaces, Exc>)
    requires WellFormed(nss) && n < |nss|
    ensures r.Ok? <==> name !in nss[n].vars
    ensures r.Ok? ==> WellFormed(r.value) && |r.value| == |nss|
    ensures r.Ok? ==> r.value[n].vars == nss[n].vars[name := Binding(v, isConst)]
    ensures r.Err? ==> r.error == ValueError
  {
    if name in nss[n].vars then Err(ValueError)
    else Ok(nss[n := nss[n].(vars := nss[n].vars[name := Binding(v, isConst)])])
  }

  /** Namespace(name, parent): an empty namespace. */
  function NewNamespace(nss: Namespaces, parent: Option<nat>): (r: (Namespaces, nat))
    requires WellFormed(nss) && (parent.Some? ==> parent.value < |nss|)
    ensures WellFormed(r.0) && r.1 == |nss| && r.0 == nss + [Namespace(map[], parent)]
  {
    (nss + [Namespace(map[], parent)], |nss|)
  }

  // ---------------------------------------------------------------------
  // namespace properties

  /** The definer is the first namespace of the ancestry that has the
      name. */
  lemma {:induction false} DefinerIsFirst(nss: Namespaces, n: nat, name: string)
    requires WellFormed(nss) && n < |nss|
    ensures Definer(nss, n, name).None? ==>
      forall i :: 0 <= i < |Ancestry(nss, n)| ==> name !in nss[Ancestry(nss, n)[i]].vars
    ensures Definer(nss, n, name).Some? ==>
      exists k :: 0 <= k < |Ancestry(nss, n)| && Ancestry(nss, n)[k] == Definer(nss, n, name).value &&
        forall i :: 0 <= i < k ==> name !in nss[Ancestry(nss, n)[i]].vars
    decreases n
  {
    var a := Ancestry(nss, n);
    if name !in nss[n].vars && nss[n].parent.Some? {
      var p := nss[n].parent.value;
      DefinerIsFirst(nss, p, name);
      var b := Ancestry(nss, p);
      assert a == [n] + b;
      match Definer(nss, p, name)
      case None =>
        forall i | 0 <= i < |a| ensures name !in nss[a[i]].vars {
          if i > 0 {
            assert a[i] == b[i - 1];
            assert name !in nss[b[i - 1]].vars;
          }
        }
      case Some(d) =>
        var k :| 0 <= k < |b| && b[k] == d && forall i :: 0 <= i < k ==> name !in nss[b[i]].vars;
        assert a[k + 1] == d;
        forall i | 0 <= i < k + 1 ensures name !in nss[a[i]].vars {
          if i > 0 { assert a[i] == b[i - 1]; }
        }
    } else if name in nss[n].vars {
      assert a[0] == n;
    }
  }

  /** Setting a variable and then reading it gives the new value; the
      variable stays assignable. */
  lemma SetThenGet(nss: Namespaces, n: nat, name: string, v: Obj)
    requires WellFormed(nss) && n < |nss| && Set(nss, n, name, v).Ok?
    ensures Get(Set(nss, n, name, v).value, n, name) == Ok(v)
    ensures Set(Set(nss, n, name, v).value, n, name, v).Ok?
  {
    var d := Definer(nss, n, name).value;
    var nss' := Set(nss, n, name, v).value;
    SameDefiner(nss, nss', n, name);
  }

  /** Whether a namespace has a name is all Definer looks at. */
  lemma {:induction false} SameDefiner(nss: Namespaces, nss': Namespaces, n: nat, name: string)
    requires WellFormed(nss) && WellFormed(nss') && n < |nss| == |nss'|
    requires forall i :: 0 <= i < |nss| ==> nss'[i].parent == nss[i].parent
    requires forall i :: 0 <= i < |nss| ==> (name in nss'[i].vars <==> name in nss[i].vars)
    ensures Definer(nss', n, name) == Definer(nss, n, name)
    decreases n
  {
    if name !in nss[n].vars && nss[n].parent.Some? {
      SameDefiner(nss, nss', nss[n].parent.value, name);
    }
  }

  /** set on a constant raises, and since it returns no new namespaces
      the old value stays. */
  lemma ConstantsCannotBeSet(nss: Namespaces, n: nat, name: string, v: Obj)
    requires WellFormed(nss) && n < |nss|
    requires Definer(nss, n, name).Some? && nss[Definer(nss, n, name).value].vars[name].isConst
    ensures Set(nss, n, name, v) == Err(ValueError)
  {
  }

  /** set succeeds exactly for a defined variable that is not a constant. */
  lemma SetSucceeds(nss: Namespaces, n: nat, name: string, v: Obj)
    requires WellFormed(nss) && n < |nss|
    ensures Set(nss, n, name, v).Ok? <==>
      Get(nss, n, name).Ok? && !nss[Definer(nss, n, name).value].vars[name].isConst
  {
  }

  /** An added variable can be read back, with the constness it was added
      with; by default it is a constant. */
  lemma AddThenGet(nss: Namespaces, n: nat, name: string, v: Obj, isConst: bool)
    requires WellFormed(nss) && n < |nss| && name !in nss[n].vars
    ensures Get(Add(nss, n, name, v, isConst).value, n, name) == Ok(v)
    ensures Set(Add(nss, n, name, v, isConst).value, n, name, v).Ok? <==> !isConst
    ensures Set(Add(nss, n, name, v).value, n, name, v) == Err(ValueError)
  {
  }

  /** A namespace sees its parent's variables unless it has its own. */
  lemma ChildSeesParent(nss: Namespaces, c: nat, name: string)
    requires WellFormed(nss) && c < |nss| && nss[c].parent.Some? && name !in nss[c].vars
    ensures Get(nss, c, name) == Get(nss, nss[c].parent.value, name)
  {
  }

  /** Changing a namespace is invisible to every namespace made before
      it: in particular a parent does not see its child's variables. */
  lemma {:induction false} EarlierUnaffected(nss: Namespaces, nss': Namespaces, c: nat, n: nat, name: string)
    requires WellFormed(nss) && WellFormed(nss') && |nss'| == |nss| && n < c < |nss|
    requires forall i :: 0 <= i < |nss| && i != c ==> nss'[i] == nss[i]
    ensures Get(nss', n, name) == Get(nss, n, name)
    decreases n
  {
    if name !in nss[n].vars && nss[n].parent.Some? {
      EarlierUnaffected(nss, nss', c, nss[n].parent.value, name);
    }
  }

  /** Adding to a child leaves every lookup in its parent as it was. */
  lemma ParentDoesNotSeeChild(nss: Namespaces, c: nat, name: string, v: Obj, other: string)
    requires WellFormed(nss) && c < |nss| && nss[c].parent.Some? && name !in nss[c].vars
    ensures Get(Add(nss, c, name, v).value, nss[c].parent.value, other) == Get(nss, nss[c].parent.value, other)
  {
    EarlierUnaffected(nss, Add(nss, c, name, v).value, c, nss[c].parent.value, other);
  }

  // ---------------------------------------------------------------------
  // contexts

  /** Context(parent): None stands for the builtin context once it
      exists; a context with no parent at all gets a root namespace. */
  function NewContext(nss: Namespaces, builtin: Option<nat>, parent: Option<nat>): (r: (Namespaces, nat))
    requires WellFormed(nss)
    requires builtin.Some? ==> builtin.value < |nss|
    requires parent.Some? ==> parent.value < |nss|
    ensures WellFormed(r.0) && r.1 == |nss| && |r.0| == |nss| + 1 && r.0[..|nss|] == nss
    ensures r.0[r.1].vars == map[]
    ensures parent.Some? ==> r.0[r.1].parent == parent
    ensures parent.None? ==> r.0[r.1].parent == builtin
  {
    var p := if parent.None? then builtin else parent;
    var (nss', n) := NewNamespace(nss, p);
    assert nss'[..|nss|] == nss;
    (nss', n)
  }

  /** The builtin names objects.add_builtins adds. */
  const PrintFunction := Obj(1, BuiltinFunction(0))

  /** Importing run.py: the builtin context (namespace 0, no parent) with
      `null` and `print` added, then an Interpreter's global context
      (namespace 1) under it. */
  function Startup(): (r: Namespaces)
    ensures WellFormed(r) && |r| == 2
  {
    var (nss, b) := NewContext([], None, None);
    var nss := Add(nss, b, "null", Null).value;
    var nss := Add(nss, b, "print", PrintFunction).value;
    var (nss, _) := NewContext(nss, Some(b), Some(b));
    nss
  }

  /** The global context sees the builtins through its parent. */
  lemma StartupBuiltins()
    ensures Startup()[1].parent == Some(0) && Startup()[0].parent.None?
    ensures Get(Startup(), 1, "null") == Ok(Null)
    ensures Get(Startup(), 1, "print") == Ok(PrintFunction)
  {
    assert "null" != "print";
  }

  /** Context(None) after startup is a context under the builtin one. */
  lemma NoneMeansBuiltin(nss: Namespaces, name: string)
    requires WellFormed(nss) && |nss| > 0
    ensures var (nss', c) := NewContext(nss, Some(0), None);
      Get(nss', c, name) == Get(nss', 0, name)
  {
  }

  // ---------------------------------------------------------------------
  // the interpreter

  /** One call of a builtin's Python function, with its arguments. */
  datatype CallRecord = CallRecord(func: nat, args: seq<Obj>)

  /** The interpreter's state: the namespaces, the next object identity,
      and the calls made so far. */
  datatype State = State(nss: Namespaces, next: nat, calls: seq<CallRecord>)

  predicate Valid(st: State, n: nat)
  {
    WellFormed(st.nss) && n < |st.nss|
  }

  /** evaluate(): a string literal makes a new String object, a variable
      is looked up, and an attribute lookup needs `obj.attributes`, which
      no object of objects.py has. */
  function Evaluate(st: State, n: nat, e: Ast.Expr): (r: (State, Result<Obj, Exc>))
    requires Valid(st, n)
    ensures r.0.nss == st.nss && r.0.calls == st.calls && r.0.next >= st.next
  {
    match e
    case String(text) => (st.(next := st.next + 1), Ok(NewString(st.next, text)))
    case GetVar(name) => (st, Get(st.nss, n, name))
    case GetAttr(obj, _) =>
      var (st', o) := Evaluate(st, n, obj);
      (st', if o.Err? then o else Err(AttributeError))
  }

  /** The argument list, left to right, stopping at the first failure. */
  function EvaluateAll(st: State, n: nat, es: seq<Ast.Expr>): (r: (State, Result<seq<Obj>, Exc>))
    requires Valid(st, n)
    ensures r.0.nss == st.nss && r.0.calls == st.calls && r.0.next >= st.next
    ensures r.1.Ok? ==> |r.1.value| == |es|
    decreases |es|
  {
    if |es| == 0 then (st, Ok([]))
    else
      var (st1, v) := Evaluate(st, n, es[0]);
      if v.Err? then (st1, Err(v.error))
      else
        var (st2, vs) := EvaluateAll(st1, n, es[1..]);
        if vs.Err? then (st2, vs) else (st2, Ok([v.value] + vs.value))
  }

  /** One statement of execute(). */
  function Run(run: Natives, st: State, n: nat, s: Ast.Stmt): (r: (State, Option<Exc>))
    requires Valid(st, n)
    ensures Valid(r.0, n) && |r.0.nss| == |st.nss| && r.0.next >= st.next
  {
    match s
    case Call(func, args) =>
      var (st1, f) := Evaluate(st, n, func);
      if f.Err? then (st1, Some(f.error))
      else
        var (st2, vs) := EvaluateAll(st1, n, args);
        if vs.Err? then (st2, Some(vs.error))
        else if !f.value.cls.BuiltinFunction? then (st2, Some(AttributeError))
        else
          var st3 := st2.(calls := st2.calls + [CallRecord(f.value.cls.func, vs.value)]);
          var res := CallObject(run, f.value, vs.value);
          (st3, if res.Err? then Some(res.error) else None)
    case CreateVar(name, value, isConst) =>
      var (st1, v) := Evaluate(st, n, value);
      if v.Err? then (st1, Some(v.error))
      else (match Add(st1.nss, n, name, v.value, isConst)
        case Err(x) => (st1, Some(x))
        case Ok(nss) => (st1.(nss := nss), None))
    case CreateAttr(obj, _, value, _) =>
      var (st1, o) := Evaluate(st, n, obj);
      if o.Err? then (st1, Some(o.error))
      else
        var (st2, v) := Evaluate(st1, n, value);
        (st2, Some(if v.Err? then v.error else AttributeError))
    case SetAttr(obj, _, value) =>
      var (st1, o) := Evaluate(st, n, obj);
      if o.Err? then (st1, Some(o.error))
      else
        var (st2, v) := Evaluate(st1, n, value);
        (st2, Some(if v.Err? then v.error else AttributeError))
    case SetVar(name, value) =>
      var (st1, v) := Evaluate(st, n, value);
      if v.Err? then (st1, Some(v.error))
      else (match Set(st1.nss, n, name, v.value)
        case Err(x) => (st1, Some(x))
        case Ok(nss) => (st1.(nss := nss), None))
  }

  /** execute(): the statements in order, until one raises. */
  function Execute(run: Natives, st: State, n: nat, ss: seq<Ast.Stmt>): (r: (State, Option<Exc>))
    requires Valid(st, n)
    ensures Valid(r.0, n) && |r.0.nss| == |st.nss|
    decreases |ss|
  {
    if |ss| == 0 then (st, None)
    else
      var (st1, x) := Run(run, st, n, ss[0]);
      if x.Some? then (st1, x) else Execute(run, st1, n, ss[1..])
  }

  /** Running two statement lists one after the other is running their
      concatenation. */
  lemma {:induction false} ExecuteAppend(run: Natives, st: State, n: nat, a: seq<Ast.Stmt>, b: seq<Ast.Stmt>)
    requires Valid(st, n)
    ensures var (st1, x) := Execute(run, st, n, a);
      Execute(run, st, n, a + b) == if x.Some? then (st1, x) else Execute(run, st1, n, b)
    decreases |a|
  {
    if |a| == 0 {
      assert a + b == b;
    } else {
      assert (a + b)[1..] == a[1..] + b;
      var (st1, x) := Run(run, st, n, a[0]);
      if x.None? {
        ExecuteAppend(run, st1, n, a[1..], b);
      }
    }
  }

  /** A call evaluates the function first: if that fails, nothing else is
      evaluated and nothing is called. */
  lemma CallFunctionFirst(run: Natives, st: State, n: nat, func: Ast.Expr, args: seq<Ast.Expr>)
    requires Valid(st, n) && Evaluate(st, n, func).1.Err?
    ensures Run(run, st, n, Ast.Call(func, args)) == (Evaluate(st, n, func).0, Some(Evaluate(st, n, func).1.error))
  {
  }

  /** The arguments go left to right: the first failing argument's
      exception is the call's, and no call is made. */
  lemma {:induction false} FirstFailingArgument(st: State, n: nat, es: seq<Ast.Expr>, k: nat)
    requires Valid(st, n) && k < |es|
    requires EvaluateAll(st, n, es[..k]).1.Ok?
    requires Evaluate(EvaluateAll(st, n, es[..k]).0, n, es[k]).1.Err?
    ensures EvaluateAll(st, n, es).1 == Err(Evaluate(EvaluateAll(st, n, es[..k]).0, n, es[k]).1.error)
    decreases k
  {
    if k > 0 {
      var (st1, v) := Evaluate(st, n, es[0]);
      assert es[..k][0] == es[0] && es[..k][1..] == es[1..][..k - 1];
      FirstFailingArgument(st1, n, es[1..], k - 1);
    }
  }

  /** A successful call statement records exactly one call: the builtin's
      number and the argument values in order. */
  lemma CallRecordsArguments(run: Natives, st: State, n: nat, func: Ast.Expr, args: seq<Ast.Expr>)
    requires Valid(st, n)
    requires Run(run, st, n, Ast.Call(func, args)).1.None?
    ensures var (st1, f) := Evaluate(st, n, func);
      var (st2, vs) := EvaluateAll(st1, n, args);
      f.Ok? && vs.Ok? && f.value.cls.BuiltinFunction? &&
      Run(run, st, n, Ast.Call(func, args)).0.calls == st.calls + [CallRecord(f.value.cls.func, vs.value)] &&
      run(f.value.cls.func, vs.value).Ok?
  {
  }

  /** `var` and `const` add to the current namespace with their constness;
      a name already there makes them raise. */
  lemma CreateVarAdds(run: Natives, st: State, n: nat, name: string, value: Ast.Expr, isConst: bool)
    requires Valid(st, n) && Evaluate(st, n, value).1.Ok?
    ensures var (st1, v) := Evaluate(st, n, value);
      var r := Run(run, st, n, Ast.CreateVar(name, value, isConst));
      (r.1.None? <==> name !in st.nss[n].vars) &&
      (r.1.None? ==> r.0.nss[n].vars == st.nss[n].vars[name := Binding(v.value, isConst)])
  {
  }

  /** Assignment goes through set: it succeeds exactly for a defined,
      non-constant variable, which then holds the value. */
  lemma SetVarSets(run: Natives, st: State, n: nat, name: string, value: Ast.Expr)
    requires Valid(st, n) && Evaluate(st, n, value).1.Ok?
    ensures var (st1, v) := Evaluate(st, n, value);
      var r := Run(run, st, n, Ast.SetVar(name, value));
      (r.1.None? <==> Set(st.nss, n, name, v.value).Ok?) &&
      (r.1.None? ==> Get(r.0.nss, n, name) == Ok(v.value))
  {
    var (st1, v) := Evaluate(st, n, value);
    SetSucceeds(st.nss, n, name, v.value);
    if Set(st.nss, n, name, v.value).Ok? {
      SetThenGet(st.nss, n, name, v.value);
    }
  }
}
