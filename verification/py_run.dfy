/**
 * The tree-walking interpreter of the Python prototype (pythoninterp/run.py):
 * contexts with local variables and a parent context, `evaluate` for
 * expressions and `execute` for statements, with the statement stack that
 * error objects capture.
 *
 * Contexts live in the store of the Scope module; the builtin context is
 * the one whose parent is `null`.  Attribute reads and writes and calls of
 * Python functions are collaborators the interpreter is given (`Env`); a
 * call may create contexts and assign variables, but never removes a
 * context.
 */
module PyRun {
  import opened Wrappers
  import Scope

  type Name = seq<int>

  /** The node kinds the interpreter walks. */
  datatype Expr =
    | StringLit(text: seq<int>)
    | IntegerLit(value: int)
    | ArrayLit(elements: seq<Expr>)
    | GetVar(varname: Name)
    | GetAttr(obj: Expr, attribute: Name)
    | Call(func: Expr, args: seq<Expr>)
    | BlockLit(statements: seq<Stmt>)

  datatype Stmt =
    | CallStmt(func: Expr, args: seq<Expr>)
    | CreateVar(varname: Name, value: Expr)
    | SetVar(varname: Name, value: Expr)
    | SetAttr(obj: Expr, attribute: Name, value: Expr)

  /** Interpreter objects: the four kinds evaluate builds itself, and
      references to every other object. */
  datatype Value =
    | Str(text: seq<int>)
    | Integer(value: int)
    | Array(elements: seq<Value>)
    | Block(context: nat, statements: seq<Stmt>)
    | Ref(id: nat)

  /** Exceptions that cross evaluate and execute: the language's own error
      object, whose stack is filled in on the way out, the ValueError of a
      missing variable, the KeyError of a missing attribute, and the
      AssertionError of an unbalanced statement stack. */
  datatype Exc =
    | Error(errclass: Name, message: seq<int>, stack: Option<seq<Stmt>>)
    | NoVariable(name: Name)
    | NoAttribute(attribute: Name)
    | StackMismatch

  type Contexts = Scope.Store<Value>

  /** What a called Python function leaves behind. */
  datatype Effect<W> = Effect(ctxs: Contexts, world: W, result: Result<Value, Exc>)

  /** The collaborators: `obj.attributes[name]`, its assignment, and
      `func.python_func(*args)`. */
  datatype Env<!W> = Env(
    attr: (W, Value, Name) -> Option<Value>,
    setAttr: (W, Value, Name, Value) -> W,
    call: (Contexts, W, Value, seq<Value>) -> Effect<W>)

  /** A call keeps the contexts well formed and never removes one. */
  ghost predicate Sound<W(!new)>(env: Env<W>) {
    forall ctxs: Contexts, w: W, f: Value, args: seq<Value> {:trigger env.call(ctxs, w, f, args)} ::
      Scope.WellFormed(ctxs) ==>
        Scope.WellFormed(env.call(ctxs, w, f, args).ctxs) && |env.call(ctxs, w, f, args).ctxs| >= |ctxs|
  }

  /** The interpreter: every context, the rest of the world, and `_stack`. */
  datatype State<W> = State(ctxs: Contexts, world: W, stack: seq<Stmt>)

  predicate Valid<W(!new)>(s: State<W>, c: nat) {
    Scope.WellFormed(s.ctxs) && c < |s.ctxs|
  }

  /** A later state of the same run: nothing removed, the same stack. */
  predicate Later<W(!new)>(s: State<W>, s': State<W>) {
    Scope.WellFormed(s'.ctxs) && |s'.ctxs| >= |s.ctxs| && s'.stack == s.stack
  }

  datatype Out<W, T> = Out(state: State<W>, result: Result<T, Exc>)

  /** get_var: the nearest binding up the parent chain, or the ValueError
      "no variable named" at the builtin context. */
  function GetVarIn(ctxs: Contexts, c: nat, name: Name): (r: Result<Value, Exc>)
    requires Scope.WellFormed(ctxs) && c < |ctxs|
    ensures r.Ok? <==> Scope.Defined(ctxs, c, name)
    ensures r.Err? ==> r.error == NoVariable(name)
    ensures r.Ok? ==> exists k :: (Scope.NearestAt(ctxs, c, name, k) &&
      r.value == ctxs[Scope.Chain(ctxs, c)[k]].vars[name])
  {
    Scope.GetVarIsNearest(ctxs, c, name);
    Scope.GetVar(ctxs, c, name).MapError(_ => NoVariable(name))
  }

  /** set_var_where_defined: replaces the nearest binding, or fails with the
      same ValueError when no context up the chain has one. */
  function SetVarWhereDefined(ctxs: Contexts, c: nat, name: Name, v: Value): (r: Result<Contexts, Exc>)
    requires Scope.WellFormed(ctxs) && c < |ctxs|
    ensures r.Ok? <==> Scope.Defined(ctxs, c, name)
    ensures r.Err? ==> r.error == NoVariable(name)
    ensures r.Ok? ==> |r.value| == |ctxs| && Scope.WellFormed(r.value) && GetVarIn(r.value, c, name) == Ok(v)
    ensures r.Ok? ==> exists k :: (Scope.NearestAt(ctxs, c, name, k) &&
      var d := Scope.Chain(ctxs, c)[k];
      r.value[d] == ctxs[d].(vars := ctxs[d].vars[name := v]) &&
      forall i :: 0 <= i < |ctxs| && i != d ==> r.value[i] == ctxs[i])
  {
    Scope.SetVarUpdatesNearest(ctxs, c, name, v);
    match Scope.SetVar(ctxs, c, name, v)
    case Ok(ctxs') =>
      Scope.SetThenGet(ctxs, c, name, v);
      Ok(ctxs')
    case Err(_) => Err(NoVariable(name))
  }

  /** create_subcontext: a fresh context with no variables whose parent is
      the creator. */
  function CreateSubcontext(ctxs: Contexts, c: nat): (r: (Contexts, nat))
    requires Scope.WellFormed(ctxs) && c < |ctxs|
    ensures Scope.WellFormed(r.0) && r.1 == |ctxs| && |r.0| == |ctxs| + 1 && r.0[..|ctxs|] == ctxs
    ensures r.0[r.1].vars == map[] && r.0[r.1].parent == Some(c)
  {
    Scope.NewSub(ctxs, c)
  }

  /** The contexts Interpreter() starts from: the builtin context, set up
      with parent `null` and then filled with `builtins` (the bindings that
      add_real_builtins and running fake_builtins.ö leave there), and the
      global context, an empty subcontext of it. From the global context a
      name reads its builtin binding, and every other name is the
      "no variable named" error. */
  function Initial(builtins: map<Name, Value>): (r: (Contexts, nat, nat))
    ensures Scope.WellFormed(r.0) && r.1 < |r.0| && r.2 < |r.0|
    ensures Scope.IsBuiltin(r.0, r.1) && r.0[r.2].parent == Some(r.1)
    ensures r.0[r.1].vars == builtins && r.0[r.2].vars == map[]
    ensures forall name :: GetVarIn(r.0, r.2, name) ==
                             if name in builtins then Ok(builtins[name]) else Err(NoVariable(name))
  {
    var ctxs := [Scope.Frame(builtins, None)];
    var (ctxs', global) := CreateSubcontext(ctxs, 0);
    assert forall name :: Scope.GetVar(ctxs', global, name) ==
                            if name in builtins then Ok(builtins[name]) else Err(Scope.NoVariable);
    (ctxs', 0, global)
  }

  /** An expression without calls. */
  predicate Pure(e: Expr) {
    match e
    case ArrayLit(es) => forall i :: 0 <= i < |es| ==> Pure(es[i])
    case GetAttr(o, _) => Pure(o)
    case Call(_, _) => false
    case _ => true
  }

  /** evaluate: literals build new objects, array elements are evaluated
      left to right, a variable is looked up in the context chain, an
      attribute is read after its object, a call evaluates the function,
      then the arguments left to right, then calls, and a block captures
      the current context. */
  function Evaluate<W(!new)>(env: Env<W>, s: State<W>, c: nat, e: Expr): (r: Out<W, Value>)
    requires Sound(env) && Valid(s, c)
    ensures Later(s, r.state)
    decreases e
  {
    match e
    case StringLit(t) => Out(s, Ok(Str(t)))
    case IntegerLit(i) => Out(s, Ok(Integer(i)))
    case ArrayLit(es) =>
      var r := EvaluateAll(env, s, c, es);
      Out(r.state, if r.result.Ok? then Ok(Array(r.result.value)) else Err(r.result.error))
    case GetVar(name) => Out(s, GetVarIn(s.ctxs, c, name))
    case GetAttr(o, a) =>
      var r := Evaluate(env, s, c, o);
      if r.result.Err? then Out(r.state, Err(r.result.error))
      else
        (match env.attr(r.state.world, r.result.value, a)
         case Some(v) => Out(r.state, Ok(v))
         case None => Out(r.state, Err(NoAttribute(a))))
    case Call(f, args) =>
      var rf := Evaluate(env, s, c, f);
      if rf.result.Err? then Out(rf.state, Err(rf.result.error))
      else
        var ra := EvaluateAll(env, rf.state, c, args);
        if ra.result.Err? then Out(ra.state, Err(ra.result.error))
        else
          var eff := env.call(ra.state.ctxs, ra.state.world, rf.result.value, ra.result.value);
          Out(State(eff.ctxs, eff.world, ra.state.stack), eff.result)
    case BlockLit(stmts) => Out(s, Ok(Block(c, stmts)))
  }

  /** The list comprehension over argument or element expressions: left to
      right, stopping at the first exception. */
  function EvaluateAll<W(!new)>(env: Env<W>, s: State<W>, c: nat, es: seq<Expr>): (r: Out<W, seq<Value>>)
    requires Sound(env) && Valid(s, c)
    ensures Later(s, r.state)
    ensures r.result.Ok? ==> |r.result.value| == |es|
    decreases es
  {
    if |es| == 0 then Out(s, Ok([]))
    else
      var r := Evaluate(env, s, c, es[0]);
      if r.result.Err? then Out(r.state, Err(r.result.error))
      else
        var rest := EvaluateAll(env, r.state, c, es[1..]);
        if rest.result.Err? then rest
        else Out(rest.state, Ok([r.result.value] + rest.result.value))
  }

  /** The value of a call-free expression in a context. */
  function PureValue(ctxs: Contexts, c: nat, e: Expr, attr: (Value, Name) -> Option<Value>): (r: Result<Value, Exc>)
    requires Scope.WellFormed(ctxs) && c < |ctxs| && Pure(e)
    decreases e
  {
    match e
    case StringLit(t) => Ok(Str(t))
    case IntegerLit(i) => Ok(Integer(i))
    case ArrayLit(es) =>
      var vs :- PureValues(ctxs, c, es, attr);
      Ok(Array(vs))
    case GetVar(name) => GetVarIn(ctxs, c, name)
    case GetAttr(o, a) =>
      var v :- PureValue(ctxs, c, o, attr);
      (match attr(v, a)
       case Some(x) => Ok(x)
       case None => Err(NoAttribute(a)))
    case BlockLit(stmts) => Ok(Block(c, stmts))
  }

  function PureValues(ctxs: Contexts, c: nat, es: seq<Expr>, attr: (Value, Name) -> Option<Value>): (r: Result<seq<Value>, Exc>)
    requires Scope.WellFormed(ctxs) && c < |ctxs|
    requires forall i :: 0 <= i < |es| ==> Pure(es[i])
    decreases es
  {
    if |es| == 0 then Ok([])
    else
      var v :- PureValue(ctxs, c, es[0], attr);
      var vs :- PureValues(ctxs, c, es[1..], attr);
      Ok([v] + vs)
  }

  /** Evaluating a call-free expression changes nothing, and its value is
      the one the context chain and the attributes determine. */
  lemma {:induction false} PureEvaluation<W(!new)>(env: Env<W>, s: State<W>, c: nat, e: Expr)
    requires Sound(env) && Valid(s, c) && Pure(e)
    ensures Evaluate(env, s, c, e).state == s
    ensures Evaluate(env, s, c, e).result == PureValue(s.ctxs, c, e, (v, a) => env.attr(s.world, v, a))
    decreases e
  {
    match e
    case ArrayLit(es) => PureEvaluationAll(env, s, c, es);
    case GetAttr(o, a) => PureEvaluation(env, s, c, o);
    case _ =>
  }

  lemma {:induction false} PureEvaluationAll<W(!new)>(env: Env<W>, s: State<W>, c: nat, es: seq<Expr>)
    requires Sound(env) && Valid(s, c)
    requires forall i :: 0 <= i < |es| ==> Pure(es[i])
    ensures EvaluateAll(env, s, c, es).state == s
    ensures EvaluateAll(env, s, c, es).result == PureValues(s.ctxs, c, es, (v, a) => env.attr(s.world, v, a))
    decreases es
  {
    if |es| > 0 {
      PureEvaluation(env, s, c, es[0]);
      PureEvaluationAll(env, s, c, es[1..]);
    }
  }

  /** The body of the try block in execute, run with the statement already
      on the stack. */
  function Run<W(!new)>(env: Env<W>, s: State<W>, c: nat, stmt: Stmt): (r: Out<W, ()>)
    requires Sound(env) && Valid(s, c)
    ensures Later(s, r.state)
  {
    match stmt
    case CallStmt(f, args) =>
      var r := Evaluate(env, s, c, Call(f, args));
      Out(r.state, if r.result.Ok? then Ok(()) else Err(r.result.error))
    case CreateVar(name, value) =>
      var r := Evaluate(env, s, c, value);
      if r.result.Err? then Out(r.state, Err(r.result.error))
      else
        var ctxs := r.state.ctxs;
        var ctxs' := ctxs[c := ctxs[c].(vars := ctxs[c].vars[name := r.result.value])];
        Out(r.state.(ctxs := ctxs'), Ok(()))
    case SetVar(name, value) =>
      var r := Evaluate(env, s, c, value);
      if r.result.Err? then Out(r.state, Err(r.result.error))
      else
        (match SetVarWhereDefined(r.state.ctxs, c, name, r.result.value)
         case Ok(ctxs') => Out(r.state.(ctxs := ctxs'), Ok(()))
         case Err(x) => Out(r.state, Err(x)))
    case SetAttr(o, a, value) =>
      var ro := Evaluate(env, s, c, o);
      if ro.result.Err? then Out(ro.state, Err(ro.result.error))
      else
        var rv := Evaluate(env, ro.state, c, value);
        if rv.result.Err? then Out(rv.state, Err(rv.result.error))
        else Out(rv.state.(world := env.setAttr(rv.state.world, ro.result.value, a, rv.result.value)), Ok(()))
  }

  /** `except Errör as e`: the stack is filled in only when unset. */
  function WithStack(x: Exc, stack: seq<Stmt>): (r: Exc)
    ensures !x.Error? ==> r == x
    ensures x.Error? ==> r.Error? && r.errclass == x.errclass && r.message == x.message && r.stack.Some?
    ensures x.Error? && x.stack.Some? ==> r == x
    ensures x.Error? && x.stack.None? ==> r.stack == Some(stack)
  {
    if x.Error? && x.stack.None? then x.(stack := Some(stack)) else x
  }

  /** Once an error has crossed one execute, later ones leave it alone, so
      it keeps the innermost statement chain. */
  lemma StackSetOnce(x: Exc, inner: seq<Stmt>, outer: seq<Stmt>)
    ensures WithStack(WithStack(x, inner), outer) == WithStack(x, inner)
  {
  }

  /** execute: push the statement, run it, attach the stack to an escaping
      error object, and in every case pop the statement again, asserting
      that it is the one on top. */
  function Execute<W(!new)>(env: Env<W>, s: State<W>, c: nat, stmt: Stmt): (r: Out<W, ()>)
    requires Sound(env) && Valid(s, c)
    ensures Scope.WellFormed(r.state.ctxs) && |r.state.ctxs| >= |s.ctxs|
    ensures r.state.stack == s.stack
    ensures r.result == Err(StackMismatch) ==>
      Run(env, s.(stack := s.stack + [stmt]), c, stmt).result == Err(StackMismatch)
    ensures r.result.Err? && r.result.error.Error? ==> r.result.error.stack.Some?
  {
    var pushed := s.(stack := s.stack + [stmt]);
    var body := Run(env, pushed, c, stmt);
    var result := if body.result.Ok? then body.result else Err(WithStack(body.result.error, body.state.stack));
    var stack := body.state.stack;
    if |stack| == 0 || stack[|stack| - 1] != stmt then Out(body.state, Err(StackMismatch))
    else Out(body.state.(stack := stack[..|stack| - 1]), result)
  }

  /** An error escaping a statement carries exactly the statement stack of
      that moment, the running statement on top, unless it already had
      one. */
  lemma ErrorStack<W(!new)>(env: Env<W>, s: State<W>, c: nat, stmt: Stmt)
    requires Sound(env) && Valid(s, c)
    ensures var pushed := s.(stack := s.stack + [stmt]);
      var body := Run(env, pushed, c, stmt);
      Execute(env, s, c, stmt).result
        == if body.result.Ok? then Ok(()) else Err(WithStack(body.result.error, s.stack + [stmt]))
  {
  }

  /** `var x = e;` binds in the current context only: the context's own
      table gains the value, every other context keeps its bindings, so an
      inner `var a = a` shadows the outer `a` without changing it. */
  lemma CreateVarShadows<W(!new)>(env: Env<W>, s: State<W>, c: nat, name: Name, value: Expr)
    requires Sound(env) && Valid(s, c) && Pure(value)
    ensures var v := PureValue(s.ctxs, c, value, (x, a) => env.attr(s.world, x, a));
      var r := Execute(env, s, c, CreateVar(name, value));
      (r.result.Ok? <==> v.Ok?) &&
      (r.result.Ok? ==>
        |r.state.ctxs| == |s.ctxs| && r.state.world == s.world &&
        r.state.ctxs[c].vars == s.ctxs[c].vars[name := v.value] &&
        r.state.ctxs[c].parent == s.ctxs[c].parent &&
        forall i :: 0 <= i < |s.ctxs| && i != c ==> r.state.ctxs[i] == s.ctxs[i])
  {
    var pushed := s.(stack := s.stack + [CreateVar(name, value)]);
    PureEvaluation(env, pushed, c, value);
  }

  /** After `var x = e;` the name reads the new value in that context. */
  lemma CreateVarThenGet<W(!new)>(env: Env<W>, s: State<W>, c: nat, name: Name, value: Expr)
    requires Sound(env) && Valid(s, c) && Pure(value)
    requires Execute(env, s, c, CreateVar(name, value)).result.Ok?
    ensures var r := Execute(env, s, c, CreateVar(name, value));
      GetVarIn(r.state.ctxs, c, name) == PureValue(s.ctxs, c, value, (x, a) => env.attr(s.world, x, a))
  {
    CreateVarShadows(env, s, c, name, value);
  }

  /** `x = e;` evaluates the value, then assigns where the name is
      defined. */
  lemma SetVarExecutes<W(!new)>(env: Env<W>, s: State<W>, c: nat, name: Name, value: Expr)
    requires Sound(env) && Valid(s, c) && Pure(value)
    ensures var v := PureValue(s.ctxs, c, value, (x, a) => env.attr(s.world, x, a));
      var r := Execute(env, s, c, SetVar(name, value));
      (v.Err? ==> r.result.Err?) &&
      (v.Ok? ==> var w := SetVarWhereDefined(s.ctxs, c, name, v.value);
        (r.result.Ok? <==> w.Ok?) &&
        (w.Ok? ==> r.state.ctxs == w.value) &&
        (w.Err? ==> r.result == Err(w.error)))
  {
    var pushed := s.(stack := s.stack + [SetVar(name, value)]);
    PureEvaluation(env, pushed, c, value);
  }

  /** `x = e;` from inside a block assigns in the nearest context that
      defines `x`, the enclosing one when the block's own context does not,
      so the change is visible there after the block. */
  lemma SetVarReachesDefiner<W(!new)>(env: Env<W>, s: State<W>, c: nat, name: Name, value: Expr)
    requires Sound(env) && Valid(s, c) && Pure(value)
    ensures var v := PureValue(s.ctxs, c, value, (x, a) => env.attr(s.world, x, a));
      var r := Execute(env, s, c, SetVar(name, value));
      (r.result.Ok? <==> v.Ok? && Scope.Defined(s.ctxs, c, name)) &&
      (v.Ok? && !Scope.Defined(s.ctxs, c, name) ==> r.result == Err(NoVariable(name))) &&
      (r.result.Ok? ==> exists k :: (Scope.NearestAt(s.ctxs, c, name, k) &&
        var d := Scope.Chain(s.ctxs, c)[k];
        |r.state.ctxs| == |s.ctxs| &&
        r.state.ctxs[d] == s.ctxs[d].(vars := s.ctxs[d].vars[name := v.value]) &&
        GetVarIn(r.state.ctxs, d, name) == Ok(v.value) &&
        forall i :: 0 <= i < |s.ctxs| && i != d ==> r.state.ctxs[i] == s.ctxs[i]))
  {
    SetVarExecutes(env, s, c, name, value);
    hide Execute, Run, Evaluate, EvaluateAll, PureValue, SetVarWhereDefined;
    var v := PureValue(s.ctxs, c, value, (x, a) => env.attr(s.world, x, a));
    if v.Ok? && Scope.Defined(s.ctxs, c, name) {
      var ctxs' := SetVarWhereDefined(s.ctxs, c, name, v.value).value;
      var k :| Scope.NearestAt(s.ctxs, c, name, k) &&
        var d := Scope.Chain(s.ctxs, c)[k];
        ctxs'[d] == s.ctxs[d].(vars := s.ctxs[d].vars[name := v.value]) &&
        forall i :: 0 <= i < |s.ctxs| && i != d ==> ctxs'[i] == s.ctxs[i];
      var d := Scope.Chain(s.ctxs, c)[k];
      assert name in ctxs'[d].vars;
      Scope.GetVarIsNearest(ctxs', d, name);
    }
  }
}
