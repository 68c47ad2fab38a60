/**
 * The AST evaluator and statement runner of src/runast.c, the Block
 * objects of src/objects/block.c and the parse-then-run loop, `export` and
 * the library scope of src/run.c.
 *
 * Scope objects are references mapped to their place in the scope store
 * of the Scope module; the Array objects, the AstNode objects and the two
 * attributes of a Block that the runtime itself reads (definition_scope
 * and ast_statements) are explicit; everything else of the heap is the
 * abstract rest `A`.  Attribute access, function calls and operators are
 * collaborators.
 */
module RunAst {
  import opened Wrappers
  import Interp
  import Objects
  import Check
  import CheckOptions
  import Attribute
  import Scope
  import Stack
  import Parse
  import Tokenizer

  type Ref = Interp.Ref

  type Name = Interp.Name

  type Failure = Interp.Failure

  type Node = Parse.Node

  /** A Block's definition_scope and ast_statements attributes. */
  datatype BlockData = BlockData(defscope: Ref, ast: Ref)

  datatype State<A> = State(
    store: Scope.Store<Ref>,
    scopeOf: map<Ref, nat>,
    stack: Stack.Frames,
    next: Ref,
    arrays: map<Ref, seq<Ref>>,
    nodes: map<Ref, Node>,
    blocks: map<Ref, BlockData>,
    rest: A)

  /** scope is a Scope object whose place in a well-formed store exists. */
  predicate Live<A>(s: State<A>, scope: Ref)
  {
    Scope.WellFormed(s.store) && scope in s.scopeOf && s.scopeOf[scope] < |s.store|
  }

  /** The collaborators.  `constant` is the String or Integer object the
      parser made for a STR or INT node, `order` is the order in which a
      Mapping's iterator visits a set of keys. */
  datatype Env<!A> = Env(
    isFunction: (State<A>, Ref) -> bool,
    isBlock: (State<A>, Ref) -> bool,
    constant: Node -> Ref,
    getAttr: (State<A>, Ref, Name) -> Result<Ref, Failure>,
    setAttr: (State<A>, Ref, Name, Ref) -> Result<State<A>, Failure>,
    call: (State<A>, Ref, seq<Ref>, map<Name, Ref>) -> (State<A>, Result<Ref, Failure>),
    operator: (State<A>, Parse.Op, Ref, Ref) -> (State<A>, Result<Ref, Failure>),
    order: set<Name> -> seq<Name>,
    nullObject: Ref)

  /** A Mapping's iterator visits every key of the set exactly once. */
  ghost predicate Ordered<A>(env: Env<A>) {
    forall ks: set<Name> {:trigger env.order(ks)} :: Interp.Enumerates(env.order(ks), ks)
  }

  // ---------------------------------------------------------------------
  // Allocation

  /** A new Array object holding elems. */
  function NewArray<A>(s: State<A>, elems: seq<Ref>): (r: (State<A>, Ref))
    ensures r.1 == s.next && r.0.next == s.next + 1
    ensures r.0 == s.(next := s.next + 1, arrays := s.arrays[s.next := elems])
  {
    (s.(next := s.next + 1, arrays := s.arrays[s.next := elems]), s.next)
  }

  /** One new AstNode object per statement, in order. */
  function NewNodes<A>(s: State<A>, stmts: seq<Node>): (r: (State<A>, seq<Ref>))
    ensures r.0.next == s.next + |stmts| && |r.1| == |stmts|
    ensures forall i :: 0 <= i < |stmts| ==> r.1[i] == s.next + i && r.1[i] in r.0.nodes && r.0.nodes[r.1[i]] == stmts[i]
    ensures forall k :: k in s.nodes && !(s.next <= k < s.next + |stmts|) ==> k in r.0.nodes && r.0.nodes[k] == s.nodes[k]
    ensures r.0 == s.(next := r.0.next, nodes := r.0.nodes)
    decreases |stmts|
  {
    if |stmts| == 0 then (s, [])
    else
      var s1 := s.(next := s.next + 1, nodes := s.nodes[s.next := stmts[0]]);
      var (s2, rest) := NewNodes(s1, stmts[1..]);
      (s2, [s.next] + rest)
  }

  /** blockobject_new: a Block whose definition scope is the given scope
      and whose ast_statements is a new Array of the statements' nodes. */
  function NewBlock<A>(s: State<A>, scope: Ref, stmts: seq<Node>): (r: (State<A>, Ref))
    ensures r.0.store == s.store && r.0.scopeOf == s.scopeOf && r.0.stack == s.stack && r.0.rest == s.rest
    ensures r.1 !in s.blocks ==> r.1 in r.0.blocks
    ensures r.1 in r.0.blocks && r.0.blocks[r.1].defscope == scope
    ensures var ast := r.0.blocks[r.1].ast;
      ast in r.0.arrays && |r.0.arrays[ast]| == |stmts| &&
      forall i :: 0 <= i < |stmts| ==> r.0.arrays[ast][i] in r.0.nodes && r.0.nodes[r.0.arrays[ast][i]] == stmts[i]
  {
    var (s1, refs) := NewNodes(s, stmts);
    var (s2, ast) := NewArray(s1, refs);
    var block := s2.next;
    (s2.(next := s2.next + 1, blocks := s2.blocks[block := BlockData(scope, ast)]), block)
  }

  // ---------------------------------------------------------------------
  // Expressions

  /** runast_expression.  Sub-expressions are evaluated left to right and
      the first failure is the result; a statement node is not an
      expression and trips the final assert. */
  function Evaluate<A>(env: Env<A>, s: State<A>, scope: Ref, n: Node): (r: (State<A>, Result<Ref, Failure>))
    requires Ordered(env)
    ensures (n.CreateVar? || n.SetVar? || n.SetAttr?) ==> r == (s, Err(Interp.Aborted))
    ensures (n.Str? || n.Int?) ==> r == (s, Ok(env.constant(n)))
    ensures n.Block? ==>
      (r.1.Ok? && r.0.store == s.store && r.0.scopeOf == s.scopeOf && r.0.stack == s.stack &&
       r.1.value in r.0.blocks && r.0.blocks[r.1.value].defscope == scope)
    ensures n.Array? && r.1.Ok? ==> r.1.value in r.0.arrays && |r.0.arrays[r.1.value]| == |n.elems|
    decreases n, 2
  {
    match n
    case GetVar(_, name) =>
      if !Live(s, scope) then (s, Err(Interp.Aborted))
      else (s, Scope.GetVar(s.store, s.scopeOf[scope], name).MapError(e => Interp.Thrown(e)))
    case Str(_, _) => (s, Ok(env.constant(n)))
    case Int(_, _) => (s, Ok(env.constant(n)))
    case GetAttr(_, o, name) =>
      var (s1, obj) := Evaluate(env, s, scope, o);
      if obj.Err? then (s1, Err(obj.error))
      else (s1, env.getAttr(s1, obj.value, name))
    case Call(_, f, args, opts) =>
      var (s1, func) := Evaluate(env, s, scope, f);
      if func.Err? then (s1, Err(func.error))
      else if !env.isFunction(s1, func.value) then (s1, Err(Interp.Thrown(Check.TypeMismatch)))
      else
        var (s2, vals) := EvaluateAll(env, s1, scope, n, args);
        if vals.Err? then (s2, Err(vals.error))
        else
          var (s3, optvals) := EvaluateOpts(env, s2, scope, n, env.order(opts.Keys));
          if optvals.Err? then (s3, Err(optvals.error))
          else env.call(s3, func.value, vals.value, optvals.value)
    case OpCall(_, op, a, b) =>
      var (s1, lhs) := Evaluate(env, s, scope, a);
      if lhs.Err? then (s1, Err(lhs.error))
      else
        var (s2, rhs) := Evaluate(env, s1, scope, b);
        if rhs.Err? then (s2, Err(rhs.error))
        else env.operator(s2, op, lhs.value, rhs.value)
    case Array(_, es) =>
      var (s1, vals) := EvaluateAll(env, s, scope, n, es);
      if vals.Err? then (s1, Err(vals.error))
      else
        var (s2, arr) := NewArray(s1, vals.value);
        (s2, Ok(arr))
    case Block(_, stmts) =>
      var (s1, block) := NewBlock(s, scope, stmts);
      (s1, Ok(block))
    case CreateVar(_, _, _) => (s, Err(Interp.Aborted))
    case SetVar(_, _, _) => (s, Err(Interp.Aborted))
    case SetAttr(_, _, _, _) => (s, Err(Interp.Aborted))
  }

  /** GETVAR reads the binding of the nearest scope up the chain that
      defines the name, fails exactly when none does, and changes nothing. */
  lemma EvaluateGetVar<A>(env: Env<A>, s: State<A>, scope: Ref, n: Node)
    requires Ordered(env)
    requires n.GetVar? && Live(s, scope)
    ensures var r := Evaluate(env, s, scope, n);
      var c := Scope.Chain(s.store, s.scopeOf[scope]);
      r.0 == s && (r.1.Ok? <==> Scope.Defined(s.store, s.scopeOf[scope], n.name)) &&
      (r.1.Ok? ==> exists k :: Scope.NearestAt(s.store, s.scopeOf[scope], n.name, k) && r.1.value == s.store[c[k]].vars[n.name]) &&
      (r.1.Err? ==> r.1.error == Interp.Thrown(Scope.NoVariable))
  {
    Scope.GetVarIsNearest(s.store, s.scopeOf[scope], n.name);
  }

  /** GETATTR, CALL and OPCALL evaluate their first sub-expression before
      anything else, and its failure is theirs. */
  lemma FirstFailureStops<A>(env: Env<A>, s: State<A>, scope: Ref, n: Node)
    requires Ordered(env)
    requires n.GetAttr? || n.Call? || n.OpCall?
    ensures var first := if n.GetAttr? then n.obj else if n.Call? then n.func else n.lhs;
      var (s1, v) := Evaluate(env, s, scope, first);
      v.Err? ==> Evaluate(env, s, scope, n) == (s1, Err(v.error))
  {
  }

  /** Expressions one after the other, each in the state the previous one
      left; the first failure stops the rest. */
  function EvaluateAll<A>(env: Env<A>, s: State<A>, scope: Ref, parent: Node, es: seq<Node>): (r: (State<A>, Result<seq<Ref>, Failure>))
    requires Ordered(env)
    requires forall k :: 0 <= k < |es| ==> es[k] < parent
    ensures r.1.Ok? ==> |r.1.value| == |es|
    ensures |es| == 0 ==> r == (s, Ok([]))
    decreases parent, 1, |es|
  {
    if |es| == 0 then (s, Ok([]))
    else
      var (s1, v) := Evaluate(env, s, scope, es[0]);
      if v.Err? then (s1, Err(v.error))
      else
        var (s2, vs) := EvaluateAll(env, s1, scope, parent, es[1..]);
        if vs.Err? then (s2, Err(vs.error)) else (s2, Ok([v.value] + vs.value))
  }

  /** The option values of a call, in the order ks names them; a later
      value for the same name replaces an earlier one. */
  function EvaluateOpts<A>(env: Env<A>, s: State<A>, scope: Ref, parent: Node, ks: seq<Name>): (r: (State<A>, Result<map<Name, Ref>, Failure>))
    requires Ordered(env)
    requires parent.Call?
    ensures r.1.Ok? ==> forall k :: k in r.1.value ==> k in parent.opts
    ensures r.1.Ok? ==> forall i :: 0 <= i < |ks| && ks[i] in parent.opts ==> ks[i] in r.1.value
    decreases parent, 0, |ks|
  {
    var none: map<Name, Ref> := map[];
    if |ks| == 0 then (s, Ok(none))
    else if ks[0] !in parent.opts then EvaluateOpts(env, s, scope, parent, ks[1..])
    else
      var (s1, v) := Evaluate(env, s, scope, parent.opts[ks[0]]);
      if v.Err? then (s1, Err(v.error))
      else
        var (s2, vs) := EvaluateOpts(env, s1, scope, parent, ks[1..]);
        if vs.Err? then (s2, Err(vs.error))
        else
          assert forall i :: 1 <= i < |ks| ==> ks[i] == ks[1..][i - 1];
          var m: map<Name, Ref> := map[ks[0] := v.value] + vs.value;
          (s2, Ok(m))
  }

  /** A call hands on every option written in it: when the options
      evaluate, the map passed to the function has exactly the call's
      option names. */
  lemma CallPassesEveryOption<A>(env: Env<A>, s: State<A>, scope: Ref, n: Node)
    requires Ordered(env) && n.Call?
    ensures var r := EvaluateOpts(env, s, scope, n, env.order(n.opts.Keys));
      r.1.Ok? ==> r.1.value.Keys == n.opts.Keys
  {
    var ks := env.order(n.opts.Keys);
    assert Interp.Enumerates(ks, n.opts.Keys);
  }

  /** Expressions that call nothing: names, constants, blocks and arrays
      of them. */
  predicate CallsNothing(n: Node)
    decreases n
  {
    match n
    case GetVar(_, _) => true
    case Str(_, _) => true
    case Int(_, _) => true
    case Block(_, _) => true
    case Array(_, es) => forall k :: 0 <= k < |es| ==> CallsNothing(es[k])
    case _ => false
  }

  /** Evaluating an expression that calls nothing changes no variable, no
      stack frame and nothing outside the explicit heap. */
  lemma {:induction false} CallsNothingKeepsScopes<A>(env: Env<A>, s: State<A>, scope: Ref, n: Node)
    requires Ordered(env)
    requires CallsNothing(n)
    ensures var r := Evaluate(env, s, scope, n);
      r.0.store == s.store && r.0.scopeOf == s.scopeOf && r.0.stack == s.stack && r.0.rest == s.rest
    decreases n, 1
  {
    if n.Array? {
      CallsNothingAll(env, s, scope, n, n.elems);
    }
  }

  lemma {:induction false} CallsNothingAll<A>(env: Env<A>, s: State<A>, scope: Ref, parent: Node, es: seq<Node>)
    requires Ordered(env)
    requires forall k :: 0 <= k < |es| ==> es[k] < parent && CallsNothing(es[k])
    ensures var r := EvaluateAll(env, s, scope, parent, es);
      r.0.store == s.store && r.0.scopeOf == s.scopeOf && r.0.stack == s.stack && r.0.rest == s.rest
    decreases parent, 0, |es|
  {
    if |es| > 0 {
      CallsNothingKeepsScopes(env, s, scope, es[0]);
      var (s1, v) := Evaluate(env, s, scope, es[0]);
      if v.Ok? {
        CallsNothingAll(env, s1, scope, parent, es[1..]);
      }
    }
  }

  // ---------------------------------------------------------------------
  // Statements

  /** mappingobject_set on the scope's own local_vars. */
  function SetLocal<A>(s: State<A>, scope: Ref, name: Name, v: Ref): (r: State<A>)
    requires Live(s, scope)
    ensures Live(r, scope)
    ensures var i := s.scopeOf[scope];
      r == s.(store := s.store[i := s.store[i].(vars := s.store[i].vars[name := v])])
  {
    var i := s.scopeOf[scope];
    var st := s.store[i := s.store[i].(vars := s.store[i].vars[name := v])];
    assert forall j :: 0 <= j < |st| ==> st[j].parent == s.store[j].parent;
    s.(store := st)
  }

  /** scopeobject_setvar: the nearest scope that defines the name gets the
      new value; a name no scope defines is an error. */
  function Assign<A>(s: State<A>, scope: Ref, name: Name, v: Ref): (r: (State<A>, Result<(), Failure>))
    requires Live(s, scope)
    ensures r.1.Ok? <==> Scope.Defined(s.store, s.scopeOf[scope], name)
    ensures r.1.Ok? ==> r.0.scopeOf == s.scopeOf && Live(r.0, scope) && Scope.GetVar(r.0.store, s.scopeOf[scope], name) == Ok(v)
    ensures r.1.Err? ==> r == (s, Err(Interp.Thrown(Scope.NoVariable)))
  {
    var i := s.scopeOf[scope];
    Scope.GetVarIsNearest(s.store, i, name);
    SetVarDefined(s.store, i, name, v);
    match Scope.SetVar(s.store, i, name, v)
    case Err(e) => (s, Err(Interp.Thrown(e)))
    case Ok(st) =>
      Scope.SetThenGet(s.store, i, name, v);
      (s.(store := st), Ok(()))
  }

  /** runast_statement: a call whose value is dropped, a new local
      variable, an assignment to the nearest definer, or an attribute
      assignment; any other node trips the final assert. */
  function RunStatement<A>(env: Env<A>, s: State<A>, scope: Ref, n: Node): (r: (State<A>, Result<(), Failure>))
    requires Ordered(env)
    ensures !Parse.IsStatement(n) ==> r == (s, Err(Interp.Aborted))
    ensures n.Call? ==> r.0 == Evaluate(env, s, scope, n).0 && (r.1.Ok? <==> Evaluate(env, s, scope, n).1.Ok?)
    ensures (n.CreateVar? || n.SetVar?) && Evaluate(env, s, scope, n.value).1.Err? ==>
      r == (Evaluate(env, s, scope, n.value).0, Err(Evaluate(env, s, scope, n.value).1.error))
  {
    match n
    case Call(_, _, _, _) =>
      var (s1, v) := Evaluate(env, s, scope, n);
      (s1, if v.Err? then Err(v.error) else Ok(()))
    case CreateVar(_, name, value) =>
      var (s1, v) := Evaluate(env, s, scope, value);
      if v.Err? then (s1, Err(v.error))
      else if !Live(s1, scope) then (s1, Err(Interp.Aborted))
      else (SetLocal(s1, scope, name, v.value), Ok(()))
    case SetVar(_, name, value) =>
      var (s1, v) := Evaluate(env, s, scope, value);
      if v.Err? then (s1, Err(v.error))
      else if !Live(s1, scope) then (s1, Err(Interp.Aborted))
      else
        Assign(s1, scope, name, v.value)
    case SetAttr(_, o, name, value) =>
      var (s1, obj) := Evaluate(env, s, scope, o);
      if obj.Err? then (s1, Err(obj.error))
      else
        var (s2, v) := Evaluate(env, s1, scope, value);
        if v.Err? then (s2, Err(v.error))
        else
          (match env.setAttr(s2, obj.value, name, v.value)
           case Err(f) => (s2, Err(f))
           case Ok(s3) => (s3, Ok(())))
    case _ => (s, Err(Interp.Aborted))
  }

  /** CREATEVAR binds the name in the current scope only, shadowing any
      outer binding: the current scope now reads the new value and no other
      scope's variables change. */
  lemma CreateVarShadows<A>(env: Env<A>, s: State<A>, scope: Ref, n: Node)
    requires Ordered(env)
    requires n.CreateVar?
    requires var (s1, v) := Evaluate(env, s, scope, n.value); v.Ok? && Live(s1, scope)
    ensures var (s1, v) := Evaluate(env, s, scope, n.value);
      var (s2, ran) := RunStatement(env, s, scope, n);
      var i := s1.scopeOf[scope];
      ran.Ok? && Live(s2, scope) &&
      Scope.GetVar(s2.store, i, n.name) == Ok(v.value) &&
      |s2.store| == |s1.store| &&
      (forall j :: 0 <= j < |s1.store| && j != i ==> s2.store[j] == s1.store[j]) &&
      s2.store[i].parent == s1.store[i].parent &&
      s2.store[i].vars == s1.store[i].vars[n.name := v.value]
  {
  }

  /** set_var succeeds exactly when get_var does. */
  lemma {:induction false} SetVarDefined(st: Scope.Store<Ref>, i: nat, name: Name, v: Ref)
    requires Scope.WellFormed(st) && i < |st|
    ensures Scope.SetVar(st, i, name, v).Ok? <==> Scope.GetVar(st, i, name).Ok?
    decreases i
  {
    if name !in st[i].vars && !Scope.IsBuiltin(st, i) {
      SetVarDefined(st, st[i].parent.value, name, v);
    }
  }

  /** SETATTR evaluates the object before the value, and the value in the
      state the object left. */
  lemma SetAttrOrder<A>(env: Env<A>, s: State<A>, scope: Ref, n: Node)
    requires Ordered(env)
    requires n.SetAttr?
    ensures var (s1, obj) := Evaluate(env, s, scope, n.obj);
      var r := RunStatement(env, s, scope, n);
      (obj.Err? ==> r == (s1, Err(obj.error))) &&
      (obj.Ok? ==>
        var (s2, v) := Evaluate(env, s1, scope, n.value);
        (v.Err? ==> r == (s2, Err(v.error))) &&
        (v.Ok? ==> (r.1.Ok? <==> env.setAttr(s2, obj.value, n.name, v.value).Ok?)))
  {
  }

  // ---------------------------------------------------------------------
  // Block objects (src/objects/block.c)

  /** The statements of an ast array, each either an AstNode or not. */
  function Resolve<A>(s: State<A>, elems: seq<Ref>): (r: seq<Option<Node>>)
    ensures |r| == |elems|
    ensures forall i :: 0 <= i < |elems| ==> (r[i].Some? <==> elems[i] in s.nodes)
    ensures forall i :: 0 <= i < |elems| && elems[i] in s.nodes ==> r[i].value == s.nodes[elems[i]]
  {
    seq(|elems|, i requires 0 <= i < |elems| => if elems[i] in s.nodes then Some(s.nodes[elems[i]]) else None)
  }

  /** The loop of blockobject_run: each element must be an AstNode, and
      each statement runs in the state the previous one left; the first
      failure stops the rest. */
  function RunEach<A>(env: Env<A>, s: State<A>, scope: Ref, items: seq<Option<Node>>): (r: (State<A>, Result<(), Failure>))
    requires Ordered(env)
    ensures r.1.Ok? ==> forall i :: 0 <= i < |items| ==> items[i].Some?
    ensures |items| > 0 && items[0].None? ==> r == (s, Err(Interp.Thrown(Check.TypeMismatch)))
    decreases |items|
  {
    if |items| == 0 then (s, Ok(()))
    else if items[0].None? then (s, Err(Interp.Thrown(Check.TypeMismatch)))
    else
      var (s1, ran) := RunStatement(env, s, scope, items[0].value);
      if ran.Err? then (s1, ran)
      else
        var r := RunEach(env, s1, scope, items[1..]);
        assert r.1.Ok? ==> forall i :: 1 <= i < |items| ==> items[i] == items[1..][i - 1];
        r
  }

  /** Running a + b runs a, then b where a left off. */
  lemma {:induction false} RunEachAppend<A>(env: Env<A>, s: State<A>, scope: Ref, a: seq<Option<Node>>, b: seq<Option<Node>>)
    requires Ordered(env)
    ensures var (s1, ra) := RunEach(env, s, scope, a);
      RunEach(env, s, scope, a + b) == if ra.Err? then (s1, ra) else RunEach(env, s1, scope, b)
    decreases |a|
  {
    hide RunStatement;
    if |a| == 0 {
      assert a + b == b;
    } else {
      assert (a + b)[0] == a[0] && (a + b)[1..] == a[1..] + b;
      if a[0].Some? {
        var (s1, ran) := RunStatement(env, s, scope, a[0].value);
        if ran.Ok? {
          RunEachAppend(env, s1, scope, a[1..], b);
        }
      }
    }
  }

  /** blockobject_run: the block's ast_statements attribute must be an
      Array; its statements run in the given scope, without stack frames of
      their own. */
  function BlockRun<A>(env: Env<A>, s: State<A>, block: Ref, scope: Ref): (r: (State<A>, Result<(), Failure>))
    requires Ordered(env)
    ensures block !in s.blocks ==> r == (s, Err(Interp.Thrown(Attribute.NoSuchAttribute)))
    ensures block in s.blocks && s.blocks[block].ast !in s.arrays ==> r == (s, Err(Interp.Thrown(Check.TypeMismatch)))
    ensures r.1.Ok? ==> (block in s.blocks && s.blocks[block].ast in s.arrays &&
      forall i :: 0 <= i < |s.arrays[s.blocks[block].ast]| ==> s.arrays[s.blocks[block].ast][i] in s.nodes)
  {
    if block !in s.blocks then (s, Err(Interp.Thrown(Attribute.NoSuchAttribute)))
    else
      var ast := s.blocks[block].ast;
      if ast !in s.arrays then (s, Err(Interp.Thrown(Check.TypeMismatch)))
      else
        var items := Resolve(s, s.arrays[ast]);
        var r := RunEach(env, s, scope, items);
        assert r.1.Ok? ==> forall i :: 0 <= i < |items| ==> items[i].Some?;
        r
  }

  /** The statements as the ast array of a fresh block holds them. */
  function Present(stmts: seq<Node>): (r: seq<Option<Node>>)
    ensures |r| == |stmts| && forall i :: 0 <= i < |stmts| ==> r[i] == Some(stmts[i])
  {
    seq(|stmts|, i requires 0 <= i < |stmts| => Some(stmts[i]))
  }

  /** A block written in the source runs exactly its own statements, in
      order, whatever scope it is run in. */
  lemma BlockRunsItsStatements<A>(env: Env<A>, s: State<A>, defscope: Ref, stmts: seq<Node>, scope: Ref)
    requires Ordered(env)
    ensures var (s1, b) := NewBlock(s, defscope, stmts);
      BlockRun(env, s1, b, scope) == RunEach(env, s1, scope, Present(stmts))
  {
    var (s1, b) := NewBlock(s, defscope, stmts);
    var elems := s1.arrays[s1.blocks[b].ast];
    assert Resolve(s1, elems) == Present(stmts);
  }

  /** The Block class's setup method: a Block, a Scope and an Array, which
      become the definition scope and the statements. */
  function BlockSetup<A>(env: Env<A>, s: State<A>, args: seq<Ref>): (r: (State<A>, Result<Ref, Failure>))
    requires Ordered(env)
    ensures r.1.Ok? <==> |args| == 3 && env.isBlock(s, args[0]) && args[1] in s.scopeOf && args[2] in s.arrays
    ensures r.1.Ok? ==> (r.1.value == env.nullObject &&
      r.0 == s.(blocks := s.blocks[args[0] := BlockData(args[1], args[2])]))
    ensures r.1.Err? ==> r.0 == s
  {
    if |args| != 3 then (s, Err(Interp.Thrown(Check.ArgCountError(|args|, 3))))
    else if !env.isBlock(s, args[0]) || args[1] !in s.scopeOf || args[2] !in s.arrays then
      (s, Err(Interp.Thrown(Check.TypeMismatch)))
    else (s.(blocks := s.blocks[args[0] := BlockData(args[1], args[2])]), Ok(env.nullObject))
  }

  /** The Block class's run method: a Block and a Scope; null when every
      statement ran. */
  function BlockRunMethod<A>(env: Env<A>, s: State<A>, args: seq<Ref>): (r: (State<A>, Result<Ref, Failure>))
    requires Ordered(env)
    ensures |args| != 2 ==> r == (s, Err(Interp.Thrown(Check.ArgCountError(|args|, 2))))
    ensures r.1.Ok? ==> r.1.value == env.nullObject && |args| == 2 && BlockRun(env, s, args[0], args[1]).1.Ok?
    ensures |args| == 2 && env.isBlock(s, args[0]) && args[1] in s.scopeOf ==>
      r.0 == BlockRun(env, s, args[0], args[1]).0 && (r.1.Ok? <==> BlockRun(env, s, args[0], args[1]).1.Ok?)
  {
    if |args| != 2 then (s, Err(Interp.Thrown(Check.ArgCountError(|args|, 2))))
    else if !env.isBlock(s, args[0]) || args[1] !in s.scopeOf then (s, Err(Interp.Thrown(Check.TypeMismatch)))
    else
      var (s1, ran) := BlockRun(env, s, args[0], args[1]);
      (s1, if ran.Err? then Err(ran.error) else Ok(env.nullObject))
  }

  /** What setup stores is what run uses: after setup, running the block
      runs the statements of the given array. */
  lemma SetupThenRun<A>(env: Env<A>, s: State<A>, block: Ref, defscope: Ref, ast: Ref, scope: Ref)
    requires Ordered(env)
    requires env.isBlock(s, block) && defscope in s.scopeOf && ast in s.arrays
    ensures var (s1, made) := BlockSetup(env, s, [block, defscope, ast]);
      made.Ok? && BlockRun(env, s1, block, scope) == RunEach(env, s1, scope, Resolve(s, s.arrays[ast]))
  {
  }

  // ---------------------------------------------------------------------
  // Running a file (src/run.c)

  /** The parsing loop of run: statements until the tokens run out; a
      statement that does not parse stops everything. */
  function ParseAll(toks: Parse.Tokens, i: nat): (r: Result<seq<Node>, Parse.Failure>)
    requires i <= |toks|
    ensures r.Ok? ==> forall k :: 0 <= k < |r.value| ==> Parse.IsStatement(r.value[k])
    ensures i == |toks| ==> r == Ok([])
    ensures i < |toks| && r.Ok? ==> 0 < |r.value| <= |toks| - i
    decreases |toks| - i
  {
    if i == |toks| then Ok([])
    else
      var (n, j) :- Parse.ParseStatement(toks, i);
      var rest :- ParseAll(toks, j);
      Ok([n] + rest)
  }

  /** One top-level statement between stack_push and stack_pop; the frame
      names the file, the statement's line and the scope. */
  function RunOne<A>(env: Env<A>, s: State<A>, path: string, scope: Ref, n: Node): (r: (State<A>, Result<(), Failure>))
    requires Ordered(env)
    ensures |s.stack| == Stack.StackMax ==> r == (s, Err(Interp.Thrown(Stack.TooMuchRecursion)))
    ensures |s.stack| < Stack.StackMax && n.lineno == 0 ==> r == (s, Err(Interp.Aborted))
    ensures |s.stack| != Stack.StackMax && n.lineno != 0 ==>
      var pushed := s.stack + [Stack.Frame(path, n.lineno, Some(scope))];
      var (s1, ran) := RunStatement(env, s.(stack := pushed), scope, n);
      (s1.stack == pushed ==> r == (s1.(stack := s.stack), ran))
  {
    if |s.stack| == Stack.StackMax then (s, Err(Interp.Thrown(Stack.TooMuchRecursion)))
    else if n.lineno == 0 then (s, Err(Interp.Aborted))
    else
      var pushed := Stack.Push(s.stack, path, n.lineno, Some(scope)).value;
      var (s1, ran) := RunStatement(env, s.(stack := pushed), scope, n);
      if |s1.stack| == 0 then (s1, Err(Interp.Aborted))
      else
        Stack.PushThenPop(s.stack, path, n.lineno, Some(scope));
        (s1.(stack := Stack.Pop(s1.stack)), ran)
  }

  /** The running loop of run: each statement in turn; the first failure
      stops the rest. */
  function Execute<A>(env: Env<A>, s: State<A>, path: string, scope: Ref, stmts: seq<Node>): (r: (State<A>, Result<(), Failure>))
    requires Ordered(env)
    ensures |stmts| == 0 ==> r == (s, Ok(()))
    ensures |stmts| > 0 && RunOne(env, s, path, scope, stmts[0]).1.Err? ==> r == RunOne(env, s, path, scope, stmts[0])
    ensures |stmts| > 0 && RunOne(env, s, path, scope, stmts[0]).1.Ok? ==>
      r == Execute(env, RunOne(env, s, path, scope, stmts[0]).0, path, scope, stmts[1..])
    decreases |stmts|
  {
    if |stmts| == 0 then (s, Ok(()))
    else
      var (s1, ran) := RunOne(env, s, path, scope, stmts[0]);
      if ran.Err? then (s1, ran) else Execute(env, s1, path, scope, stmts[1..])
  }

  /** Running two statement lists one after the other is running their
      concatenation: the second list runs exactly when the first succeeds,
      in the state the first left. */
  lemma {:induction false} ExecuteAppend<A>(env: Env<A>, s: State<A>, path: string, scope: Ref, a: seq<Node>, b: seq<Node>)
    requires Ordered(env)
    ensures var (s1, ra) := Execute(env, s, path, scope, a);
      Execute(env, s, path, scope, a + b) == if ra.Err? then (s1, ra) else Execute(env, s1, path, scope, b)
    decreases |a|
  {
    hide RunOne;
    if |a| == 0 {
      assert a + b == b;
    } else {
      assert (a + b)[0] == a[0] && (a + b)[1..] == a[1..] + b;
      var (s1, ran) := RunOne(env, s, path, scope, a[0]);
      if ran.Ok? {
        ExecuteAppend(env, s1, path, scope, a[1..], b);
      }
    }
  }

  /** run: tokenize, parse everything, then execute.  A tokenizer failure
      yields no tokens, so nothing runs and the run succeeds; a parse
      failure runs nothing. */
  function Run<A>(env: Env<A>, s: State<A>, path: string, code: seq<int>, scope: Ref): (r: (State<A>, Result<(), Failure>))
    requires Ordered(env)
    ensures Tokenizer.Tokenize(code).Failed? ==> r == (s, Ok(()))
    ensures Tokenizer.Tokenize(code).Tokens? && ParseAll(Tokenizer.Tokenize(code).toks, 0).Err? ==> r == (s, Err(Interp.Aborted))
    ensures Tokenizer.Tokenize(code).Tokens? && |Tokenizer.Tokenize(code).toks| == 0 ==> r == (s, Ok(()))
  {
    match Tokenizer.Tokenize(code)
    case Tokens(toks) =>
      (match ParseAll(toks, 0)
       case Err(_) => (s, Err(Interp.Aborted))
       case Ok(stmts) => Execute(env, s, path, scope, stmts))
    case _ => (s, Ok(()))
  }

  // ---------------------------------------------------------------------
  // Library files (src/run.c)

  const ExportName: Name := Interp.Text("export")

  /** The local variables the export loop hands on: in iteration order, the
      names bound now that were not bound before the block ran. */
  function NewNames(ks: seq<Name>, before: set<Name>, now: map<Name, Ref>): (r: seq<Name>)
    ensures forall i :: 0 <= i < |r| ==> r[i] in now
    ensures |r| <= |ks|
    decreases |ks|
  {
    if |ks| == 0 then []
    else (if ks[0] in now && ks[0] !in before then [ks[0]] else []) + NewNames(ks[1..], before, now)
  }

  lemma {:induction false} NewNamesMembers(ks: seq<Name>, before: set<Name>, now: map<Name, Ref>)
    ensures forall k :: k in NewNames(ks, before, now) <==> (k in ks && k in now && k !in before)
    decreases |ks|
  {
    if |ks| > 0 {
      NewNamesMembers(ks[1..], before, now);
      assert forall k :: k in ks <==> (k == ks[0] || k in ks[1..]);
    }
  }

  predicate Distinct(ks: seq<Name>)
  {
    forall i, j :: 0 <= i < j < |ks| ==> ks[i] != ks[j]
  }

  lemma {:induction false} NewNamesDistinct(ks: seq<Name>, before: set<Name>, now: map<Name, Ref>)
    requires Distinct(ks)
    ensures Distinct(NewNames(ks, before, now))
    decreases |ks|
  {
    if |ks| > 0 {
      NewNamesDistinct(ks[1..], before, now);
      NewNamesMembers(ks[1..], before, now);
      assert ks[0] !in ks[1..] by {
        forall i | 0 <= i < |ks[1..]| ensures ks[1..][i] != ks[0] {
          assert ks[1..][i] == ks[i + 1];
        }
      }
      var tail := NewNames(ks[1..], before, now);
      var r := NewNames(ks, before, now);
      assert ks[0] !in tail;
      if ks[0] in now && ks[0] !in before {
        assert r == [ks[0]] + tail;
        forall i, j | 0 <= i < j < |r| ensures r[i] != r[j] {
          assert r[j] == tail[j - 1];
          if i > 0 {
            assert r[i] == tail[i - 1];
          } else {
            assert r[j] in tail;
          }
        }
      } else {
        assert r == tail;
      }
    }
  }

  /** When the iteration visits every local exactly once, export hands on
      exactly the variables the block added, each once. */
  lemma NewNamesExactly(ks: seq<Name>, before: set<Name>, now: map<Name, Ref>)
    requires Interp.Enumerates(ks, now.Keys)
    ensures var r := NewNames(ks, before, now);
      (forall k :: k in r <==> k in now && k !in before) && Distinct(r)
  {
    NewNamesMembers(ks, before, now);
    NewNamesDistinct(ks, before, now);
  }

  /** names lists each variable bound now but not before, once each. */
  predicate AddedExactly(names: seq<Name>, before: set<Name>, now: map<Name, Ref>)
  {
    (forall i :: 0 <= i < |names| ==> names[i] in now && names[i] !in before) &&
    (forall k :: k in now && k !in before ==> k in names) &&
    Distinct(names)
  }

  /** attribute_setwithstringobj on the library object for each name, in
      order; the first failure stops the rest. */
  function SetAttrs<A>(env: Env<A>, s: State<A>, lib: Ref, names: seq<Name>, vals: map<Name, Ref>): (r: Result<State<A>, Failure>)
    requires forall i :: 0 <= i < |names| ==> names[i] in vals
    ensures |names| == 0 ==> r == Ok(s)
    ensures |names| > 0 && env.setAttr(s, lib, names[0], vals[names[0]]).Err? ==>
      r == Err(env.setAttr(s, lib, names[0], vals[names[0]]).error)
    decreases |names|
  {
    if |names| == 0 then Ok(s)
    else
      var s1 :- env.setAttr(s, lib, names[0], vals[names[0]]);
      SetAttrs(env, s1, lib, names[1..], vals)
  }

  /** export_cfunc: one Block and no options; the block runs in its own
      definition scope, and every local variable it added there becomes an
      attribute of the library object. */
  function Export<A>(env: Env<A>, s: State<A>, lib: Ref, args: seq<Ref>, opts: map<Name, Ref>): (r: (State<A>, Result<(), Failure>))
    requires Ordered(env)
    ensures |args| != 1 ==> r == (s, Err(Interp.Thrown(Check.ArgCountError(|args|, 1))))
    ensures |args| == 1 && !env.isBlock(s, args[0]) ==> r == (s, Err(Interp.Thrown(Check.TypeMismatch)))
    ensures |args| == 1 && env.isBlock(s, args[0]) && opts != map[] ==> r == (s, Err(Interp.Thrown(CheckOptions.UnexpectedOption)))
    ensures r.1.Ok? ==> (|args| == 1 && args[0] in s.blocks &&
      BlockRun(env, s, args[0], s.blocks[args[0]].defscope).1.Ok?)
    ensures r.1.Ok? ==>
      (|args| == 1 && args[0] in s.blocks && Live(s, s.blocks[args[0]].defscope) &&
       var scope := s.blocks[args[0]].defscope;
       var s1 := BlockRun(env, s, args[0], scope).0;
       Live(s1, scope) &&
       var before := s.store[s.scopeOf[scope]].vars.Keys;
       var now := s1.store[s1.scopeOf[scope]].vars;
       exists names: seq<Name> :: AddedExactly(names, before, now) && SetAttrs(env, s1, lib, names, now) == Ok(r.0))
  {
    if |args| != 1 then (s, Err(Interp.Thrown(Check.ArgCountError(|args|, 1))))
    else if !env.isBlock(s, args[0]) then (s, Err(Interp.Thrown(Check.TypeMismatch)))
    else if opts != map[] then (s, Err(Interp.Thrown(CheckOptions.UnexpectedOption)))
    else if args[0] !in s.blocks || !Live(s, s.blocks[args[0]].defscope) then (s, Err(Interp.Aborted))
    else
      var scope := s.blocks[args[0]].defscope;
      var before := s.store[s.scopeOf[scope]].vars.Keys;
      var (s1, ran) := BlockRun(env, s, args[0], scope);
      if ran.Err? then (s1, ran)
      else if !Live(s1, scope) then (s1, Err(Interp.Aborted))
      else
        var now := s1.store[s1.scopeOf[scope]].vars;
        var names := NewNames(env.order(now.Keys), before, now);
        NewNamesExactly(env.order(now.Keys), before, now);
        assert AddedExactly(names, before, now);
        (match SetAttrs(env, s1, lib, names, now)
         case Err(f) => (s1, Err(f))
         case Ok(s2) => (s2, Ok(())))
  }

  /** run_libfile before the file is read: a new subscope of the built-in
      scope whose only local variable is `export`, bound to a new function
      object that exports into the library. */
  function LibScope<A>(s: State<A>, builtins: Ref): (r: (State<A>, Ref))
    requires Live(s, builtins)
    ensures Live(r.0, r.1) && r.1 == s.next && r.0.next == s.next + 2
    ensures var i := r.0.scopeOf[r.1];
      i == |s.store| && |r.0.store| == |s.store| + 1 && r.0.store[..|s.store|] == s.store &&
      r.0.store[i].parent == Some(s.scopeOf[builtins]) && r.0.store[i].vars == map[ExportName := s.next + 1]
  {
    var (st, i) := Scope.NewSub(s.store, s.scopeOf[builtins]);
    var scope := s.next;
    var s1 := s.(store := st, scopeOf := s.scopeOf[scope := i], next := s.next + 2);
    (SetLocal(s1, scope, ExportName, s.next + 1), scope)
  }

  /** Code in a library file sees `export`, and every other name exactly as
      the built-in scope does. */
  lemma LibScopeLookups<A>(s: State<A>, builtins: Ref, name: Name)
    requires Live(s, builtins)
    ensures var (s1, scope) := LibScope(s, builtins);
      Scope.GetVar(s1.store, s1.scopeOf[scope], name) ==
        if name == ExportName then Ok(s.next + 1) else Scope.GetVar(s.store, s.scopeOf[builtins], name)
  {
    var (s1, scope) := LibScope(s, builtins);
    if name != ExportName {
      Scope.OlderLookups(s.store, s1.store, s.scopeOf[builtins], name);
    }
  }
}
