/**
 * The first C parser, src/ast.c: string, integer, variable and array
 * expressions with `.name` attribute chains, and call statements.  The
 * cursor `*curtok` walks a linked token list; here it is the list of tokens
 * from the cursor on, and the NULL after the last token is the empty list.
 *
 * Every `assert` that invalid syntax trips, and every dereference of that
 * NULL, is the failure `Aborted`.  Allocations succeed, except the one
 * parse_string makes for a token shorter than its two quotes, whose size_t
 * length wraps around to a request no allocator can meet.
 */
module LegacyAst {
  import opened Wrappers
  import T = Tokenizer
  import P = Parse
  import PI = ParseInverse

  /** The node kinds of ast.h and their infos. */
  datatype Info =
    | Str(chars: seq<int>)
    | Int(valstr: seq<int>)
    | Array(items: seq<Node>)
    | Block(items: seq<Node>)
    | GetVar(varname: seq<int>)
    | GetAttr(obj: Node, attr: seq<int>)
    | CreateVar(varname: seq<int>, val: Node)
    | SetVar(varname: seq<int>, val: Node)
    | SetAttr(obj: Node, attr: seq<int>, val: Node)
    | Call(func: Node, args: seq<Node>)

  /** An AST node: its line number (0 for expressions) and its info. */
  datatype Node = Node(lineno: nat, info: Info)

  datatype Failure = Aborted | NoMemory

  type Tokens = seq<T.Token>

  type Parsed<X> = Result<(X, Tokens), Failure>

  /** A call takes at most this many arguments. */
  const MaxArgs: nat := 100

  // ---------------------------------------------------------------------
  // astnode_copy

  /** copy_info and astnode_copy: a new node of the same kind and line
      number, whose strings and children are copies. */
  function Copy(n: Node): (r: Node)
    ensures r.lineno == n.lineno
    decreases n, 1
  {
    Node(n.lineno, match n.info
      case Str(cs) => Str(cs)
      case Int(v) => Int(v)
      case Array(items) => Array(CopyAll(n, items))
      case Block(items) => Block(CopyAll(n, items))
      case GetVar(name) => GetVar(name)
      case GetAttr(obj, attr) => GetAttr(Copy(obj), attr)
      case CreateVar(name, val) => CreateVar(name, Copy(val))
      case SetVar(name, val) => SetVar(name, Copy(val))
      case SetAttr(obj, attr, val) => SetAttr(Copy(obj), attr, Copy(val))
      case Call(func, args) => Call(Copy(func), CopyAll(n, args)))
  }

  /** The loop that copies items or arguments one by one. */
  function CopyAll(parent: Node, ns: seq<Node>): (r: seq<Node>)
    requires forall i :: 0 <= i < |ns| ==> ns[i] < parent
    ensures |r| == |ns|
    decreases parent, 0, |ns|
  {
    if |ns| == 0 then [] else [Copy(ns[0])] + CopyAll(parent, ns[1..])
  }

  /** The copy has the same kind, line number and structure all the way
      down: it equals the original. */
  lemma {:induction false} CopyIsDeep(n: Node)
    ensures Copy(n) == n
    decreases n, 1
  {
    match n.info
    case Array(items) => CopyAllIsDeep(n, items);
    case Block(items) => CopyAllIsDeep(n, items);
    case GetAttr(obj, _) => CopyIsDeep(obj);
    case CreateVar(_, val) => CopyIsDeep(val);
    case SetVar(_, val) => CopyIsDeep(val);
    case SetAttr(obj, _, val) => CopyIsDeep(obj); CopyIsDeep(val);
    case Call(func, args) => CopyIsDeep(func); CopyAllIsDeep(n, args);
    case _ =>
  }

  lemma {:induction false} CopyAllIsDeep(parent: Node, ns: seq<Node>)
    requires forall i :: 0 <= i < |ns| ==> ns[i] < parent
    ensures CopyAll(parent, ns) == ns
    decreases parent, 0, |ns|
  {
    if |ns| > 0 {
      CopyIsDeep(ns[0]);
      CopyAllIsDeep(parent, ns[1..]);
      assert [ns[0]] + ns[1..] == ns;
    }
  }

  // ---------------------------------------------------------------------
  // the parser

  /** An OP token of the one character c. */
  predicate IsOp(toks: Tokens, c: char)
  {
    |toks| > 0 && P.IsOp(toks[0], c)
  }

  /** expression_coming_up: a string, an integer or an identifier, or an
      operator whose first character opens a call, a block or an array. */
  predicate ExpressionComingUp(toks: Tokens)
  {
    |toks| > 0 &&
    (toks[0].kind in {T.Str, T.Int, T.Id} ||
     (toks[0].kind == T.Op && |toks[0].str| > 0 && toks[0].str[0] in {'(' as int, '{' as int, '[' as int}))
  }

  /** parse_string: the token minus its first and last characters, with no
      escape sequences. */
  function ParseString(toks: Tokens): (r: Parsed<Node>)
    ensures r.Ok? <==> |toks| > 0 && toks[0].kind == T.Str && |toks[0].str| >= 2
    ensures r.Ok? ==> (r.value.1 == toks[1..] &&
                       r.value.0 == Node(0, Str(toks[0].str[1..|toks[0].str| - 1])))
  {
    if |toks| == 0 || toks[0].kind != T.Str then Err(Aborted)
    else if |toks[0].str| < 2 then Err(NoMemory)
    else Ok((Node(0, Str(toks[0].str[1..|toks[0].str| - 1])), toks[1..]))
  }

  /** The `(char)` cast of parse_int: the low eight bits of a code point. */
  function ToChar(c: int): (r: int)
    ensures 0 <= r < 256
    ensures 0 <= c < 256 ==> r == c
  {
    c % 256
  }

  /** parse_int: the token's characters, kept as text. */
  function ParseInt(toks: Tokens): (r: Parsed<Node>)
    ensures r.Ok? <==> |toks| > 0 && toks[0].kind == T.Int
    ensures r.Ok? ==> (r.value.1 == toks[1..] && r.value.0.lineno == 0 && r.value.0.info.Int? &&
                       |r.value.0.info.valstr| == |toks[0].str| &&
                       forall k :: 0 <= k < |toks[0].str| ==> r.value.0.info.valstr[k] == ToChar(toks[0].str[k]))
  {
    if |toks| == 0 || toks[0].kind != T.Int then Err(Aborted)
    else
      var t := toks[0].str;
      Ok((Node(0, Int(seq(|t|, k requires 0 <= k < |t| => ToChar(t[k])))), toks[1..]))
  }

  /** parse_getvar. */
  function ParseGetVar(toks: Tokens): (r: Parsed<Node>)
    ensures r.Ok? <==> |toks| > 0 && toks[0].kind == T.Id
    ensures r.Ok? ==> r == Ok((Node(0, GetVar(toks[0].str)), toks[1..]))
  {
    if |toks| == 0 || toks[0].kind != T.Id then Err(Aborted)
    else Ok((Node(0, GetVar(toks[0].str)), toks[1..]))
  }

  /** The first half of parse_expression: one of the four primaries by
      token kind.  An operator other than `[` reaches parse_array's assert
      and aborts. */
  function Primary(toks: Tokens): (r: Parsed<Node>)
    requires |toks| > 0
    ensures r.Ok? ==> |r.value.1| < |toks| && r.value.0.lineno == 0
    decreases |toks|, 1
  {
    match toks[0].kind
    case Str => ParseString(toks)
    case Int => ParseInt(toks)
    case Id => ParseGetVar(toks)
    case Op => if |toks[0].str| == 1 then ParseArray(toks) else Err(Aborted)
    case Keyword => Err(Aborted)
  }

  /** parse_expression: a primary, then the attribute loop. */
  function ParseExpression(toks: Tokens): (r: Parsed<Node>)
    ensures r.Ok? ==> |r.value.1| < |toks| && r.value.0.lineno == 0
    decreases |toks|, 2
  {
    if |toks| == 0 then Err(Aborted)
    else
      var (first, rest) :- Primary(toks);
      Attributes(first, rest)
  }

  /** The attribute loop: each `.name` wraps what came before. */
  function Attributes(result: Node, toks: Tokens): (r: Parsed<Node>)
    requires result.lineno == 0
    ensures r.Ok? ==> |r.value.1| <= |toks| && r.value.0.lineno == 0
    decreases |toks|
  {
    if !IsOp(toks, '.') then Ok((result, toks))
    else if |toks| < 2 || toks[1].kind != T.Id then Err(Aborted)
    else Attributes(Node(0, GetAttr(result, toks[1].str)), toks[2..])
  }

  /** parse_array: `[`, expressions up to `]`, and `]`. */
  function ParseArray(toks: Tokens): (r: Parsed<Node>)
    ensures r.Ok? ==> |r.value.1| < |toks| && r.value.0.lineno == 0 && r.value.0.info.Array?
    decreases |toks|, 0
  {
    if !IsOp(toks, '[') || |toks| < 2 then Err(Aborted)
    else
      var (items, rest) :- Elements([], toks[1..]);
      Ok((Node(0, Array(items)), rest))
  }

  /** The element loop of parse_array, with the elements read so far; it
      ends by consuming the `]`. */
  function Elements(acc: seq<Node>, toks: Tokens): (r: Parsed<seq<Node>>)
    ensures r.Ok? ==> |r.value.1| < |toks|
    decreases |toks|, 3
  {
    if |toks| == 0 then Err(Aborted)
    else if IsOp(toks, ']') then Ok((acc, toks[1..]))
    else
      var (e, rest) :- ParseExpression(toks);
      Elements(acc + [e], rest)
  }

  /** parse_call: the line of the token after the function, then up to
      MaxArgs expressions; one more expression coming up aborts. */
  function ParseCall(func: Node, toks: Tokens): (r: Parsed<Node>)
    ensures r.Ok? ==> (|r.value.1| <= |toks| && r.value.0.info.Call? && r.value.0.info.func == func &&
                       |r.value.0.info.args| <= MaxArgs && !ExpressionComingUp(r.value.1))
  {
    if |toks| == 0 then Err(Aborted)
    else
      var (args, rest) :- CallArgs([], toks);
      Ok((Node(toks[0].lineno, Call(func, args)), rest))
  }

  function CallArgs(args: seq<Node>, toks: Tokens): (r: Parsed<seq<Node>>)
    requires |args| <= MaxArgs
    ensures r.Ok? ==> |r.value.1| <= |toks| && |r.value.0| <= MaxArgs && !ExpressionComingUp(r.value.1)
    decreases |toks|
  {
    if !ExpressionComingUp(toks) then Ok((args, toks))
    else if |args| == MaxArgs then Err(Aborted)
    else
      var (e, rest) :- ParseExpression(toks);
      CallArgs(args + [e], rest)
  }

  /** parse_statement: an expression, the call it starts, and `;`. */
  function ParseStatement(toks: Tokens): (r: Parsed<Node>)
    ensures r.Ok? ==> |r.value.1| < |toks| && r.value.0.info.Call?
  {
    var (func, rest) :- ParseExpression(toks);
    var (call, rest') :- ParseCall(func, rest);
    if !IsOp(rest', ';') then Err(Aborted) else Ok((call, rest'[1..]))
  }

  // ---------------------------------------------------------------------
  // the printer and round trips

  /** An expression the parser can build: line 0, integer text of bytes,
      and only expression kinds all the way down. */
  predicate IsExpr(n: Node)
    decreases n, 1
  {
    n.lineno == 0 &&
    match n.info
    case Str(_) => true
    case Int(v) => forall k :: 0 <= k < |v| ==> 0 <= v[k] < 256
    case GetVar(_) => true
    case GetAttr(obj, _) => IsExpr(obj)
    case Array(items) => AllExprs(n, items)
    case _ => false
  }

  predicate AllExprs(parent: Node, ns: seq<Node>)
    requires forall i :: 0 <= i < |ns| ==> ns[i] < parent
    decreases parent, 0, |ns|
  {
    |ns| == 0 || (IsExpr(ns[0]) && AllExprs(parent, ns[1..]))
  }

  /** The tokens of an expression, all on line L. */
  function PrintExpr(n: Node, L: nat): (r: Tokens)
    requires IsExpr(n)
    ensures |r| > 0 && r[0].lineno == L && ExpressionComingUp(r) && !IsOp(r, '.') && !IsOp(r, ']')
    decreases n, 1
  {
    match n.info
    case Str(cs) => [T.Token(T.Str, [T.Quote] + cs + [T.Quote], L)]
    case Int(v) => [T.Token(T.Int, v, L)]
    case GetVar(name) => [PI.IdTok(name, L)]
    case GetAttr(obj, attr) => PrintExpr(obj, L) + [PI.OpTok('.', L), PI.IdTok(attr, L)]
    case Array(items) => [PI.OpTok('[', L)] + (PrintExprs(n, items, L) + [PI.OpTok(']', L)])
  }

  function PrintExprs(parent: Node, ns: seq<Node>, L: nat): (r: Tokens)
    requires forall i :: 0 <= i < |ns| ==> ns[i] < parent
    requires AllExprs(parent, ns)
    decreases parent, 0, |ns|
  {
    if |ns| == 0 then [] else PrintExpr(ns[0], L) + PrintExprs(parent, ns[1..], L)
  }

  /** What may follow an expression: anything but a `.`. */
  predicate Ends(rest: Tokens)
  {
    !IsOp(rest, '.')
  }

  /** The attribute loop stops before anything but a `.`. */
  lemma AttributesStop(e: Node, rest: Tokens)
    requires e.lineno == 0 && Ends(rest)
    ensures Attributes(e, rest) == Ok((e, rest))
  {
  }

  /** One turn of the attribute loop. */
  lemma AttributesStep(e: Node, attr: seq<int>, L: nat, more: Tokens)
    requires e.lineno == 0
    ensures Attributes(e, [PI.OpTok('.', L), PI.IdTok(attr, L)] + more) == Attributes(Node(0, GetAttr(e, attr)), more)
  {
    assert ([PI.OpTok('.', L), PI.IdTok(attr, L)] + more)[2..] == more;
  }

  /** A primary that parses hands over to the attribute loop. */
  lemma ExpressionFrom(toks: Tokens, first: Node, rest: Tokens)
    requires |toks| > 0 && Primary(toks) == Ok((first, rest))
    ensures ParseExpression(toks) == Attributes(first, rest)
  {
  }

  /** The printed expression leaves the parser in the attribute loop with
      the expression itself. */
  lemma {:induction false} ExpressionThen(e: Node, L: nat, more: Tokens)
    requires IsExpr(e)
    ensures ParseExpression(PrintExpr(e, L) + more) == Attributes(e, more)
    decreases e, 1
  {
    var toks := PrintExpr(e, L) + more;
    match e.info
    case Str(cs) =>
      var t := [T.Quote] + cs + [T.Quote];
      assert t[1..|t| - 1] == cs;
      assert toks[1..] == more;
      ExpressionFrom(toks, e, more);
    case Int(v) =>
      assert toks[1..] == more;
      assert seq(|v|, k requires 0 <= k < |v| => ToChar(v[k])) == v;
      ExpressionFrom(toks, e, more);
    case GetVar(_) =>
      assert toks[1..] == more;
      ExpressionFrom(toks, e, more);
    case GetAttr(obj, attr) =>
      var tail := [PI.OpTok('.', L), PI.IdTok(attr, L)] + more;
      assert toks == PrintExpr(obj, L) + tail;
      ExpressionThen(obj, L, tail);
      AttributesStep(obj, attr, L, more);
    case Array(items) =>
      ArrayThen(e, L, more);
  }

  /** An array literal is read back through its `]`. */
  lemma {:induction false} ArrayThen(e: Node, L: nat, more: Tokens)
    requires IsExpr(e) && e.info.Array?
    ensures ParseExpression(PrintExpr(e, L) + more) == Attributes(e, more)
    decreases e, 0
  {
    var items := e.info.items;
    var close := [PI.OpTok(']', L)] + more;
    var toks := PrintExpr(e, L) + more;
    assert toks == [PI.OpTok('[', L)] + (PrintExprs(e, items, L) + close);
    assert toks[1..] == PrintExprs(e, items, L) + close;
    hide PrintExpr, PrintExprs, Elements, Attributes, ParseExpression;
    ElementsRoundTrip(e, [], items, L, more);
    assert [] + items == items;
    assert ParseArray(toks) == Ok((e, more));
    ExpressionFrom(toks, e, more);
  }

  /** Round trip of one expression. */
  lemma ExpressionRoundTrip(e: Node, L: nat, rest: Tokens)
    requires IsExpr(e) && Ends(rest)
    ensures ParseExpression(PrintExpr(e, L) + rest) == Ok((e, rest))
    decreases e, 2
  {
    ExpressionThen(e, L, rest);
    AttributesStop(e, rest);
  }

  /** The element loop stops at `]` and consumes it. */
  lemma ElementsDone(acc: seq<Node>, L: nat, rest: Tokens)
    ensures Elements(acc, [PI.OpTok(']', L)] + rest) == Ok((acc, rest))
  {
    assert ([PI.OpTok(']', L)] + rest)[1..] == rest;
  }

  /** One turn of the element loop. */
  lemma ElementsMore(acc: seq<Node>, toks: Tokens, e: Node, tail: Tokens)
    requires !IsOp(toks, ']') && ParseExpression(toks) == Ok((e, tail))
    ensures Elements(acc, toks) == Elements(acc + [e], tail)
  {
  }

  /** The printed elements are one expression followed by the rest. */
  lemma PrintExprsCons(parent: Node, ns: seq<Node>, L: nat, close: Tokens)
    requires |ns| > 0
    requires forall i :: 0 <= i < |ns| ==> ns[i] < parent
    requires AllExprs(parent, ns)
    ensures IsExpr(ns[0]) && AllExprs(parent, ns[1..])
    ensures PrintExprs(parent, ns, L) + close == PrintExpr(ns[0], L) + (PrintExprs(parent, ns[1..], L) + close)
    ensures !IsOp(PrintExprs(parent, ns, L) + close, ']') && ExpressionComingUp(PrintExprs(parent, ns, L) + close)
    ensures Ends(PrintExprs(parent, ns[1..], L) + close) <== Ends(close)
  {
    if |ns| > 1 {
      assert PrintExprs(parent, ns[1..], L) + close == PrintExpr(ns[1], L) + (PrintExprs(parent, ns[2..], L) + close);
    } else {
      assert PrintExprs(parent, ns[1..], L) + close == close;
    }
  }

  /** An array's elements are read back in order, up to and including
      the `]`. */
  lemma {:induction false} ElementsRoundTrip(parent: Node, acc: seq<Node>, ns: seq<Node>, L: nat, rest: Tokens)
    requires forall i :: 0 <= i < |ns| ==> ns[i] < parent
    requires AllExprs(parent, ns)
    ensures Elements(acc, PrintExprs(parent, ns, L) + ([PI.OpTok(']', L)] + rest)) == Ok((acc + ns, rest))
    decreases parent, 0, |ns|
  {
    var close := [PI.OpTok(']', L)] + rest;
    if |ns| == 0 {
      assert PrintExprs(parent, ns, L) + close == close;
      ElementsDone(acc, L, rest);
      assert acc + ns == acc;
    } else {
      var tail := PrintExprs(parent, ns[1..], L) + close;
      PrintExprsCons(parent, ns, L, close);
      hide PrintExprs, Elements, ParseExpression;
      ExpressionRoundTrip(ns[0], L, tail);
      ElementsMore(acc, PrintExprs(parent, ns, L) + close, ns[0], tail);
      ElementsRoundTrip(parent, acc + [ns[0]], ns[1..], L, rest);
      assert acc + [ns[0]] + ns[1..] == acc + ns;
    }
  }

  /** The argument loop reads the printed arguments back and stops at the
      first token that cannot start an expression. */
  lemma {:induction false} CallArgsRoundTrip(parent: Node, acc: seq<Node>, ns: seq<Node>, L: nat, rest: Tokens)
    requires forall i :: 0 <= i < |ns| ==> ns[i] < parent
    requires AllExprs(parent, ns)
    requires |acc| + |ns| <= MaxArgs && Ends(rest) && !ExpressionComingUp(rest)
    ensures CallArgs(acc, PrintExprs(parent, ns, L) + rest) == Ok((acc + ns, rest))
    decreases |ns|
  {
    if |ns| == 0 {
      assert PrintExprs(parent, ns, L) + rest == rest;
      assert acc + ns == acc;
    } else {
      var tail := PrintExprs(parent, ns[1..], L) + rest;
      PrintExprsCons(parent, ns, L, rest);
      hide PrintExprs, CallArgs, ParseExpression;
      ExpressionRoundTrip(ns[0], L, tail);
      CallArgsMore(acc, PrintExprs(parent, ns, L) + rest, ns[0], tail);
      CallArgsRoundTrip(parent, acc + [ns[0]], ns[1..], L, rest);
      assert acc + [ns[0]] + ns[1..] == acc + ns;
    }
  }

  /** One turn of the argument loop below the limit. */
  lemma CallArgsMore(acc: seq<Node>, toks: Tokens, e: Node, tail: Tokens)
    requires |acc| < MaxArgs && ExpressionComingUp(toks) && ParseExpression(toks) == Ok((e, tail))
    ensures CallArgs(acc, toks) == CallArgs(acc + [e], tail)
  {
  }

  /** More than MaxArgs arguments abort the parse, at the assert after
      the loop. */
  lemma {:induction false} TooManyArguments(parent: Node, acc: seq<Node>, ns: seq<Node>, L: nat, rest: Tokens)
    requires forall i :: 0 <= i < |ns| ==> ns[i] < parent
    requires AllExprs(parent, ns)
    requires |acc| <= MaxArgs < |acc| + |ns| && Ends(rest)
    ensures CallArgs(acc, PrintExprs(parent, ns, L) + rest) == Err(Aborted)
    decreases |ns|
  {
    var tail := PrintExprs(parent, ns[1..], L) + rest;
    PrintExprsCons(parent, ns, L, rest);
    if |acc| < MaxArgs {
      hide PrintExprs, CallArgs, ParseExpression;
      ExpressionRoundTrip(ns[0], L, tail);
      CallArgsMore(acc, PrintExprs(parent, ns, L) + rest, ns[0], tail);
      TooManyArguments(parent, acc + [ns[0]], ns[1..], L, rest);
    }
  }

  /** A call statement: an expression applied to expressions. */
  predicate IsStmt(n: Node)
  {
    n.info.Call? && IsExpr(n.info.func) && AllExprs(n, n.info.args)
  }

  /** The tokens of a call statement, all on its line, ending with `;`. */
  function PrintStmt(n: Node): (r: Tokens)
    requires IsStmt(n)
    ensures |r| > 0 && r[|r| - 1] == PI.OpTok(';', n.lineno)
  {
    PrintExpr(n.info.func, n.lineno) + (PrintExprs(n, n.info.args, n.lineno) + [PI.OpTok(';', n.lineno)])
  }

  /** The argument loop's part of a printed call. */
  lemma CallRoundTrip(n: Node, rest: Tokens)
    requires IsStmt(n) && |n.info.args| <= MaxArgs
    ensures ParseCall(n.info.func, PrintExprs(n, n.info.args, n.lineno) + ([PI.OpTok(';', n.lineno)] + rest))
         == Ok((n, [PI.OpTok(';', n.lineno)] + rest))
  {
    var L := n.lineno;
    var args := n.info.args;
    var semi := [PI.OpTok(';', L)] + rest;
    CallTokensStart(n, semi);
    assert AllExprs(n, args) && Ends(semi) && !ExpressionComingUp(semi);
    assert n == Node(L, Call(n.info.func, args));
    hide PrintExprs, CallArgs, PrintExpr, ParseExpression, IsStmt, AllExprs, IsExpr, Ends, ExpressionComingUp;
    CallArgsRoundTrip(n, [], args, L, semi);
    assert [] + args == args;
  }

  /** The printed arguments of a call, then `;`, start on the call's line. */
  lemma CallTokensStart(n: Node, semi: Tokens)
    requires IsStmt(n) && |semi| > 0 && semi[0].lineno == n.lineno
    ensures var toks := PrintExprs(n, n.info.args, n.lineno) + semi;
      |toks| > 0 && toks[0].lineno == n.lineno
  {
    var toks := PrintExprs(n, n.info.args, n.lineno) + semi;
    if |n.info.args| > 0 {
      PrintExprsCons(n, n.info.args, n.lineno, semi);
    } else {
      assert toks == semi;
    }
  }

  /** A printed call statement parses back to the same node, and the
      tokens after its `;` are left over. */
  lemma StatementRoundTrip(n: Node, rest: Tokens)
    requires IsStmt(n) && |n.info.args| <= MaxArgs
    ensures ParseStatement(PrintStmt(n) + rest) == Ok((n, rest))
  {
    var L := n.lineno;
    var semi := [PI.OpTok(';', L)] + rest;
    var tail := PrintExprs(n, n.info.args, L) + semi;
    assert PrintStmt(n) + rest == PrintExpr(n.info.func, L) + tail;
    if |n.info.args| > 0 {
      PrintExprsCons(n, n.info.args, L, semi);
    } else {
      assert tail == semi;
    }
    assert semi[1..] == rest;
    hide PrintStmt, PrintExprs, PrintExpr, ParseCall;
    ExpressionRoundTrip(n.info.func, L, tail);
    CallRoundTrip(n, rest);
  }

  /** The statement `a b c;` calls `a` with the two arguments `b` and `c`. */
  lemma ThreeNames(L: nat, a: seq<int>, b: seq<int>, c: seq<int>)
    ensures ParseStatement([PI.IdTok(a, L), PI.IdTok(b, L), PI.IdTok(c, L), PI.OpTok(';', L)])
         == Ok((Node(L, Call(Node(0, GetVar(a)), [Node(0, GetVar(b)), Node(0, GetVar(c))])), []))
  {
    var n := Node(L, Call(Node(0, GetVar(a)), [Node(0, GetVar(b)), Node(0, GetVar(c))]));
    var args := n.info.args;
    assert args[1..] == [Node(0, GetVar(c))] && args[1..][1..] == [];
    assert AllExprs(n, args[1..][1..]);
    assert AllExprs(n, args[1..]);
    assert AllExprs(n, args);
    assert PrintExprs(n, args[1..], L) == [PI.IdTok(c, L)];
    assert PrintExprs(n, args, L) == [PI.IdTok(b, L), PI.IdTok(c, L)];
    assert PrintStmt(n) + [] == [PI.IdTok(a, L), PI.IdTok(b, L), PI.IdTok(c, L), PI.OpTok(';', L)];
    StatementRoundTrip(n, []);
  }

  /** A printed call with more than MaxArgs arguments does not parse. */
  lemma StatementTooLong(n: Node, rest: Tokens)
    requires IsStmt(n) && |n.info.args| > MaxArgs
    ensures ParseStatement(PrintStmt(n) + rest) == Err(Aborted)
  {
    var L := n.lineno;
    var semi := [PI.OpTok(';', L)] + rest;
    var tail := PrintExprs(n, n.info.args, L) + semi;
    assert PrintStmt(n) + rest == PrintExpr(n.info.func, L) + tail;
    PrintExprsCons(n, n.info.args, L, semi);
    hide PrintStmt, PrintExprs, PrintExpr, CallArgs;
    ExpressionRoundTrip(n.info.func, L, tail);
    TooManyArguments(n, [], n.info.args, L, semi);
  }
}
