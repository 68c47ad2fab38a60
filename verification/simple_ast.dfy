/**
 * The parser of the simplelang prototype, simplelang/ast_tree.py.  Its
 * token iterator hands out the remaining tokens one at a time and lets the
 * parser look one token ahead; here the iterator's state is the sequence
 * of tokens not yet consumed, and running out of tokens is the EOFError
 * the iterator raises.  Every parse function returns what it built and the
 * tokens left after it, or the exception that ended the parse.
 *
 * Printer and its round trips: PrintExpr and PrintStmt write an AST back
 * as tokens, and the parser reads every printed statement list back
 * exactly.
 */
module SimpleAst {
  import opened Wrappers

  /** The token kinds the parser distinguishes; any other kind is Other. */
  datatype Kind = StringKind | Identifier | Op | Keyword | Other(name: string)

  datatype Token = Token(kind: Kind, value: string)

  type Tokens = seq<Token>

  datatype Expr =
    | String(text: string)
    | GetVar(varname: string)
    | GetAttr(obj: Expr, attribute: string)

  datatype Stmt =
    | Call(func: Expr, args: seq<Expr>)
    | SetVar(varname: string, value: Expr)
    | SetAttr(obj: Expr, attribute: string, value: Expr)
    | CreateVar(varname: string, value: Expr, isConst: bool)
    | CreateAttr(obj: Expr, attribute: string, value: Expr, isConst: bool)

  /** The exceptions that can end a parse: a ValueError with its message,
      a failed `assert`, and the EOFError of the token iterator. */
  datatype Exc = ValueError(message: string) | AssertionError | EOFError

  /** What one parse step returns: the node and the remaining tokens. */
  type Parsed<X> = Result<(X, Tokens), Exc>

  /** `rest` is what is left of `toks` after some of it was consumed. */
  predicate Suffix(rest: Tokens, toks: Tokens)
  {
    |rest| <= |toks| && rest == toks[|toks| - |rest|..]
  }

  // ---------------------------------------------------------------------
  // the token iterator

  /** _HandyTokenIterator.coming_up(): the next token, not consumed. */
  function ComingUp(toks: Tokens): (r: Result<Token, Exc>)
    ensures r.Ok? <==> |toks| > 0
    ensures r.Ok? ==> r.value == toks[0]
    ensures r.Err? ==> r.error == EOFError
  {
    if |toks| == 0 then Err(EOFError) else Ok(toks[0])
  }

  /** Whether the next token is the operator `v`; at the end of the tokens
      the look-ahead raises EOFError. */
  function OpComingUp(toks: Tokens, v: string): (r: Result<bool, Exc>)
    ensures r.Ok? <==> |toks| > 0
    ensures r.Ok? ==> (r.value <==> toks[0] == Token(Op, v))
    ensures r.Err? ==> r.error == EOFError
  {
    var t :- ComingUp(toks);
    Ok(t.kind == Op && t.value == v)
  }

  /** Python's `value[1:-1]`: the text without its first and last
      characters, empty when there are fewer than two. */
  function StripQuotes(v: string): (r: string)
    ensures |v| >= 2 ==> r == v[1..|v| - 1]
    ensures |v| < 2 ==> r == []
  {
    if |v| < 2 then [] else v[1..|v| - 1]
  }

  // ---------------------------------------------------------------------
  // the parser

  /** parse_string: a string token with its quotes stripped. */
  function ParseString(toks: Tokens): (r: Parsed<Expr>)
    ensures r.Ok? <==> |toks| > 0 && toks[0].kind == StringKind
    ensures r.Ok? ==> r.value == (String(StripQuotes(toks[0].value)), toks[1..])
    ensures |toks| == 0 ==> r == Err(EOFError)
    ensures |toks| > 0 && toks[0].kind != StringKind ==> r == Err(AssertionError)
  {
    if |toks| == 0 then Err(EOFError)
    else if toks[0].kind != StringKind then Err(AssertionError)
    else Ok((String(StripQuotes(toks[0].value)), toks[1..]))
  }

  /** expression_coming_up: a string or an identifier is next. */
  function ExpressionComingUp(toks: Tokens): (r: Result<bool, Exc>)
    ensures r.Ok? <==> |toks| > 0
    ensures r.Ok? ==> (r.value <==> toks[0].kind in {StringKind, Identifier})
  {
    var t :- ComingUp(toks);
    Ok(t.kind == StringKind || t.kind == Identifier)
  }

  /** parse_expression: a string or a variable name, then any number of
      `.name` attribute lookups, each wrapping what came before. */
  function ParseExpression(toks: Tokens): (r: Parsed<Expr>)
    ensures r.Ok? ==> |r.value.1| < |toks| && Suffix(r.value.1, toks)
    ensures |toks| == 0 ==> r == Err(EOFError)
    ensures |toks| > 0 && toks[0].kind !in {StringKind, Identifier} ==>
      r == Err(ValueError("should be a string or a variable name, not '" + toks[0].value + "'"))
  {
    var t :- ComingUp(toks);
    if t.kind == StringKind then
      var first := ParseString(toks).value;
      Attributes(first.0, first.1)
    else if t.kind == Identifier then
      Attributes(GetVar(t.value), toks[1..])
    else
      Err(ValueError("should be a string or a variable name, not '" + t.value + "'"))
  }

  /** The attribute loop of parse_expression. */
  function Attributes(result: Expr, toks: Tokens): (r: Parsed<Expr>)
    ensures r.Ok? ==> Suffix(r.value.1, toks)
    decreases |toks|
  {
    var dot :- OpComingUp(toks, ".");
    if !dot then Ok((result, toks))
    else if |toks| < 2 then Err(EOFError)
    else if toks[1].kind != Identifier then Err(ValueError("invalid attribute name '" + toks[1].value + "'"))
    else Attributes(GetAttr(result, toks[1].value), toks[2..])
  }

  /** parse_call: the expressions that follow the function, for as long as
      a string or an identifier comes up. */
  function ParseCall(func: Expr, toks: Tokens): (r: Parsed<Stmt>)
    ensures r.Ok? ==> r.value.0.Call? && r.value.0.func == func && Suffix(r.value.1, toks)
  {
    var (args, rest) :- CallArgs([], toks);
    Ok((Call(func, args), rest))
  }

  function CallArgs(args: seq<Expr>, toks: Tokens): (r: Parsed<seq<Expr>>)
    ensures r.Ok? ==> Suffix(r.value.1, toks) && |r.value.0| >= |args| && r.value.0[..|args|] == args
    decreases |toks|
  {
    var more :- ExpressionComingUp(toks);
    if !more then Ok((args, toks))
    else
      var (e, rest) :- ParseExpression(toks);
      var r := CallArgs(args + [e], rest);
      assert r.Ok? ==> r.value.0[..|args|] == (args + [e])[..|args|];
      r
  }

  /** The target of `var x = v;` or `const x = v;`: a variable becomes
      CreateVar, an attribute CreateAttr, anything else is a ValueError. */
  function CreateTarget(keyword: string, target: Expr, value: Expr, isConst: bool): (r: Result<Stmt, Exc>)
    ensures target.GetVar? ==> r == Ok(CreateVar(target.varname, value, isConst))
    ensures target.GetAttr? ==> r == Ok(CreateAttr(target.obj, target.attribute, value, isConst))
    ensures target.String? ==> r.Err? && r.error.ValueError?
  {
    match target
    case GetVar(name) => Ok(CreateVar(name, value, isConst))
    case GetAttr(obj, attribute) => Ok(CreateAttr(obj, attribute, value, isConst))
    case String(_) => Err(ValueError("the x of '" + keyword + " x = y;' must be a variable name or an attribute"))
  }

  /** parse_var_or_const: the keyword, the target, and `= value` unless the
      keyword is `var`, whose value then defaults to the variable `null`. */
  function ParseVarOrConst(toks: Tokens): (r: Parsed<Stmt>)
    ensures r.Ok? ==> |r.value.1| < |toks| && Suffix(r.value.1, toks)
  {
    if |toks| == 0 then Err(EOFError)
    else
      var keyword := toks[0];
      if !(keyword.kind == Keyword && keyword.value in ["var", "const"]) then Err(AssertionError)
      else
        var isConst := keyword.value == "const";
        var (target, rest) :- ParseExpression(toks[1..]);
        var eq :- OpComingUp(rest, "=");
        var (value, rest') :- if eq then ParseExpression(rest[1..])
          else if isConst then Err(ValueError("must specify a value, like 'const varname = value;'"))
          else Ok((GetVar("null"), rest));
        var s :- CreateTarget(keyword.value, target, value, isConst);
        Ok((s, rest'))
  }

  /** parse_assignment: `= value` after an already parsed target; a
      variable becomes SetVar, an attribute SetAttr. */
  function ParseAssignment(target: Expr, toks: Tokens): (r: Parsed<Stmt>)
    ensures r.Ok? ==> |r.value.1| < |toks| && Suffix(r.value.1, toks)
    ensures r.Ok? ==> (r.value.0.SetVar? && target == GetVar(r.value.0.varname)) ||
                      (r.value.0.SetAttr? && target == GetAttr(r.value.0.obj, r.value.0.attribute))
    ensures target.String? ==> r.Err?
    ensures |toks| > 0 && toks[0] != Token(Op, "=") ==> r == Err(AssertionError)
  {
    if |toks| == 0 then Err(EOFError)
    else if toks[0].kind != Op || toks[0].value != "=" then Err(AssertionError)
    else
      var (value, rest) :- ParseExpression(toks[1..]);
      match target
      case GetVar(name) => Ok((SetVar(name, value), rest))
      case GetAttr(obj, attribute) => Ok((SetAttr(obj, attribute, value), rest))
      case String(_) => Err(ValueError("the x of 'x = y;' must be a variable name or an attribute"))
  }

  /** parse_statement: a var/const statement, an assignment or a call,
      which must then be followed by the operator `;`. */
  function ParseStatement(toks: Tokens): (r: Parsed<Stmt>)
    ensures r.Ok? ==> |r.value.1| < |toks| && Suffix(r.value.1, toks) && toks[|toks| - |r.value.1| - 1] == Semicolon
    ensures |toks| == 0 ==> r == Err(EOFError)
  {
    var (s, rest) :- StatementBody(toks);
    if |rest| == 0 then Err(EOFError)
    else if rest[0].kind != Op || rest[0].value != ";" then Err(AssertionError)
    else Ok((s, rest[1..]))
  }

  /** The statement itself, before its semicolon. */
  function StatementBody(toks: Tokens): (r: Parsed<Stmt>)
    ensures r.Ok? ==> |r.value.1| < |toks| && Suffix(r.value.1, toks)
    ensures |toks| == 0 ==> r == Err(EOFError)
  {
    var t :- ComingUp(toks);
    if t.kind == Keyword && t.value in ["var", "const"] then ParseVarOrConst(toks)
    else
      var (start, rest) :- ParseExpression(toks);
      var eq :- OpComingUp(rest, "=");
      if eq then ParseAssignment(start, rest) else ParseCall(start, rest)
  }

  /** parse_file and parse: the statements yielded, in order, until the
      tokens run out, together with the exception that stopped the
      generator early, if any. */
  function ParseFile(toks: Tokens): (r: (seq<Stmt>, Option<Exc>))
    ensures |toks| == 0 ==> r == ([], None)
    ensures |toks| > 0 && r.1.None? ==> |r.0| > 0 && toks[|toks| - 1] == Semicolon
    decreases |toks|
  {
    if |toks| == 0 then ([], None)
    else
      match ParseStatement(toks)
      case Err(e) => ([], Some(e))
      case Ok((s, rest)) =>
        var (more, e) := ParseFile(rest);
        ([s] + more, e)
  }

  // ---------------------------------------------------------------------
  // the printer

  function PrintExpr(e: Expr): (r: Tokens)
    ensures |r| > 0 && r[0].kind in {StringKind, Identifier}
  {
    match e
    case String(text) => [Token(StringKind, "\"" + text + "\"")]
    case GetVar(name) => [Token(Identifier, name)]
    case GetAttr(obj, attribute) => PrintExpr(obj) + [Token(Op, "."), Token(Identifier, attribute)]
  }

  function PrintExprs(es: seq<Expr>): Tokens
  {
    if |es| == 0 then [] else PrintExpr(es[0]) + PrintExprs(es[1..])
  }

  function KeywordOf(isConst: bool): string
  {
    if isConst then "const" else "var"
  }

  function PrintStmt(s: Stmt): (r: Tokens)
    ensures |r| > 0
  {
    match s
    case Call(func, args) => PrintExpr(func) + PrintExprs(args) + [Token(Op, ";")]
    case SetVar(name, value) => PrintExpr(GetVar(name)) + [Token(Op, "=")] + PrintExpr(value) + [Token(Op, ";")]
    case SetAttr(obj, attribute, value) =>
      PrintExpr(GetAttr(obj, attribute)) + [Token(Op, "=")] + PrintExpr(value) + [Token(Op, ";")]
    case CreateVar(name, value, isConst) =>
      [Token(Keyword, KeywordOf(isConst))] + PrintExpr(GetVar(name)) + [Token(Op, "=")] +
      PrintExpr(value) + [Token(Op, ";")]
    case CreateAttr(obj, attribute, value, isConst) =>
      [Token(Keyword, KeywordOf(isConst))] + PrintExpr(GetAttr(obj, attribute)) + [Token(Op, "=")] +
      PrintExpr(value) + [Token(Op, ";")]
  }

  function PrintFile(ss: seq<Stmt>): Tokens
  {
    if |ss| == 0 then [] else PrintStmt(ss[0]) + PrintFile(ss[1..])
  }

  // ---------------------------------------------------------------------
  // round trips

  /** The semicolon that ends every statement. */
  const Semicolon := Token(Op, ";")

  /** An expression followed by the tokens of any statement list and
      more: the next token is no `.`, so the attribute loop stops. */
  predicate Ends(rest: Tokens)
  {
    |rest| > 0 && rest[0] != Token(Op, ".")
  }

  /** The attribute loop stops before anything but a `.`. */
  lemma AttributesStop(e: Expr, rest: Tokens)
    requires Ends(rest)
    ensures Attributes(e, rest) == Ok((e, rest))
  {
  }

  /** One turn of the attribute loop. */
  lemma AttributesStep(e: Expr, attribute: string, more: Tokens)
    ensures Attributes(e, [Token(Op, "."), Token(Identifier, attribute)] + more) ==
      Attributes(GetAttr(e, attribute), more)
  {
    assert ([Token(Op, "."), Token(Identifier, attribute)] + more)[2..] == more;
  }

  /** The first token of an expression. */
  lemma ExpressionStart(t: Token, more: Tokens)
    requires t.kind in {StringKind, Identifier}
    ensures ParseExpression([t] + more) ==
      Attributes(if t.kind == StringKind then String(StripQuotes(t.value)) else GetVar(t.value), more)
  {
    assert ([t] + more)[1..] == more;
  }

  /** The printed expression leaves the parser in the attribute loop with
      the expression itself, whatever follows. */
  lemma {:induction false} ExpressionThen(e: Expr, more: Tokens)
    ensures ParseExpression(PrintExpr(e) + more) == Attributes(e, more)
  {
    match e
    case String(text) =>
      var v := "\"" + text + "\"";
      assert StripQuotes(v) == text;
      ExpressionStart(Token(StringKind, v), more);
    case GetVar(name) =>
      ExpressionStart(Token(Identifier, name), more);
    case GetAttr(obj, attribute) =>
      var tail := [Token(Op, "."), Token(Identifier, attribute)] + more;
      assert PrintExpr(e) + more == PrintExpr(obj) + tail;
      hide ParseExpression, Attributes, PrintExpr;
      ExpressionThen(obj, tail);
      AttributesStep(obj, attribute, more);
  }

  /** Round trip of one expression: the parser returns it and stops right
      after its tokens. */
  lemma ExpressionRoundTrip(e: Expr, rest: Tokens)
    requires Ends(rest)
    ensures ParseExpression(PrintExpr(e) + rest) == Ok((e, rest))
  {
    ExpressionThen(e, rest);
    AttributesStop(e, rest);
  }

  /** The call loop takes one more expression. */
  lemma CallArgsMore(args: seq<Expr>, toks: Tokens, e: Expr, rest: Tokens)
    requires |toks| > 0 && toks[0].kind in {StringKind, Identifier}
    requires ParseExpression(toks) == Ok((e, rest))
    ensures CallArgs(args, toks) == CallArgs(args + [e], rest)
  {
    hide ParseExpression;
  }

  /** The call loop stops before anything but a string or a name. */
  lemma CallArgsDone(args: seq<Expr>, toks: Tokens)
    requires |toks| > 0 && toks[0].kind !in {StringKind, Identifier}
    ensures CallArgs(args, toks) == Ok((args, toks))
  {
  }

  lemma PrintExprsCons(es: seq<Expr>, rest: Tokens)
    requires |es| > 0
    ensures PrintExprs(es) + rest == PrintExpr(es[0]) + (PrintExprs(es[1..]) + rest)
  {
  }

  /** What comes after a printed expression inside a call. */
  lemma PrintedArgsStart(es: seq<Expr>, rest: Tokens)
    requires |rest| > 0 && rest[0] == Semicolon
    ensures var toks := PrintExprs(es) + rest;
      Ends(toks) && (toks[0].kind in {StringKind, Identifier} <==> |es| > 0) && toks[0] != Token(Op, "=")
  {
    if |es| > 0 {
      PrintExprsCons(es, rest);
    } else {
      assert PrintExprs(es) + rest == rest;
    }
  }

  lemma AppendFirst<T>(xs: seq<T>, ys: seq<T>)
    requires |ys| > 0
    ensures xs + [ys[0]] + ys[1..] == xs + ys
  {
  }

  /** Round trip of a call's arguments, up to the semicolon. */
  lemma {:induction false} ArgumentsRoundTrip(args: seq<Expr>, es: seq<Expr>, rest: Tokens)
    requires |rest| > 0 && rest[0] == Semicolon
    ensures CallArgs(args, PrintExprs(es) + rest) == Ok((args + es, rest))
    decreases |es|
  {
    if |es| == 0 {
      assert PrintExprs(es) + rest == rest;
      assert args + es == args;
      CallArgsDone(args, rest);
    } else {
      var tail := PrintExprs(es[1..]) + rest;
      PrintExprsCons(es, rest);
      PrintedArgsStart(es[1..], rest);
      hide CallArgs, ParseExpression, PrintExprs;
      ExpressionRoundTrip(es[0], tail);
      CallArgsMore(args, PrintExpr(es[0]) + tail, es[0], tail);
      ArgumentsRoundTrip(args + [es[0]], es[1..], rest);
      AppendFirst(args, es);
    }
  }

  /** A statement is complete once its semicolon is consumed. */
  lemma StatementEnds(toks: Tokens, s: Stmt, rest: Tokens)
    requires StatementBody(toks) == Ok((s, [Semicolon] + rest))
    ensures ParseStatement(toks) == Ok((s, rest))
  {
    hide StatementBody;
    assert ([Semicolon] + rest)[1..] == rest;
  }

  /** A statement that starts with an expression and no `=` is a call. */
  lemma CallBody(toks: Tokens, func: Expr, afterFunc: Tokens, args: seq<Expr>, rest: Tokens)
    requires |toks| > 0 && toks[0].kind != Keyword
    requires ParseExpression(toks) == Ok((func, afterFunc))
    requires |afterFunc| > 0 && afterFunc[0] != Token(Op, "=")
    requires CallArgs([], afterFunc) == Ok((args, rest))
    ensures StatementBody(toks) == Ok((Call(func, args), rest))
  {
    hide ParseExpression, CallArgs, ParseVarOrConst, ParseAssignment;
  }

  /** The statement an assignment to `target` builds. */
  function Assignment(target: Expr, value: Expr): Stmt
    requires target.GetVar? || target.GetAttr?
  {
    if target.GetAttr? then SetAttr(target.obj, target.attribute, value) else SetVar(target.varname, value)
  }

  /** The statement a creation of `target` builds. */
  function Creation(target: Expr, value: Expr, isConst: bool): Stmt
    requires target.GetVar? || target.GetAttr?
  {
    if target.GetAttr? then CreateAttr(target.obj, target.attribute, value, isConst)
    else CreateVar(target.varname, value, isConst)
  }

  /** A statement that starts with an expression and `=` is an assignment. */
  lemma AssignmentBody(toks: Tokens, target: Expr, afterTarget: Tokens, value: Expr, rest: Tokens)
    requires |toks| > 0 && toks[0].kind != Keyword
    requires target.GetVar? || target.GetAttr?
    requires ParseExpression(toks) == Ok((target, afterTarget))
    requires |afterTarget| > 0 && afterTarget[0] == Token(Op, "=")
    requires ParseExpression(afterTarget[1..]) == Ok((value, rest))
    ensures StatementBody(toks) == Ok((Assignment(target, value), rest))
  {
    hide ParseExpression, CallArgs, ParseVarOrConst, ParseCall;
  }

  /** A `var` or `const` statement with a value. */
  lemma CreationBody(toks: Tokens, isConst: bool, target: Expr, afterTarget: Tokens, value: Expr, rest: Tokens)
    requires |toks| > 0 && toks[0] == Token(Keyword, KeywordOf(isConst))
    requires target.GetVar? || target.GetAttr?
    requires ParseExpression(toks[1..]) == Ok((target, afterTarget))
    requires |afterTarget| > 0 && afterTarget[0] == Token(Op, "=")
    requires ParseExpression(afterTarget[1..]) == Ok((value, rest))
    ensures StatementBody(toks) == Ok((Creation(target, value, isConst), rest))
  {
    hide ParseExpression;
    assert ParseVarOrConst(toks) == Ok((Creation(target, value, isConst), rest));
    hide ParseVarOrConst, ParseAssignment, ParseCall;
  }

  /** Round trip of a call statement. */
  lemma CallRoundTrip(func: Expr, args: seq<Expr>, rest: Tokens)
    ensures ParseStatement(PrintStmt(Call(func, args)) + rest) == Ok((Call(func, args), rest))
  {
    var semi := [Semicolon] + rest;
    var tail := PrintExprs(args) + semi;
    var toks := PrintStmt(Call(func, args)) + rest;
    assert toks == PrintExpr(func) + tail;
    hide ParseStatement, StatementBody, ParseExpression, CallArgs, PrintStmt, PrintExprs;
    PrintedArgsStart(args, semi);
    ExpressionRoundTrip(func, tail);
    ArgumentsRoundTrip([], args, semi);
    assert [] + args == args;
    CallBody(toks, func, tail, args, semi);
    StatementEnds(toks, Call(func, args), rest);
  }

  /** Round trip of an assignment to a variable or an attribute. */
  lemma AssignmentRoundTrip(target: Expr, value: Expr, rest: Tokens)
    requires target.GetVar? || target.GetAttr?
    ensures ParseStatement(PrintExpr(target) + ([Token(Op, "=")] + (PrintExpr(value) + ([Semicolon] + rest)))) ==
      Ok((Assignment(target, value), rest))
  {
    var semi := [Semicolon] + rest;
    var after := [Token(Op, "=")] + (PrintExpr(value) + semi);
    var toks := PrintExpr(target) + after;
    assert after[1..] == PrintExpr(value) + semi;
    assert toks[0] == PrintExpr(target)[0];
    hide ParseStatement, StatementBody, ParseExpression;
    ExpressionRoundTrip(target, after);
    ExpressionRoundTrip(value, semi);
    AssignmentBody(toks, target, after, value, semi);
    StatementEnds(toks, Assignment(target, value), rest);
  }

  /** Round trip of a `var` or `const` statement. */
  lemma CreationRoundTrip(target: Expr, value: Expr, isConst: bool, rest: Tokens)
    requires target.GetVar? || target.GetAttr?
    ensures ParseStatement([Token(Keyword, KeywordOf(isConst))] +
      (PrintExpr(target) + ([Token(Op, "=")] + (PrintExpr(value) + ([Semicolon] + rest))))) ==
      Ok((Creation(target, value, isConst), rest))
  {
    var semi := [Semicolon] + rest;
    var after := [Token(Op, "=")] + (PrintExpr(value) + semi);
    var toks := [Token(Keyword, KeywordOf(isConst))] + (PrintExpr(target) + after);
    assert toks[1..] == PrintExpr(target) + after;
    assert after[1..] == PrintExpr(value) + semi;
    hide ParseStatement, StatementBody, ParseExpression;
    ExpressionRoundTrip(target, after);
    ExpressionRoundTrip(value, semi);
    CreationBody(toks, isConst, target, after, value, semi);
    StatementEnds(toks, Creation(target, value, isConst), rest);
  }

  lemma Regroup4(a: Tokens, b: Tokens, c: Tokens, d: Tokens, rest: Tokens)
    ensures a + b + c + d + rest == a + (b + (c + (d + rest)))
  {
  }

  lemma Regroup5(a: Tokens, b: Tokens, c: Tokens, d: Tokens, e: Tokens, rest: Tokens)
    ensures a + b + c + d + e + rest == a + (b + (c + (d + (e + rest))))
  {
  }

  /** Round trip of one statement, whatever follows its semicolon. */
  lemma StatementRoundTrip(s: Stmt, rest: Tokens)
    ensures ParseStatement(PrintStmt(s) + rest) == Ok((s, rest))
  {
    var eq := [Token(Op, "=")];
    match s
    case Call(func, args) =>
      CallRoundTrip(func, args, rest);
    case SetVar(name, value) =>
      Regroup4(PrintExpr(GetVar(name)), eq, PrintExpr(value), [Semicolon], rest);
      AssignmentRoundTrip(GetVar(name), value, rest);
    case SetAttr(obj, attribute, value) =>
      Regroup4(PrintExpr(GetAttr(obj, attribute)), eq, PrintExpr(value), [Semicolon], rest);
      AssignmentRoundTrip(GetAttr(obj, attribute), value, rest);
    case CreateVar(name, value, isConst) =>
      Regroup5([Token(Keyword, KeywordOf(isConst))], PrintExpr(GetVar(name)), eq, PrintExpr(value), [Semicolon], rest);
      CreationRoundTrip(GetVar(name), value, isConst, rest);
    case CreateAttr(obj, attribute, value, isConst) =>
      Regroup5([Token(Keyword, KeywordOf(isConst))], PrintExpr(GetAttr(obj, attribute)), eq, PrintExpr(value),
        [Semicolon], rest);
      CreationRoundTrip(GetAttr(obj, attribute), value, isConst, rest);
  }

  /** Round trip of a whole file: every statement is yielded, in order,
      and nothing is raised. */
  lemma {:induction false} FileRoundTrip(ss: seq<Stmt>)
    ensures ParseFile(PrintFile(ss)) == (ss, None)
    decreases |ss|
  {
    if |ss| > 0 {
      StatementRoundTrip(ss[0], PrintFile(ss[1..]));
      FileRoundTrip(ss[1..]);
      assert [ss[0]] + ss[1..] == ss;
    }
  }

  /** `var x;` initializes x to the variable null. */
  lemma VarWithoutValue(x: string, rest: Tokens)
    ensures ParseStatement([Token(Keyword, "var"), Token(Identifier, x), Semicolon] + rest) ==
      Ok((CreateVar(x, GetVar("null"), false), rest))
  {
    var toks := [Token(Keyword, "var"), Token(Identifier, x), Semicolon] + rest;
    assert toks[1..] == [Token(Identifier, x)] + ([Semicolon] + rest);
    ExpressionRoundTrip(GetVar(x), [Semicolon] + rest);
    assert ([Semicolon] + rest)[1..] == rest;
  }

  /** `const x;` is a ValueError: a constant needs a value. */
  lemma ConstWithoutValue(x: string, rest: Tokens)
    ensures ParseStatement([Token(Keyword, "const"), Token(Identifier, x), Semicolon] + rest) ==
      Err(ValueError("must specify a value, like 'const varname = value;'"))
  {
    var toks := [Token(Keyword, "const"), Token(Identifier, x), Semicolon] + rest;
    assert toks[1..] == [Token(Identifier, x)] + ([Semicolon] + rest);
    ExpressionRoundTrip(GetVar(x), [Semicolon] + rest);
  }

  /** `var var;`: a keyword is no variable name. */
  lemma KeywordIsNoTarget(keyword: string, name: string, rest: Tokens)
    requires keyword in ["var", "const"]
    ensures ParseStatement([Token(Keyword, keyword), Token(Keyword, name)] + rest) ==
      Err(ValueError("should be a string or a variable name, not '" + name + "'"))
  {
    var toks := [Token(Keyword, keyword), Token(Keyword, name)] + rest;
    assert toks[1..] == [Token(Keyword, name)] + rest;
  }

  /** `const x = ;`: the value must be an expression. */
  lemma MissingValue(x: string, rest: Tokens)
    ensures ParseStatement([Token(Keyword, "const"), Token(Identifier, x), Token(Op, "="), Semicolon] + rest) ==
      Err(ValueError("should be a string or a variable name, not ';'"))
  {
    var after := [Token(Op, "="), Semicolon] + rest;
    var toks := [Token(Keyword, "const")] + ([Token(Identifier, x)] + after);
    assert [Token(Keyword, "const"), Token(Identifier, x), Token(Op, "="), Semicolon] + rest == toks;
    assert toks[1..] == [Token(Identifier, x)] + after;
    ExpressionRoundTrip(GetVar(x), after);
    assert after[1..] == [Semicolon] + rest;
    var e := ValueError("should be a string or a variable name, not ';'");
    assert e.message == "should be a string or a variable name, not '" + Semicolon.value + "'";
    assert ParseExpression(after[1..]) == Err(e);
    assert ParseVarOrConst(toks) == Err(e);
    assert StatementBody(toks) == Err(e);
  }
}
