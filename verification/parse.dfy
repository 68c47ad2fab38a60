/**
 * The recursive-descent parser of src/parse.c.  It reads a token list
 * (the `next` links of the source become positions in a sequence, and the
 * NULL after the last token is the position |toks|) and builds AST nodes.
 * The syntax it reads is that of a later tokenizer than Tokenizer (it
 * expects '`', ':' and two-character operators), so the tokens are taken
 * as given rather than produced by Tokenizer.Tokenize.
 *
 * Every `assert` that invalid syntax trips, and every dereference of the
 * NULL after the last token, is the failure `Aborted`.  Allocation is
 * treated as total, the file name every node records is left out, and the
 * String and Integer objects of STR and INT nodes are their contents.
 */
module Parse {
  import opened Wrappers
  import T = Tokenizer
  import Integer

  datatype Op = Add | Sub | Mul | Div | Gt | Lt | Eq | Ne | Ge | Le

  /** The AST node kinds of the current runtime, each with its line number.
      A call's options map option names to value nodes. */
  datatype Node =
    | Str(lineno: nat, chars: seq<int>)
    | Int(lineno: nat, number: int)
    | GetVar(lineno: nat, name: seq<int>)
    | Array(lineno: nat, elems: seq<Node>)
    | Block(lineno: nat, stmts: seq<Node>)
    | Call(lineno: nat, func: Node, args: seq<Node>, opts: map<seq<int>, Node>)
    | OpCall(lineno: nat, op: Op, lhs: Node, rhs: Node)
    | GetAttr(lineno: nat, obj: Node, name: seq<int>)
    | CreateVar(lineno: nat, name: seq<int>, value: Node)
    | SetVar(lineno: nat, name: seq<int>, value: Node)
    | SetAttr(lineno: nat, obj: Node, name: seq<int>, value: Node)

  /** A failed assert or a NULL dereference: the process aborts. */
  datatype Failure = Aborted

  type Tokens = seq<T.Token>

  /** A node and the position of the first token after it. */
  type Parsed = Result<(Node, nat), Failure>

  function Sym(c: char): seq<int>
  {
    [c as int]
  }

  /** An OP token spelled c. */
  predicate IsOp(t: T.Token, c: char)
  {
    t.kind == T.Op && t.str == Sym(c)
  }

  /** The name of the variable an implicit return assigns through. */
  const Return: seq<int> := ['r' as int, 'e' as int, 't' as int, 'u' as int, 'r' as int, 'n' as int]

  const Backslash: int := '\\' as int

  /** expression_coming_up: the token at i can start an expression. */
  predicate ExpressionComingUp(toks: Tokens, i: nat)
  {
    i < |toks| &&
    (toks[i].kind == T.Str || toks[i].kind == T.Int || toks[i].kind == T.Id ||
     IsOp(toks[i], '(') || IsOp(toks[i], '{') || IsOp(toks[i], '['))
  }

  // ---------------------------------------------------------------------
  // string literals

  /** The character the escape sequence `\c` stands for, if it is one. */
  function Escaped(c: int): Option<int>
  {
    if c == 'n' as int then Some('\n' as int)
    else if c == 't' as int then Some('\t' as int)
    else if c == Backslash then Some(Backslash)
    else if c == T.Quote then Some(T.Quote)
    else None
  }

  /** The loop of parse_string on the characters after the opening quote:
      it copies characters and decodes escapes up to the first unescaped
      quote.  Reading past the token or an unknown escape aborts. */
  function Unescape(s: seq<int>): (r: Result<seq<int>, Failure>)
    ensures r.Ok? ==> |r.value| < |s|
    ensures r.Ok? ==> T.Quote in s
  {
    if |s| == 0 then Err(Aborted)
    else if s[0] == T.Quote then Ok([])
    else if s[0] == Backslash then
      if |s| < 2 then Err(Aborted)
      else
        match Escaped(s[1])
        case None => Err(Aborted)
        case Some(c) =>
          var rest :- Unescape(s[2..]);
          Ok([c] + rest)
    else
      var rest :- Unescape(s[1..]);
      Ok([s[0]] + rest)
  }

  /** parse_string: the first character (the opening quote) is skipped
      unread; the result is never longer than the token minus two. */
  function DecodeString(str: seq<int>): (r: Result<seq<int>, Failure>)
    ensures r.Ok? ==> |r.value| <= |str| - 2
  {
    if |str| == 0 then Err(Aborted) else Unescape(str[1..])
  }

  /** How a character is written inside a literal: the four escapable
      characters as their escapes, the others as themselves. */
  function EscapeChar(c: int): seq<int>
  {
    if c == '\n' as int then [Backslash, 'n' as int]
    else if c == '\t' as int then [Backslash, 't' as int]
    else if c == Backslash then [Backslash, Backslash]
    else if c == T.Quote then [Backslash, T.Quote]
    else [c]
  }

  function Escape(cs: seq<int>): seq<int>
  {
    if |cs| == 0 then [] else EscapeChar(cs[0]) + Escape(cs[1..])
  }

  /** The literal token text of a string. */
  function Quoted(cs: seq<int>): seq<int>
  {
    [T.Quote] + Escape(cs) + [T.Quote]
  }

  lemma {:induction false} UnescapeEscape(cs: seq<int>, rest: seq<int>)
    ensures Unescape(Escape(cs) + [T.Quote] + rest) == Ok(cs)
  {
    if |cs| > 0 {
      var x := Escape(cs[1..]) + [T.Quote] + rest;
      assert Escape(cs) + [T.Quote] + rest == EscapeChar(cs[0]) + x;
      assert cs == [cs[0]] + cs[1..];
      hide Unescape, EscapeChar, Escape;
      UnescapeEscape(cs[1..], rest);
      UnescapeOne(cs[0], x, cs[1..]);
    }
  }

  lemma UnescapeOne(c: int, x: seq<int>, v: seq<int>)
    requires Unescape(x) == Ok(v)
    ensures Unescape(EscapeChar(c) + x) == Ok([c] + v)
  {
    if c == '\n' as int {
      UnescapePair('n' as int, c, x, v);
    } else if c == '\t' as int {
      UnescapePair('t' as int, c, x, v);
    } else if c == Backslash || c == T.Quote {
      UnescapePair(c, c, x, v);
    } else {
      assert EscapeChar(c) == [c];
      var s := [c] + x;
      assert s[1..] == x;
    }
  }

  /** An escape sequence decodes to the character it stands for. */
  lemma UnescapePair(e: int, c: int, x: seq<int>, v: seq<int>)
    requires Escaped(e) == Some(c) && Unescape(x) == Ok(v)
    ensures Unescape([Backslash, e] + x) == Ok([c] + v)
  {
    var s := [Backslash, e] + x;
    assert s[2..] == x;
  }

  /** Decoding inverts quoting: every string survives the round trip. */
  lemma StringRoundTrip(cs: seq<int>)
    ensures DecodeString(Quoted(cs)) == Ok(cs)
  {
    UnescapeEscape(cs, []);
    assert Quoted(cs)[1..] == Escape(cs) + [T.Quote] + [];
  }

  /** A literal without quotes, backslashes, newlines or tabs decodes to
      its text with both quotes dropped. */
  lemma {:induction false} QuotesDropped(cs: seq<int>)
    requires forall k :: 0 <= k < |cs| ==> cs[k] != T.Quote && cs[k] != Backslash && cs[k] != '\n' as int && cs[k] != '\t' as int
    ensures DecodeString([T.Quote] + cs + [T.Quote]) == Ok(cs)
  {
    PlainEscape(cs);
    StringRoundTrip(cs);
  }

  lemma {:induction false} PlainEscape(cs: seq<int>)
    requires forall k :: 0 <= k < |cs| ==> cs[k] != T.Quote && cs[k] != Backslash && cs[k] != '\n' as int && cs[k] != '\t' as int
    ensures Escape(cs) == cs
  {
    if |cs| > 0 {
      PlainEscape(cs[1..]);
    }
  }

  // ---------------------------------------------------------------------
  // operators

  /** The operator an OP token of parse_operator_call spells, if any. */
  function OperatorOf(s: seq<int>): Option<Op>
  {
    if |s| == 1 then
      if s[0] == '+' as int then Some(Add)
      else if s[0] == '-' as int then Some(Sub)
      else if s[0] == '*' as int then Some(Mul)
      else if s[0] == '/' as int then Some(Div)
      else if s[0] == '>' as int then Some(Gt)
      else if s[0] == '<' as int then Some(Lt)
      else None
    else if |s| == 2 && s[1] == '=' as int then
      if s[0] == '=' as int then Some(Eq)
      else if s[0] == '!' as int then Some(Ne)
      else if s[0] == '>' as int then Some(Ge)
      else if s[0] == '<' as int then Some(Le)
      else None
    else None
  }

  /** How each operator is written. */
  function OpText(op: Op): seq<int>
  {
    match op
    case Add => Sym('+')
    case Sub => Sym('-')
    case Mul => Sym('*')
    case Div => Sym('/')
    case Gt => Sym('>')
    case Lt => Sym('<')
    case Eq => ['=' as int, '=' as int]
    case Ne => ['!' as int, '=' as int]
    case Ge => ['>' as int, '=' as int]
    case Le => ['<' as int, '=' as int]
  }

  /** The ten operator spellings map one-to-one onto the ten operators. */
  lemma OperatorsOneToOne(s: seq<int>, op: Op)
    ensures OperatorOf(s) == Some(op) <==> s == OpText(op)
  {
  }

  // ---------------------------------------------------------------------
  // the implicit-return scan of parse_block

  /** The brace-counting loop of parse_block from token j with count c:
      Some(false) at a `;` while the count is 1, Some(true) at the `}` that
      brings the count to 0, None when the tokens run out (the failing
      assert(foundit)). */
  function ImplicitReturn(toks: Tokens, j: nat, c: nat): Option<bool>
    requires j <= |toks| && c >= 1
    decreases |toks| - j
  {
    if j == |toks| then None
    else
      var t := toks[j];
      if t.kind != T.Op || |t.str| != 1 then ImplicitReturn(toks, j + 1, c)
      else if t.str[0] == ';' as int && c == 1 then Some(false)
      else if t.str[0] == '}' as int then
        if c == 1 then Some(true) else ImplicitReturn(toks, j + 1, c - 1)
      else if t.str[0] == '{' as int then ImplicitReturn(toks, j + 1, c + 1)
      else ImplicitReturn(toks, j + 1, c)
  }

  /** The brace depth a token changes. */
  function Delta(t: T.Token): int
  {
    if IsOp(t, '{') then 1 else if IsOp(t, '}') then -1 else 0
  }

  /** The brace depth just before toks[k], starting at j with depth c. */
  function Depth(toks: Tokens, j: nat, k: nat, c: int): int
    requires j <= k <= |toks|
    decreases k - j
  {
    if j == k then c else Depth(toks, j + 1, k, c + Delta(toks[j]))
  }

  /** A `;` or a `}` at depth 1: where the scan decides. */
  predicate Decides(t: T.Token, d: int)
  {
    d == 1 && (IsOp(t, ';') || IsOp(t, '}'))
  }

  /** Token k is the first deciding token from j on. */
  ghost predicate FirstDecider(toks: Tokens, j: nat, k: nat, c: int)
  {
    j <= k < |toks| && Decides(toks[k], Depth(toks, j, k, c)) &&
    forall m :: j <= m < k ==> !Decides(toks[m], Depth(toks, j, m, c))
  }

  /** The scan answers exactly when some token decides, and its answer is
      whether the first deciding token is the block's closing `}`: a block
      is an implicit return iff its matching `}` comes before any `;` at
      depth 1. */
  lemma {:induction false} ScanFindsFirstDecider(toks: Tokens, j: nat, c: nat)
    requires j <= |toks| && c >= 1
    ensures ImplicitReturn(toks, j, c).None? <==>
      forall k :: j <= k < |toks| ==> !Decides(toks[k], Depth(toks, j, k, c))
    ensures forall k: nat :: FirstDecider(toks, j, k, c) ==> ImplicitReturn(toks, j, c) == Some(IsOp(toks[k], '}'))
    decreases |toks| - j
  {
    if j < |toks| {
      var t := toks[j];
      var c' := c + Delta(t);
      if !Decides(t, c) {
        assert c' >= 1;
        ScanFindsFirstDecider(toks, j + 1, c');
        forall k | j < k <= |toks|
          ensures Depth(toks, j, k, c) == Depth(toks, j + 1, k, c')
        {
        }
        assert ImplicitReturn(toks, j, c) == ImplicitReturn(toks, j + 1, c');
        forall k: nat | FirstDecider(toks, j, k, c)
          ensures FirstDecider(toks, j + 1, k, c')
        {
        }
        assert Depth(toks, j, j, c) == c;
      } else {
        assert Depth(toks, j, j, c) == c;
      }
    }
  }

  // ---------------------------------------------------------------------
  // the parser

  /** The statement an implicit return stands for: `return e;`, a call of
      the variable `return` on line e.lineno. */
  function ReturnCall(e: Node): Node
  {
    Call(e.lineno, GetVar(e.lineno, Return), [e], map[])
  }

  /** The switch of parse_expression: one literal, variable, array, block
      or parenthesized call. */
  function Primary(toks: Tokens, i: nat): (r: Parsed)
    requires i <= |toks|
    ensures r.Ok? ==> i < r.value.1 <= |toks| && ExpressionComingUp(toks, i)
    ensures r.Ok? ==> !r.value.0.GetAttr?
    decreases |toks| - i, 1
  {
    if i == |toks| then Err(Aborted)
    else
      var t := toks[i];
      match t.kind
      case Str =>
        var s :- DecodeString(t.str);
        Ok((Str(t.lineno, s), i + 1))
      case Int =>
        (match Integer.NewFromUstr(t.str)
         case None => Err(Aborted)
         case Some(v) => Ok((Int(t.lineno, v), i + 1)))
      case Id => Ok((GetVar(t.lineno, t.str), i + 1))
      case Op =>
        if t.str == Sym('[') then ParseArray(toks, i)
        else if t.str == Sym('{') then ParseBlock(toks, i)
        else if t.str == Sym('(') then ParseCallExpression(toks, i)
        else Err(Aborted)
      case Keyword => Err(Aborted)
  }

  /** The attribute loop of parse_expression: each `.name` wraps the node
      so far in a GETATTR carrying the line of the dot. */
  function Attributes(toks: Tokens, i: nat, node: Node): (r: Parsed)
    requires i <= |toks|
    ensures r.Ok? ==> i <= r.value.1 <= |toks| && !(r.value.1 < |toks| && IsOp(toks[r.value.1], '.'))
    ensures r.Ok? ==> (r.value.1 - i) % 2 == 0 && r.value.0 == Nest(node, toks, i, r.value.1)
    decreases |toks| - i
  {
    if i < |toks| && IsOp(toks[i], '.') then
      if i + 1 == |toks| || toks[i + 1].kind != T.Id then Err(Aborted)
      else
        var r := Attributes(toks, i + 2, GetAttr(toks[i].lineno, node, toks[i + 1].str));
        if r.Ok? then
          NestStep(node, toks, i, r.value.1);
          r
        else r
    else Ok((node, i))
  }

  /** toks[i..j] is a chain of `.name` pairs. */
  ghost predicate AttrChain(toks: Tokens, i: nat, j: nat)
    decreases j - i
  {
    i <= j <= |toks| &&
    (i == j || (i + 2 <= j && IsOp(toks[i], '.') && toks[i + 1].kind == T.Id && AttrChain(toks, i + 2, j)))
  }

  /** The node a chain of `.name` pairs after node denotes, read from its
      last pair: the last attribute is outermost, so `a.b.c` is
      GETATTR(GETATTR(a, b), c). */
  ghost function Nest(node: Node, toks: Tokens, i: nat, j: nat): Node
    requires i <= j <= |toks|
    decreases j - i
  {
    if j < i + 2 then node
    else GetAttr(toks[j - 2].lineno, Nest(node, toks, i, j - 2), toks[j - 1].str)
  }

  lemma {:induction false} NestStep(node: Node, toks: Tokens, i: nat, j: nat)
    requires i + 2 <= j <= |toks| && (j - i) % 2 == 0
    ensures Nest(node, toks, i, j) == Nest(GetAttr(toks[i].lineno, node, toks[i + 1].str), toks, i + 2, j)
    decreases j - i
  {
    if j > i + 2 {
      NestStep(node, toks, i, j - 2);
    }
  }

  /** The attribute loop consumes whole `.name` pairs. */
  lemma {:induction false} AttributesReadPairs(toks: Tokens, i: nat, node: Node)
    requires i <= |toks| && Attributes(toks, i, node).Ok?
    ensures AttrChain(toks, i, Attributes(toks, i, node).value.1)
    decreases |toks| - i
  {
    if i < |toks| && IsOp(toks[i], '.') {
      AttributesReadPairs(toks, i + 2, GetAttr(toks[i].lineno, node, toks[i + 1].str));
    }
  }

  /** parse_expression: a primary, then its attributes. */
  function ParseExpression(toks: Tokens, i: nat): (r: Parsed)
    requires i <= |toks|
    ensures r.Ok? ==> i < r.value.1 <= |toks| && ExpressionComingUp(toks, i)
    ensures r.Ok? ==> !(r.value.1 < |toks| && IsOp(toks[r.value.1], '.'))
    decreases |toks| - i, 2
  {
    var p :- Primary(toks, i);
    Attributes(toks, p.1, p.0)
  }

  /** parse_array on the `[` at i: expressions up to the `]`. */
  function ParseArray(toks: Tokens, i: nat): (r: Parsed)
    requires i < |toks| && toks[i].str == Sym('[')
    ensures r.Ok? ==> i < r.value.1 <= |toks| && r.value.0.Array? && r.value.0.lineno == toks[i].lineno
    ensures r.Ok? ==> IsOp(toks[r.value.1 - 1], ']')
    decreases |toks| - i, 0
  {
    if i + 1 == |toks| then Err(Aborted)
    else
      var p :- ArrayElems(toks, i + 1, []);
      if p.1 == |toks| then Err(Aborted)
      else Ok((Array(toks[i].lineno, p.0), p.1 + 1))
  }

  /** The element loop of parse_array. */
  function ArrayElems(toks: Tokens, j: nat, acc: seq<Node>): (r: Result<(seq<Node>, nat), Failure>)
    requires j <= |toks|
    ensures r.Ok? ==> j <= r.value.1 <= |toks| && (r.value.1 < |toks| ==> IsOp(toks[r.value.1], ']'))
    ensures r.Ok? ==> |r.value.0| >= |acc| && r.value.0[..|acc|] == acc
    decreases |toks| - j, 3
  {
    if j == |toks| || IsOp(toks[j], ']') then Ok((acc, j))
    else
      var e :- ParseExpression(toks, j);
      var r := ArrayElems(toks, e.1, acc + [e.0]);
      if r.Ok? then
        assert r.value.0[..|acc|] == (acc + [e.0])[..|acc|];
        r
      else r
  }

  /** parse_block on the `{` at i.  `{}` is an empty block; otherwise the
      brace scan decides between an implicit return (one expression, which
      becomes `return expr;`) and a list of statements up to the `}`. */
  function ParseBlock(toks: Tokens, i: nat): (r: Parsed)
    requires i < |toks| && toks[i].str == Sym('{')
    ensures r.Ok? ==> i + 1 < r.value.1 <= |toks| && r.value.0.Block? && r.value.0.lineno == toks[i].lineno
    ensures r.Ok? && IsOp(toks[i + 1], '}') ==> r.value.0.stmts == [] && r.value.1 == i + 2
    ensures r.Ok? && !IsOp(toks[i + 1], '}') && ImplicitReturn(toks, i + 1, 1) == Some(true) ==>
      ParseExpression(toks, i + 1).Ok? && r.value.0.stmts == [ReturnCall(ParseExpression(toks, i + 1).value.0)]
    ensures r.Ok? && !IsOp(toks[i + 1], '}') ==> ImplicitReturn(toks, i + 1, 1).Some?
    ensures r.Ok? ==> toks[r.value.1 - 1].str == Sym('}')
    decreases |toks| - i, 0
  {
    var j := i + 1;
    if j == |toks| then Err(Aborted)
    else
      var implicit :- if IsOp(toks[j], '}') then Ok(false)
        else match ImplicitReturn(toks, j, 1)
          case None => Err(Aborted)
          case Some(b) => Ok(b);
      var body :- if implicit then
          var e :- ParseExpression(toks, j);
          Ok(([ReturnCall(e.0)], e.1))
        else Statements(toks, j, []);
      var k := body.1;
      if k == |toks| || toks[k].str != Sym('}') then Err(Aborted)
      else Ok((Block(toks[i].lineno, body.0), k + 1))
  }

  /** The statement loop of parse_block: statements up to a `}`. */
  function Statements(toks: Tokens, j: nat, acc: seq<Node>): (r: Result<(seq<Node>, nat), Failure>)
    requires j <= |toks|
    ensures r.Ok? ==> j <= r.value.1 <= |toks| && (r.value.1 < |toks| ==> IsOp(toks[r.value.1], '}'))
    ensures r.Ok? ==> |r.value.0| >= |acc| && r.value.0[..|acc|] == acc
    ensures r.Ok? ==> forall k :: |acc| <= k < |r.value.0| ==> IsStatement(r.value.0[k])
    decreases |toks| - j, 5
  {
    if j == |toks| || IsOp(toks[j], '}') then Ok((acc, j))
    else
      var s :- ParseStatement(toks, j);
      var r := Statements(toks, s.1, acc + [s.0]);
      if r.Ok? then
        assert r.value.0[..|acc|] == (acc + [s.0])[..|acc|];
        assert r.value.0[|acc|] == (acc + [s.0])[|acc|];
        r
      else r
  }

  /** parse_call_expression on the `(` at i: an infix call, an operator
      call or a plain call, then the `)`. */
  function ParseCallExpression(toks: Tokens, i: nat): (r: Parsed)
    requires i < |toks| && toks[i].str == Sym('(')
    ensures r.Ok? ==> i < r.value.1 <= |toks| && toks[r.value.1 - 1].str == Sym(')')
    ensures r.Ok? ==> r.value.0.Call? || r.value.0.OpCall?
    decreases |toks| - i, 0
  {
    var first :- ParseExpression(toks, i + 1);
    var j := first.1;
    if j == |toks| then Err(Aborted)
    else
      var res :- if IsOp(toks[j], '`') then ParseInfixCall(toks, j, first.0)
        else if toks[j].kind == T.Op && OperatorOf(toks[j].str).Some? then ParseOperatorCall(toks, j, first.0)
        else ParseCall(toks, j, first.0);
      var k := res.1;
      if k == |toks| || toks[k].str != Sym(')') then Err(Aborted)
      else Ok((res.0, k + 1))
  }

  /** parse_operator_call on the operator token at j: lhs OP rhs, on the
      operator's line. */
  function ParseOperatorCall(toks: Tokens, j: nat, lhs: Node): (r: Parsed)
    requires j < |toks| && toks[j].kind == T.Op && OperatorOf(toks[j].str).Some?
    ensures r.Ok? ==> j + 1 < r.value.1 <= |toks|
    ensures r.Ok? ==> ParseExpression(toks, j + 1).Ok? && r.value.0 == OpCall(toks[j].lineno, OperatorOf(toks[j].str).value, lhs, ParseExpression(toks, j + 1).value.0)
    decreases |toks| - j, 0
  {
    var rhs :- ParseExpression(toks, j + 1);
    Ok((OpCall(toks[j].lineno, OperatorOf(toks[j].str).value, lhs, rhs.0), rhs.1))
  }

  /** parse_infix_call on the '`' at j: arg1 `func` arg2 is a call of func
      with the two arguments and no options, on the first backtick's line. */
  function ParseInfixCall(toks: Tokens, j: nat, arg1: Node): (r: Parsed)
    requires j < |toks| && toks[j].str == Sym('`')
    ensures r.Ok? ==> j + 2 < r.value.1 <= |toks|
    ensures r.Ok? ==> (r.value.0.Call? && r.value.0.lineno == toks[j].lineno && r.value.0.opts == map[] &&
                       |r.value.0.args| == 2 && r.value.0.args[0] == arg1 &&
                       ParseExpression(toks, j + 1).Ok? && r.value.0.func == ParseExpression(toks, j + 1).value.0)
    decreases |toks| - j, 0
  {
    var f :- ParseExpression(toks, j + 1);
    var k := f.1;
    if k == |toks| || toks[k].str != Sym('`') then Err(Aborted)
    else
      var a2 :- ParseExpression(toks, k + 1);
      Ok((Call(toks[j].lineno, f.0, [arg1, a2.0], map[]), a2.1))
  }

  /** parse_call with the function already parsed: the arguments and
      options that follow, on the line of the token after the function. */
  function ParseCall(toks: Tokens, j: nat, func: Node): (r: Parsed)
    requires j <= |toks|
    ensures r.Ok? ==> j <= r.value.1 <= |toks| && !ExpressionComingUp(toks, r.value.1)
    ensures r.Ok? ==> j < |toks| && r.value.0.Call? && r.value.0.func == func && r.value.0.lineno == toks[j].lineno
    decreases |toks| - j, 4
  {
    if j == |toks| then Err(Aborted)
    else
      var p :- CallArgs(toks, j, [], map[]);
      Ok((Call(toks[j].lineno, func, p.0, p.1), p.2))
  }

  /** The loop of parse_call: while an expression comes up, `id :` followed
      by an expression is an option (a later one replaces an earlier one
      of the same name) and anything else a positional argument. */
  function CallArgs(toks: Tokens, j: nat, args: seq<Node>, opts: map<seq<int>, Node>): (r: Result<(seq<Node>, map<seq<int>, Node>, nat), Failure>)
    requires j <= |toks|
    ensures r.Ok? ==> j <= r.value.2 <= |toks| && !ExpressionComingUp(toks, r.value.2)
    ensures r.Ok? ==> |r.value.0| >= |args| && r.value.0[..|args|] == args && opts.Keys <= r.value.1.Keys
    decreases |toks| - j, 3
  {
    if !ExpressionComingUp(toks, j) then Ok((args, opts, j))
    else if toks[j].kind == T.Id && j + 1 < |toks| && IsOp(toks[j + 1], ':') then
      var v :- ParseExpression(toks, j + 2);
      CallArgs(toks, v.1, args, opts[toks[j].str := v.0])
    else
      var a :- ParseExpression(toks, j);
      var r := CallArgs(toks, a.1, args + [a.0], opts);
      if r.Ok? then
        assert r.value.0[..|args|] == (args + [a.0])[..|args|];
        r
      else r
  }

  /** parse_var_statement on the keyword at i: `var name = expr`. */
  function ParseVarStatement(toks: Tokens, i: nat): (r: Parsed)
    requires i < |toks|
    ensures r.Ok? ==> i + 3 < r.value.1 <= |toks|
    ensures r.Ok? ==> (toks[i].str == T.Var && toks[i + 1].kind == T.Id && IsOp(toks[i + 2], '=') &&
                       ParseExpression(toks, i + 3).Ok? &&
                       r.value.0 == CreateVar(toks[i].lineno, toks[i + 1].str, ParseExpression(toks, i + 3).value.0))
    decreases |toks| - i, 3
  {
    if toks[i].str != T.Var || i + 1 == |toks| || toks[i + 1].kind != T.Id then Err(Aborted)
    else if i + 2 == |toks| || !IsOp(toks[i + 2], '=') then Err(Aborted)
    else
      var v :- ParseExpression(toks, i + 3);
      Ok((CreateVar(toks[i].lineno, toks[i + 1].str, v.0), v.1))
  }

  /** The expression an assignment statement assigns to. */
  function Target(n: Node): Option<Node>
  {
    match n
    case SetVar(l, name, _) => Some(GetVar(l, name))
    case SetAttr(l, obj, name, _) => Some(GetAttr(l, obj, name))
    case _ => None
  }

  /** parse_assignment on the `=` at j: a variable target becomes SETVAR
      and an attribute target SETATTR, on the target's line, and the
      target can be read back from the statement; any other target aborts. */
  function ParseAssignment(toks: Tokens, j: nat, lhs: Node): (r: Parsed)
    requires j < |toks| && toks[j].str == Sym('=')
    ensures !(lhs.GetVar? || lhs.GetAttr?) ==> r.Err?
    ensures r.Ok? ==> j + 1 < r.value.1 <= |toks| && Target(r.value.0) == Some(lhs)
    ensures r.Ok? ==> ParseExpression(toks, j + 1).Ok? && r.value.0.value == ParseExpression(toks, j + 1).value.0
    decreases |toks| - j, 0
  {
    if !(lhs.GetVar? || lhs.GetAttr?) then Err(Aborted)
    else
      var rhs :- ParseExpression(toks, j + 1);
      if lhs.GetVar? then Ok((SetVar(lhs.lineno, lhs.name, rhs.0), rhs.1))
      else Ok((SetAttr(lhs.lineno, lhs.obj, lhs.name, rhs.0), rhs.1))
  }

  /** The node kinds parse_statement produces. */
  predicate IsStatement(n: Node)
  {
    n.CreateVar? || n.SetVar? || n.SetAttr? || n.Call?
  }

  /** parse_statement: a var statement, an assignment, an infix call or a
      call, and then the `;` that ends every statement. */
  function ParseStatement(toks: Tokens, i: nat): (r: Parsed)
    requires i <= |toks|
    ensures r.Ok? ==> i < r.value.1 <= |toks| && IsOp(toks[r.value.1 - 1], ';')
    ensures r.Ok? ==> IsStatement(r.value.0)
    ensures r.Ok? && toks[i].kind == T.Keyword ==> r.value.0.CreateVar?
    decreases |toks| - i, 4
  {
    if i == |toks| then Err(Aborted)
    else
      var s :- if toks[i].kind == T.Keyword then ParseVarStatement(toks, i)
        else
          var first :- ParseExpression(toks, i);
          var j := first.1;
          if j == |toks| then Err(Aborted)
          else if IsOp(toks[j], '=') then ParseAssignment(toks, j, first.0)
          else if IsOp(toks[j], '`') then ParseInfixCall(toks, j, first.0)
          else ParseCall(toks, j, first.0);
      var k := s.1;
      if k == |toks| || !IsOp(toks[k], ';') then Err(Aborted)
      else Ok((s.0, k + 1))
  }
}
