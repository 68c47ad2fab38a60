/**
 * A printer for the ASTs of src/parse.c and the proof that the parser
 * reads every printed tree back: for each well-formed expression or
 * statement whose nodes sit on one line L, ParseExpression and
 * ParseStatement return exactly that node and stop right after its
 * tokens.  The printer writes every call in prefix form, `(f args opts)`
 * as an expression and `f args opts;` as a statement, every operator call
 * as `(lhs op rhs)`, and every block with explicit statements.  It writes
 * the options of a call in an order it picks (a call's options are a
 * mapping without an order), so it is a specification only.
 */
module ParseInverse {
  import opened Wrappers
  import T = Tokenizer
  import Integer
  import opened Parse

  // ---------------------------------------------------------------------
  // integer literals

  /** The decimal digits of n, most significant first, without leading zeros. */
  function ToDigits(n: nat): (ds: seq<Integer.Digit>)
    ensures |ds| >= 1
    decreases n
  {
    if n < 10 then [n] else ToDigits(n / 10) + [n % 10]
  }

  function DigitChars(ds: seq<Integer.Digit>): (s: seq<int>)
    ensures |s| == |ds| && forall k :: 0 <= k < |ds| ==> s[k] == ds[k] + '0' as int
  {
    seq(|ds|, k requires 0 <= k < |ds| => ds[k] + '0' as int)
  }

  /** The text of an INT token for v: its digits, after a '-' when negative. */
  function IntText(v: int): seq<int>
  {
    if v < 0 then [T.Minus] + DigitChars(ToDigits(-v)) else DigitChars(ToDigits(v))
  }

  lemma {:induction false} ToDigitsValue(n: nat)
    ensures Integer.DecimalValue(ToDigits(n)) == n
    decreases n
  {
    if n >= 10 {
      ToDigitsValue(n / 10);
      var ds := ToDigits(n);
      assert ds[..|ds| - 1] == ToDigits(n / 10);
    }
  }

  lemma {:induction false} ToDigitsLength(n: nat, k: nat)
    requires k >= 1 && n < Integer.Pow10(k)
    ensures |ToDigits(n)| <= k
    decreases k
  {
    if n >= 10 {
      assert k >= 2;
      ToDigitsLength(n / 10, k - 1);
    }
  }

  lemma {:induction false} DigitsOfChars(ds: seq<Integer.Digit>)
    ensures Integer.Digits(DigitChars(ds)) == Some(ds)
  {
    var r := Integer.Digits(DigitChars(ds));
    assert r.Some?;
    assert r.value == ds;
  }

  /** Every int64 value is read back from its INT token text. */
  lemma {:induction false} IntRoundTrip(v: int)
    requires Integer.Int64Min <= v <= Integer.Int64Max
    ensures Integer.NewFromUstr(IntText(v)) == Some(v)
  {
    hide Integer.NewFromUstr, Integer.FromDigits, Integer.DecimalValue, Integer.Digits, Integer.Pow10, ToDigits;
    var negative := v < 0;
    var mag: nat := if negative then -v else v;
    var ds := ToDigits(mag);
    Integer.Pow10Value();
    ToDigitsLength(mag, 19);
    ToDigitsValue(mag);
    DigitsOfChars(ds);
    var u := IntText(v);
    var body := if negative then u[1..] else u;
    assert body == DigitChars(ds);
    assert 1 <= |u| <= 20 && (u[0] == '-' as int) == negative;
    assert Integer.DecimalValue(ds) == mag <= Integer.AbsMax(negative);
    assert Integer.SignedValue(negative, ds) == v;
  }

  // ---------------------------------------------------------------------
  // printed trees

  /** A well-formed expression tree whose every node is on line L (integer
      literals within int64). */
  ghost predicate ExprOn(n: Node, L: nat)
    decreases n
  {
    match n
    case Str(l, _) => l == L
    case Int(l, v) => l == L && Integer.Int64Min <= v <= Integer.Int64Max
    case GetVar(l, _) => l == L
    case Array(l, es) => l == L && forall k :: 0 <= k < |es| ==> ExprOn(es[k], L)
    case Block(l, ss) => l == L && forall k :: 0 <= k < |ss| ==> StmtOn(ss[k], L)
    case Call(l, f, _, _) => l == L && ExprOn(f, L) && ArgsOn(n, L)
    case OpCall(l, _, a, b) => l == L && ExprOn(a, L) && ExprOn(b, L)
    case GetAttr(l, o, _) => l == L && ExprOn(o, L)
    case _ => false
  }

  /** The arguments and option values of a call are well formed. */
  ghost predicate ArgsOn(n: Node, L: nat)
    requires n.Call?
    decreases n, 0
  {
    (forall k :: 0 <= k < |n.args| ==> ExprOn(n.args[k], L)) &&
    forall key :: key in n.opts ==> ExprOn(n.opts[key], L)
  }

  /** A well-formed statement on line L. */
  ghost predicate StmtOn(n: Node, L: nat)
    decreases n
  {
    match n
    case CreateVar(l, _, v) => l == L && ExprOn(v, L)
    case SetVar(l, _, v) => l == L && ExprOn(v, L)
    case SetAttr(l, o, _, v) => l == L && ExprOn(o, L) && ExprOn(v, L)
    case Call(l, f, _, _) => l == L && ExprOn(f, L) && ArgsOn(n, L)
    case _ => false
  }

  function OpTok(c: char, L: nat): T.Token
  {
    T.Token(T.Op, Sym(c), L)
  }

  function IdTok(name: seq<int>, L: nat): T.Token
  {
    T.Token(T.Id, name, L)
  }

  ghost function PickKey<V>(m: map<seq<int>, V>): (k: seq<int>)
    requires m != map[]
    ensures k in m
  {
    var k :| k in m; k
  }

  /** The value of the option PickKey chooses. */
  ghost function Pick(m: map<seq<int>, Node>): Node
    requires m != map[]
  {
    m[PickKey(m)]
  }

  /** The options after the one PickKey chooses. */
  ghost function Rest(m: map<seq<int>, Node>): map<seq<int>, Node>
    requires m != map[]
  {
    m - {PickKey(m)}
  }

  /** o with the option PickKey chooses from m added. */
  ghost function Put(o: map<seq<int>, Node>, m: map<seq<int>, Node>): map<seq<int>, Node>
    requires m != map[]
  {
    o[PickKey(m) := Pick(m)]
  }

  /** The options o, then those of m over them. */
  ghost function Merge(o: map<seq<int>, Node>, m: map<seq<int>, Node>): map<seq<int>, Node>
  {
    o + m
  }

  /** The tokens of an expression. */
  ghost function PrintE(n: Node, L: nat): Tokens
    requires ExprOn(n, L)
    decreases n, 1
  {
    match n
    case Str(_, cs) => [T.Token(T.Str, Quoted(cs), L)]
    case Int(_, v) => [T.Token(T.Int, IntText(v), L)]
    case GetVar(_, name) => [IdTok(name, L)]
    case Array(_, es) => [OpTok('[', L)] + (PrintList(n, es, L) + [OpTok(']', L)])
    case Block(_, ss) => [OpTok('{', L)] + (PrintStmts(n, ss, L) + [OpTok('}', L)])
    case Call(_, f, _, _) => [OpTok('(', L)] + (PrintE(f, L) + (PrintArgs(n, L) + [OpTok(')', L)]))
    case OpCall(_, op, a, b) =>
      [OpTok('(', L)] + (PrintE(a, L) + ([T.Token(T.Op, OpText(op), L)] + (PrintE(b, L) + [OpTok(')', L)])))
    case GetAttr(_, o, name) => PrintE(o, L) + [OpTok('.', L), IdTok(name, L)]
  }

  /** The arguments, then the options, of a call. */
  ghost function PrintArgs(n: Node, L: nat): Tokens
    requires n.Call? && ArgsOn(n, L)
    decreases n, 0
  {
    PrintCallArgs(n, n.args, n.opts, L)
  }

  /** Positional arguments es one after the other, then the options m. */
  ghost function PrintCallArgs(parent: Node, es: seq<Node>, m: map<seq<int>, Node>, L: nat): Tokens
    requires forall k :: 0 <= k < |es| ==> es[k] < parent && ExprOn(es[k], L)
    requires forall key :: key in m ==> m[key] < parent && ExprOn(m[key], L)
    decreases parent, 0, 1, |es|
  {
    if |es| == 0 then PrintOpts(parent, m, L) else PrintE(es[0], L) + PrintCallArgs(parent, es[1..], m, L)
  }

  /** Expressions one after the other, each a member of parent's children. */
  ghost function PrintList(parent: Node, es: seq<Node>, L: nat): Tokens
    requires forall k :: 0 <= k < |es| ==> es[k] < parent && ExprOn(es[k], L)
    decreases parent, 0, |es|
  {
    if |es| == 0 then [] else PrintE(es[0], L) + PrintList(parent, es[1..], L)
  }

  /** `name : value` for each option of m, in the order PickKey gives. */
  ghost function PrintOpts(parent: Node, m: map<seq<int>, Node>, L: nat): Tokens
    requires forall key :: key in m ==> m[key] < parent && ExprOn(m[key], L)
    decreases parent, 0, 0, |m|
  {
    if m == map[] then []
    else
      [IdTok(PickKey(m), L), OpTok(':', L)] + (PrintE(Pick(m), L) + PrintOpts(parent, Rest(m), L))
  }

  /** Statements one after the other. */
  ghost function PrintStmts(parent: Node, ss: seq<Node>, L: nat): Tokens
    requires forall k :: 0 <= k < |ss| ==> ss[k] < parent && StmtOn(ss[k], L)
    decreases parent, 0, |ss|
  {
    if |ss| == 0 then [] else PrintS(ss[0], L) + PrintStmts(parent, ss[1..], L)
  }

  /** The tokens of a statement, `;` included. */
  ghost function PrintS(n: Node, L: nat): Tokens
    requires StmtOn(n, L)
    decreases n, 1
  {
    match n
    case CreateVar(_, name, v) =>
      [T.Token(T.Keyword, T.Var, L), IdTok(name, L), OpTok('=', L)] + (PrintE(v, L) + [OpTok(';', L)])
    case SetVar(_, name, v) => [IdTok(name, L), OpTok('=', L)] + (PrintE(v, L) + [OpTok(';', L)])
    case SetAttr(_, o, name, v) =>
      PrintE(o, L) + ([OpTok('.', L), IdTok(name, L), OpTok('=', L)] + (PrintE(v, L) + [OpTok(';', L)]))
    case Call(_, f, _, _) => PrintE(f, L) + (PrintArgs(n, L) + [OpTok(';', L)])
  }

  // ---------------------------------------------------------------------
  // positions in the token list

  /** Position k of a token pattern.  The quantifier of At fires only on a
      Probe term, so the solver looks at a position only where one of the
      lemmas below asks it to, and never on the index terms that the
      printed concatenations produce everywhere else. */
  function Probe(k: int): int
  {
    k
  }

  /** The tokens P sit in toks from position i on. */
  ghost predicate At(toks: Tokens, i: nat, P: Tokens)
  {
    i + |P| <= |toks| && forall k {:trigger Probe(k)} :: 0 <= k < |P| ==> toks[i + k] == P[k]
  }

  lemma {:induction false} AtSplit(toks: Tokens, i: nat, A: Tokens, B: Tokens)
    requires At(toks, i, A + B)
    ensures At(toks, i, A) && At(toks, i + |A|, B)
  {
    forall k | 0 <= k < |A|
      ensures toks[i + k] == A[k]
    {
      assert Probe(k) == k;
      assert (A + B)[k] == A[k];
    }
    forall k | 0 <= k < |B|
      ensures toks[i + |A| + k] == B[k]
    {
      assert Probe(|A| + k) == |A| + k;
      assert (A + B)[|A| + k] == B[k];
    }
  }

  lemma {:induction false} AtJoin(toks: Tokens, i: nat, A: Tokens, B: Tokens)
    requires At(toks, i, A) && At(toks, i + |A|, B)
    ensures At(toks, i, A + B)
  {
    forall k | 0 <= k < |A + B|
      ensures toks[i + k] == (A + B)[k]
    {
      if k < |A| {
        AtIndex(toks, i, A, k);
      } else {
        AtIndex(toks, i + |A|, B, k - |A|);
      }
    }
  }

  /** A, then B followed by C. */
  lemma {:induction false} AtSplitLeft(toks: Tokens, i: nat, A: Tokens, B: Tokens, C: Tokens)
    requires At(toks, i, A + B + C)
    ensures At(toks, i, A) && At(toks, i + |A|, B + C)
  {
    AtSplit(toks, i, A + B, C);
    AtSplit(toks, i, A, B);
    AtJoin(toks, i + |A|, B, C);
  }

  /** Two tokens, then V, then R. */
  lemma {:induction false} AtPair(toks: Tokens, i: nat, a: T.Token, b: T.Token, V: Tokens, R: Tokens)
    requires At(toks, i, [a, b] + (V + R))
    ensures i + 1 < |toks| && toks[i] == a && toks[i + 1] == b
    ensures At(toks, i + 2, V) && At(toks, i + 2 + |V|, R)
  {
    AtSplit(toks, i, [a, b], V + R);
    AtIndex(toks, i, [a, b], 0);
    AtIndex(toks, i, [a, b], 1);
    AtSplit(toks, i + 2, V, R);
  }

  /** Two tokens, then V, then W followed by C. */
  lemma {:induction false} AtPairLeft(toks: Tokens, i: nat, a: T.Token, b: T.Token, V: Tokens, W: Tokens, C: Tokens)
    requires At(toks, i, [a, b] + (V + W) + C)
    ensures i + 1 < |toks| && toks[i] == a && toks[i + 1] == b
    ensures At(toks, i + 2, V) && At(toks, i + 2 + |V|, W + C)
  {
    AtSplit(toks, i, [a, b] + (V + W), C);
    AtPair(toks, i, a, b, V, W);
    AtJoin(toks, i + 2 + |V|, W, C);
  }

  lemma AtWhole(toks: Tokens)
    ensures At(toks, 0, toks)
  {
    forall k | 0 <= k < |toks|
      ensures toks[0 + k] == toks[k]
    {
    }
  }

  lemma {:induction false} AtBound(toks: Tokens, i: nat, P: Tokens)
    requires At(toks, i, P)
    ensures i + |P| <= |toks|
  {
  }

  lemma {:induction false} AtHead(toks: Tokens, i: nat, P: Tokens)
    requires At(toks, i, P) && |P| > 0
    ensures i < |toks| && toks[i] == P[0]
  {
    AtIndex(toks, i, P, 0);
  }

  lemma {:induction false} AtIndex(toks: Tokens, i: nat, P: Tokens, k: nat)
    requires At(toks, i, P) && k < |P|
    ensures i + k < |toks| && toks[i + k] == P[k]
  {
    assert Probe(k) == k;
  }

  // Sequence and map identities, each proved on its own so that the
  // extensionality reasoning stays out of the larger contexts below.

  lemma AppendHead<X>(acc: seq<X>, es: seq<X>)
    requires |es| > 0
    ensures acc + [es[0]] + es[1..] == acc + es
  {
  }

  lemma AppendNone<X>(acc: seq<X>, es: seq<X>)
    requires |es| == 0
    ensures acc + es == acc
  {
  }

  lemma EmptyPrefix<X>(es: seq<X>)
    ensures [] + es == es
  {
  }

  lemma MergeNone(o: map<seq<int>, Node>, m: map<seq<int>, Node>)
    requires m == map[]
    ensures Merge(o, m) == o
  {
  }

  lemma EmptyMerge(m: map<seq<int>, Node>)
    ensures Merge(map[], m) == m
  {
  }

  /** With no positional arguments left, the options are printed, the
      first PickKey chooses ahead of the rest. */
  lemma OptionsPrinted(parent: Node, es: seq<Node>, m: map<seq<int>, Node>, L: nat)
    requires |es| == 0 && m != map[]
    requires forall key :: key in m ==> m[key] < parent && ExprOn(m[key], L)
    ensures Pick(m) < parent && forall key :: key in Rest(m) ==> Rest(m)[key] < parent && ExprOn(Rest(m)[key], L)
    ensures PrintCallArgs(parent, es, m, L) ==
      [IdTok(PickKey(m), L), OpTok(':', L)] + (PrintE(Pick(m), L) + PrintCallArgs(parent, [], Rest(m), L))
  {
  }

  lemma NoOpts(parent: Node, m: map<seq<int>, Node>, L: nat)
    requires m == map[]
    ensures |PrintOpts(parent, m, L)| == 0
  {
  }

  lemma RestSmaller(m: map<seq<int>, Node>)
    requires m != map[]
    ensures |Rest(m)| < |m|
  {
  }

  /** The value and the other options of a map whose values are children. */
  lemma OptionsBelow(parent: Node, m: map<seq<int>, Node>, L: nat)
    requires m != map[]
    requires forall key :: key in m ==> m[key] < parent && ExprOn(m[key], L)
    ensures Pick(m) < parent && ExprOn(Pick(m), L)
    ensures forall key :: key in Rest(m) ==> Rest(m)[key] < parent && ExprOn(Rest(m)[key], L)
  {
  }

  lemma MergeOne(o: map<seq<int>, Node>, m: map<seq<int>, Node>)
    requires m != map[]
    ensures Put(o, m) == o[PickKey(m) := Pick(m)]
    ensures Merge(Put(o, m), Rest(m)) == Merge(o, m)
  {
  }

  /** A token an expression can start with. */
  predicate Starts(t: T.Token)
  {
    t.kind == T.Str || t.kind == T.Int || t.kind == T.Id || IsOp(t, '(') || IsOp(t, '{') || IsOp(t, '[')
  }

  /** The tokens that may follow an element of an argument list or array:
      the start of the next element, or the closing token c. */
  predicate StartsOr(t: T.Token, c: char)
  {
    Starts(t) || IsOp(t, c)
  }

  /** The node at the bottom of a chain of attribute reads. */
  ghost function Base(n: Node): Node
  {
    if n.GetAttr? then Base(n.obj) else n
  }

  /** No `.` at position k, so an attribute chain ends there. */
  predicate NoDotAt(toks: Tokens, k: nat)
  {
    !(k < |toks| && IsOp(toks[k], '.'))
  }

  /** A token that may follow a call argument is not a dot. */
  lemma NotDot(t: T.Token, c: char)
    requires StartsOr(t, c) && (c == ')' || c == ';')
    ensures !IsOp(t, '.')
  {
    if t.kind == T.Op && |t.str| > 0 {
      assert t.str[0] != '.' as int;
    }
  }

  lemma NoDotAtEnd(toks: Tokens)
    ensures NoDotAt(toks, |toks|)
  {
  }

  lemma NoDotAtOp(toks: Tokens, k: nat, c: char, L: nat)
    requires k < |toks| && toks[k] == OpTok(c, L) && c != '.'
    ensures NoDotAt(toks, k)
  {
  }

  /** A printed expression starts with an expression token on line L, and
      one that starts with a name is that name alone or followed by a dot. */
  lemma {:induction false} FirstOfE(n: Node, L: nat)
    requires ExprOn(n, L)
    ensures |PrintE(n, L)| > 0 && Starts(PrintE(n, L)[0]) && PrintE(n, L)[0].lineno == L
    ensures PrintE(n, L)[0].kind == T.Id ==> |PrintE(n, L)| == 1 || IsOp(PrintE(n, L)[1], '.')
    decreases n
  {
    if n.GetAttr? {
      FirstOfE(n.obj, L);
    }
  }

  /** What follows an array element: the next element or the `]`. */
  lemma {:induction false} FirstOfElems(parent: Node, es: seq<Node>, L: nat, c: char)
    requires forall k :: 0 <= k < |es| ==> es[k] < parent && ExprOn(es[k], L)
    ensures StartsOr((PrintList(parent, es, L) + [OpTok(c, L)])[0], c)
    ensures (PrintList(parent, es, L) + [OpTok(c, L)])[0].lineno == L
  {
    if |es| > 0 {
      FirstOfE(es[0], L);
    }
  }

  /** What follows a call argument: the next argument, an option name or
      the closing token c. */
  lemma {:induction false} FirstOfArgs(parent: Node, es: seq<Node>, m: map<seq<int>, Node>, L: nat, c: char)
    requires forall k :: 0 <= k < |es| ==> es[k] < parent && ExprOn(es[k], L)
    requires forall key :: key in m ==> m[key] < parent && ExprOn(m[key], L)
    ensures StartsOr((PrintCallArgs(parent, es, m, L) + [OpTok(c, L)])[0], c)
    ensures (PrintCallArgs(parent, es, m, L) + [OpTok(c, L)])[0].lineno == L
  {
    if |es| > 0 {
      FirstOfE(es[0], L);
    }
  }

  lemma {:induction false} FirstOfS(n: Node, L: nat)
    requires StmtOn(n, L)
    ensures |PrintS(n, L)| > 0 && !IsOp(PrintS(n, L)[0], '}')
    ensures PrintS(n, L)[0].kind == T.Keyword <==> n.CreateVar?
  {
    if n.SetAttr? {
      FirstOfE(n.obj, L);
    } else if n.Call? {
      FirstOfE(n.func, L);
    }
  }

  // ---------------------------------------------------------------------
  // the brace scan over printed code

  /** A token the brace scan of parse_block steps over. */
  predicate Neutral(t: T.Token)
  {
    t.kind != T.Op || |t.str| != 1 || (t.str[0] != ';' as int && t.str[0] != '{' as int && t.str[0] != '}' as int)
  }

  lemma {:induction false} ScanSkips(toks: Tokens, i: nat, P: Tokens, c: nat)
    requires At(toks, i, P) && c >= 1 && forall k :: 0 <= k < |P| ==> Neutral(P[k])
    ensures ImplicitReturn(toks, i, c) == ImplicitReturn(toks, i + |P|, c)
    decreases |P|
  {
    if |P| > 0 {
      assert P == P[..1] + P[1..];
      AtSplit(toks, i, P[..1], P[1..]);
      AtHead(toks, i, P);
      ScanSkips(toks, i + 1, P[1..], c);
    }
  }

  /** The scan passes over a printed expression as if it were not there:
      its braces balance and its semicolons sit inside them. */
  lemma {:induction false} ScanOverE(toks: Tokens, i: nat, n: Node, L: nat, c: nat)
    requires ExprOn(n, L) && At(toks, i, PrintE(n, L)) && c >= 1
    ensures ImplicitReturn(toks, i, c) == ImplicitReturn(toks, i + |PrintE(n, L)|, c)
    decreases n, 3
  {
    if n.Array? {
      ScanOverArray(toks, i, n, L, c);
    } else if n.Block? {
      ScanOverBlock(toks, i, n, L, c);
    } else if n.Call? {
      ScanOverCall(toks, i, n, L, c);
    } else if n.OpCall? {
      ScanOverOpCall(toks, i, n, L, c);
    } else if n.GetAttr? {
      var A, B := PrintE(n.obj, L), [OpTok('.', L), IdTok(n.name, L)];
      AtSplit(toks, i, A, B);
      ScanOverE(toks, i, n.obj, L, c);
      ScanSkips(toks, i + |A|, B, c);
    } else {
      ScanSkips(toks, i, PrintE(n, L), c);
    }
  }

  lemma {:induction false} ScanOverArray(toks: Tokens, i: nat, n: Node, L: nat, c: nat)
    requires n.Array? && ExprOn(n, L) && At(toks, i, PrintE(n, L)) && c >= 1
    ensures ImplicitReturn(toks, i, c) == ImplicitReturn(toks, i + |PrintE(n, L)|, c)
    decreases n, 2
  {
    var A, B, C := [OpTok('[', L)], PrintList(n, n.elems, L), [OpTok(']', L)];
    AtSplit(toks, i, A, B + C);
    AtSplit(toks, i + 1, B, C);
    ScanSkips(toks, i, A, c);
    ScanOverList(toks, i + 1, n, n.elems, L, c);
    ScanSkips(toks, i + 1 + |B|, C, c);
  }

  lemma {:induction false} ScanOverBlock(toks: Tokens, i: nat, n: Node, L: nat, c: nat)
    requires n.Block? && ExprOn(n, L) && At(toks, i, PrintE(n, L)) && c >= 1
    ensures ImplicitReturn(toks, i, c) == ImplicitReturn(toks, i + |PrintE(n, L)|, c)
    decreases n, 2
  {
    var A, B, C := [OpTok('{', L)], PrintStmts(n, n.stmts, L), [OpTok('}', L)];
    AtSplit(toks, i, A, B + C);
    AtSplit(toks, i + 1, B, C);
    AtHead(toks, i, A);
    ScanOverStmts(toks, i + 1, n, n.stmts, L, c + 1);
    AtHead(toks, i + 1 + |B|, C);
  }

  lemma {:induction false} ScanOverCall(toks: Tokens, i: nat, n: Node, L: nat, c: nat)
    requires n.Call? && ExprOn(n, L) && At(toks, i, PrintE(n, L)) && c >= 1
    ensures ImplicitReturn(toks, i, c) == ImplicitReturn(toks, i + |PrintE(n, L)|, c)
    decreases n, 2
  {
    var A, B, C, D := [OpTok('(', L)], PrintE(n.func, L), PrintArgs(n, L), [OpTok(')', L)];
    AtSplit(toks, i, A, B + (C + D));
    AtSplit(toks, i + 1, B, C + D);
    AtSplit(toks, i + 1 + |B|, C, D);
    ScanSkips(toks, i, A, c);
    ScanOverE(toks, i + 1, n.func, L, c);
    ScanOverArgs(toks, i + 1 + |B|, n, L, c);
    ScanSkips(toks, i + 1 + |B| + |C|, D, c);
  }

  lemma {:induction false} ScanOverOpCall(toks: Tokens, i: nat, n: Node, L: nat, c: nat)
    requires n.OpCall? && ExprOn(n, L) && At(toks, i, PrintE(n, L)) && c >= 1
    ensures ImplicitReturn(toks, i, c) == ImplicitReturn(toks, i + |PrintE(n, L)|, c)
    decreases n, 2
  {
    hide *;
    OpCallTokens(toks, i, n, L);
    OpCallNeutral(n.op, L);
    var j := i + 1 + |PrintE(n.lhs, L)|;
    ScanOverOp(toks, i, OpTok('(', L), c);
    ScanOverE(toks, i + 1, n.lhs, L, c);
    ScanOverOp(toks, j, T.Token(T.Op, OpText(n.op), L), c);
    ScanOverE(toks, j + 1, n.rhs, L, c);
    ScanOverOp(toks, j + 1 + |PrintE(n.rhs, L)|, OpTok(')', L), c);
  }

  lemma OpCallNeutral(op: Op, L: nat)
    ensures Neutral(OpTok('(', L)) && Neutral(OpTok(')', L)) && Neutral(T.Token(T.Op, OpText(op), L))
  {
    OperatorsOneToOne(OpText(op), op);
  }

  /** The scan steps over one token that is not a brace or a semicolon. */
  lemma ScanOverOp(toks: Tokens, j: nat, t: T.Token, c: nat)
    requires j < |toks| && toks[j] == t && Neutral(t) && c >= 1
    ensures ImplicitReturn(toks, j, c) == ImplicitReturn(toks, j + 1, c)
  {
  }

  lemma {:induction false} ScanOverArgs(toks: Tokens, i: nat, n: Node, L: nat, c: nat)
    requires n.Call? && ArgsOn(n, L) && At(toks, i, PrintArgs(n, L)) && c >= 1
    ensures ImplicitReturn(toks, i, c) == ImplicitReturn(toks, i + |PrintArgs(n, L)|, c)
    decreases n, 1
  {
    ScanOverCallArgs(toks, i, n, n.args, n.opts, L, c);
  }

  lemma {:induction false} ScanOverCallArgs(toks: Tokens, i: nat, parent: Node, es: seq<Node>, m: map<seq<int>, Node>, L: nat, c: nat)
    requires forall k :: 0 <= k < |es| ==> es[k] < parent && ExprOn(es[k], L)
    requires forall key :: key in m ==> m[key] < parent && ExprOn(m[key], L)
    requires At(toks, i, PrintCallArgs(parent, es, m, L)) && c >= 1
    ensures ImplicitReturn(toks, i, c) == ImplicitReturn(toks, i + |PrintCallArgs(parent, es, m, L)|, c)
    decreases parent, 0, 1, |es|
  {
    if |es| > 0 {
      var A, B := PrintE(es[0], L), PrintCallArgs(parent, es[1..], m, L);
      AtSplit(toks, i, A, B);
      ScanOverE(toks, i, es[0], L, c);
      ScanOverCallArgs(toks, i + |A|, parent, es[1..], m, L, c);
    } else {
      ScanOverOpts(toks, i, parent, m, L, c);
    }
  }

  lemma {:induction false} ScanOverList(toks: Tokens, i: nat, parent: Node, es: seq<Node>, L: nat, c: nat)
    requires forall k :: 0 <= k < |es| ==> es[k] < parent && ExprOn(es[k], L)
    requires At(toks, i, PrintList(parent, es, L)) && c >= 1
    ensures ImplicitReturn(toks, i, c) == ImplicitReturn(toks, i + |PrintList(parent, es, L)|, c)
    decreases parent, 0, |es|
  {
    if |es| > 0 {
      var A, B := PrintE(es[0], L), PrintList(parent, es[1..], L);
      AtSplit(toks, i, A, B);
      ScanOverE(toks, i, es[0], L, c);
      ScanOverList(toks, i + |A|, parent, es[1..], L, c);
    }
  }

  lemma {:induction false} ScanOverOpts(toks: Tokens, i: nat, parent: Node, m: map<seq<int>, Node>, L: nat, c: nat)
    requires forall key :: key in m ==> m[key] < parent && ExprOn(m[key], L)
    requires At(toks, i, PrintOpts(parent, m, L)) && c >= 1
    ensures ImplicitReturn(toks, i, c) == ImplicitReturn(toks, i + |PrintOpts(parent, m, L)|, c)
    decreases parent, 0, 0, |m|
  {
    hide *;
    if m != map[] {
      OptsTokens(toks, i, parent, m, L);
      RestSmaller(m);
      ScanOverName(toks, i, PickKey(m), L, c);
      ScanOverE(toks, i + 2, Pick(m), L, c);
      ScanOverOpts(toks, i + 2 + |PrintE(Pick(m), L)|, parent, Rest(m), L, c);    } else {
      NoOpts(parent, m, L);
    }
  }

  lemma ScanOverName(toks: Tokens, i: nat, k: seq<int>, L: nat, c: nat)
    requires At(toks, i, [IdTok(k, L), OpTok(':', L)]) && c >= 1
    ensures ImplicitReturn(toks, i, c) == ImplicitReturn(toks, i + 2, c)
  {
    ScanSkips(toks, i, [IdTok(k, L), OpTok(':', L)], c);
  }

  /** The first option a printer writes, and the rest after it. */
  lemma {:induction false} OptsTokens(toks: Tokens, i: nat, parent: Node, m: map<seq<int>, Node>, L: nat)
    requires m != map[]
    requires forall key :: key in m ==> m[key] < parent && ExprOn(m[key], L)
    requires At(toks, i, PrintOpts(parent, m, L))
    ensures Pick(m) < parent && ExprOn(Pick(m), L)
    ensures forall key :: key in Rest(m) ==> Rest(m)[key] < parent && ExprOn(Rest(m)[key], L)
    ensures |PrintOpts(parent, m, L)| == 2 + |PrintE(Pick(m), L)| + |PrintOpts(parent, Rest(m), L)|
    ensures At(toks, i, [IdTok(PickKey(m), L), OpTok(':', L)]) && At(toks, i + 2, PrintE(Pick(m), L))
    ensures At(toks, i + 2 + |PrintE(Pick(m), L)|, PrintOpts(parent, Rest(m), L))
  {
    hide PrintE, PrintS, PrintList, PrintStmts, ExprOn, StmtOn, ArgsOn, Pick, Rest, Put, Merge;
    OptionsBelow(parent, m, L);
    var A, B, C := [IdTok(PickKey(m), L), OpTok(':', L)], PrintE(Pick(m), L), PrintOpts(parent, Rest(m), L);
    AtSplit(toks, i, A, B + C);
    AtSplit(toks, i + 2, B, C);
  }

  /** Inside a block (count at least 2) the scan passes over statements. */
  lemma {:induction false} ScanOverStmts(toks: Tokens, i: nat, parent: Node, ss: seq<Node>, L: nat, c: nat)
    requires forall k :: 0 <= k < |ss| ==> ss[k] < parent && StmtOn(ss[k], L)
    requires At(toks, i, PrintStmts(parent, ss, L)) && c >= 2
    ensures ImplicitReturn(toks, i, c) == ImplicitReturn(toks, i + |PrintStmts(parent, ss, L)|, c)
    decreases parent, 0, |ss|
  {
    if |ss| > 0 {
      var A, B := PrintS(ss[0], L), PrintStmts(parent, ss[1..], L);
      AtSplit(toks, i, A, B);
      ScanOverS(toks, i, ss[0], L, c);
      ScanOverStmts(toks, i + |A|, parent, ss[1..], L, c);
    }
  }

  /** A printed statement ends the scan at its `;` when the count is 1
      and is passed over otherwise. */
  lemma {:induction false} ScanOverS(toks: Tokens, i: nat, n: Node, L: nat, c: nat)
    requires StmtOn(n, L) && At(toks, i, PrintS(n, L)) && c >= 1
    ensures ImplicitReturn(toks, i, c) == if c == 1 then Some(false) else ImplicitReturn(toks, i + |PrintS(n, L)|, c)
    decreases n, 3
  {
    if n.SetAttr? {
      ScanOverSetAttr(toks, i, n, L, c);
    } else if n.Call? {
      ScanOverCallS(toks, i, n, L, c);
    } else {
      ScanOverVarS(toks, i, n, L, c);
    }
  }

  lemma {:induction false} ScanOverVarS(toks: Tokens, i: nat, n: Node, L: nat, c: nat)
    requires (n.CreateVar? || n.SetVar?) && StmtOn(n, L) && At(toks, i, PrintS(n, L)) && c >= 1
    ensures ImplicitReturn(toks, i, c) == if c == 1 then Some(false) else ImplicitReturn(toks, i + |PrintS(n, L)|, c)
    decreases n, 2
  {
    if n.CreateVar? {
      ScanOverAssign(toks, i, [T.Token(T.Keyword, T.Var, L), IdTok(n.name, L), OpTok('=', L)], n.value, L, c);
    } else {
      ScanOverAssign(toks, i, [IdTok(n.name, L), OpTok('=', L)], n.value, L, c);
    }
  }

  /** Neutral tokens A, an expression v, and a `;`. */
  lemma {:induction false} ScanOverAssign(toks: Tokens, i: nat, A: Tokens, v: Node, L: nat, c: nat)
    requires ExprOn(v, L) && At(toks, i, A + (PrintE(v, L) + [OpTok(';', L)])) && c >= 1
    requires forall k :: 0 <= k < |A| ==> Neutral(A[k])
    ensures ImplicitReturn(toks, i, c) ==
      if c == 1 then Some(false) else ImplicitReturn(toks, i + |A| + |PrintE(v, L)| + 1, c)
    decreases v, 4
  {
    var B, C := PrintE(v, L), [OpTok(';', L)];
    AtSplit(toks, i, A, B + C);
    AtSplit(toks, i + |A|, B, C);
    ScanSkips(toks, i, A, c);
    ScanOverE(toks, i + |A|, v, L, c);
    ScanEndsAtSemicolon(toks, i + |A| + |B|, L, c);
  }

  lemma {:induction false} ScanEndsAtSemicolon(toks: Tokens, j: nat, L: nat, c: nat)
    requires At(toks, j, [OpTok(';', L)]) && c >= 1
    ensures ImplicitReturn(toks, j, c) == if c == 1 then Some(false) else ImplicitReturn(toks, j + 1, c)
  {
    AtHead(toks, j, [OpTok(';', L)]);
  }

  lemma {:induction false} ScanOverSetAttr(toks: Tokens, i: nat, n: Node, L: nat, c: nat)
    requires n.SetAttr? && StmtOn(n, L) && At(toks, i, PrintS(n, L)) && c >= 1
    ensures ImplicitReturn(toks, i, c) == if c == 1 then Some(false) else ImplicitReturn(toks, i + |PrintS(n, L)|, c)
    decreases n, 2
  {
    hide *;
    SetAttrTokens(toks, i, n, L);
    SetAttrNeutral(n.name, L);
    var j := i + |PrintE(n.obj, L)|;
    ScanOverE(toks, i, n.obj, L, c);
    ScanOverOp(toks, j, OpTok('.', L), c);
    ScanOverOp(toks, j + 1, IdTok(n.name, L), c);
    ScanOverOp(toks, j + 2, OpTok('=', L), c);
    ScanOverE(toks, j + 3, n.value, L, c);
    ScanSemicolon(toks, j + 3 + |PrintE(n.value, L)|, L, c);
  }

  lemma SetAttrNeutral(name: seq<int>, L: nat)
    ensures Neutral(OpTok('.', L)) && Neutral(IdTok(name, L)) && Neutral(OpTok('=', L))
  {
  }

  /** At a `;` the scan stops when the count is 1 and steps over it
      otherwise. */
  lemma ScanSemicolon(toks: Tokens, x: nat, L: nat, c: nat)
    requires x < |toks| && toks[x] == OpTok(';', L) && c >= 1
    ensures ImplicitReturn(toks, x, c) == if c == 1 then Some(false) else ImplicitReturn(toks, x + 1, c)
  {
  }

  lemma {:induction false} ScanOverCallS(toks: Tokens, i: nat, n: Node, L: nat, c: nat)
    requires n.Call? && StmtOn(n, L) && At(toks, i, PrintS(n, L)) && c >= 1
    ensures ImplicitReturn(toks, i, c) == if c == 1 then Some(false) else ImplicitReturn(toks, i + |PrintS(n, L)|, c)
    decreases n, 2
  {
    var A, B, C := PrintE(n.func, L), PrintArgs(n, L), [OpTok(';', L)];
    AtSplit(toks, i, A, B + C);
    AtSplit(toks, i + |A|, B, C);
    ScanOverE(toks, i, n.func, L, c);
    ScanOverArgs(toks, i + |A|, n, L, c);
    AtHead(toks, i + |A| + |B|, C);
  }

  // ---------------------------------------------------------------------
  // reading printed code back

  /** A printed expression not followed by a dot is read back exactly. */
  lemma {:induction false} ExprRoundTrip(toks: Tokens, i: nat, n: Node, L: nat)
    requires ExprOn(n, L) && At(toks, i, PrintE(n, L)) && NoDotAt(toks, i + |PrintE(n, L)|)
    ensures ParseExpression(toks, i) == Ok((n, i + |PrintE(n, L)|))
    decreases n, 5
  {
    hide *;
    ChainRoundTrip(toks, i, n, L);
    AtBound(toks, i, PrintE(n, L));
    AttributesEnd(toks, i + |PrintE(n, L)|, n);
  }

  // One step of the parser each, stated on the tokens alone so that the
  // round-trip proofs below need not unfold the parser themselves.

  lemma {:induction false} ParseExpressionStep(toks: Tokens, i: nat, b: Node, x: nat)
    requires x <= |toks| && i <= |toks| && Primary(toks, i) == Ok((b, x))
    ensures ParseExpression(toks, i) == Attributes(toks, x, b)
  {
    hide Primary, Attributes;
  }

  lemma {:induction false} AttributesEnd(toks: Tokens, x: nat, n: Node)
    requires x <= |toks| && NoDotAt(toks, x)
    ensures Attributes(toks, x, n) == Ok((n, x))
  {
    hide ParseExpression, Primary;
  }

  lemma {:induction false} AttributesStep(toks: Tokens, x: nat, n: Node, name: seq<int>, L: nat)
    requires x + 1 < |toks| && toks[x] == OpTok('.', L) && toks[x + 1] == IdTok(name, L)
    ensures Attributes(toks, x, n) == Attributes(toks, x + 2, GetAttr(L, n, name))
  {
    hide ParseExpression, Primary;
  }

  lemma {:induction false} ArrayStep(toks: Tokens, i: nat, es: seq<Node>, x: nat, L: nat)
    requires i < x < |toks| && toks[i] == OpTok('[', L) && toks[x] == OpTok(']', L)
    requires ArrayElems(toks, i + 1, []) == Ok((es, x))
    ensures Primary(toks, i) == Ok((Array(L, es), x + 1))
  {
    hide ArrayElems, ParseBlock, ParseCallExpression, ParseExpression;
  }

  lemma {:induction false} ElemsStep(toks: Tokens, i: nat, acc: seq<Node>, e: Node, x: nat)
    requires i < |toks| && x <= |toks| && Starts(toks[i]) && ParseExpression(toks, i) == Ok((e, x))
    ensures ArrayElems(toks, i, acc) == ArrayElems(toks, x, acc + [e])
  {
    hide ParseExpression, Primary, Attributes;
  }

  lemma {:induction false} ElemsEnd(toks: Tokens, i: nat, acc: seq<Node>, L: nat)
    requires i < |toks| && toks[i] == OpTok(']', L)
    ensures ArrayElems(toks, i, acc) == Ok((acc, i))
  {
    hide ParseExpression, Primary, Attributes;
  }

  lemma {:induction false} BlockStep(toks: Tokens, i: nat, ss: seq<Node>, x: nat, L: nat)
    requires i < x < |toks| && toks[i] == OpTok('{', L) && toks[x] == OpTok('}', L)
    requires IsOp(toks[i + 1], '}') || ImplicitReturn(toks, i + 1, 1) == Some(false)
    requires Statements(toks, i + 1, []) == Ok((ss, x))
    ensures Primary(toks, i) == Ok((Block(L, ss), x + 1))
  {
    hide Statements, ImplicitReturn, ParseArray, ParseCallExpression, ParseStatement;
  }

  lemma {:induction false} StmtsStep(toks: Tokens, i: nat, acc: seq<Node>, s: Node, x: nat)
    requires i < |toks| && x <= |toks| && !IsOp(toks[i], '}') && ParseStatement(toks, i) == Ok((s, x))
    ensures Statements(toks, i, acc) == Statements(toks, x, acc + [s])
  {
    hide ParseStatement, ParseExpression;
  }

  lemma {:induction false} StmtsEnd(toks: Tokens, i: nat, acc: seq<Node>, L: nat)
    requires i < |toks| && toks[i] == OpTok('}', L)
    ensures Statements(toks, i, acc) == Ok((acc, i))
  {
    hide ParseStatement, ParseExpression;
  }

  /** A token that starts an expression or closes a call is neither an
      operator nor a backtick nor `=`. */
  lemma {:induction false} NotInfix(t: T.Token, c: char)
    requires StartsOr(t, c) && (c == ')' || c == ';')
    ensures !IsOp(t, '`') && !IsOp(t, '=') && (t.kind == T.Op ==> OperatorOf(t.str).None?)
  {
  }

  lemma {:induction false} CallStep(toks: Tokens, i: nat, f: Node, j: nat, args: seq<Node>, opts: map<seq<int>, Node>, x: nat, L: nat)
    requires i < j <= x < |toks| && toks[i] == OpTok('(', L) && toks[x] == OpTok(')', L)
    requires ParseExpression(toks, i + 1) == Ok((f, j))
    requires StartsOr(toks[j], ')') && toks[j].lineno == L
    requires CallArgs(toks, j, [], map[]) == Ok((args, opts, x))
    ensures Primary(toks, i) == Ok((Call(L, f, args, opts), x + 1))
  {
    hide ParseExpression, CallArgs, ParseInfixCall, ParseOperatorCall, ParseArray, ParseBlock;
    NotInfix(toks[j], ')');
    assert ParseCall(toks, j, f) == Ok((Call(L, f, args, opts), x));
    assert ParseCallExpression(toks, i) == Ok((Call(L, f, args, opts), x + 1));
  }

  lemma {:induction false} OpCallStep(toks: Tokens, i: nat, a: Node, j: nat, op: Op, b: Node, x: nat, L: nat)
    requires i < j < x < |toks| && toks[i] == OpTok('(', L) && toks[x] == OpTok(')', L)
    requires toks[j] == T.Token(T.Op, OpText(op), L)
    requires ParseExpression(toks, i + 1) == Ok((a, j)) && ParseExpression(toks, j + 1) == Ok((b, x))
    ensures Primary(toks, i) == Ok((OpCall(L, op, a, b), x + 1))
  {
    hide ParseExpression, ParseCall, CallArgs, ParseInfixCall, ParseArray, ParseBlock;
    OperatorsOneToOne(OpText(op), op);
    assert !IsOp(toks[j], '`') by {
      assert |OpText(op)| == 1 ==> OpText(op)[0] != '`' as int;
    }
    assert ParseOperatorCall(toks, j, a) == Ok((OpCall(L, op, a, b), x));
    assert ParseCallExpression(toks, i) == Ok((OpCall(L, op, a, b), x + 1));
  }

  lemma {:induction false} ArgStep(toks: Tokens, i: nat, acc: seq<Node>, o: map<seq<int>, Node>, e: Node, x: nat)
    requires i < |toks| && x <= |toks| && Starts(toks[i]) && ParseExpression(toks, i) == Ok((e, x))
    requires !(toks[i].kind == T.Id && i + 1 < |toks| && IsOp(toks[i + 1], ':'))
    ensures CallArgs(toks, i, acc, o) == CallArgs(toks, x, acc + [e], o)
  {
    hide ParseExpression, Primary, Attributes;
  }

  lemma {:induction false} OptStep(toks: Tokens, i: nat, acc: seq<Node>, o: map<seq<int>, Node>, k: seq<int>, v: Node, x: nat, L: nat)
    requires i + 1 < |toks| && x <= |toks| && toks[i] == IdTok(k, L) && toks[i + 1] == OpTok(':', L)
    requires ParseExpression(toks, i + 2) == Ok((v, x))
    ensures CallArgs(toks, i, acc, o) == CallArgs(toks, x, acc, o[k := v])
  {
    hide ParseExpression, Primary, Attributes;
  }

  lemma {:induction false} ArgsEnd(toks: Tokens, i: nat, acc: seq<Node>, o: map<seq<int>, Node>, c: char, L: nat)
    requires i < |toks| && toks[i] == OpTok(c, L) && (c == ')' || c == ';')
    ensures CallArgs(toks, i, acc, o) == Ok((acc, o, i))
  {
    hide ParseExpression, Primary, Attributes;
  }

  lemma {:induction false} CreateVarStep(toks: Tokens, i: nat, name: seq<int>, v: Node, x: nat, L: nat)
    requires i + 3 <= x < |toks| && toks[x] == OpTok(';', L)
    requires toks[i] == T.Token(T.Keyword, T.Var, L) && toks[i + 1] == IdTok(name, L) && toks[i + 2] == OpTok('=', L)
    requires ParseExpression(toks, i + 3) == Ok((v, x))
    ensures ParseStatement(toks, i) == Ok((CreateVar(L, name, v), x + 1))
  {
    hide ParseExpression, ParseAssignment, ParseInfixCall, ParseCall, CallArgs;
  }

  lemma {:induction false} AssignStep(toks: Tokens, i: nat, lhs: Node, j: nat, v: Node, x: nat, L: nat)
    requires i < j < x < |toks| && toks[i].kind != T.Keyword && toks[j] == OpTok('=', L) && toks[x] == OpTok(';', L)
    requires lhs.GetVar? || lhs.GetAttr?
    requires ParseExpression(toks, i) == Ok((lhs, j)) && ParseExpression(toks, j + 1) == Ok((v, x))
    ensures ParseStatement(toks, i) ==
      Ok((if lhs.GetVar? then SetVar(lhs.lineno, lhs.name, v) else SetAttr(lhs.lineno, lhs.obj, lhs.name, v), x + 1))
  {
    hide ParseExpression, ParseVarStatement, ParseInfixCall, ParseCall, CallArgs;
  }

  lemma {:induction false} CallStmtStep(toks: Tokens, i: nat, f: Node, j: nat, args: seq<Node>, opts: map<seq<int>, Node>, x: nat, L: nat)
    requires i < j <= x < |toks| && toks[i].kind != T.Keyword && toks[x] == OpTok(';', L)
    requires ParseExpression(toks, i) == Ok((f, j))
    requires StartsOr(toks[j], ';') && toks[j].lineno == L
    requires CallArgs(toks, j, [], map[]) == Ok((args, opts, x))
    ensures ParseStatement(toks, i) == Ok((Call(L, f, args, opts), x + 1))
  {
    hide ParseExpression, ParseVarStatement, ParseAssignment, ParseInfixCall, CallArgs;
    NotInfix(toks[j], ';');
  }

  // Where the tokens of each printed form sit, one lemma per form, so that
  // the round-trip proofs see plain token equalities and no slices.

  lemma {:induction false} AttrTokens(toks: Tokens, i: nat, n: Node, L: nat)
    requires n.GetAttr? && ExprOn(n, L) && At(toks, i, PrintE(n, L))
    ensures n == GetAttr(L, n.obj, n.name) && ExprOn(n.obj, L)
    ensures At(toks, i, PrintE(n.obj, L)) && |PrintE(n, L)| == |PrintE(n.obj, L)| + 2
    ensures i + |PrintE(n.obj, L)| + 1 < |toks|
    ensures toks[i + |PrintE(n.obj, L)|] == OpTok('.', L) && toks[i + |PrintE(n.obj, L)| + 1] == IdTok(n.name, L)
  {
    hide PrintS, PrintList, PrintStmts, PrintArgs, PrintCallArgs, PrintOpts, StmtOn, ArgsOn;
    var A, B := PrintE(n.obj, L), [OpTok('.', L), IdTok(n.name, L)];
    AtSplit(toks, i, A, B);
    AtIndex(toks, i + |A|, B, 0);
    AtIndex(toks, i + |A|, B, 1);
  }

  lemma {:induction false} ArrayTokens(toks: Tokens, i: nat, n: Node, L: nat)
    requires n.Array? && ExprOn(n, L) && At(toks, i, PrintE(n, L))
    ensures n == Array(L, n.elems) && forall k :: 0 <= k < |n.elems| ==> n.elems[k] < n && ExprOn(n.elems[k], L)
    ensures i + 1 + |PrintList(n, n.elems, L)| < |toks|
    ensures |PrintE(n, L)| == |PrintList(n, n.elems, L)| + 2
    ensures toks[i] == OpTok('[', L) && At(toks, i + 1, PrintList(n, n.elems, L) + [OpTok(']', L)])
    ensures toks[i + 1 + |PrintList(n, n.elems, L)|] == OpTok(']', L)
  {
    hide PrintS, PrintList, PrintStmts, PrintArgs, PrintCallArgs, PrintOpts, StmtOn, ArgsOn;
    var A, B, C := [OpTok('[', L)], PrintList(n, n.elems, L), [OpTok(']', L)];
    AtSplit(toks, i, A, B + C);
    AtHead(toks, i, A);
    AtSplit(toks, i + 1, B, C);
    AtHead(toks, i + 1 + |B|, C);
  }

  lemma {:induction false} ElemTokens(toks: Tokens, i: nat, parent: Node, es: seq<Node>, L: nat)
    requires |es| > 0
    requires forall k :: 0 <= k < |es| ==> es[k] < parent && ExprOn(es[k], L)
    requires At(toks, i, PrintList(parent, es, L) + [OpTok(']', L)])
    ensures |PrintList(parent, es, L)| == |PrintE(es[0], L)| + |PrintList(parent, es[1..], L)|
    ensures i < |toks| && i + |PrintE(es[0], L)| <= |toks|
    ensures At(toks, i, PrintE(es[0], L)) && Starts(toks[i]) && NoDotAt(toks, i + |PrintE(es[0], L)|)
    ensures At(toks, i + |PrintE(es[0], L)|, PrintList(parent, es[1..], L) + [OpTok(']', L)])
  {
    var A, B, C := PrintE(es[0], L), PrintList(parent, es[1..], L), [OpTok(']', L)];
    AtSplitLeft(toks, i, A, B, C);
    FirstOfE(es[0], L);
    AtHead(toks, i, A);
    FirstOfElems(parent, es[1..], L, ']');
    AtHead(toks, i + |A|, B + C);
    AtBound(toks, i, A);
  }

  lemma {:induction false} NoElemsTokens(toks: Tokens, i: nat, parent: Node, es: seq<Node>, L: nat)
    requires |es| == 0
    requires At(toks, i, PrintList(parent, es, L) + [OpTok(']', L)])
    ensures |PrintList(parent, es, L)| == 0 && i < |toks| && toks[i] == OpTok(']', L)
  {
    AtIndex(toks, i, PrintList(parent, es, L) + [OpTok(']', L)], 0);
  }

  lemma {:induction false} BlockTokens(toks: Tokens, i: nat, n: Node, L: nat)
    requires n.Block? && ExprOn(n, L) && At(toks, i, PrintE(n, L))
    ensures n == Block(L, n.stmts) && forall k :: 0 <= k < |n.stmts| ==> n.stmts[k] < n && StmtOn(n.stmts[k], L)
    ensures i + 1 + |PrintStmts(n, n.stmts, L)| < |toks|
    ensures |PrintE(n, L)| == |PrintStmts(n, n.stmts, L)| + 2
    ensures toks[i] == OpTok('{', L) && At(toks, i + 1, PrintStmts(n, n.stmts, L) + [OpTok('}', L)])
    ensures toks[i + 1 + |PrintStmts(n, n.stmts, L)|] == OpTok('}', L)
    ensures IsOp(toks[i + 1], '}') || ImplicitReturn(toks, i + 1, 1) == Some(false)
  {
    var A, B, C := [OpTok('{', L)], PrintStmts(n, n.stmts, L), [OpTok('}', L)];
    AtSplit(toks, i, A, B + C);
    AtHead(toks, i, A);
    AtSplit(toks, i + 1, B, C);
    AtHead(toks, i + 1 + |B|, C);
    if n.stmts != [] {
      var P, Q := PrintS(n.stmts[0], L), PrintStmts(n, n.stmts[1..], L);
      AtSplit(toks, i + 1, P, Q);
      ScanOverS(toks, i + 1, n.stmts[0], L, 1);
    }
  }

  lemma {:induction false} StmtTokens(toks: Tokens, i: nat, parent: Node, ss: seq<Node>, L: nat)
    requires |ss| > 0
    requires forall k :: 0 <= k < |ss| ==> ss[k] < parent && StmtOn(ss[k], L)
    requires At(toks, i, PrintStmts(parent, ss, L) + [OpTok('}', L)])
    ensures |PrintStmts(parent, ss, L)| == |PrintS(ss[0], L)| + |PrintStmts(parent, ss[1..], L)|
    ensures i < |toks| && i + |PrintS(ss[0], L)| <= |toks|
    ensures At(toks, i, PrintS(ss[0], L)) && !IsOp(toks[i], '}')
    ensures At(toks, i + |PrintS(ss[0], L)|, PrintStmts(parent, ss[1..], L) + [OpTok('}', L)])
  {
    var A, B, C := PrintS(ss[0], L), PrintStmts(parent, ss[1..], L), [OpTok('}', L)];
    AtSplitLeft(toks, i, A, B, C);
    FirstOfS(ss[0], L);
    AtHead(toks, i, A);
    AtBound(toks, i, A);
  }

  lemma {:induction false} NoStmtsTokens(toks: Tokens, i: nat, parent: Node, ss: seq<Node>, L: nat)
    requires |ss| == 0
    requires At(toks, i, PrintStmts(parent, ss, L) + [OpTok('}', L)])
    ensures |PrintStmts(parent, ss, L)| == 0 && i < |toks| && toks[i] == OpTok('}', L)
  {
    AtIndex(toks, i, PrintStmts(parent, ss, L) + [OpTok('}', L)], 0);
  }

  lemma {:induction false} ArgsTokens(toks: Tokens, j: nat, n: Node, L: nat, c: char)
    requires c == ')' || c == ';'
    requires n.Call? && ArgsOn(n, L) && At(toks, j, PrintArgs(n, L) + [OpTok(c, L)])
    ensures forall k :: 0 <= k < |n.args| ==> n.args[k] < n && ExprOn(n.args[k], L)
    ensures forall key :: key in n.opts ==> n.opts[key] < n && ExprOn(n.opts[key], L)
    ensures At(toks, j, PrintCallArgs(n, n.args, n.opts, L) + [OpTok(c, L)])
    ensures j + |PrintArgs(n, L)| < |toks| && NoDotAt(toks, j)
    ensures |PrintArgs(n, L)| == |PrintCallArgs(n, n.args, n.opts, L)|
    ensures StartsOr(toks[j], c) && toks[j].lineno == L
    ensures toks[j + |PrintArgs(n, L)|] == OpTok(c, L)
  {
    FirstOfArgs(n, n.args, n.opts, L, c);
    AtHead(toks, j, PrintArgs(n, L) + [OpTok(c, L)]);
    AtSplit(toks, j, PrintArgs(n, L), [OpTok(c, L)]);
    AtHead(toks, j + |PrintArgs(n, L)|, [OpTok(c, L)]);
    NotDot(toks[j], c);
  }

  lemma {:induction false} CallTokens(toks: Tokens, i: nat, n: Node, L: nat)
    requires n.Call? && ExprOn(n, L) && At(toks, i, PrintE(n, L))
    ensures n == Call(L, n.func, n.args, n.opts) && ExprOn(n.func, L) && ArgsOn(n, L)
    ensures |PrintE(n, L)| == |PrintE(n.func, L)| + |PrintArgs(n, L)| + 2
    ensures toks[i] == OpTok('(', L) && At(toks, i + 1, PrintE(n.func, L))
    ensures At(toks, i + 1 + |PrintE(n.func, L)|, PrintArgs(n, L) + [OpTok(')', L)])
  {
    hide PrintS, PrintList, PrintStmts, PrintCallArgs, PrintOpts, StmtOn;
    var A, F, P, C := [OpTok('(', L)], PrintE(n.func, L), PrintArgs(n, L), [OpTok(')', L)];
    AtSplit(toks, i, A, F + (P + C));
    AtHead(toks, i, A);
    AtSplit(toks, i + 1, F, P + C);
  }

  lemma {:induction false} OpCallTokens(toks: Tokens, i: nat, n: Node, L: nat)
    requires n.OpCall? && ExprOn(n, L) && At(toks, i, PrintE(n, L))
    ensures n == OpCall(L, n.op, n.lhs, n.rhs) && ExprOn(n.lhs, L) && ExprOn(n.rhs, L)
    ensures |PrintE(n, L)| == |PrintE(n.lhs, L)| + |PrintE(n.rhs, L)| + 3
    ensures toks[i] == OpTok('(', L) && At(toks, i + 1, PrintE(n.lhs, L))
    ensures toks[i + 1 + |PrintE(n.lhs, L)|] == T.Token(T.Op, OpText(n.op), L)
    ensures At(toks, i + 2 + |PrintE(n.lhs, L)|, PrintE(n.rhs, L))
    ensures toks[i + 2 + |PrintE(n.lhs, L)| + |PrintE(n.rhs, L)|] == OpTok(')', L)
    ensures i + 2 + |PrintE(n.lhs, L)| + |PrintE(n.rhs, L)| < |toks|
    ensures NoDotAt(toks, i + 1 + |PrintE(n.lhs, L)|) && NoDotAt(toks, i + 2 + |PrintE(n.lhs, L)| + |PrintE(n.rhs, L)|)
  {
    hide PrintS, PrintList, PrintStmts, PrintArgs, PrintCallArgs, PrintOpts, StmtOn, ArgsOn;
    var A, B, O, D, E := [OpTok('(', L)], PrintE(n.lhs, L), [T.Token(T.Op, OpText(n.op), L)], PrintE(n.rhs, L), [OpTok(')', L)];
    AtSplit(toks, i, A, B + (O + (D + E)));
    AtHead(toks, i, A);
    AtSplit(toks, i + 1, B, O + (D + E));
    var j := i + 1 + |B|;
    AtSplit(toks, j, O, D + E);
    AtHead(toks, j, O);
    AtSplit(toks, j + 1, D, E);
    AtHead(toks, j + 1 + |D|, E);
    OperatorsOneToOne(OpText(n.op), n.op);
    NoDotAtOp(toks, j + 1 + |D|, ')', L);
  }

  lemma {:induction false} PositionalTokens(toks: Tokens, i: nat, parent: Node, es: seq<Node>, m: map<seq<int>, Node>, L: nat, c: char)
    requires c == ')' || c == ';'
    requires |es| > 0
    requires forall k :: 0 <= k < |es| ==> es[k] < parent && ExprOn(es[k], L)
    requires forall key :: key in m ==> m[key] < parent && ExprOn(m[key], L)
    requires At(toks, i, PrintCallArgs(parent, es, m, L) + [OpTok(c, L)])
    ensures |PrintCallArgs(parent, es, m, L)| == |PrintE(es[0], L)| + |PrintCallArgs(parent, es[1..], m, L)|
    ensures i < |toks| && i + |PrintE(es[0], L)| <= |toks|
    ensures At(toks, i, PrintE(es[0], L)) && Starts(toks[i]) && NoDotAt(toks, i + |PrintE(es[0], L)|)
    ensures !(toks[i].kind == T.Id && i + 1 < |toks| && IsOp(toks[i + 1], ':'))
    ensures At(toks, i + |PrintE(es[0], L)|, PrintCallArgs(parent, es[1..], m, L) + [OpTok(c, L)])
  {
    hide PrintS, PrintList, PrintStmts, PrintArgs, PrintOpts, StmtOn, ArgsOn;
    var A, B, C := PrintE(es[0], L), PrintCallArgs(parent, es[1..], m, L), [OpTok(c, L)];
    AtSplitLeft(toks, i, A, B, C);
    FirstOfE(es[0], L);
    AtHead(toks, i, A);
    FirstOfArgs(parent, es[1..], m, L, c);
    AtHead(toks, i + |A|, B + C);
    if |A| > 1 {
      AtIndex(toks, i, A, 1);
    }
    AtBound(toks, i, A);
  }

  lemma {:induction false} OptionTokens(toks: Tokens, i: nat, parent: Node, es: seq<Node>, m: map<seq<int>, Node>, L: nat, c: char)
    requires c == ')' || c == ';'
    requires |es| == 0 && m != map[]
    requires forall key :: key in m ==> m[key] < parent && ExprOn(m[key], L)
    requires At(toks, i, PrintCallArgs(parent, es, m, L) + [OpTok(c, L)])
    ensures Pick(m) < parent && ExprOn(Pick(m), L)
    ensures forall key :: key in Rest(m) ==> Rest(m)[key] < parent && ExprOn(Rest(m)[key], L)
    ensures |PrintCallArgs(parent, es, m, L)| == 2 + |PrintE(Pick(m), L)| + |PrintCallArgs(parent, [], Rest(m), L)|
    ensures i + 1 < |toks| && toks[i] == IdTok(PickKey(m), L) && toks[i + 1] == OpTok(':', L)
    ensures At(toks, i + 2, PrintE(Pick(m), L)) && NoDotAt(toks, i + 2 + |PrintE(Pick(m), L)|)
    ensures At(toks, i + 2 + |PrintE(Pick(m), L)|, PrintCallArgs(parent, [], Rest(m), L) + [OpTok(c, L)])
  {
    hide PrintE, PrintS, PrintList, PrintStmts, ExprOn, StmtOn, ArgsOn, Pick, Rest, Put, Merge;
    OptionsBelow(parent, m, L);
    OptionsPrinted(parent, es, m, L);
    var C := [OpTok(c, L)];
    var V, W := PrintE(Pick(m), L), PrintOpts(parent, Rest(m), L);
    AtPairLeft(toks, i, IdTok(PickKey(m), L), OpTok(':', L), V, W, C);
    FirstOfArgs(parent, [], Rest(m), L, c);
    AtHead(toks, i + 2 + |V|, PrintCallArgs(parent, [], Rest(m), L) + C);
  }

  lemma {:induction false} CreateVarTokens(toks: Tokens, i: nat, n: Node, L: nat)
    requires n.CreateVar? && StmtOn(n, L) && At(toks, i, PrintS(n, L))
    ensures n == CreateVar(L, n.name, n.value) && ExprOn(n.value, L)
    ensures i + 3 + |PrintE(n.value, L)| < |toks| && NoDotAt(toks, i + 3 + |PrintE(n.value, L)|)
    ensures |PrintS(n, L)| == |PrintE(n.value, L)| + 4
    ensures toks[i] == T.Token(T.Keyword, T.Var, L) && toks[i + 1] == IdTok(n.name, L) && toks[i + 2] == OpTok('=', L)
    ensures At(toks, i + 3, PrintE(n.value, L)) && toks[i + 3 + |PrintE(n.value, L)|] == OpTok(';', L)
  {
    hide PrintList, PrintStmts, PrintArgs, PrintCallArgs, PrintOpts, ArgsOn;
    var A, V, C := [T.Token(T.Keyword, T.Var, L), IdTok(n.name, L), OpTok('=', L)], PrintE(n.value, L), [OpTok(';', L)];
    AtSplit(toks, i, A, V + C);
    AtIndex(toks, i, A, 0);
    AtIndex(toks, i, A, 1);
    AtIndex(toks, i, A, 2);
    AtSplit(toks, i + 3, V, C);
    AtHead(toks, i + 3 + |V|, C);
    NoDotAtOp(toks, i + 3 + |V|, ';', L);
  }

  lemma {:induction false} SetVarTokens(toks: Tokens, i: nat, n: Node, L: nat)
    requires n.SetVar? && StmtOn(n, L) && At(toks, i, PrintS(n, L))
    ensures n == SetVar(L, n.name, n.value) && ExprOn(n.value, L)
    ensures i + 2 + |PrintE(n.value, L)| < |toks| && NoDotAt(toks, i + 2 + |PrintE(n.value, L)|)
    ensures NoDotAt(toks, i + 1) && toks[i].kind != T.Keyword
    ensures |PrintS(n, L)| == |PrintE(n.value, L)| + 3
    ensures toks[i] == IdTok(n.name, L) && toks[i + 1] == OpTok('=', L)
    ensures At(toks, i + 2, PrintE(n.value, L)) && toks[i + 2 + |PrintE(n.value, L)|] == OpTok(';', L)
  {
    hide PrintList, PrintStmts, PrintArgs, PrintCallArgs, PrintOpts, ArgsOn;
    var A, V, C := [IdTok(n.name, L), OpTok('=', L)], PrintE(n.value, L), [OpTok(';', L)];
    AtSplit(toks, i, A, V + C);
    AtIndex(toks, i, A, 0);
    AtIndex(toks, i, A, 1);
    AtSplit(toks, i + 2, V, C);
    AtHead(toks, i + 2 + |V|, C);
    NoDotAtOp(toks, i + 2 + |V|, ';', L);
    NoDotAtOp(toks, i + 1, '=', L);
  }

  lemma {:induction false} SetAttrTokens(toks: Tokens, i: nat, n: Node, L: nat)
    requires n.SetAttr? && StmtOn(n, L) && At(toks, i, PrintS(n, L))
    ensures n == SetAttr(L, n.obj, n.name, n.value) && ExprOn(n.obj, L) && ExprOn(n.value, L)
    ensures i + |PrintE(n.obj, L)| + 3 + |PrintE(n.value, L)| < |toks|
    ensures NoDotAt(toks, i + |PrintE(n.obj, L)| + 3 + |PrintE(n.value, L)|)
    ensures |PrintS(n, L)| == |PrintE(n.obj, L)| + |PrintE(n.value, L)| + 4
    ensures At(toks, i, PrintE(n.obj, L)) && toks[i].kind != T.Keyword
    ensures toks[i + |PrintE(n.obj, L)|] == OpTok('.', L) && toks[i + |PrintE(n.obj, L)| + 1] == IdTok(n.name, L)
    ensures toks[i + |PrintE(n.obj, L)| + 2] == OpTok('=', L)
    ensures At(toks, i + |PrintE(n.obj, L)| + 3, PrintE(n.value, L))
    ensures toks[i + |PrintE(n.obj, L)| + 3 + |PrintE(n.value, L)|] == OpTok(';', L)
  {
    hide PrintList, PrintStmts, PrintArgs, PrintCallArgs, PrintOpts, ArgsOn;
    var O, A, V, C := PrintE(n.obj, L), [OpTok('.', L), IdTok(n.name, L), OpTok('=', L)], PrintE(n.value, L), [OpTok(';', L)];
    AtSplit(toks, i, O, A + (V + C));
    FirstOfE(n.obj, L);
    AtHead(toks, i, O);
    var j := i + |O|;
    AtSplit(toks, j, A, V + C);
    AtIndex(toks, j, A, 0);
    AtIndex(toks, j, A, 1);
    AtIndex(toks, j, A, 2);
    AtSplit(toks, j + 3, V, C);
    AtHead(toks, j + 3 + |V|, C);
    NoDotAtOp(toks, j + 3 + |V|, ';', L);
  }

  lemma {:induction false} CallStmtTokens(toks: Tokens, i: nat, n: Node, L: nat)
    requires n.Call? && StmtOn(n, L) && At(toks, i, PrintS(n, L))
    ensures n == Call(L, n.func, n.args, n.opts) && ExprOn(n.func, L) && ArgsOn(n, L)
    ensures |PrintE(n.func, L)| > 0
    ensures |PrintS(n, L)| == |PrintE(n.func, L)| + |PrintArgs(n, L)| + 1
    ensures At(toks, i, PrintE(n.func, L)) && toks[i].kind != T.Keyword
    ensures At(toks, i + |PrintE(n.func, L)|, PrintArgs(n, L) + [OpTok(';', L)])
  {
    hide PrintList, PrintStmts, PrintCallArgs, PrintOpts;
    var F, P, C := PrintE(n.func, L), PrintArgs(n, L), [OpTok(';', L)];
    AtSplit(toks, i, F, P + C);
    FirstOfE(n.func, L);
    AtHead(toks, i, F);
  }

  // the round-trip proofs proper

  /** The primary at the bottom of a printed attribute chain is read
      first, and the attribute loop then rebuilds the chain. */
  lemma {:induction false} ChainRoundTrip(toks: Tokens, i: nat, n: Node, L: nat)
    requires ExprOn(n, L) && At(toks, i, PrintE(n, L))
    ensures ParseExpression(toks, i) == Attributes(toks, i + |PrintE(n, L)|, n)
    decreases n, 4
  {
    hide *;
    if n.GetAttr? {
      AttrTokens(toks, i, n, L);
      ChainRoundTrip(toks, i, n.obj, L);
      AttributesStep(toks, i + |PrintE(n.obj, L)|, n.obj, n.name, L);
    } else {
      PrimaryRoundTrip(toks, i, n, L);
      AtBound(toks, i, PrintE(n, L));
      ParseExpressionStep(toks, i, n, i + |PrintE(n, L)|);
    }
  }

  lemma {:induction false} PrimaryRoundTrip(toks: Tokens, i: nat, n: Node, L: nat)
    requires ExprOn(n, L) && !n.GetAttr? && At(toks, i, PrintE(n, L))
    ensures Primary(toks, i) == Ok((n, i + |PrintE(n, L)|))
    decreases n, 3
  {
    if n.Array? {
      ArrayRoundTrip(toks, i, n, L);
    } else if n.Block? {
      BlockRoundTrip(toks, i, n, L);
    } else if n.Call? {
      CallRoundTrip(toks, i, n, L);
    } else if n.OpCall? {
      OpCallRoundTrip(toks, i, n, L);
    } else {
      LiteralRoundTrip(toks, i, n, L);
    }
  }

  lemma {:induction false} LiteralRoundTrip(toks: Tokens, i: nat, n: Node, L: nat)
    requires ExprOn(n, L) && !n.GetAttr? && !n.Array? && !n.Block? && !n.Call? && !n.OpCall?
    requires At(toks, i, PrintE(n, L))
    ensures Primary(toks, i) == Ok((n, i + |PrintE(n, L)|))
  {
    AtHead(toks, i, PrintE(n, L));
    if n.Str? {
      StrStep(toks, i, n.chars, L);
    } else if n.Int? {
      IntStep(toks, i, n.number, L);
    } else {
      IdStep(toks, i, n.name, L);
    }
  }

  lemma {:induction false} StrStep(toks: Tokens, i: nat, cs: seq<int>, L: nat)
    requires i < |toks| && toks[i] == T.Token(T.Str, Quoted(cs), L)
    ensures Primary(toks, i) == Ok((Str(L, cs), i + 1))
  {
    StringRoundTrip(cs);
  }

  lemma {:induction false} IntStep(toks: Tokens, i: nat, v: int, L: nat)
    requires Integer.Int64Min <= v <= Integer.Int64Max
    requires i < |toks| && toks[i] == T.Token(T.Int, IntText(v), L)
    ensures Primary(toks, i) == Ok((Int(L, v), i + 1))
  {
    hide IntText, Integer.NewFromUstr;
    IntRoundTrip(v);
  }

  lemma {:induction false} IdStep(toks: Tokens, i: nat, name: seq<int>, L: nat)
    requires i < |toks| && toks[i] == IdTok(name, L)
    ensures Primary(toks, i) == Ok((GetVar(L, name), i + 1))
  {
  }

  lemma {:induction false} ArrayRoundTrip(toks: Tokens, i: nat, n: Node, L: nat)
    requires n.Array? && ExprOn(n, L) && At(toks, i, PrintE(n, L))
    ensures Primary(toks, i) == Ok((n, i + |PrintE(n, L)|))
    decreases n, 2
  {
    hide *;
    ArrayTokens(toks, i, n, L);
    ElemsRoundTrip(toks, i + 1, n, n.elems, [], L);
    EmptyPrefix(n.elems);
    ArrayStep(toks, i, n.elems, i + 1 + |PrintList(n, n.elems, L)|, L);
  }

  /** The elements of a printed array, up to its `]`. */
  lemma {:induction false} ElemsRoundTrip(toks: Tokens, i: nat, parent: Node, es: seq<Node>, acc: seq<Node>, L: nat)
    requires forall k :: 0 <= k < |es| ==> es[k] < parent && ExprOn(es[k], L)
    requires At(toks, i, PrintList(parent, es, L) + [OpTok(']', L)])
    ensures ArrayElems(toks, i, acc) == Ok((acc + es, i + |PrintList(parent, es, L)|))
    decreases parent, 1, |es|
  {
    hide *;
    if |es| == 0 {
      NoElemsTokens(toks, i, parent, es, L);
      ElemsEnd(toks, i, acc, L);
      AppendNone(acc, es);
    } else {
      ElemTokens(toks, i, parent, es, L);
      var x := i + |PrintE(es[0], L)|;
      ExprRoundTrip(toks, i, es[0], L);
      ElemsStep(toks, i, acc, es[0], x);
      ElemsRoundTrip(toks, x, parent, es[1..], acc + [es[0]], L);
      AppendHead(acc, es);
    }
  }

  lemma {:induction false} BlockRoundTrip(toks: Tokens, i: nat, n: Node, L: nat)
    requires n.Block? && ExprOn(n, L) && At(toks, i, PrintE(n, L))
    ensures Primary(toks, i) == Ok((n, i + |PrintE(n, L)|))
    decreases n, 2
  {
    hide *;
    BlockTokens(toks, i, n, L);
    StmtsRoundTrip(toks, i + 1, n, n.stmts, [], L);
    EmptyPrefix(n.stmts);
    BlockStep(toks, i, n.stmts, i + 1 + |PrintStmts(n, n.stmts, L)|, L);
  }

  /** The statements of a printed block, up to its `}`. */
  lemma {:induction false} StmtsRoundTrip(toks: Tokens, i: nat, parent: Node, ss: seq<Node>, acc: seq<Node>, L: nat)
    requires forall k :: 0 <= k < |ss| ==> ss[k] < parent && StmtOn(ss[k], L)
    requires At(toks, i, PrintStmts(parent, ss, L) + [OpTok('}', L)])
    ensures Statements(toks, i, acc) == Ok((acc + ss, i + |PrintStmts(parent, ss, L)|))
    decreases parent, 1, |ss|
  {
    hide *;
    if |ss| == 0 {
      NoStmtsTokens(toks, i, parent, ss, L);
      StmtsEnd(toks, i, acc, L);
      AppendNone(acc, ss);
    } else {
      StmtTokens(toks, i, parent, ss, L);
      var x := i + |PrintS(ss[0], L)|;
      StmtRoundTrip(toks, i, ss[0], L);
      StmtsStep(toks, i, acc, ss[0], x);
      StmtsRoundTrip(toks, x, parent, ss[1..], acc + [ss[0]], L);
      AppendHead(acc, ss);
    }
  }

  /** The arguments of a printed call from position j, the closing token
      c after them. */
  lemma {:induction false} ArgsRoundTrip(toks: Tokens, j: nat, n: Node, L: nat, c: char)
    requires c == ')' || c == ';'
    requires n.Call? && ArgsOn(n, L) && At(toks, j, PrintArgs(n, L) + [OpTok(c, L)])
    ensures j + |PrintArgs(n, L)| < |toks| && toks[j + |PrintArgs(n, L)|] == OpTok(c, L)
    ensures StartsOr(toks[j], c) && toks[j].lineno == L
    ensures NoDotAt(toks, j)
    ensures CallArgs(toks, j, [], map[]) == Ok((n.args, n.opts, j + |PrintArgs(n, L)|))
    decreases n, 1
  {
    hide *;
    ArgsTokens(toks, j, n, L, c);
    CallArgsRoundTrip(toks, j, n, n.args, n.opts, [], map[], L, c);
    EmptyPrefix(n.args);
    EmptyMerge(n.opts);
  }

  lemma {:induction false} CallRoundTrip(toks: Tokens, i: nat, n: Node, L: nat)
    requires n.Call? && ExprOn(n, L) && At(toks, i, PrintE(n, L))
    ensures Primary(toks, i) == Ok((n, i + |PrintE(n, L)|))
    decreases n, 2
  {
    hide *;
    CallTokens(toks, i, n, L);
    var j := i + 1 + |PrintE(n.func, L)|;
    ArgsRoundTrip(toks, j, n, L, ')');
    ExprRoundTrip(toks, i + 1, n.func, L);
    CallStep(toks, i, n.func, j, n.args, n.opts, j + |PrintArgs(n, L)|, L);
  }

  lemma {:induction false} OpCallRoundTrip(toks: Tokens, i: nat, n: Node, L: nat)
    requires n.OpCall? && ExprOn(n, L) && At(toks, i, PrintE(n, L))
    ensures Primary(toks, i) == Ok((n, i + |PrintE(n, L)|))
    decreases n, 2
  {
    hide *;
    OpCallTokens(toks, i, n, L);
    var j := i + 1 + |PrintE(n.lhs, L)|;
    ExprRoundTrip(toks, i + 1, n.lhs, L);
    ExprRoundTrip(toks, j + 1, n.rhs, L);
    OpCallStep(toks, i, n.lhs, j, n.op, n.rhs, j + 1 + |PrintE(n.rhs, L)|, L);
  }

  /** The arguments and options of a printed call, up to the closing
      token c. */
  lemma {:induction false} CallArgsRoundTrip(toks: Tokens, i: nat, parent: Node, es: seq<Node>, m: map<seq<int>, Node>,
                                             acc: seq<Node>, o: map<seq<int>, Node>, L: nat, c: char)
    requires c == ')' || c == ';'
    requires forall k :: 0 <= k < |es| ==> es[k] < parent && ExprOn(es[k], L)
    requires forall key :: key in m ==> m[key] < parent && ExprOn(m[key], L)
    requires At(toks, i, PrintCallArgs(parent, es, m, L) + [OpTok(c, L)])
    ensures CallArgs(toks, i, acc, o) == Ok((acc + es, Merge(o, m), i + |PrintCallArgs(parent, es, m, L)|))
    decreases parent, 1, |es| + |m|, 1
  {
    hide *;
    if |es| > 0 {
      PositionalTokens(toks, i, parent, es, m, L, c);
      PositionalRoundTrip(toks, i, parent, es, m, acc, o, L, c);
    } else if m != map[] {
      OptionTokens(toks, i, parent, es, m, L, c);
      OptionRoundTrip(toks, i, parent, m, acc, o, L, c);
      AppendNone(acc, es);
    } else {
      NoArgsTokens(toks, i, parent, es, m, L, c);
      ArgsEnd(toks, i, acc, o, c, L);
      AppendNone(acc, es);
      MergeNone(o, m);
    }
  }

  lemma {:induction false} NoArgsTokens(toks: Tokens, i: nat, parent: Node, es: seq<Node>, m: map<seq<int>, Node>, L: nat, c: char)
    requires |es| == 0 && m == map[]
    requires forall key :: key in m ==> m[key] < parent && ExprOn(m[key], L)
    requires At(toks, i, PrintCallArgs(parent, es, m, L) + [OpTok(c, L)])
    ensures |PrintCallArgs(parent, es, m, L)| == 0 && i < |toks| && toks[i] == OpTok(c, L)
  {
    AtIndex(toks, i, PrintCallArgs(parent, es, m, L) + [OpTok(c, L)], 0);
  }

  /** A positional argument, then the rest. */
  lemma {:induction false} PositionalRoundTrip(toks: Tokens, i: nat, parent: Node, es: seq<Node>, m: map<seq<int>, Node>,
                                               acc: seq<Node>, o: map<seq<int>, Node>, L: nat, c: char)
    requires c == ')' || c == ';'
    requires |es| > 0
    requires forall k :: 0 <= k < |es| ==> es[k] < parent && ExprOn(es[k], L)
    requires forall key :: key in m ==> m[key] < parent && ExprOn(m[key], L)
    requires i < |toks| && i + |PrintE(es[0], L)| <= |toks|
    requires At(toks, i, PrintE(es[0], L)) && Starts(toks[i]) && NoDotAt(toks, i + |PrintE(es[0], L)|)
    requires !(toks[i].kind == T.Id && i + 1 < |toks| && IsOp(toks[i + 1], ':'))
    requires At(toks, i + |PrintE(es[0], L)|, PrintCallArgs(parent, es[1..], m, L) + [OpTok(c, L)])
    ensures CallArgs(toks, i, acc, o) == Ok((acc + es, Merge(o, m), i + |PrintE(es[0], L)| + |PrintCallArgs(parent, es[1..], m, L)|))
    decreases parent, 1, |es| + |m|, 0
  {
    hide *;
    var x := i + |PrintE(es[0], L)|;
    ExprRoundTrip(toks, i, es[0], L);
    ArgStep(toks, i, acc, o, es[0], x);
    CallArgsRoundTrip(toks, x, parent, es[1..], m, acc + [es[0]], o, L, c);
    AppendHead(acc, es);
  }

  /** An option `name: value`, then the rest. */
  lemma {:induction false} OptionRoundTrip(toks: Tokens, i: nat, parent: Node, m: map<seq<int>, Node>,
                                           acc: seq<Node>, o: map<seq<int>, Node>, L: nat, c: char)
    requires c == ')' || c == ';'
    requires m != map[]
    requires forall key :: key in m ==> m[key] < parent && ExprOn(m[key], L)
    requires i + 1 < |toks| && toks[i] == IdTok(PickKey(m), L) && toks[i + 1] == OpTok(':', L)
    requires At(toks, i + 2, PrintE(Pick(m), L)) && NoDotAt(toks, i + 2 + |PrintE(Pick(m), L)|)
    requires At(toks, i + 2 + |PrintE(Pick(m), L)|, PrintCallArgs(parent, [], Rest(m), L) + [OpTok(c, L)])
    ensures CallArgs(toks, i, acc, o) ==
      Ok((acc, Merge(o, m), i + 2 + |PrintE(Pick(m), L)| + |PrintCallArgs(parent, [], Rest(m), L)|))
    decreases parent, 1, |m|, 0
  {
    hide *;
    OptionsBelow(parent, m, L);
    var x := i + 2 + |PrintE(Pick(m), L)|;
    ExprRoundTrip(toks, i + 2, Pick(m), L);
    OptStep(toks, i, acc, o, PickKey(m), Pick(m), x, L);
    RestSmaller(m);
    CallArgsRoundTrip(toks, x, parent, [], Rest(m), acc, Put(o, m), L, c);
    AppendNone(acc, []);
    MergeOne(o, m);
  }

  /** A printed statement is read back exactly. */
  lemma {:induction false} StmtRoundTrip(toks: Tokens, i: nat, n: Node, L: nat)
    requires StmtOn(n, L) && At(toks, i, PrintS(n, L))
    ensures ParseStatement(toks, i) == Ok((n, i + |PrintS(n, L)|))
    decreases n, 3
  {
    if n.CreateVar? {
      CreateVarRoundTrip(toks, i, n, L);
    } else if n.SetVar? {
      SetVarRoundTrip(toks, i, n, L);
    } else if n.SetAttr? {
      SetAttrRoundTrip(toks, i, n, L);
    } else {
      CallStmtRoundTrip(toks, i, n, L);
    }
  }

  lemma {:induction false} CreateVarRoundTrip(toks: Tokens, i: nat, n: Node, L: nat)
    requires n.CreateVar? && StmtOn(n, L) && At(toks, i, PrintS(n, L))
    ensures ParseStatement(toks, i) == Ok((n, i + |PrintS(n, L)|))
    decreases n, 2
  {
    hide *;
    CreateVarTokens(toks, i, n, L);
    ExprRoundTrip(toks, i + 3, n.value, L);
    CreateVarStep(toks, i, n.name, n.value, i + 3 + |PrintE(n.value, L)|, L);
  }

  lemma {:induction false} SetVarRoundTrip(toks: Tokens, i: nat, n: Node, L: nat)
    requires n.SetVar? && StmtOn(n, L) && At(toks, i, PrintS(n, L))
    ensures ParseStatement(toks, i) == Ok((n, i + |PrintS(n, L)|))
    decreases n, 2
  {
    hide *;
    SetVarTokens(toks, i, n, L);
    var lhs := GetVar(L, n.name);
    IdStep(toks, i, n.name, L);
    ParseExpressionStep(toks, i, lhs, i + 1);
    AttributesEnd(toks, i + 1, lhs);
    ExprRoundTrip(toks, i + 2, n.value, L);
    AssignStep(toks, i, lhs, i + 1, n.value, i + 2 + |PrintE(n.value, L)|, L);
  }

  lemma {:induction false} SetAttrRoundTrip(toks: Tokens, i: nat, n: Node, L: nat)
    requires n.SetAttr? && StmtOn(n, L) && At(toks, i, PrintS(n, L))
    ensures ParseStatement(toks, i) == Ok((n, i + |PrintS(n, L)|))
    decreases n, 2
  {
    hide *;
    SetAttrTokens(toks, i, n, L);
    var j := i + |PrintE(n.obj, L)|;
    TargetRoundTrip(toks, i, n.obj, n.name, L);
    ExprRoundTrip(toks, j + 3, n.value, L);
    AssignStep(toks, i, GetAttr(L, n.obj, n.name), j + 2, n.value, j + 3 + |PrintE(n.value, L)|, L);
  }

  /** The target `obj.name` of a printed attribute assignment. */
  lemma {:induction false} TargetRoundTrip(toks: Tokens, i: nat, o: Node, name: seq<int>, L: nat)
    requires ExprOn(o, L) && At(toks, i, PrintE(o, L))
    requires i + |PrintE(o, L)| + 2 < |toks|
    requires toks[i + |PrintE(o, L)|] == OpTok('.', L) && toks[i + |PrintE(o, L)| + 1] == IdTok(name, L)
    requires toks[i + |PrintE(o, L)| + 2] == OpTok('=', L)
    ensures ParseExpression(toks, i) == Ok((GetAttr(L, o, name), i + |PrintE(o, L)| + 2))
    decreases o, 6
  {
    hide *;
    var j := i + |PrintE(o, L)|;
    ChainRoundTrip(toks, i, o, L);
    AttributesStep(toks, j, o, name, L);
    NoDotAtOp(toks, j + 2, '=', L);
    AttributesEnd(toks, j + 2, GetAttr(L, o, name));
  }

  lemma {:induction false} CallStmtRoundTrip(toks: Tokens, i: nat, n: Node, L: nat)
    requires n.Call? && StmtOn(n, L) && At(toks, i, PrintS(n, L))
    ensures ParseStatement(toks, i) == Ok((n, i + |PrintS(n, L)|))
    decreases n, 2
  {
    hide *;
    CallStmtTokens(toks, i, n, L);
    var j := i + |PrintE(n.func, L)|;
    ArgsRoundTrip(toks, j, n, L, ';');
    ExprRoundTrip(toks, i, n.func, L);
    CallStmtStep(toks, i, n.func, j, n.args, n.opts, j + |PrintArgs(n, L)|, L);
  }

  // ---------------------------------------------------------------------
  // the round trips

  /** parse_expression reads every printed expression back. */
  lemma {:induction false} ParseExpressionInverts(n: Node, L: nat)
    requires ExprOn(n, L)
    ensures ParseExpression(PrintE(n, L), 0) == Ok((n, |PrintE(n, L)|))
  {
    hide *;
    var toks := PrintE(n, L);
    AtWhole(toks);
    NoDotAtEnd(toks);
    ExprRoundTrip(toks, 0, n, L);
  }

  /** parse_statement reads every printed statement back. */
  lemma {:induction false} ParseStatementInverts(n: Node, L: nat)
    requires StmtOn(n, L)
    ensures ParseStatement(PrintS(n, L), 0) == Ok((n, |PrintS(n, L)|))
  {
    hide *;
    var toks := PrintS(n, L);
    AtWhole(toks);
    StmtRoundTrip(toks, 0, n, L);
  }
}
