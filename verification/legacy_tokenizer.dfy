/**
 * The tokenizer of the older prototype, c-interpreter/tokenizer.c.  It
 * reads a NUL-terminated byte string with the C library's character
 * classes in the "C" locale: isspace is skipped, identifiers are isalpha
 * then isalnum characters, and a string literal that reaches a newline or
 * the end of the text fails an assert (the `Aborted` outcome).  Tokens go
 * into a DynamicArray, so a text without tokens gives an empty array.  The
 * scanning machinery (token shapes, located tokens, line counting) is that
 * of Tokenizer; reading the file and allocation failures are left out.
 */
module LegacyTokenizer {
  import opened Wrappers
  import T = Tokenizer
  import UnicodeClass

  /** A token with its convenience copy of the first character. */
  datatype Token = Token(kind: T.Kind, val: seq<int>, firstchar: int, lineno: nat)

  datatype Outcome = Tokens(toks: seq<Token>) | Unknown(c: int, lineno: nat) | Aborted

  /** Why scanning stopped early. */
  datatype Stop = UnknownChar(c: int, lineno: nat) | AssertFails

  /** isspace in the "C" locale. */
  predicate IsCSpace(c: int)
  {
    c == ' ' as int || '\t' as int <= c <= '\r' as int
  }

  /** isalpha in the "C" locale. */
  predicate IsCAlpha(c: int)
  {
    ('a' as int <= c <= 'z' as int) || ('A' as int <= c <= 'Z' as int)
  }

  /** isalnum in the "C" locale. */
  predicate IsCAlnum(c: int)
  {
    IsCAlpha(c) || T.IsDigit(c)
  }

  /** The C string s holds: its bytes before the first NUL. */
  function CString(s: seq<int>): (t: seq<int>)
    ensures |t| <= |s| && t == s[..|t|]
    ensures forall k :: 0 <= k < |t| ==> t[k] != 0
    ensures |t| < |s| ==> s[|t|] == 0
  {
    s[..T.RunEnd(s, 0, c => c != 0)]
  }

  /** The kind and length of the token at the start of s, whose first
      character is neither a space nor `#`. */
  function LexOne(s: seq<int>, lineno: nat): (r: Result<(T.Kind, nat), Stop>)
    requires |s| > 0
    ensures r.Ok? ==> 0 < r.value.1 <= |s| && T.Shape(r.value.0, s[..r.value.1])
    ensures r.Ok? && r.value.0 == T.Id ==>
      IsCAlpha(s[0]) && (r.value.1 == |s| || !IsCAlnum(s[r.value.1])) &&
      forall k :: 0 <= k < r.value.1 ==> IsCAlnum(s[k])
    ensures r.Ok? && r.value.0 == T.Keyword <==> s[0] !in T.OpChars && |s| >= 4 && s[..3] == T.Var && !IsCAlnum(s[3])
    ensures r == Err(AssertFails) <==>
      s[0] == T.Quote && forall k :: 0 < k < |s| && s[k] == T.Quote ==> exists m :: 0 < m < k && s[m] == T.Newline
  {
    if s[0] in T.OpChars then Ok((T.Op, 1))
    else if |s| >= 4 && s[0] == 'v' as int && s[1] == 'a' as int && s[2] == 'r' as int && !IsCAlnum(s[3]) then
      assert s[..3] == T.Var;
      Ok((T.Keyword, 3))
    else if s[0] == T.Quote then
      var j := T.RunEnd(s, 1, c => c != T.Quote && c != T.Newline);
      if j == |s| || s[j] == T.Newline then Err(AssertFails)
      else Ok((T.Str, j + 1))
    else if T.IsDigit(s[0]) then
      var n := T.RunEnd(s, 0, T.IsDigit);
      assert T.AllDigits(s[..n]);
      Ok((T.Int, n))
    else if |s| >= 2 && s[0] == T.Minus && T.IsDigit(s[1]) then
      var n := T.RunEnd(s, 1, T.IsDigit);
      assert T.AllDigits(s[..n][1..]);
      Ok((T.Int, n))
    else if IsCAlpha(s[0]) then
      Ok((T.Id, T.RunEnd(s, 0, IsCAlnum)))
    else Err(UnknownChar(s[0], lineno))
  }

  /** The loop of token_ize from offset i on line lineno. */
  function Scan(s: seq<int>, i: nat, lineno: nat): (r: Result<seq<T.Located>, Stop>)
    requires i <= |s|
    ensures r.Ok? ==> T.Faithful(s, i, lineno, r.value) && T.Ordered(r.value)
    decreases |s| - i
  {
    if i == |s| then Ok([])
    else if IsCSpace(s[i]) then
      var r := Scan(s, i + 1, if s[i] == T.Newline then lineno + 1 else lineno);
      if r.Ok? then
        T.SkipOne(s, i, lineno, r.value);
        r
      else r
    else if s[i] == '#' as int then
      var e := T.RunEnd(s, i, c => c != T.Newline);
      var r := Scan(s, e, lineno);
      if r.Ok? then
        T.SkipComment(s, i, e, lineno, r.value);
        r
      else r
    else
      var (kind, n) :- LexOne(s[i..], lineno);
      var rest :- Scan(s, i + n, lineno);
      var first := T.Located(T.Token(kind, s[i..i + n], lineno), i);
      assert s[i..][..n] == s[i..i + n];
      T.NoNewlineInToken(kind, s[i..i + n]);
      T.Prepend(s, i, n, lineno, first, rest);
      Ok([first] + rest)
  }

  /** new_token's record of a located token. */
  function Record(l: T.Located): (t: Token)
    requires 0 < |l.tok.str|
    ensures t.val == l.tok.str && t.firstchar == t.val[0]
  {
    Token(l.tok.kind, l.tok.str, l.tok.str[0], l.tok.lineno)
  }

  /** token_ize: the tokens of the C string s from line 1, in an array. */
  function Tokenize(s: seq<int>): (r: Outcome)
    ensures r.Tokens? ==> forall k :: 0 <= k < |r.toks| ==> |r.toks[k].val| > 0 && r.toks[k].firstchar == r.toks[k].val[0]
    ensures r.Tokens? ==>
      exists ls :: (T.Faithful(CString(s), 0, 1, ls) && T.Ordered(ls) &&
                    |ls| == |r.toks| && forall k :: 0 <= k < |ls| ==> r.toks[k] == Record(ls[k]))
  {
    var t := CString(s);
    match Scan(t, 0, 1)
    case Ok(ls) =>
      var toks := seq(|ls|, k requires 0 <= k < |ls| && T.Faithful(t, 0, 1, ls) => Record(ls[k]));
      Tokens(toks)
    case Err(UnknownChar(c, l)) => Unknown(c, l)
    case Err(AssertFails) => Aborted
  }

  // ---------------------------------------------------------------------
  // agreement with the current tokenizer

  /** The characters on which both tokenizers classify alike: ASCII without
      NUL, underscore and the three control spaces only isspace skips. */
  predicate Plain(c: int)
  {
    0 < c < 128 && c != '_' as int && c != 0xb && c != 0xc && c != 0xd
  }

  lemma RunEndAgrees(s: seq<int>, i: nat, p: int -> bool, q: int -> bool)
    requires i <= |s| && forall k :: i <= k < |s| ==> p(s[k]) == q(s[k])
    ensures T.RunEnd(s, i, p) == T.RunEnd(s, i, q)
    decreases |s| - i
  {
    if i < |s| && p(s[i]) {
      RunEndAgrees(s, i + 1, p, q);
    }
  }

  lemma ClassesAgree(c: int)
    requires Plain(c)
    ensures IsCSpace(c) <==> T.IsBlank(c)
    ensures IsCAlpha(c) <==> UnicodeClass.IsIdentifier1st(c)
    ensures IsCAlnum(c) <==> UnicodeClass.IsIdentifierNot1st(c)
  {
  }

  lemma LexOneAgrees(s: seq<int>, lineno: nat)
    requires |s| > 0 && forall k :: 0 <= k < |s| ==> Plain(s[k])
    ensures LexOne(s, lineno).Ok? <==> T.LexOne(s, lineno).Ok?
    ensures LexOne(s, lineno).Ok? ==> LexOne(s, lineno).value == T.LexOne(s, lineno).value
    ensures LexOne(s, lineno) == Err(AssertFails) <==>
      T.LexOne(s, lineno).Err? && !T.LexOne(s, lineno).error.UnknownToken?
  {
    ClassesAgree(s[0]);
    if |s| >= 4 {
      ClassesAgree(s[3]);
    }
    forall k | 0 <= k < |s|
      ensures IsCAlnum(s[k]) == UnicodeClass.IsIdentifierNot1st(s[k])
    {
      ClassesAgree(s[k]);
    }
    RunEndAgrees(s, 0, IsCAlnum, UnicodeClass.IsIdentifierNot1st);
  }

  /** Two scan results agree: both succeed with the same tokens, or both
      fail, the prototype aborting exactly where the current tokenizer
      reports a broken string literal. */
  predicate Agree(a: Result<seq<T.Located>, Stop>, b: Result<seq<T.Located>, T.Failure>)
  {
    (a.Ok? <==> b.Ok?) && (a.Ok? ==> a.value == b.value) &&
    (a == Err(AssertFails) <==> b.Err? && !b.error.UnknownToken?)
  }

  /** On plain ASCII text the prototype finds the same tokens as the
      current tokenizer, fails exactly when it does, and aborts exactly
      where the current one reports a broken string literal. */
  lemma {:induction false} ScanAgrees(s: seq<int>, i: nat, lineno: nat)
    requires i <= |s| && forall k :: 0 <= k < |s| ==> Plain(s[k])
    ensures Scan(s, i, lineno).Ok? <==> T.Scan(s, i, lineno).Ok?
    ensures Scan(s, i, lineno).Ok? ==> Scan(s, i, lineno).value == T.Scan(s, i, lineno).value
    ensures Scan(s, i, lineno) == Err(AssertFails) <==>
      T.Scan(s, i, lineno).Err? && !T.Scan(s, i, lineno).error.UnknownToken?
    decreases |s| - i
  {
    hide Scan, T.Scan, LexOne, T.LexOne, T.RunEnd;
    if i == |s| {
      EndStep(s, lineno);
    } else {
      ClassesAgree(s[i]);
      if IsCSpace(s[i]) {
        var next := if s[i] == T.Newline then lineno + 1 else lineno;
        ScanAgrees(s, i + 1, next);
        SpaceStep(s, i, lineno);
      } else if s[i] == '#' as int {
        ScanAgrees(s, T.RunEnd(s, i, c => c != T.Newline), lineno);
        CommentStep(s, i, lineno);
      } else {
        var l := LexOne(s[i..], lineno);
        if l.Ok? {
          ScanAgrees(s, i + l.value.1, lineno);
        }
        TokenStep(s, i, lineno);
      }
    }
  }

  /** At the end of the text both scans succeed with no tokens. */
  lemma EndStep(s: seq<int>, lineno: nat)
    ensures Scan(s, |s|, lineno) == Ok([]) && T.Scan(s, |s|, lineno) == Ok([])
  {
  }

  /** A skipped space leaves both scans to go on from the next character. */
  lemma SpaceStep(s: seq<int>, i: nat, lineno: nat)
    requires i < |s| && IsCSpace(s[i]) && T.IsBlank(s[i])
    ensures var next := if s[i] == T.Newline then lineno + 1 else lineno;
      Scan(s, i, lineno) == Scan(s, i + 1, next) && T.Scan(s, i, lineno) == T.Scan(s, i + 1, next)
  {
  }

  /** A comment leaves both scans to go on from the end of its line. */
  lemma CommentStep(s: seq<int>, i: nat, lineno: nat)
    requires i < |s| && !IsCSpace(s[i]) && !T.IsBlank(s[i]) && s[i] == '#' as int
    ensures var e := T.RunEnd(s, i, c => c != T.Newline);
      Scan(s, i, lineno) == Scan(s, e, lineno) && T.Scan(s, i, lineno) == T.Scan(s, e, lineno)
  {
  }

  /** A token both lexers read alike is put in front of agreeing rests. */
  lemma TokenStep(s: seq<int>, i: nat, lineno: nat)
    requires i < |s| && forall k :: 0 <= k < |s| ==> Plain(s[k])
    requires !IsCSpace(s[i]) && !T.IsBlank(s[i]) && s[i] != '#' as int
    requires LexOne(s[i..], lineno).Ok? ==>
      Agree(Scan(s, i + LexOne(s[i..], lineno).value.1, lineno), T.Scan(s, i + LexOne(s[i..], lineno).value.1, lineno))
    ensures Agree(Scan(s, i, lineno), T.Scan(s, i, lineno))
  {
    hide Scan, T.Scan, LexOne, T.LexOne, Plain, T.Accounts;
    PlainSuffix(s, i);
    LexOneAgrees(s[i..], lineno);
    TokenUnfolds(s, i, lineno);
    CurrentTokenUnfolds(s, i, lineno);
    var a, b := LexOne(s[i..], lineno), T.LexOne(s[i..], lineno);
    if a.Ok? {
      assert b.Ok? && a.value == b.value;
      assert Agree(Scan(s, i + a.value.1, lineno), T.Scan(s, i + a.value.1, lineno));
    } else {
      assert b.Err?;
    }
  }

  lemma PlainSuffix(s: seq<int>, i: nat)
    requires i <= |s| && forall k :: 0 <= k < |s| ==> Plain(s[k])
    ensures forall k :: 0 <= k < |s[i..]| ==> Plain(s[i..][k])
  {
  }

  /** How the prototype's scan goes on after the first character of a token. */
  lemma TokenUnfolds(s: seq<int>, i: nat, lineno: nat)
    requires i < |s| && !IsCSpace(s[i]) && s[i] != '#' as int
    ensures LexOne(s[i..], lineno).Err? ==> Scan(s, i, lineno) == Err(LexOne(s[i..], lineno).error)
    ensures LexOne(s[i..], lineno).Ok? ==>
      var (kind, n) := LexOne(s[i..], lineno).value;
      var first := T.Located(T.Token(kind, s[i..i + n], lineno), i);
      (Scan(s, i + n, lineno).Err? ==> Scan(s, i, lineno) == Err(Scan(s, i + n, lineno).error)) &&
      (Scan(s, i + n, lineno).Ok? ==> Scan(s, i, lineno) == Ok([first] + Scan(s, i + n, lineno).value))
  {
    hide LexOne, T.Accounts, T.Shape;
  }

  /** How the current scan goes on after the first character of a token. */
  lemma CurrentTokenUnfolds(s: seq<int>, i: nat, lineno: nat)
    requires i < |s| && !T.IsBlank(s[i]) && s[i] != '#' as int
    ensures T.LexOne(s[i..], lineno).Err? ==> T.Scan(s, i, lineno) == Err(T.LexOne(s[i..], lineno).error)
    ensures T.LexOne(s[i..], lineno).Ok? ==>
      var (kind, n) := T.LexOne(s[i..], lineno).value;
      var first := T.Located(T.Token(kind, s[i..i + n], lineno), i);
      (T.Scan(s, i + n, lineno).Err? ==> T.Scan(s, i, lineno) == Err(T.Scan(s, i + n, lineno).error)) &&
      (T.Scan(s, i + n, lineno).Ok? ==> T.Scan(s, i, lineno) == Ok([first] + T.Scan(s, i + n, lineno).value))
  {
    hide T.LexOne, T.Accounts, T.Shape;
  }
}
