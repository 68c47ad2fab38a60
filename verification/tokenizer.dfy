/**
 * The tokenizer of the current interpreter, src/tokenizer.c.  The source
 * text is a sequence of code points; a token is its kind, its exact text
 * and the line it starts on.  Space, tab and newline are skipped (a newline
 * counts a line), `#` comments run to the end of the line, and the first
 * character of anything else decides the kind.  The linked list of tokens
 * is a sequence; while scanning, each token also carries its offset in the
 * text, which the properties below speak about.
 *
 * unicode_is0to9 is not part of this model's sources; it is taken to be
 * the ASCII digits.  Allocation is treated as total, and the messages
 * written to stderr become the `Failure` values.
 */
module Tokenizer {
  import opened Wrappers
  import UnicodeClass

  datatype Kind = Keyword | Id | Op | Str | Int

  datatype Token = Token(kind: Kind, str: seq<int>, lineno: nat)

  /** Why token_ize gives up (it frees the tokens made so far and returns NULL). */
  datatype Failure = UnknownToken(lineno: nat) | NewlineInString(lineno: nat) | UnexpectedEof

  /** A token and the offset of its first character. */
  datatype Located = Located(tok: Token, at: nat)

  const Newline: int := '\n' as int
  const Quote: int := '"' as int
  const Minus: int := '-' as int
  const Var: seq<int> := ['v' as int, 'a' as int, 'r' as int]

  /** The characters that are one-character OP tokens. */
  const OpChars: set<int> := {'{' as int, '}' as int, '[' as int, ']' as int, '(' as int, ')' as int,
                              '=' as int, ';' as int, '.' as int}

  /** The only characters skipped between tokens (other Unicode spaces are not). */
  predicate IsBlank(c: int)
  {
    c == ' ' as int || c == '\t' as int || c == Newline
  }

  predicate IsDigit(c: int)
  {
    '0' as int <= c <= '9' as int
  }

  // ---------------------------------------------------------------------
  // what a token looks like

  predicate AllDigits(t: seq<int>)
  {
    forall k :: 0 <= k < |t| ==> IsDigit(t[k])
  }

  /** The text of a token of the given kind. */
  predicate Shape(kind: Kind, t: seq<int>)
  {
    match kind
    case Op => |t| == 1 && t[0] in OpChars
    case Keyword => t == Var
    case Str =>
      2 <= |t| && t[0] == Quote && t[|t| - 1] == Quote &&
      forall k :: 0 < k < |t| - 1 ==> t[k] != Quote && t[k] != Newline
    case Int =>
      (0 < |t| && AllDigits(t)) || (1 < |t| && t[0] == Minus && AllDigits(t[1..]))
    case Id =>
      0 < |t| && UnicodeClass.IsIdentifier1st(t[0]) &&
      forall k :: 0 < k < |t| ==> UnicodeClass.IsIdentifierNot1st(t[k])
  }

  /** The token of n characters at the start of s is as long as it can be:
      digits and identifier characters are never left right after an INT
      or an ID, and `var` is a keyword only when a non-identifier
      character follows it. */
  predicate Maximal(kind: Kind, s: seq<int>, n: nat)
    requires n <= |s|
  {
    match kind
    case Int => n == |s| || !IsDigit(s[n])
    case Id => n == |s| || !UnicodeClass.IsIdentifierNot1st(s[n])
    case Keyword => n < |s| && !UnicodeClass.IsIdentifierNot1st(s[n])
    case _ => true
  }

  // ---------------------------------------------------------------------
  // scanning one token

  /** The end of the run of characters satisfying p that starts at i. */
  function RunEnd(s: seq<int>, i: nat, p: int -> bool): (j: nat)
    requires i <= |s|
    ensures i <= j <= |s| && (j < |s| ==> !p(s[j]))
    ensures forall k :: i <= k < j ==> p(s[k])
    decreases |s| - i
  {
    if i == |s| || !p(s[i]) then i else RunEnd(s, i + 1, p)
  }

  /** The characters a `var` keyword starts with, as token_ize tests them. */
  predicate StartsKeyword(s: seq<int>)
  {
    |s| >= 4 && s[..3] == Var && !UnicodeClass.IsIdentifierNot1st(s[3])
  }

  /** Whether some token kind can start with the first character of s. */
  predicate CanStart(s: seq<int>)
    requires |s| > 0
  {
    s[0] in OpChars || s[0] == Quote || IsDigit(s[0]) ||
    (|s| >= 2 && s[0] == Minus && IsDigit(s[1])) || UnicodeClass.IsIdentifier1st(s[0])
  }

  /** The kind and length of the token at the start of s, whose first
      character is neither blank nor `#`; the branches are tried in the
      source's order. */
  function LexOne(s: seq<int>, lineno: nat): (r: Result<(Kind, nat), Failure>)
    requires |s| > 0
    ensures r.Ok? ==> 0 < r.value.1 <= |s| && Shape(r.value.0, s[..r.value.1]) && Maximal(r.value.0, s, r.value.1)
    ensures r.Ok? && r.value.0 == Op <==> s[0] in OpChars
    ensures r.Ok? && r.value.0 == Keyword <==> s[0] !in OpChars && StartsKeyword(s)
    ensures r == Err(UnknownToken(lineno)) <==> !CanStart(s)
    ensures r == Err(NewlineInString(lineno)) <==>
      s[0] == Quote && exists k :: 0 < k < |s| && s[k] == Newline && forall m :: 0 < m < k ==> s[m] != Quote
    ensures r == Err(UnexpectedEof) <==>
      s[0] == Quote && forall k :: 0 < k < |s| ==> s[k] != Quote && s[k] != Newline
  {
    if s[0] in OpChars then Ok((Op, 1))
    else if |s| >= 4 && s[0] == 'v' as int && s[1] == 'a' as int && s[2] == 'r' as int &&
            !UnicodeClass.IsIdentifierNot1st(s[3]) then
      assert s[..3] == Var;
      Ok((Keyword, 3))
    else if s[0] == Quote then LexString(s, lineno)
    else if IsDigit(s[0]) then
      var n := RunEnd(s, 0, IsDigit);
      assert AllDigits(s[..n]);
      Ok((Int, n))
    else if |s| >= 2 && s[0] == Minus && IsDigit(s[1]) then
      var n := RunEnd(s, 1, IsDigit);
      assert AllDigits(s[..n][1..]);
      Ok((Int, n))
    else if UnicodeClass.IsIdentifier1st(s[0]) then
      UnicodeClass.ClassesNest(s[0]);
      Ok((Id, RunEnd(s, 0, UnicodeClass.IsIdentifierNot1st)))
    else Err(UnknownToken(lineno))
  }

  /** The string branch of LexOne: the text up to the closing quote, which
      must come before any newline and before the end. */
  function LexString(s: seq<int>, lineno: nat): (r: Result<(Kind, nat), Failure>)
    requires |s| > 0 && s[0] == Quote
    ensures r.Ok? ==> r.value.0 == Str && 0 < r.value.1 <= |s| && Shape(Str, s[..r.value.1])
    ensures r.Ok? || r == Err(NewlineInString(lineno)) || r == Err(UnexpectedEof)
    ensures r == Err(NewlineInString(lineno)) <==>
      exists k :: 0 < k < |s| && s[k] == Newline && forall m :: 0 < m < k ==> s[m] != Quote
    ensures r == Err(UnexpectedEof) <==> forall k :: 0 < k < |s| ==> s[k] != Quote && s[k] != Newline
  {
    var j := RunEnd(s, 1, c => c != Quote && c != Newline);
    if j < |s| && s[j] == Newline then Err(NewlineInString(lineno))
    else if j == |s| then Err(UnexpectedEof)
    else Ok((Str, j + 1))
  }

  /** check_integer: a literal (after an optional '-') is valid when it is
      a single digit or does not start with 0.  token_ize calls it and
      ignores the answer. */
  function CheckInteger(t: seq<int>): (ok: bool)
    requires Shape(Int, t)
    ensures var d := if t[0] == Minus then t[1..] else t;
      ok <==> |d| == 1 || d[0] != '0' as int
  {
    var d := if t[0] == Minus then t[1..] else t;
    |d| == 1 || d[0] != '0' as int
  }

  // ---------------------------------------------------------------------
  // scanning the whole text

  /** Number of newlines in t. */
  function Newlines(t: seq<int>): nat
  {
    multiset(t)[Newline]
  }

  /** Every located token is the text at its offset, has its kind's shape,
      starts at or after i, and carries the line number counted from i. */
  ghost predicate Faithful(s: seq<int>, i: nat, lineno: nat, ts: seq<Located>)
  {
    forall k :: 0 <= k < |ts| ==> FaithfulAt(s, i, lineno, ts[k])
  }

  /** One located token is the text at its offset, has its kind's shape,
      and starts on the line after the newlines between i and it. */
  ghost predicate FaithfulAt(s: seq<int>, i: nat, lineno: nat, t: Located)
  {
    i <= t.at && t.at + |t.tok.str| <= |s| && s[t.at..t.at + |t.tok.str|] == t.tok.str &&
    Shape(t.tok.kind, t.tok.str) && t.tok.lineno == lineno + Newlines(s[i..t.at])
  }

  /** Tokens come in source order and do not overlap. */
  ghost predicate Ordered(ts: seq<Located>)
  {
    forall k :: 0 <= k < |ts| - 1 ==> ts[k].at + |ts[k].tok.str| <= ts[k + 1].at
  }

  /** The offset just after a located token. */
  function End(t: Located): nat
  {
    t.at + |t.tok.str|
  }

  /** The text from a to b is what the loop skips: blanks and whole `#`
      comments, each running to the next newline or to the end of the text. */
  ghost predicate Skipped(s: seq<int>, a: nat, b: nat)
    decreases b - a
  {
    a <= b <= |s| &&
    (a == b ||
     (IsBlank(s[a]) && Skipped(s, a + 1, b)) ||
     (s[a] == '#' as int && RunEnd(s, a, c => c != Newline) <= b && Skipped(s, RunEnd(s, a, c => c != Newline), b)))
  }

  /** Nothing from i on is left out: the text before the first token,
      between two tokens and after the last one is skipped text. */
  ghost predicate Covered(s: seq<int>, i: nat, ls: seq<Located>)
    decreases |ls|
  {
    if |ls| == 0 then Skipped(s, i, |s|)
    else Skipped(s, i, ls[0].at) && Covered(s, End(ls[0]), ls[1..])
  }

  /** Every located token is exactly what LexOne reads at its offset, so
      none is cut short. */
  ghost predicate Lexed(s: seq<int>, ls: seq<Located>)
  {
    forall k :: 0 <= k < |ls| ==> LexedAt(s, ls[k])
  }

  ghost predicate LexedAt(s: seq<int>, t: Located)
  {
    t.at < |s| && LexOne(s[t.at..], t.tok.lineno) == Ok((t.tok.kind, |t.tok.str|))
  }

  /** What a successful scan from offset i on line lineno promises of its
      tokens: each is faithful to the text and lexed at its offset, they
      are in order, and the text around them is skipped text. */
  ghost predicate Accounts(s: seq<int>, i: nat, lineno: nat, ls: seq<Located>)
  {
    Faithful(s, i, lineno, ls) && Ordered(ls) && Covered(s, i, ls) && Lexed(s, ls)
  }

  /** The loop of token_ize from offset i on line lineno: the located
      tokens of the rest of the text, or the first failure. */
  function Scan(s: seq<int>, i: nat, lineno: nat): (r: Result<seq<Located>, Failure>)
    requires i <= |s|
    ensures r.Ok? ==> Accounts(s, i, lineno, r.value)
    decreases |s| - i
  {
    if i == |s| then Ok([])
    else if IsBlank(s[i]) then
      var l := if s[i] == Newline then lineno + 1 else lineno;
      var r := Scan(s, i + 1, l);
      if r.Ok? then
        AccountsBlank(s, i, lineno, r.value);
        r
      else r
    else if s[i] == '#' as int then
      var e := RunEnd(s, i, c => c != Newline);
      var r := Scan(s, e, lineno);
      if r.Ok? then
        AccountsComment(s, i, lineno, r.value);
        r
      else r
    else
      var (kind, n) :- LexOne(s[i..], lineno);
      var rest :- Scan(s, i + n, lineno);
      var first := Located(Token(kind, s[i..i + n], lineno), i);
      AccountsToken(s, i, n, lineno, first, rest);
      Ok([first] + rest)
  }

  lemma AccountsBlank(s: seq<int>, i: nat, lineno: nat, ls: seq<Located>)
    requires i < |s| && IsBlank(s[i])
    requires Accounts(s, i + 1, if s[i] == Newline then lineno + 1 else lineno, ls)
    ensures Accounts(s, i, lineno, ls)
  {
    SkipOne(s, i, lineno, ls);
    CoveredBlank(s, i, ls);
  }

  lemma AccountsComment(s: seq<int>, i: nat, lineno: nat, ls: seq<Located>)
    requires i < |s| && s[i] == '#' as int
    requires Accounts(s, RunEnd(s, i, c => c != Newline), lineno, ls)
    ensures Accounts(s, i, lineno, ls)
  {
    var e := RunEnd(s, i, c => c != Newline);
    SkipComment(s, i, e, lineno, ls);
    CoveredComment(s, i, ls);
  }

  lemma AccountsToken(s: seq<int>, i: nat, n: nat, lineno: nat, first: Located, rest: seq<Located>)
    requires i < |s| && LexOne(s[i..], lineno) == Ok((first.tok.kind, n))
    requires first == Located(Token(first.tok.kind, s[i..i + n], lineno), i)
    requires Accounts(s, i + n, lineno, rest)
    ensures Accounts(s, i, lineno, [first] + rest)
  {
    hide Covered, Skipped, Faithful, Ordered, Lexed;
    assert i + n <= |s| && 0 < n && s[i..][..n] == s[i..i + n];
    assert LexedAt(s, first);
    NoNewlineInToken(first.tok.kind, s[i..i + n]);
    Prepend(s, i, n, lineno, first, rest);
    CoveredToken(s, i, n, first, rest);
    LexedToken(s, first, rest);
  }

  lemma CoveredBlank(s: seq<int>, i: nat, ls: seq<Located>)
    requires i < |s| && IsBlank(s[i]) && Covered(s, i + 1, ls)
    ensures Covered(s, i, ls)
  {
  }

  lemma CoveredComment(s: seq<int>, i: nat, ls: seq<Located>)
    requires i < |s| && s[i] == '#' as int && Covered(s, RunEnd(s, i, c => c != Newline), ls)
    ensures Covered(s, i, ls)
  {
  }

  lemma SkippedNothing(s: seq<int>, i: nat)
    requires i <= |s|
    ensures Skipped(s, i, i)
  {
  }

  /** A token from i to i + n, in front of a covered rest. */
  lemma CoveredToken(s: seq<int>, i: nat, n: nat, first: Located, rest: seq<Located>)
    requires i + n <= |s| && first.at == i && |first.tok.str| == n
    requires Covered(s, i + n, rest)
    ensures Covered(s, i, [first] + rest)
  {
    hide Skipped;
    var all := [first] + rest;
    assert all[0] == first && all[1..] == rest;
    SkippedNothing(s, i);
  }

  /** A token lexed at its offset, in front of a lexed rest. */
  lemma LexedToken(s: seq<int>, first: Located, rest: seq<Located>)
    requires LexedAt(s, first) && Lexed(s, rest)
    ensures Lexed(s, [first] + rest)
  {
    var all := [first] + rest;
    hide LexedAt;
    forall k | 0 <= k < |all|
      ensures LexedAt(s, all[k])
    {
      if k > 0 {
        assert all[k] == rest[k - 1];
      }
    }
  }

  /** No token spans a line break. */
  lemma NoNewlineInToken(kind: Kind, t: seq<int>)
    requires Shape(kind, t)
    ensures Newlines(t) == 0
  {
    if kind == Str {
      assert t == [t[0]] + t[1..|t| - 1] + [t[|t| - 1]];
    } else if kind == Int && t[0] == Minus {
      assert t == [t[0]] + t[1..];
    }
  }

  lemma NewlinesSplit(s: seq<int>, i: nat, e: nat, j: nat)
    requires i <= e <= j <= |s|
    ensures Newlines(s[i..j]) == Newlines(s[i..e]) + Newlines(s[e..j])
  {
    assert s[i..j] == s[i..e] + s[e..j];
  }

  lemma SkipOne(s: seq<int>, i: nat, lineno: nat, ts: seq<Located>)
    requires i < |s| && Faithful(s, i + 1, if s[i] == Newline then lineno + 1 else lineno, ts)
    ensures Faithful(s, i, lineno, ts)
  {
    forall k | 0 <= k < |ts|
      ensures ts[k].tok.lineno == lineno + Newlines(s[i..ts[k].at])
    {
      NewlinesSplit(s, i, i + 1, ts[k].at);
      assert s[i..i + 1] == [s[i]];
    }
  }

  lemma SkipComment(s: seq<int>, i: nat, e: nat, lineno: nat, ts: seq<Located>)
    requires i <= e <= |s| && forall k :: i <= k < e ==> s[k] != Newline
    requires Faithful(s, e, lineno, ts)
    ensures Faithful(s, i, lineno, ts)
  {
    assert Newline !in multiset(s[i..e]);
    forall k | 0 <= k < |ts|
      ensures ts[k].tok.lineno == lineno + Newlines(s[i..ts[k].at])
    {
      NewlinesSplit(s, i, e, ts[k].at);
    }
  }

  lemma Prepend(s: seq<int>, i: nat, n: nat, lineno: nat, first: Located, rest: seq<Located>)
    requires i + n <= |s| && 0 < n
    requires first == Located(Token(first.tok.kind, s[i..i + n], lineno), i) && Shape(first.tok.kind, s[i..i + n])
    requires Faithful(s, i + n, lineno, rest) && Ordered(rest)
    requires Newlines(s[i..i + n]) == 0
    ensures Faithful(s, i, lineno, [first] + rest) && Ordered([first] + rest)
  {
    var all := [first] + rest;
    FirstFaithful(s, i, n, lineno, first);
    forall k | 0 <= k < |rest|
      ensures FaithfulAt(s, i, lineno, rest[k])
    {
      ShiftFaithful(s, i, n, lineno, rest[k]);
    }
    assert |rest| > 0 ==> i + n <= rest[0].at;
    hide FaithfulAt;
    forall k | 0 <= k < |all|
      ensures FaithfulAt(s, i, lineno, all[k])
    {
      if k > 0 {
        assert all[k] == rest[k - 1];
      }
    }
    assert Ordered(all) by {
      forall k | 0 <= k < |all| - 1
        ensures all[k].at + |all[k].tok.str| <= all[k + 1].at
      {
        assert all[k + 1] == rest[k];
        if k > 0 {
          assert all[k] == rest[k - 1];
        }
      }
    }
  }

  /** A token lexed at i starts on the line lexing began on. */
  lemma FirstFaithful(s: seq<int>, i: nat, n: nat, lineno: nat, first: Located)
    requires i + n <= |s| && 0 < n
    requires first == Located(Token(first.tok.kind, s[i..i + n], lineno), i) && Shape(first.tok.kind, s[i..i + n])
    ensures FaithfulAt(s, i, lineno, first)
  {
    assert s[i..i] == [];
  }

  /** A token after a run of text without newlines keeps its line when the
      run is put in front. */
  lemma ShiftFaithful(s: seq<int>, i: nat, n: nat, lineno: nat, t: Located)
    requires i + n <= |s| && FaithfulAt(s, i + n, lineno, t) && Newlines(s[i..i + n]) == 0
    ensures FaithfulAt(s, i, lineno, t)
  {
    NewlinesSplit(s, i, i + n, t.at);
  }

  // ---------------------------------------------------------------------
  // token_ize

  /** What token_ize gives: the tokens, NULL after a failure, or a crash. */
  datatype Outcome = Tokens(toks: seq<Token>) | Failed(why: Failure) | NullDeref

  function TokensOf(ls: seq<Located>): (ts: seq<Token>)
    ensures |ts| == |ls| && forall k :: 0 <= k < |ls| ==> ts[k] == ls[k].tok
  {
    seq(|ls|, k requires 0 <= k < |ls| => ls[k].tok)
  }

  /** toks are the tokens of s: each is the text at some offset, in order,
      without overlap, with the kind's shape and the line it starts on; each
      is what LexOne reads there, and everything else is skipped text. */
  ghost predicate Lexes(s: seq<int>, toks: seq<Token>)
  {
    exists ls :: TokensOf(ls) == toks && Faithful(s, 0, 1, ls) && Ordered(ls) && Covered(s, 0, ls) && Lexed(s, ls)
  }

  /** token_ize with the empty token list handled: the tokens of the whole
      text starting on line 1, or the first failure. */
  function Tokenize(s: seq<int>): (r: Outcome)
    ensures !r.NullDeref?
    ensures r.Tokens? ==> Lexes(s, r.toks)
    ensures r.Failed? <==> Scan(s, 0, 1).Err?
  {
    match Scan(s, 0, 1)
    case Ok(ls) => Tokens(TokensOf(ls))
    case Err(f) => Failed(f)
  }

  /** token_ize as written: after the loop it sets the last token's next
      pointer, which is NULL when the text has no token at all. */
  function TokenizeAsWritten(s: seq<int>): (r: Outcome)
    ensures r.NullDeref? <==> Tokenize(s) == Tokens([])
    ensures !r.NullDeref? ==> r == Tokenize(s)
  {
    match Scan(s, 0, 1)
    case Ok(ls) => if |ls| == 0 then NullDeref else Tokens(TokensOf(ls))
    case Err(f) => Failed(f)
  }

  /** A text of blanks only has no tokens. */
  lemma {:induction false} BlanksOnly(s: seq<int>, i: nat, lineno: nat)
    requires i <= |s| && forall k :: i <= k < |s| ==> IsBlank(s[k])
    ensures Scan(s, i, lineno) == Ok([])
    decreases |s| - i
  {
    if i < |s| {
      BlanksOnly(s, i + 1, if s[i] == Newline then lineno + 1 else lineno);
    }
  }

  /** An empty (or blank) file makes token_ize as written dereference NULL,
      where the tokenizer is evidently meant to give no tokens. */
  lemma BlankFileCrashes(s: seq<int>)
    requires forall k :: 0 <= k < |s| ==> IsBlank(s[k])
    ensures TokenizeAsWritten(s) == NullDeref && Tokenize(s) == Tokens([])
  {
    BlanksOnly(s, 0, 1);
  }

  /** A literal with a leading zero is still an INT token: check_integer's
      verdict is ignored. */
  lemma LeadingZeroAccepted()
    ensures var t := ['0' as int, '1' as int];
      !CheckInteger(t) && Tokenize(t) == Tokens([Token(Int, t, 1)])
  {
    var t := ['0' as int, '1' as int];
    assert t[0..] == t && t[0..2] == t;
    assert RunEnd(t, 2, IsDigit) == 2;
    assert RunEnd(t, 1, IsDigit) == 2;
    assert RunEnd(t, 0, IsDigit) == 2;
    assert LexOne(t, 1) == Ok((Int, 2));
    assert !IsBlank(t[0]) && t[0] != '#' as int && 0 < |t|;
    assert Scan(t, 2, 1) == Ok([]);
    assert Scan(t, 0, 1).Ok?;
    assert Scan(t, 0, 1).value == [Located(Token(Int, t, 1), 0)];
  }
}
