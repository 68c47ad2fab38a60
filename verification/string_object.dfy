/**
 * The String class (src/objects/string.c): a String object holds a sequence
 * of code points.  The methods are modelled after their argument checks
 * (check.dfy models those); a method that builds a new string answers its
 * code points, and `slice` says whether it hands back the receiver itself.
 */
module StringObject {
  import opened Wrappers
  import opened Objects
  import opened UnicodeClass
  import Integer
  import Operator

  type Text = seq<int>

  /** `new String` is refused whatever the arguments. */
  function NewInstance(args: seq<Obj>): (r: Result<Obj, Exception>)
    ensures r.Err? && r.error.cls == "TypeError"
  {
    Err(Exception("TypeError", "strings can't be created with (new String), use \"text in quotes\" instead"))
  }

  /** to_string hands back the receiver itself. */
  function ToString(s: Obj): (r: Obj)
    requires s.data.Str?
    ensures r.id == s.id && r.data == s.data
  {
    s
  }

  /** The length attribute counts code points. */
  function Length(s: Text): (r: nat)
    ensures r == |s|
  {
    |s|
  }

  /** get: the one-character string at index i. */
  function Get(s: Text, i: int): (r: Result<Text, Exception>)
    ensures r.Ok? <==> 0 <= i < |s|
    ensures r.Ok? ==> r.value == [s[i]]
    ensures i < 0 ==> r == Err(Exception("ValueError", "%L is not a valid string index"))
    ensures i >= |s| >= 0 && i >= 0 ==>
      r == Err(Exception("ValueError", "%L is not a valid index for a string of length %L"))
  {
    if i < 0 then Err(Exception("ValueError", "%L is not a valid string index"))
    else if i >= |s| then Err(Exception("ValueError", "%L is not a valid index for a string of length %L"))
    else Ok(s[i..i + 1])
  }

  // ---------------------------------------------------------------------
  // slice

  /** What slice hands back: the receiver itself or a new string. */
  datatype SliceResult = Same | Fresh(chars: Text)

  /** slice with an optional end (the one-argument form uses the length). */
  function Slice(s: Text, start: int, end: Option<int>): (r: SliceResult)
    ensures var e := if end.None? then |s| else end.value;
      var (lo, hi) := ClampedRange(|s|, start, e);
      (r.Same? <==> lo == 0 && hi == |s| && |s| > 0) &&
      (r.Fresh? ==> r.chars == s[lo..hi])
  {
    var e := if end.None? then |s| else end.value;
    var st := if start < 0 then 0 else start;
    if e < 0 then Fresh([])
    else
      var en := if e > |s| then |s| else e;
      if st >= en then Fresh([])
      else if st == 0 && en == |s| then Same
      else Fresh(s[st..en])
  }

  /** The chars a slice result stands for. */
  function SliceChars(s: Text, r: SliceResult): Text
  {
    if r.Same? then s else r.chars
  }

  /** Slicing never grows a string, and slicing the whole range (or from 0
      with no end) gives back the same chars. */
  lemma SliceBounds(s: Text, start: int, end: Option<int>)
    ensures |SliceChars(s, Slice(s, start, end))| <= |s|
    ensures start <= 0 && (end.None? || end.value >= |s|) ==> SliceChars(s, Slice(s, start, end)) == s
    ensures end.Some? && end.value <= start ==> SliceChars(s, Slice(s, start, end)) == []
  {
  }

  // ---------------------------------------------------------------------
  // split_by_whitespace

  /** The number of leading non-whitespace chars. */
  function RunLength(s: Text): (r: nat)
    ensures r <= |s|
    ensures forall k :: 0 <= k < r ==> !IsSpace(s[k])
    ensures r < |s| ==> IsSpace(s[r])
  {
    if |s| == 0 || IsSpace(s[0]) then 0 else 1 + RunLength(s[1..])
  }

  /** The maximal runs of non-whitespace chars, in order. */
  function Words(s: Text): (r: seq<Text>)
    decreases |s|
  {
    if |s| == 0 then []
    else if IsSpace(s[0]) then Words(s[1..])
    else
      var n := RunLength(s);
      [s[..n]] + Words(s[n..])
  }

  /** stringobject_splitbywhitespace, with its loops: skip leading
      whitespace; then repeatedly scan to the next whitespace char, push the
      run and skip the whitespace after it, or push the rest and stop. */
  method SplitByWhitespace(s: Text) returns (result: seq<Text>)
    ensures result == Words(s)
  {
    assert s[0..] == s;
    assert Words([]) == [];
    hide Words, IsSpace;
    var offset := SkipSpaces(s, 0);
    result := [];
    while offset < |s|
      invariant 0 <= offset <= |s|
      invariant offset < |s| ==> !IsSpace(s[offset])
      invariant result + Words(s[offset..]) == Words(s)
      decreases |s| - offset
    {
      var run, next := SplitRound(s, offset);
      AppendRun(result, run, Words(s[offset..]), Words(s[next..]), Words(s));
      result := result + [run];
      offset := next;
    }
    assert s[offset..] == [];
  }

  /** One round of the split loop: the run of non-whitespace chars at
      `offset`, and where the next run starts. */
  method SplitRound(s: Text, offset: nat) returns (run: Text, next: nat)
    requires offset < |s| && !IsSpace(s[offset])
    ensures offset < next <= |s|
    ensures next < |s| ==> !IsSpace(s[next])
    ensures Words(s[offset..]) == [run] + Words(s[next..])
  {
    var nowsEnd := ScanRun(s, offset);
    RunSplit(s, offset, nowsEnd);
    run := s[offset..nowsEnd];
    next := |s|;
    if nowsEnd < |s| {
      SkipSpace(s, nowsEnd);
      next := SkipSpaces(s, nowsEnd + 1);
    }
  }

  /** Pushing a run keeps the words still to come. */
  lemma AppendRun(before: seq<Text>, run: Text, here: seq<Text>, after: seq<Text>, all: seq<Text>)
    requires before + here == all && here == [run] + after
    ensures (before + [run]) + after == all
  {
    assert (before + [run]) + after == before + ([run] + after);
  }

  /** The whitespace-skipping loop: it stops at the end or at a
      non-whitespace char, and the words from there on are unchanged. */
  method SkipSpaces(s: Text, from: nat) returns (offset: nat)
    requires from <= |s|
    ensures from <= offset <= |s|
    ensures offset < |s| ==> !IsSpace(s[offset])
    ensures Words(s[offset..]) == Words(s[from..])
  {
    offset := from;
    while offset < |s| && IsSpace(s[offset])
      invariant from <= offset <= |s|
      invariant Words(s[offset..]) == Words(s[from..])
    {
      SkipSpace(s, offset);
      offset := offset + 1;
    }
  }

  /** The `for` loop that looks for the whitespace char ending a run. */
  method ScanRun(s: Text, offset: nat) returns (nowsEnd: nat)
    requires offset < |s| && !IsSpace(s[offset])
    ensures offset < nowsEnd <= |s|
    ensures forall k :: offset <= k < nowsEnd ==> !IsSpace(s[k])
    ensures nowsEnd < |s| ==> IsSpace(s[nowsEnd])
  {
    nowsEnd := offset + 1;
    while nowsEnd < |s| && !IsSpace(s[nowsEnd])
      invariant offset < nowsEnd <= |s|
      invariant forall k :: offset <= k < nowsEnd ==> !IsSpace(s[k])
    {
      nowsEnd := nowsEnd + 1;
    }
  }

  lemma SkipSpace(s: Text, o: nat)
    requires o < |s| && IsSpace(s[o])
    ensures Words(s[o..]) == Words(s[o + 1..])
  {
    assert s[o..][1..] == s[o + 1..];
  }

  lemma RunSplit(s: Text, o: nat, e: nat)
    requires o < e <= |s|
    requires forall k :: o <= k < e ==> !IsSpace(s[k])
    requires e < |s| ==> IsSpace(s[e])
    ensures Words(s[o..]) == [s[o..e]] + Words(s[e..])
  {
    var t := s[o..];
    RunLengthIs(t, e - o);
    assert t[..e - o] == s[o..e];
    assert t[e - o..] == s[e..];
  }

  lemma RunLengthIs(t: Text, n: nat)
    requires n <= |t|
    requires forall k :: 0 <= k < n ==> !IsSpace(t[k])
    requires n < |t| ==> IsSpace(t[n])
    ensures RunLength(t) == n
  {
  }

  /** The code points of a sequence of words, in order. */
  function Concat(ws: seq<Text>): Text
  {
    if |ws| == 0 then [] else ws[0] + Concat(ws[1..])
  }

  /** The chars of s that are not whitespace, in order. */
  function NonSpace(s: Text): (r: Text)
    ensures |r| <= |s|
  {
    if |s| == 0 then [] else (if IsSpace(s[0]) then [] else [s[0]]) + NonSpace(s[1..])
  }

  /** Every word is non-empty and free of whitespace, and the words hold
      exactly the non-whitespace chars of s, in order. */
  lemma {:induction false} WordsShape(s: Text)
    ensures forall i :: 0 <= i < |Words(s)| ==>
      |Words(s)[i]| > 0 && forall k :: 0 <= k < |Words(s)[i]| ==> !IsSpace(Words(s)[i][k])
    ensures Concat(Words(s)) == NonSpace(s)
    decreases |s|
  {
    if |s| > 0 {
      if IsSpace(s[0]) {
        WordsShape(s[1..]);
      } else {
        var n := RunLength(s);
        WordsShape(s[n..]);
        var ws := Words(s);
        assert ws == [s[..n]] + Words(s[n..]);
        assert ws[1..] == Words(s[n..]);
        forall i | 0 <= i < |ws|
          ensures |ws[i]| > 0 && forall k :: 0 <= k < |ws[i]| ==> !IsSpace(ws[i][k])
        {
          if i > 0 {
            assert ws[i] == Words(s[n..])[i - 1];
          }
        }
        NonSpaceRun(s, n);
      }
    }
  }

  lemma {:induction false} NonSpaceRun(s: Text, n: nat)
    requires n <= |s|
    requires forall k :: 0 <= k < n ==> !IsSpace(s[k])
    ensures NonSpace(s) == s[..n] + NonSpace(s[n..])
    decreases n
  {
    if n > 0 {
      NonSpaceRun(s[1..], n - 1);
      assert s[1..][..n - 1] == s[1..n];
      assert s[1..][n - 1..] == s[n..];
      assert s[..n] == [s[0]] + s[1..n];
    } else {
      assert s[..0] == [] && s[0..] == s;
    }
  }

  /** A string without whitespace splits into itself alone (or nothing if empty). */
  lemma WordsOfWord(s: Text)
    requires forall k :: 0 <= k < |s| ==> !IsSpace(s[k])
    ensures Words(s) == if |s| == 0 then [] else [s]
  {
    if |s| > 0 {
      RunLengthIs(s, |s|);
      assert s[..|s|] == s;
      assert s[|s|..] == [];
    }
  }

  // ---------------------------------------------------------------------
  // eq and add

  /** eq: null unless both operands are Strings, otherwise whether the code
      points agree. */
  function Eq(a: Obj, b: Obj): (r: EqAnswer)
    ensures r.NotMine? <==> !(a.data.Str? && b.data.Str?)
    ensures r.Answer? ==> (r.equal <==> |a.data.chars| == |b.data.chars| &&
                                         forall i :: 0 <= i < |a.data.chars| ==> a.data.chars[i] == b.data.chars[i])
  {
    if !(a.data.Str? && b.data.Str?) then NotMine
    else if |a.data.chars| != |b.data.chars| then Answer(false)
    else Answer(a.data.chars == b.data.chars)
  }

  /** On two Strings, the operator function and the built-in structural
      equality agree (objects with one address are one object). */
  lemma EqAgreesWithEqInt(a: Obj, b: Obj)
    requires a.data.Str? && b.data.Str?
    requires a.id == b.id ==> a == b
    ensures Eq(a, b) == Answer(Operator.EqInt(a, b) == 1)
  {
    Operator.EqIntCases(a, b);
  }

  /** add: null unless both operands are Strings, otherwise the concatenation. */
  function Add(a: Obj, b: Obj): (r: Option<Text>)
    ensures r.None? <==> !(a.data.Str? && b.data.Str?)
    ensures r.Some? ==>
      (|r.value| == |a.data.chars| + |b.data.chars| &&
       r.value[..|a.data.chars|] == a.data.chars && r.value[|a.data.chars|..] == b.data.chars)
  {
    if !(a.data.Str? && b.data.Str?) then None
    else Some(a.data.chars + b.data.chars)
  }

  /** Slicing a sum at the length of its left part gives back both parts. */
  lemma AddThenSlice(a: Obj, b: Obj)
    requires a.data.Str? && b.data.Str? && |a.data.chars| > 0 && |b.data.chars| > 0
    ensures var sum := Add(a, b).value;
      SliceChars(sum, Slice(sum, 0, Some(|a.data.chars|))) == a.data.chars &&
      SliceChars(sum, Slice(sum, |a.data.chars|, None)) == b.data.chars
  {
  }

  // ---------------------------------------------------------------------
  // string_hash

  /** djb2 over unsigned long: 5381, then h*33 + c for every code point,
      modulo 2^64. */
  function Djb2(s: Text): (r: nat)
    requires forall i :: 0 <= i < |s| ==> s[i] >= 0
    ensures r < U64
  {
    if |s| == 0 then 5381
    else (Djb2(s[..|s| - 1]) * 33 + s[|s| - 1]) % U64
  }

  /** string_hash: the djb2 loop, then the cast to signed long. */
  method StringHash(s: Text) returns (h: int)
    requires forall i :: 0 <= i < |s| ==> s[i] >= 0
    ensures h == Integer.ToSigned(Djb2(s))
    ensures Integer.Int64Min <= h <= Integer.Int64Max
  {
    var hash: int := 5381;
    var i := 0;
    while i < |s|
      invariant 0 <= i <= |s|
      invariant hash == Djb2(s[..i])
    {
      assert s[..i + 1][..i] == s[..i];
      hash := (hash * 33 + s[i]) % U64;
      i := i + 1;
    }
    assert s[..|s|] == s;
    h := Integer.ToSigned(hash);
  }

  /** new_string_from_ustr_with_no_copy: a String object whose hash is
      computed from its chars at creation. */
  function NewString(id: nat, s: Text): (r: Obj)
    requires forall i :: 0 <= i < |s| ==> s[i] >= 0
    ensures r.id == id && r.hashable && r.data == Str(s)
    ensures r.hash == Integer.ToSigned(Djb2(s))
  {
    Obj(id, true, Integer.ToSigned(Djb2(s)), Str(s))
  }

  /** Strings that compare equal have equal hashes, so a Mapping keyed by
      Strings finds an equal key in the bucket it looks in. */
  lemma EqualStringsHashAlike(ida: nat, idb: nat, s: Text, t: Text, n: nat)
    requires forall i :: 0 <= i < |s| ==> s[i] >= 0
    requires forall i :: 0 <= i < |t| ==> t[i] >= 0
    requires ida == idb ==> s == t
    requires n > 0
    requires Operator.EqInt(NewString(ida, s), NewString(idb, t)) == 1
    ensures NewString(ida, s).hash == NewString(idb, t).hash
    ensures HashModulus(NewString(ida, s).hash, n) == HashModulus(NewString(idb, t).hash, n)
  {
    Operator.EqIntCases(NewString(ida, s), NewString(idb, t));
  }
}
