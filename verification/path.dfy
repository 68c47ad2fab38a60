/**
 * Path strings (src/path.c), on the non-Windows branch where the separator
 * is '/'.  A path is a C string: a sequence of characters with no NUL in it.
 */
module Path {
  const Slash: char := '/'

  /** What a C string can hold. */
  predicate CString(p: seq<char>)
  {
    forall i :: 0 <= i < |p| ==> p[i] != '\0'
  }

  /** path_isabsolute: the first character is the separator (an empty path
      has the terminating NUL there, so it is relative). */
  predicate IsAbsolute(p: seq<char>)
  {
    |p| > 0 && p[0] == Slash
  }

  /** path_concat: with an empty first path, a copy of the second;
      otherwise the first, a separator unless it already ends with one, and
      the second. */
  function Concat(p1: seq<char>, p2: seq<char>): (r: seq<char>)
    ensures |p1| == 0 ==> r == p2
    ensures |p1| > 0 ==> |r| == |p1| + (if p1[|p1| - 1] == Slash then 0 else 1) + |p2|
    ensures r[..|p1|] == p1 && r[|r| - |p2|..] == p2
    ensures |p1| > 0 ==> r[|r| - |p2| - 1] == Slash
    ensures CString(p1) && CString(p2) ==> CString(r)
  {
    if |p1| == 0 then p2
    else
      var needSlash := p1[|p1| - 1] != Slash;
      var r := if needSlash then p1 + [Slash] + p2 else p1 + p2;
      assert r[..|p1|] == p1;
      assert r[|r| - |p2|..] == p2;
      r
  }

  /** Joining never doubles the separator at the seam: the first path's own
      trailing separator is reused. */
  lemma ConcatSlashOnce(p1: seq<char>, p2: seq<char>)
    requires |p1| > 0 && p1[|p1| - 1] == Slash
    ensures Concat(p1, p2) == p1 + p2
  {
  }

  /** Joining an absolute directory with anything stays absolute, and an
      absolute second path after an empty first one stays absolute. */
  lemma ConcatAbsolute(p1: seq<char>, p2: seq<char>)
    ensures IsAbsolute(p1) ==> IsAbsolute(Concat(p1, p2))
    ensures |p1| == 0 ==> (IsAbsolute(Concat(p1, p2)) <==> IsAbsolute(p2))
  {
    if IsAbsolute(p1) {
      assert Concat(p1, p2)[..|p1|][0] == p1[0];
    }
  }

  /** path_toabsolute: a copy of an absolute path; otherwise the path
      joined to the working directory, which getcwd supplies. */
  function ToAbsolute(p: seq<char>, cwd: seq<char>): (r: seq<char>)
    ensures IsAbsolute(p) ==> r == p
    ensures !IsAbsolute(p) && |cwd| > 0 ==> |r| > |cwd| + |p| - 1 && r[..|cwd|] == cwd && r[|r| - |p|..] == p
    ensures !IsAbsolute(p) && |cwd| == 0 ==> r == p
  {
    if IsAbsolute(p) then p else Concat(cwd, p)
  }

  /** The index of the last character that is not part of a run of trailing
      separators; index 0 is never dropped. */
  function TrailStart(p: seq<char>): (t: nat)
    requires |p| > 0
    ensures t < |p|
    ensures t == 0 || p[t] != Slash
    ensures forall j :: t < j < |p| ==> p[j] == Slash
  {
    Back(p, |p| - 1)
  }

  function Back(p: seq<char>, i: nat): (t: nat)
    requires i < |p| && forall j :: i < j < |p| ==> p[j] == Slash
    ensures t <= i
    ensures t == 0 || p[t] != Slash
    ensures forall j :: t < j < |p| ==> p[j] == Slash
  {
    if i >= 1 && p[i] == Slash then Back(p, i - 1) else i
  }

  /** path_findlastslash: 0 for the empty path; otherwise, ignoring the
      trailing separators, the largest index from 1 on that holds a
      separator, or 0 when there is none. */
  method FindLastSlash(p: seq<char>) returns (r: nat)
    ensures |p| == 0 ==> r == 0
    ensures |p| > 0 ==> r < |p|
    ensures |p| > 0 ==> (r == 0 <==> forall j :: 1 <= j < TrailStart(p) ==> p[j] != Slash)
    ensures r > 0 ==> p[r] == Slash && r < TrailStart(p) &&
                      forall j :: r < j < TrailStart(p) ==> p[j] != Slash
  {
    if |p| == 0 {
      return 0;
    }
    var i := |p| - 1;
    while i >= 1 && p[i] == Slash
      invariant 0 <= i < |p|
      invariant forall j :: i < j < |p| ==> p[j] == Slash
    {
      i := i - 1;
    }
    ghost var t := i;
    assert t == TrailStart(p) by { TrailUnique(p, t); }
    while i >= 1
      invariant 0 <= i <= t
      invariant forall j :: i < j < t ==> p[j] != Slash
      invariant t > 0 ==> i == t || p[t] != Slash
    {
      if p[i] == Slash {
        return i;
      }
      i := i - 1;
    }
    return 0;
  }

  /** The trailing-separator boundary is determined by its three properties. */
  lemma TrailUnique(p: seq<char>, t: nat)
    requires t < |p| && (t == 0 || p[t] != Slash)
    requires forall j :: t < j < |p| ==> p[j] == Slash
    ensures t == TrailStart(p)
  {
  }

  /** The dirname/basename split path.h describes: for "a/b/c" the last
      separator is the one before "c", and a trailing separator does not
      move it. */
  lemma FindLastSlashExample()
    ensures TrailStart("a/b/c") == 4 && TrailStart("a/b/c/") == 4
  {
    TrailUnique("a/b/c", 4);
    TrailUnique("a/b/c/", 4);
  }
}
