/**
 * The older context chains of src/context.c: a context has a hash table of
 * local variables keyed by code-point strings and an optional parent
 * context.  Contexts are kept in the store of the Scope module; the global
 * context is the one without a parent.  The hash table itself is modelled
 * by the HashTable module, so its contents appear here as a finite map.
 *
 * Every `assert` that fails is the failure `Aborted`; allocation is
 * treated as total.
 */
module Context {
  import opened Wrappers
  import Scope

  type Name = seq<int>

  datatype Failure = Aborted

  /** compare_unicode_strings: 1 when the lengths and all code points agree,
      else 0. */
  method CompareUnicodeStrings(a: seq<int>, b: seq<int>) returns (r: int)
    ensures r == 1 <==> a == b
    ensures r == 0 <==> a != b
  {
    if |a| != |b| {
      return 0;
    }
    var i := 0;
    while i < |a|
      invariant 0 <= i <= |a|
      invariant a[..i] == b[..i]
    {
      if a[i] != b[i] {
        return 0;
      }
      i := i + 1;
    }
    assert a == a[..i] && b == b[..i];
    return 1;
  }

  /** context_newglobal: a fresh context with no parent and no variables. */
  function NewGlobal<V>(st: Scope.Store<V>): (r: (Scope.Store<V>, nat))
    requires Scope.WellFormed(st)
    ensures Scope.WellFormed(r.0) && r.1 == |st| && |r.0| == |st| + 1 && r.0[..|st|] == st
    ensures r.0[r.1].vars == map[] && r.0[r.1].parent.None?
  {
    Scope.NewBuiltin(st)
  }

  /** context_newsub: a fresh context with no variables, linked to its
      parent. */
  function NewSub<V>(st: Scope.Store<V>, parent: nat): (r: (Scope.Store<V>, nat))
    requires Scope.WellFormed(st) && parent < |st|
    ensures Scope.WellFormed(r.0) && r.1 == |st| && |r.0| == |st| + 1 && r.0[..|st|] == st
    ensures r.0[r.1].vars == map[] && r.0[r.1].parent == Some(parent)
  {
    Scope.NewSub(st, parent)
  }

  /** context_setlocalvar: adds a binding to the context's own table.  A
      name that is already there trips `assert(0)`. */
  function SetLocalVar<V>(st: Scope.Store<V>, c: nat, name: Name, v: V): (r: Result<Scope.Store<V>, Failure>)
    requires Scope.WellFormed(st) && c < |st|
    ensures r.Ok? <==> name !in st[c].vars
    ensures r.Ok? ==> (|r.value| == |st| && Scope.WellFormed(r.value) &&
      r.value[c].vars == st[c].vars[name := v] && r.value[c].parent == st[c].parent &&
      forall i :: 0 <= i < |st| && i != c ==> r.value[i] == st[i])
  {
    if name in st[c].vars then Err(Aborted)
    else Ok(st[c := st[c].(vars := st[c].vars[name := v])])
  }

  /** context_setvarwheredefined as written: it walks up to the first
      context that defines the name and then calls setlocalvar there, on a
      name that is by construction already present; when no context
      defines the name it ends in `assert(0)` too. */
  function SetVarWhereDefinedAsWritten<V>(st: Scope.Store<V>, c: nat, name: Name, v: V): (r: Result<Scope.Store<V>, Failure>)
    requires Scope.WellFormed(st) && c < |st|
    decreases c
  {
    if name in st[c].vars then SetLocalVar(st, c, name, v)
    else if st[c].parent.None? then Err(Aborted)
    else SetVarWhereDefinedAsWritten(st, st[c].parent.value, name, v)
  }

  /** No call of the function as written can succeed. */
  lemma {:induction false} SetVarWhereDefinedAlwaysAborts<V>(st: Scope.Store<V>, c: nat, name: Name, v: V)
    requires Scope.WellFormed(st) && c < |st|
    ensures SetVarWhereDefinedAsWritten(st, c, name, v) == Err(Aborted)
    decreases c
  {
    if name !in st[c].vars && st[c].parent.Some? {
      SetVarWhereDefinedAlwaysAborts(st, st[c].parent.value, name, v);
    }
  }

  /** The simplest program that assigns to an existing variable, `x = 2;`
      with `var x = 1;` in the global context, aborts as written; the
      corrected function updates the binding. */
  lemma AssignmentAborts()
    ensures var st: Scope.Store<int> := [Scope.Frame(map[['x' as int] := 1], None)];
      SetVarWhereDefinedAsWritten(st, 0, ['x' as int], 2) == Err(Aborted) &&
      SetVarWhereDefined(st, 0, ['x' as int], 2) == Ok([Scope.Frame(map[['x' as int] := 2], None)])
  {
    var st: Scope.Store<int> := [Scope.Frame(map[['x' as int] := 1], None)];
    var x := ['x' as int];
    assert x in st[0].vars;
    assert st[0].vars[x := 2] == map[x := 2];
    assert st[0].(vars := st[0].vars[x := 2]) == Scope.Frame(map[x := 2], None);
    assert st[0 := Scope.Frame(map[x := 2], None)] == [Scope.Frame(map[x := 2], None)];
    assert Scope.SetVar(st, 0, x, 2) == Ok([Scope.Frame(map[x := 2], None)]);
  }

  /** The message the unfinished error path builds: the ASCII prefix, the
      name, and a closing quote. */
  const Prefix: seq<int> := [
    'n' as int, 'o' as int, ' ' as int, 'v' as int, 'a' as int, 'r' as int, 'i' as int,
    'a' as int, 'b' as int, 'l' as int, 'e' as int, ' ' as int, 'n' as int, 'a' as int,
    'm' as int, 'e' as int, 'd' as int, ' ' as int, '\'' as int]

  function NoVariableMessage(name: Name): (r: seq<int>)
    ensures |r| == |Prefix| + |name| + 1 && |Prefix| == 19
    ensures r[..|Prefix|] == Prefix && r[|Prefix|..|Prefix| + |name|] == name && r[|r| - 1] == '\'' as int
  {
    Prefix + name + ['\'' as int]
  }

  /** context_setvarwheredefined as evidently intended: replace the binding
      in the nearest defining context, or fail with the "no variable named"
      message when no context defines the name. */
  function SetVarWhereDefined<V>(st: Scope.Store<V>, c: nat, name: Name, v: V): (r: Result<Scope.Store<V>, seq<int>>)
    requires Scope.WellFormed(st) && c < |st|
    ensures r.Ok? <==> Scope.Defined(st, c, name)
    ensures r.Err? ==> r.error == NoVariableMessage(name)
    ensures r.Ok? ==> |r.value| == |st| && Scope.WellFormed(r.value) && GetVarNoMalloc(r.value, c, name) == Some(v)
    ensures r.Ok? ==> exists k :: (Scope.NearestAt(st, c, name, k) &&
      var d := Scope.Chain(st, c)[k];
      r.value[d] == st[d].(vars := st[d].vars[name := v]) &&
      forall i :: 0 <= i < |st| && i != d ==> r.value[i] == st[i])
  {
    Scope.SetVarUpdatesNearest(st, c, name, v);
    match Scope.SetVar(st, c, name, v)
    case Ok(st') =>
      Scope.SetThenGet(st, c, name, v);
      Scope.GetVarIsNearest(st', c, name);
      GetVarNoMallocAgrees(st', c, name);
      Ok(st')
    case Err(_) => Err(NoVariableMessage(name))
  }

  /** context_getvar_nomalloc: the binding in the nearest context up the
      chain, or nothing. */
  function GetVarNoMalloc<V>(st: Scope.Store<V>, c: nat, name: Name): (r: Option<V>)
    requires Scope.WellFormed(st) && c < |st|
    decreases c
  {
    if name in st[c].vars then Some(st[c].vars[name])
    else if st[c].parent.None? then None
    else GetVarNoMalloc(st, st[c].parent.value, name)
  }

  /** The lookup agrees with the scope chain's nearest binding: nothing
      exactly when no context on the chain defines the name. */
  lemma {:induction false} GetVarNoMallocAgrees<V>(st: Scope.Store<V>, c: nat, name: Name)
    requires Scope.WellFormed(st) && c < |st|
    ensures GetVarNoMalloc(st, c, name).Some? <==> Scope.Defined(st, c, name)
    ensures GetVarNoMalloc(st, c, name).Some? ==> Scope.GetVar(st, c, name) == Ok(GetVarNoMalloc(st, c, name).value)
    decreases c
  {
    Scope.GetVarIsNearest(st, c, name);
    if name !in st[c].vars && st[c].parent.Some? {
      GetVarNoMallocAgrees(st, st[c].parent.value, name);
      Scope.DefinedStep(st, c, name);
    }
  }

  /** The same walk as a loop over the parent links, as the source writes
      it. */
  method WalkGetVar<V>(st: Scope.Store<V>, c: nat, name: Name) returns (r: Option<V>)
    requires Scope.WellFormed(st) && c < |st|
    ensures r.Some? <==> Scope.Defined(st, c, name)
    ensures r.Some? ==> Scope.GetVar(st, c, name) == Ok(r.value)
  {
    GetVarNoMallocAgrees(st, c, name);
    var cur: nat := c;
    while true
      invariant cur < |st|
      invariant GetVarNoMalloc(st, cur, name) == GetVarNoMalloc(st, c, name)
      decreases cur
    {
      if name in st[cur].vars {
        return Some(st[cur].vars[name]);
      }
      if st[cur].parent.None? {
        return None;
      }
      cur := st[cur].parent.value;
    }
  }

  /** context_getvar: the lookup, with `assert(res)` on a missing name. */
  function GetVar<V>(st: Scope.Store<V>, c: nat, name: Name): (r: Result<V, Failure>)
    requires Scope.WellFormed(st) && c < |st|
    ensures r.Ok? <==> Scope.Defined(st, c, name)
    ensures r.Ok? ==> Scope.GetVar(st, c, name) == Ok(r.value)
  {
    GetVarNoMallocAgrees(st, c, name);
    match GetVarNoMalloc(st, c, name)
    case Some(v) => Ok(v)
    case None => Err(Aborted)
  }
}
