/**
 * Scope chains (src/objects/scope.c).  A Scope object has a `local_vars`
 * Mapping and a `parent_scope`; the builtin scope's parent is a
 * placeholder String that no lookup ever reads.  The scopes of a running
 * interpreter form a store: a scope is its position in the store, and a
 * scope's parent was created before it.  The local_vars Mappings are
 * modelled as finite maps from names (code-point sequences, compared by
 * length and code points) to values; the values are a type parameter.
 *
 * The store and the chain walk are shared by the older context chains of
 * src/context.c and by the Python prototypes.
 */
module Scope {
  import opened Wrappers
  import opened Objects

  type Name = seq<int>

  /** One scope: its local variables and its parent scope.  `None` is the
      builtin scope's placeholder parent. */
  datatype Frame<V> = Frame(vars: map<Name, V>, parent: Option<nat>)

  type Store<V> = seq<Frame<V>>

  /** Every parent is a scope made earlier.  The builtin scope is the one
      whose parent is the placeholder: set_var and get_var stop at it by
      identity, and no other scope has a placeholder parent. */
  predicate WellFormed<V>(st: Store<V>)
  {
    forall i :: 0 <= i < |st| && st[i].parent.Some? ==> st[i].parent.value < i
  }

  predicate IsBuiltin<V>(st: Store<V>, s: nat)
    requires s < |st|
  {
    st[s].parent.None?
  }

  /** The error of a name that no scope on the chain defines. */
  const NoVariable := Exception("Error", "no variable named '%S'")

  // ---------------------------------------------------------------------
  // The chain of a scope: itself, its parent, ..., up to the builtin scope.

  function Chain<V>(st: Store<V>, s: nat): (r: seq<nat>)
    requires WellFormed(st) && s < |st|
    ensures |r| >= 1 && r[0] == s
    ensures forall k :: 0 <= k < |r| ==> r[k] <= s
    ensures IsBuiltin(st, r[|r| - 1])
    ensures forall k :: 0 <= k < |r| - 1 ==> st[r[k]].parent == Some(r[k + 1])
    decreases s
  {
    match st[s].parent
    case None => [s]
    case Some(p) => [s] + Chain(st, p)
  }

  /** The scope on the chain of `s` that defines `name` and is nearest to
      `s`, given by its position on the chain. */
  predicate NearestAt<V>(st: Store<V>, s: nat, name: Name, k: int)
    requires WellFormed(st) && s < |st|
  {
    var c := Chain(st, s);
    0 <= k < |c| && name in st[c[k]].vars &&
    forall j :: 0 <= j < k ==> name !in st[c[j]].vars
  }

  predicate Defined<V>(st: Store<V>, s: nat, name: Name)
    requires WellFormed(st) && s < |st|
  {
    var c := Chain(st, s);
    exists k :: 0 <= k < |c| && name in st[c[k]].vars
  }

  // ---------------------------------------------------------------------
  // get_var and set_var

  /** get_var: the local binding if there is one; otherwise an error at the
      builtin scope, and else the same question to the parent scope. */
  function GetVar<V>(st: Store<V>, s: nat, name: Name): (r: Result<V, Exception>)
    requires WellFormed(st) && s < |st|
    ensures r.Err? ==> r.error == NoVariable
    decreases s
  {
    if name in st[s].vars then Ok(st[s].vars[name])
    else if IsBuiltin(st, s) then Err(NoVariable)
    else GetVar(st, st[s].parent.value, name)
  }

  /** set_var: replace the binding in the nearest scope that defines the
      name; no binding is ever created, and the builtin scope is the last
      one asked. */
  function SetVar<V>(st: Store<V>, s: nat, name: Name, v: V): (r: Result<Store<V>, Exception>)
    requires WellFormed(st) && s < |st|
    ensures r.Err? ==> r.error == NoVariable
    ensures r.Ok? ==> |r.value| == |st|
    decreases s
  {
    if name in st[s].vars then Ok(st[s := st[s].(vars := st[s].vars[name := v])])
    else if IsBuiltin(st, s) then Err(NoVariable)
    else SetVar(st, st[s].parent.value, name, v)
  }

  /** scopeobject_newsub: a fresh scope with no local variables whose
      parent is the given scope; the new scope is the last of the store. */
  function NewSub<V>(st: Store<V>, parent: nat): (r: (Store<V>, nat))
    requires WellFormed(st) && parent < |st|
    ensures WellFormed(r.0) && r.1 == |st| && |r.0| == |st| + 1 && r.0[..|st|] == st
    ensures r.0[r.1].vars == map[] && r.0[r.1].parent == Some(parent)
  {
    (st + [Frame(map[], Some(parent))], |st|)
  }

  /** scopeobject_newbuiltin: a fresh scope with no local variables whose
      parent is the placeholder. */
  function NewBuiltin<V>(st: Store<V>): (r: (Store<V>, nat))
    requires WellFormed(st)
    ensures WellFormed(r.0) && r.1 == |st| && |r.0| == |st| + 1 && r.0[..|st|] == st
    ensures r.0[r.1].vars == map[] && IsBuiltin(r.0, r.1)
  {
    (st + [Frame(map[], None)], |st|)
  }

  // ---------------------------------------------------------------------
  // Properties

  /** Walking to the parent drops the first element of the chain. */
  lemma ChainStep<V>(st: Store<V>, s: nat)
    requires WellFormed(st) && s < |st| && !IsBuiltin(st, s)
    ensures Chain(st, s) == [s] + Chain(st, st[s].parent.value)
  {
  }

  /** One step up the chain: a scope that does not define the name has
      the same definers as its parent, one position further along. */
  lemma DefinedStep<V>(st: Store<V>, s: nat, name: Name)
    requires WellFormed(st) && s < |st| && !IsBuiltin(st, s) && name !in st[s].vars
    ensures Defined(st, s, name) <==> Defined(st, st[s].parent.value, name)
  {
    var p := st[s].parent.value;
    var c := Chain(st, s);
    var cp := Chain(st, p);
    assert c == [s] + cp;
    if Defined(st, p, name) {
      var k :| 0 <= k < |cp| && name in st[cp[k]].vars;
      assert c[k + 1] == cp[k];
    }
    if Defined(st, s, name) {
      var k :| 0 <= k < |c| && name in st[c[k]].vars;
      assert k > 0 && c[k] == cp[k - 1];
    }
  }

  lemma NearestStep<V>(st: Store<V>, s: nat, name: Name, k: int)
    requires WellFormed(st) && s < |st| && !IsBuiltin(st, s) && name !in st[s].vars
    requires NearestAt(st, st[s].parent.value, name, k)
    ensures NearestAt(st, s, name, k + 1)
    ensures Chain(st, s)[k + 1] == Chain(st, st[s].parent.value)[k]
  {
    var c := Chain(st, s);
    var cp := Chain(st, st[s].parent.value);
    assert c == [s] + cp;
    forall j | 0 <= j < k + 1
      ensures name !in st[c[j]].vars
    {
      if j > 0 {
        assert c[j] == cp[j - 1];
      }
    }
  }

  /** get_var finds exactly the nearest binding, and fails exactly when no
      scope on the chain defines the name. */
  lemma {:induction false} GetVarIsNearest<V>(st: Store<V>, s: nat, name: Name)
    requires WellFormed(st) && s < |st|
    ensures GetVar(st, s, name).Ok? <==> Defined(st, s, name)
    ensures GetVar(st, s, name).Ok? ==>
      exists k :: NearestAt(st, s, name, k) &&
        GetVar(st, s, name).value == st[Chain(st, s)[k]].vars[name]
    decreases s
  {
    if name in st[s].vars {
      assert NearestAt(st, s, name, 0);
    } else if IsBuiltin(st, s) {
      assert Chain(st, s) == [s];
    } else {
      var p := st[s].parent.value;
      GetVarIsNearest(st, p, name);
      DefinedStep(st, s, name);
      if GetVar(st, s, name).Ok? {
        var k :| NearestAt(st, p, name, k) &&
          GetVar(st, p, name).value == st[Chain(st, p)[k]].vars[name];
        NearestStep(st, s, name, k);
      }
    }
  }

  /** The nearest definer is unique. */
  lemma NearestUnique<V>(st: Store<V>, s: nat, name: Name, k1: int, k2: int)
    requires WellFormed(st) && s < |st|
    requires NearestAt(st, s, name, k1) && NearestAt(st, s, name, k2)
    ensures k1 == k2
  {
  }

  /** The scopes of a chain are distinct, since each is older than the one
      before it. */
  lemma {:induction false} ChainDescends<V>(st: Store<V>, s: nat, j: nat, k: nat)
    requires WellFormed(st) && s < |st|
    requires j < k < |Chain(st, s)|
    ensures Chain(st, s)[k] < Chain(st, s)[j]
    decreases s
  {
    var c := Chain(st, s);
    if !IsBuiltin(st, s) {
      var p := st[s].parent.value;
      if j == 0 {
        assert c[k] == Chain(st, p)[k - 1] <= p < s;
      } else {
        ChainDescends(st, p, j - 1, k - 1);
      }
    }
  }

  /** set_var succeeds exactly when get_var would, changes only the
      nearest definer's binding of that name, creates no binding, keeps
      every parent link, and a later get_var reads the new value. */
  lemma {:induction false} SetVarUpdatesNearest<V>(st: Store<V>, s: nat, name: Name, v: V)
    requires WellFormed(st) && s < |st|
    ensures SetVar(st, s, name, v).Ok? <==> Defined(st, s, name)
    ensures SetVar(st, s, name, v).Ok? ==>
      var st' := SetVar(st, s, name, v).value;
      WellFormed(st') &&
      (exists k :: NearestAt(st, s, name, k) &&
        var d := Chain(st, s)[k];
        st'[d] == st[d].(vars := st[d].vars[name := v]) &&
        forall i :: 0 <= i < |st| && i != d ==> st'[i] == st[i])
    decreases s
  {
    if name in st[s].vars {
      assert NearestAt(st, s, name, 0);
    } else if !IsBuiltin(st, s) {
      var p := st[s].parent.value;
      SetVarUpdatesNearest(st, p, name, v);
      DefinedStep(st, s, name);
      if SetVar(st, s, name, v).Ok? {
        var st' := SetVar(st, p, name, v).value;
        var k :| NearestAt(st, p, name, k) &&
          var d := Chain(st, p)[k];
          st'[d] == st[d].(vars := st[d].vars[name := v]) &&
          forall i :: 0 <= i < |st| && i != d ==> st'[i] == st[i];
        NearestStep(st, s, name, k);
      }
    }
  }

  /** The parent links survive a set_var, so the chain of every scope is
      the same afterwards. */
  lemma SetVarKeepsChains<V>(st: Store<V>, s: nat, name: Name, v: V, t: nat)
    requires WellFormed(st) && s < |st| && t < |st|
    requires SetVar(st, s, name, v).Ok?
    ensures WellFormed(SetVar(st, s, name, v).value)
    ensures Chain(SetVar(st, s, name, v).value, t) == Chain(st, t)
  {
    SetVarUpdatesNearest(st, s, name, v);
    var st' := SetVar(st, s, name, v).value;
    forall i | 0 <= i < |st|
      ensures st'[i].parent == st[i].parent
    {
    }
    SameLinksSameChain(st, st', t);
  }

  lemma {:induction false} SameLinksSameChain<V>(st: Store<V>, st': Store<V>, t: nat)
    requires WellFormed(st) && WellFormed(st') && |st| == |st'| && t < |st|
    requires forall i :: 0 <= i < |st| ==> st'[i].parent == st[i].parent
    ensures Chain(st', t) == Chain(st, t)
    decreases t
  {
    if st[t].parent.Some? {
      SameLinksSameChain(st, st', st[t].parent.value);
    }
  }

  /** After a successful set_var, get_var from the same scope reads the
      value just written. */
  lemma SetThenGet<V>(st: Store<V>, s: nat, name: Name, v: V)
    requires WellFormed(st) && s < |st|
    requires SetVar(st, s, name, v).Ok?
    ensures WellFormed(SetVar(st, s, name, v).value)
    ensures GetVar(SetVar(st, s, name, v).value, s, name) == Ok(v)
  {
    var st' := SetVar(st, s, name, v).value;
    SetVarUpdatesNearest(st, s, name, v);
    SetVarKeepsChains(st, s, name, v, s);
    var c := Chain(st, s);
    var k :| NearestAt(st, s, name, k) && var d := c[k];
      st'[d] == st[d].(vars := st[d].vars[name := v]) &&
      forall i :: 0 <= i < |st| && i != d ==> st'[i] == st[i];
    forall j | 0 <= j < k
      ensures name !in st'[c[j]].vars
    {
      ChainDescends(st, s, j, k);
    }
    assert NearestAt(st', s, name, k);
    GetVarIsNearest(st', s, name);
    var k' :| NearestAt(st', s, name, k') && GetVar(st', s, name).value == st'[c[k']].vars[name];
    NearestUnique(st', s, name, k, k');
  }

  /** A fresh subscope sees exactly what its parent sees, and making it
      changes no lookup from an existing scope. */
  lemma NewSubSeesParent<V>(st: Store<V>, parent: nat, name: Name, t: nat)
    requires WellFormed(st) && parent < |st| && t < |st|
    ensures var (st', s) := NewSub(st, parent);
      GetVar(st', s, name) == GetVar(st, parent, name) &&
      GetVar(st', t, name) == GetVar(st, t, name)
  {
    var (st', s) := NewSub(st, parent);
    OlderLookups(st, st', parent, name);
    OlderLookups(st, st', t, name);
  }

  /** Appending scopes to the store changes no lookup from an existing one. */
  lemma {:induction false} OlderLookups<V>(st: Store<V>, st': Store<V>, t: nat, name: Name)
    requires WellFormed(st) && WellFormed(st') && t < |st| <= |st'|
    requires st'[..|st|] == st
    ensures GetVar(st', t, name) == GetVar(st, t, name)
    decreases t
  {
    assert st'[t] == st[t];
    if name !in st[t].vars && !IsBuiltin(st, t) {
      OlderLookups(st, st', st[t].parent.value, name);
    }
  }
}
