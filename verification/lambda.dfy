/**
 * The `lambda` built-in (src/lambdabuiltin.c).  `lambda "a b c: d:" { … }`
 * splits the string at whitespace into argument names and, after them,
 * option names ending in ':', and gives back a function: the runner
 * partialled with the argument names, the option names and the block.
 * Here a lambda is those three partialled values, the two name arrays by
 * their contents.  Calling it binds `return`, the arguments and the
 * options in a new subscope of the block's definition scope, runs the
 * block there and answers the `return` variable.
 */
module Lambda {
  import opened Wrappers
  import opened Interp
  import Objects
  import Check
  import CheckOptions
  import StringObject
  import opened UnicodeClass
  import FunctionObject

  datatype Lambda = Lambda(argnames: seq<Name>, optnames: seq<Name>, block: Ref)

  const NotValidName := Objects.Exception("Error", "\"%U\" is not a valid argument name")

  const ArgumentAfterOptions := Objects.Exception("Error", "argument \"%U\" should be before options")

  const NotEnoughArguments := Objects.Exception("Error", "not enough arguments")

  const TooManyArguments := Objects.Exception("Error", "too many arguments")

  const UnknownOption := Objects.Exception("Error", "unknown option %D")

  const ReturnDeleted := Objects.Exception("Error", "the local return variable was deleted")

  const Return: Name := Text("return")

  const Colon: int := ':' as int

  /** The name the runner function gets, which the partials keep. */
  const RunnerName: string := "a lambda function"

  predicate IsIdentifier(u: Name)
  {
    |u| > 0 && IsIdentifier1st(u[0]) && forall i :: 1 <= i < |u| ==> IsIdentifierNot1st(u[i])
  }

  /** check_identifier: a non-empty name whose first char may start an
      identifier and whose other chars may continue one. */
  function CheckIdentifier(u: Name): (r: Result<(), Failure>)
    ensures r.Ok? <==> IsIdentifier(u)
    ensures r.Err? ==> r.error == Thrown(NotValidName)
  {
    if |u| == 0 || !IsIdentifier1st(u[0]) then Err(Thrown(NotValidName))
    else CheckRest(u, 1)
  }

  function CheckRest(u: Name, i: nat): (r: Result<(), Failure>)
    requires 1 <= i <= |u|
    ensures r.Ok? <==> forall k :: i <= k < |u| ==> IsIdentifierNot1st(u[k])
    ensures r.Err? ==> r.error == Thrown(NotValidName)
    decreases |u| - i
  {
    if i == |u| then Ok(())
    else if !IsIdentifierNot1st(u[i]) then Err(Thrown(NotValidName))
    else CheckRest(u, i + 1)
  }

  datatype Names = Names(args: seq<Name>, opts: seq<Name>)

  predicate AllIdentifiers(ns: seq<Name>)
  {
    forall i :: 0 <= i < |ns| ==> IsIdentifier(ns[i])
  }

  /** parse_arg_and_opt_names: the words of the string, each an identifier,
      the option names marked by a trailing ':' and all after the
      arguments. */
  function ParseNames(s: seq<int>): (r: Result<Names, Failure>)
    ensures r.Ok? ==> AllIdentifiers(r.value.args) && AllIdentifiers(r.value.opts)
  {
    ParseWords(StringObject.Words(s), 0, Names([], []))
  }

  function ParseWords(ws: seq<seq<int>>, i: nat, acc: Names): (r: Result<Names, Failure>)
    requires i <= |ws|
    requires AllIdentifiers(acc.args) && AllIdentifiers(acc.opts)
    ensures r.Ok? ==> AllIdentifiers(r.value.args) && AllIdentifiers(r.value.opts)
    decreases |ws| - i
  {
    if i == |ws| then Ok(acc)
    else
      var u := ws[i];
      if |u| == 0 then Err(Thrown(NotValidName))
      else if u[|u| - 1] == Colon then
        var name := u[..|u| - 1];
        if !IsIdentifier(name) then Err(Thrown(NotValidName))
        else ParseWords(ws, i + 1, acc.(opts := acc.opts + [name]))
      else if |acc.opts| > 0 then Err(Thrown(ArgumentAfterOptions))
      else if !IsIdentifier(u) then Err(Thrown(NotValidName))
      else ParseWords(ws, i + 1, acc.(args := acc.args + [u]))
  }

  // ---------------------------------------------------------------------
  // the names written back as a string

  const Space: int := ' ' as int

  function Join(ws: seq<seq<int>>): seq<int>
  {
    if |ws| == 0 then [] else if |ws| == 1 then ws[0] else ws[0] + ([Space] + Join(ws[1..]))
  }

  function Marked(opts: seq<Name>): (r: seq<seq<int>>)
    ensures |r| == |opts| && forall i :: 0 <= i < |opts| ==> r[i] == opts[i] + [Colon]
  {
    if |opts| == 0 then [] else [opts[0] + [Colon]] + Marked(opts[1..])
  }

  /** The declaration string that lists the names with single spaces. */
  function Unparse(n: Names): seq<int>
  {
    Join(n.args + Marked(n.opts))
  }

  predicate NoSpace(u: seq<int>)
  {
    forall k :: 0 <= k < |u| ==> !IsSpace(u[k])
  }

  lemma {:induction false} WordsOfJoin(ws: seq<seq<int>>)
    requires forall i :: 0 <= i < |ws| ==> |ws[i]| > 0 && NoSpace(ws[i])
    ensures StringObject.Words(Join(ws)) == ws
    decreases |ws|
  {
    if |ws| == 1 {
      StringObject.WordsOfWord(ws[0]);
    } else if |ws| > 1 {
      var rest := Join(ws[1..]);
      var s := ws[0] + ([Space] + rest);
      var n := |ws[0]|;
      StringObject.RunLengthIs(s, n);
      assert s[..n] == ws[0];
      assert s[n..] == [Space] + rest;
      assert ([Space] + rest)[1..] == rest;
      WordsOfJoin(ws[1..]);
      assert ws == [ws[0]] + ws[1..];
    }
  }

  lemma IdentifierChars(u: Name)
    requires IsIdentifier(u)
    ensures NoSpace(u) && u[|u| - 1] != Colon
  {
    forall k | 0 <= k < |u|
      ensures !IsSpace(u[k]) && u[k] != Colon
    {
      ClassesNest(u[k]);
    }
  }

  lemma ParseWordsArg(ws: seq<seq<int>>, i: nat, acc: Names)
    requires i < |ws| && IsIdentifier(ws[i]) && acc.opts == []
    requires AllIdentifiers(acc.args) && AllIdentifiers(acc.opts)
    ensures AllIdentifiers(acc.args + [ws[i]])
    ensures ParseWords(ws, i, acc) == ParseWords(ws, i + 1, acc.(args := acc.args + [ws[i]]))
  {
    IdentifierChars(ws[i]);
  }

  lemma ParseWordsOpt(ws: seq<seq<int>>, i: nat, acc: Names, o: Name)
    requires i < |ws| && ws[i] == o + [Colon] && IsIdentifier(o)
    requires AllIdentifiers(acc.args) && AllIdentifiers(acc.opts)
    ensures AllIdentifiers(acc.opts + [o])
    ensures ParseWords(ws, i, acc) == ParseWords(ws, i + 1, acc.(opts := acc.opts + [o]))
  {
    assert ws[i][..|ws[i]| - 1] == o;
  }

  /** Parsing words from index i, when they are the argument names `args`
      followed by the marked option names `opts`, appends them to what
      has been accumulated. */
  lemma {:induction false} ParseRest(ws: seq<seq<int>>, i: nat, acc: Names, args: seq<Name>, opts: seq<Name>)
    requires i + |args| + |opts| == |ws|
    requires forall k :: 0 <= k < |args| ==> ws[i + k] == args[k]
    requires forall k :: 0 <= k < |opts| ==> ws[i + |args| + k] == opts[k] + [Colon]
    requires AllIdentifiers(args) && AllIdentifiers(opts)
    requires AllIdentifiers(acc.args) && AllIdentifiers(acc.opts)
    requires |args| > 0 ==> acc.opts == []
    ensures ParseWords(ws, i, acc) == Ok(Names(acc.args + args, acc.opts + opts))
    decreases |ws| - i
  {
    if |args| > 0 {
      ParseWordsArg(ws, i, acc);
      ParseRest(ws, i + 1, acc.(args := acc.args + [args[0]]), args[1..], opts);
      assert acc.args + [args[0]] + args[1..] == acc.args + args;
    } else if |opts| > 0 {
      ParseWordsOpt(ws, i, acc, opts[0]);
      ParseRest(ws, i + 1, acc.(opts := acc.opts + [opts[0]]), [], opts[1..]);
      assert acc.opts + [opts[0]] + opts[1..] == acc.opts + opts;
    } else {
      assert acc.args + args == acc.args && acc.opts + opts == acc.opts;
    }
  }

  /** Names written back with single spaces and trailing colons parse to
      the same names. */
  lemma ParseUnparse(n: Names)
    requires AllIdentifiers(n.args) && AllIdentifiers(n.opts)
    ensures ParseNames(Unparse(n)) == Ok(n)
  {
    var ws := n.args + Marked(n.opts);
    forall i | 0 <= i < |ws|
      ensures |ws[i]| > 0 && NoSpace(ws[i])
    {
      if i < |n.args| {
        IdentifierChars(n.args[i]);
      } else {
        IdentifierChars(n.opts[i - |n.args|]);
        assert ws[i] == n.opts[i - |n.args|] + [Colon];
      }
    }
    WordsOfJoin(ws);
    ParseRest(ws, 0, Names([], []), n.args, n.opts);
    assert Names([] + n.args, [] + n.opts) == n;
  }

  /** An argument name after an option name is refused. */
  lemma ArgumentAfterOption(a: Name, o: Name)
    requires IsIdentifier(a) && IsIdentifier(o)
    ensures ParseNames(Join([o + [Colon], a])) == Err(Thrown(ArgumentAfterOptions))
  {
    IdentifierChars(a);
    IdentifierChars(o);
    var ws := [o + [Colon], a];
    WordsOfJoin(ws);
    ParseWordsOpt(ws, 0, Names([], []), o);
    assert ws[1] == a && a[|a| - 1] != Colon;
    assert ParseWords(ws, 1, Names([], [o])) == Err(Thrown(ArgumentAfterOptions));
  }

  // ---------------------------------------------------------------------
  // the builtin and the runner

  /** lambdabuiltin: a String and a Block, no options; the String's names
      must parse. It succeeds exactly then, and otherwise fails with the
      error of the first check that rejects the call. */
  function LambdaBuiltin<A>(env: Env<A>, w: World<A>, args: seq<Ref>, opts: map<Name, Ref>): (r: Result<Lambda, Failure>)
    ensures r.Ok? <==>
      (CheckArgs(env, w, args, [env.known.stringClass, env.known.blockClass]).Ok? && opts == map[] &&
       ParseNames(env.chars(w, args[0])).Ok?)
    ensures r.Ok? ==>
      (|args| == 2 && IsInstance(env, w, args[0], env.known.stringClass) &&
       IsInstance(env, w, args[1], env.known.blockClass) && opts == map[] &&
       r.value.block == args[1] &&
       ParseNames(env.chars(w, args[0])) == Ok(Names(r.value.argnames, r.value.optnames)))
    ensures CheckArgs(env, w, args, [env.known.stringClass, env.known.blockClass]).Err? ==>
      r.Err? && r.error == CheckArgs(env, w, args, [env.known.stringClass, env.known.blockClass]).error
    ensures CheckArgs(env, w, args, [env.known.stringClass, env.known.blockClass]).Ok? && opts != map[] ==>
      r == Err(Thrown(CheckOptions.UnexpectedOption))
    ensures CheckArgs(env, w, args, [env.known.stringClass, env.known.blockClass]).Ok? && opts == map[] &&
            ParseNames(env.chars(w, args[0])).Err? ==>
      r == Err(ParseNames(env.chars(w, args[0])).error)
  {
    var _ :- CheckArgs(env, w, args, [env.known.stringClass, env.known.blockClass]);
    var _ :- CheckNoOpts(opts);
    var names :- ParseNames(env.chars(w, args[0]));
    Ok(Lambda(names.args, names.opts, args[1]))
  }

  /** The three partials leave the runner's name and put the argument
      names, the option names and the block before a call's arguments. */
  lemma LambdaPartials(runner: FunctionObject.FunctionData, argnames: Ref, optnames: Ref, block: Ref)
    requires runner.partials == []
    ensures var f := FunctionObject.NewPartial(FunctionObject.NewPartial(FunctionObject.NewPartial(runner, argnames), optnames), block);
      f.name == runner.name && f.cfunc == runner.cfunc && f.partials == [argnames, optnames, block]
  {
  }

  /** check_options: every passed option must be one of the names. */
  function CheckOptionNames(optnames: seq<Name>, opts: map<Name, Ref>): (r: Result<(), Failure>)
    ensures r.Ok? <==> forall k :: k in opts ==> k in optnames
    ensures r.Err? ==> r.error == Thrown(UnknownOption)
  {
    if exists k :: k in opts && k !in optnames then Err(Thrown(UnknownOption)) else Ok(())
  }

  /** mappingobject_set for each name in turn: a later name wins. */
  function BindAll(m: map<Name, Ref>, names: seq<Name>, vals: seq<Ref>): (r: map<Name, Ref>)
    requires |names| == |vals|
    ensures r.Keys == m.Keys + set i | 0 <= i < |names| :: names[i]
    ensures forall k :: k in m && k !in names ==> r[k] == m[k]
    decreases |names|
  {
    if |names| == 0 then m else BindAll(m[names[0] := vals[0]], names[1..], vals[1..])
  }

  /** The last binding of a name is the one that stays. */
  lemma {:induction false} BindAllLast(m: map<Name, Ref>, names: seq<Name>, vals: seq<Ref>, i: nat)
    requires |names| == |vals| && i < |names|
    requires names[i] !in names[i + 1..]
    ensures BindAll(m, names, vals)[names[i]] == vals[i]
    decreases |names|
  {
    var m1 := m[names[0] := vals[0]];
    if i == 0 {
      assert names[1..] == names[i + 1..];
    } else {
      assert names[1..][i - 1] == names[i];
      assert names[1..][i..] == names[i + 1..];
      BindAllLast(m1, names[1..], vals[1..], i - 1);
    }
  }

  /** The local variables of the new scope before the block runs: `return`
      is null, then each argument name gets its argument, then each option
      name gets the value chosen for it. */
  function Locals(nullObject: Ref, argnames: seq<Name>, args: seq<Ref>, optnames: seq<Name>, optvals: seq<Ref>): (r: map<Name, Ref>)
    requires |args| == |argnames| && |optvals| == |optnames|
    ensures r.Keys == {Return} + (set i | 0 <= i < |argnames| :: argnames[i]) + (set i | 0 <= i < |optnames| :: optnames[i])
  {
    BindAll(BindAll(map[Return := nullObject], argnames, args), optnames, optvals)
  }

  /** The value each option name gets from the code as written: null. */
  function OptValuesAsWritten(nullObject: Ref, optnames: seq<Name>, opts: map<Name, Ref>): (r: seq<Ref>)
    ensures |r| == |optnames| && forall i :: 0 <= i < |r| ==> r[i] == nullObject
  {
    seq(|optnames|, i requires 0 <= i < |optnames| => nullObject)
  }

  /** The value each option name evidently should get: the passed value,
      or null when the option is not passed. */
  function OptValues(nullObject: Ref, optnames: seq<Name>, opts: map<Name, Ref>): (r: seq<Ref>)
    ensures |r| == |optnames|
    ensures forall i :: 0 <= i < |r| ==> r[i] == (if optnames[i] in opts then opts[optnames[i]] else nullObject)
  {
    seq(|optnames|, i requires 0 <= i < |optnames| => if optnames[i] in opts then opts[optnames[i]] else nullObject)
  }

  /** Everything the runner does before running the block: the argument
      count, the option names, a new subscope of the definition scope and
      its local variables.  Gives the world and the scope the block runs in. */
  function Prepare<A>(env: Env<A>, w: World<A>, lam: Lambda, args: seq<Ref>, opts: map<Name, Ref>, optvals: seq<Ref>): (r: Result<(World<A>, Ref), Failure>)
    requires |optvals| == |lam.optnames|
    ensures |args| < |lam.argnames| ==> r == Err(Thrown(NotEnoughArguments))
    ensures |args| > |lam.argnames| ==> r == Err(Thrown(TooManyArguments))
    ensures r.Ok? <==>
      (|args| == |lam.argnames| && (forall k :: k in opts ==> k in lam.optnames) &&
       env.attr(w, lam.block, DefinitionScope).Ok?)
    ensures r.Ok? ==>
      var (w1, scope) := r.value;
      scope == w.next && w1.next == w.next + 1 &&
      w1.scopes == w.scopes[scope := ScopeData(env.attr(w, lam.block, DefinitionScope).value,
                                               Locals(env.known.nullObject, lam.argnames, args, lam.optnames, optvals))] &&
      w1.arrays == w.arrays && w1.attrdata == w.attrdata && w1.rest == w.rest
  {
    if |args| < |lam.argnames| then Err(Thrown(NotEnoughArguments))
    else if |args| > |lam.argnames| then Err(Thrown(TooManyArguments))
    else
      var _ :- CheckOptionNames(lam.optnames, opts);
      var parent :- env.attr(w, lam.block, DefinitionScope);
      var (w1, scope) := NewSub(w, parent);
      var locals := Locals(env.known.nullObject, lam.argnames, args, lam.optnames, optvals);
      Ok((w1.(scopes := w1.scopes[scope := ScopeData(parent, locals)]), scope))
  }

  /** Runs the block in the prepared scope and answers its `return`. */
  function RunPrepared<A>(env: Env<A>, prepared: Result<(World<A>, Ref), Failure>, block: Ref): (r: (World<A>, Result<Ref, Failure>))
    requires prepared.Ok?
    ensures var (w1, scope) := prepared.value;
      var (w2, ran) := env.runBlock(w1, block, scope);
      r.0 == w2 &&
      (ran.Err? ==> r.1 == Err(Raised(ran.error))) &&
      (ran.Ok? && scope in w2.scopes && Return in w2.scopes[scope].localVars ==> r.1 == Ok(w2.scopes[scope].localVars[Return])) &&
      (ran.Ok? && !(scope in w2.scopes && Return in w2.scopes[scope].localVars) ==> r.1 == Err(Thrown(ReturnDeleted)))
  {
    var (w1, scope) := prepared.value;
    var (w2, ran) := env.runBlock(w1, block, scope);
    if ran.Err? then (w2, Err(Raised(ran.error)))
    else if scope in w2.scopes && Return in w2.scopes[scope].localVars then (w2, Ok(w2.scopes[scope].localVars[Return]))
    else (w2, Err(Thrown(ReturnDeleted)))
  }

  /** The runner as written: every option name is bound to null, whatever
      was passed.  A failed preparation changes nothing; otherwise the
      block runs in the prepared scope. */
  function RunnerAsWritten<A>(env: Env<A>, w: World<A>, lam: Lambda, args: seq<Ref>, opts: map<Name, Ref>): (r: (World<A>, Result<Ref, Failure>))
    ensures Prepare(env, w, lam, args, opts, OptValuesAsWritten(env.known.nullObject, lam.optnames, opts)).Err? ==>
      r == (w, Err(Prepare(env, w, lam, args, opts, OptValuesAsWritten(env.known.nullObject, lam.optnames, opts)).error))
    ensures Prepare(env, w, lam, args, opts, OptValuesAsWritten(env.known.nullObject, lam.optnames, opts)).Ok? ==>
      r == RunPrepared(env, Prepare(env, w, lam, args, opts, OptValuesAsWritten(env.known.nullObject, lam.optnames, opts)), lam.block)
  {
    var p := Prepare(env, w, lam, args, opts, OptValuesAsWritten(env.known.nullObject, lam.optnames, opts));
    if p.Err? then (w, Err(p.error)) else RunPrepared(env, p, lam.block)
  }

  /** The runner with each option name bound to the value passed for it.
      A failed preparation changes nothing; otherwise the block runs in the
      prepared scope. */
  function Runner<A>(env: Env<A>, w: World<A>, lam: Lambda, args: seq<Ref>, opts: map<Name, Ref>): (r: (World<A>, Result<Ref, Failure>))
    ensures Prepare(env, w, lam, args, opts, OptValues(env.known.nullObject, lam.optnames, opts)).Err? ==>
      r == (w, Err(Prepare(env, w, lam, args, opts, OptValues(env.known.nullObject, lam.optnames, opts)).error))
    ensures Prepare(env, w, lam, args, opts, OptValues(env.known.nullObject, lam.optnames, opts)).Ok? ==>
      r == RunPrepared(env, Prepare(env, w, lam, args, opts, OptValues(env.known.nullObject, lam.optnames, opts)), lam.block)
  {
    var p := Prepare(env, w, lam, args, opts, OptValues(env.known.nullObject, lam.optnames, opts));
    if p.Err? then (w, Err(p.error)) else RunPrepared(env, p, lam.block)
  }

  /** The last binding wins: an option name holds its value, an argument
      name not redeclared later holds its argument, and `return` holds null
      unless it is one of the names. */
  lemma LocalsBind(nullObject: Ref, argnames: seq<Name>, args: seq<Ref>, optnames: seq<Name>, optvals: seq<Ref>)
    requires |args| == |argnames| && |optvals| == |optnames|
    ensures forall i :: 0 <= i < |optnames| && optnames[i] !in optnames[i + 1..] ==>
      Locals(nullObject, argnames, args, optnames, optvals)[optnames[i]] == optvals[i]
    ensures forall i :: 0 <= i < |argnames| && argnames[i] !in argnames[i + 1..] && argnames[i] !in optnames ==>
      Locals(nullObject, argnames, args, optnames, optvals)[argnames[i]] == args[i]
    ensures Return !in argnames && Return !in optnames ==>
      Locals(nullObject, argnames, args, optnames, optvals)[Return] == nullObject
  {
    var m := BindAll(map[Return := nullObject], argnames, args);
    forall i | 0 <= i < |optnames| && optnames[i] !in optnames[i + 1..]
      ensures BindAll(m, optnames, optvals)[optnames[i]] == optvals[i]
    {
      BindAllLast(m, optnames, optvals, i);
    }
    forall i | 0 <= i < |argnames| && argnames[i] !in argnames[i + 1..] && argnames[i] !in optnames
      ensures BindAll(m, optnames, optvals)[argnames[i]] == args[i]
    {
      BindAllLast(map[Return := nullObject], argnames, args, i);
    }
  }

  /** In the scope Runner prepares, each option name holds its passed value
      or null, each argument name not redeclared later holds its argument,
      and `return` holds null unless it is one of the names. */
  lemma RunnerBindings<A>(env: Env<A>, w: World<A>, lam: Lambda, args: seq<Ref>, opts: map<Name, Ref>)
    requires |args| == |lam.argnames| && (forall k :: k in opts ==> k in lam.optnames)
    requires env.attr(w, lam.block, DefinitionScope).Ok?
    ensures var p := Prepare(env, w, lam, args, opts, OptValues(env.known.nullObject, lam.optnames, opts));
      p.Ok? &&
      var locals := p.value.0.scopes[p.value.1].localVars;
      (forall i :: 0 <= i < |lam.optnames| && lam.optnames[i] !in lam.optnames[i + 1..] ==>
         locals[lam.optnames[i]] == if lam.optnames[i] in opts then opts[lam.optnames[i]] else env.known.nullObject) &&
      (forall i :: 0 <= i < |lam.argnames| && lam.argnames[i] !in lam.argnames[i + 1..] && lam.argnames[i] !in lam.optnames ==>
         locals[lam.argnames[i]] == args[i]) &&
      (Return !in lam.argnames && Return !in lam.optnames ==> locals[Return] == env.known.nullObject)
  {
    var nullObject := env.known.nullObject;
    var optvals := OptValues(nullObject, lam.optnames, opts);
    var p := Prepare(env, w, lam, args, opts, optvals);
    var locals := Locals(nullObject, lam.argnames, args, lam.optnames, optvals);
    assert p.Ok? && p.value.0.scopes[p.value.1].localVars == locals;
    LocalsBind(nullObject, lam.argnames, args, lam.optnames, optvals);
    hide Prepare, Locals;
  }

  /** The source's runner loses a passed option: with one option name `x`
      and `x` passed a non-null value v, the block sees `x` as null, where
      Runner gives it v. */
  lemma OptionValueLost<A>(env: Env<A>, w: World<A>, block: Ref, x: Name, v: Ref)
    requires env.attr(w, block, DefinitionScope).Ok?
    requires v != env.known.nullObject
    ensures var lam := Lambda([], [x], block);
      var opts := map[x := v];
      var asWritten := Prepare(env, w, lam, [], opts, OptValuesAsWritten(env.known.nullObject, lam.optnames, opts));
      var corrected := Prepare(env, w, lam, [], opts, OptValues(env.known.nullObject, lam.optnames, opts));
      asWritten.Ok? && corrected.Ok? &&
      asWritten.value.0.scopes[asWritten.value.1].localVars[x] == env.known.nullObject &&
      corrected.value.0.scopes[corrected.value.1].localVars[x] == v
  {
    var nullObject := env.known.nullObject;
    var lam := Lambda([], [x], block);
    var opts := map[x := v];
    assert lam.optnames[1..] == [];
    BindAllLast(BindAll(map[Return := nullObject], [], []), [x], OptValuesAsWritten(nullObject, lam.optnames, opts), 0);
    BindAllLast(BindAll(map[Return := nullObject], [], []), [x], OptValues(nullObject, lam.optnames, opts), 0);
  }
}
