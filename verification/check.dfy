/**
 * Argument checking (src/check.c): check_type and check_args.  Classes are
 * named by their names and instance tests use `IsInstance`.  The option
 * checks build a Mapping and live in check_options.dfy.
 */
module Check {
  import opened Wrappers
  import opened Objects

  /** check_type's error. */
  const TypeMismatch := Exception("TypeError", "expected an instance of %U, got %D")

  /** check_type: fine exactly when the object is an instance of the class. */
  function CheckType(cls: string, o: Obj): (r: Result<(), Exception>)
    ensures r.Ok? <==> IsInstance(o, cls)
    ensures r.Err? ==> r.error == TypeMismatch
  {
    if IsInstance(o, cls) then Ok(()) else Err(TypeMismatch)
  }

  /** The ArgError of a wrong argument count; the message says which way
      the count is off. */
  function ArgCountError(got: nat, expected: nat): (r: Exception)
    requires got != expected
    ensures r.cls == "ArgError"
    ensures got > expected <==> r.msg == TooMany
    ensures got < expected <==> r.msg == NotEnough
  {
    assert TooMany[0] != NotEnough[0];
    Exception("ArgError", if got > expected then TooMany else NotEnough)
  }

  const TooMany: string := "too many arguments: expected %L, got %L"
  const NotEnough: string := "not enough arguments: expected %L, got %L"

  /** check_args_with_array: the count first, then each argument in order. */
  function CheckArgs(args: seq<Obj>, types: seq<string>): (r: Result<(), Exception>)
    ensures r.Ok? <==> |args| == |types| && forall i :: 0 <= i < |args| ==> IsInstance(args[i], types[i])
    ensures |args| != |types| ==> r == Err(ArgCountError(|args|, |types|))
    ensures |args| == |types| && r.Err? ==> r == Err(TypeMismatch)
  {
    if |args| != |types| then Err(ArgCountError(|args|, |types|))
    else CheckEach(args, types, 0)
  }

  function CheckEach(args: seq<Obj>, types: seq<string>, i: nat): (r: Result<(), Exception>)
    requires |args| == |types| && i <= |args|
    ensures r.Ok? <==> forall k :: i <= k < |args| ==> IsInstance(args[k], types[k])
    ensures r.Err? ==> r == Err(TypeMismatch)
    decreases |args| - i
  {
    if i == |args| then Ok(())
    else
      var _ :- CheckType(types[i], args[i]);
      CheckEach(args, types, i + 1)
  }

  /** Every object passes a check against Object, so a list of Object
      types only checks the count. */
  lemma ObjectAcceptsAll(args: seq<Obj>, n: nat)
    ensures CheckArgs(args, seq(n, _ => "Object")).Ok? <==> |args| == n
  {
  }
}
