/**
 * The interpreter's stack of frames, src/stack.c: at most StackMax frames,
 * each holding its own copy of the file name, the line number (never 0)
 * and the scope object the code runs in, if any (an object id here).  The
 * copy of the name is the name itself in a model without aliasing; the
 * allocation of that copy is treated as total and reference counting is
 * left out.
 */
module Stack {
  import opened Wrappers
  import Objects

  /** STACK_MAX's default. */
  const StackMax: nat := 1000

  datatype Frame = Frame(filename: string, lineno: nat, scope: Option<nat>)

  /** The frames, bottom first. */
  type Frames = seq<Frame>

  /** What a well-used stack satisfies: bounded depth and no line 0. */
  predicate Valid(st: Frames)
  {
    |st| <= StackMax && forall i :: 0 <= i < |st| ==> st[i].lineno != 0
  }

  const TooMuchRecursion := Objects.Exception("ValueError", "too much recursion")

  /** stack_push: fails with the recursion error and leaves the stack as it
      was when StackMax frames are present; otherwise adds one frame on top. */
  function Push(st: Frames, filename: string, lineno: nat, scope: Option<nat>): (r: Result<Frames, Objects.Exception>)
    requires lineno != 0
    ensures r.Err? <==> |st| == StackMax
    ensures r.Err? ==> r.error == TooMuchRecursion
    ensures r.Ok? ==> |r.value| == |st| + 1 && r.value[..|st|] == st &&
                      r.value[|st|] == Frame(filename, lineno, scope)
    ensures Valid(st) && r.Ok? ==> Valid(r.value)
  {
    if |st| == StackMax then Err(TooMuchRecursion)
    else Ok(st + [Frame(filename, lineno, scope)])
  }

  /** stack_pop on a non-empty stack: the top frame goes. */
  function Pop(st: Frames): (r: Frames)
    requires |st| > 0
    ensures |r| == |st| - 1 && r + [st[|st| - 1]] == st
    ensures Valid(st) ==> Valid(r)
  {
    st[..|st| - 1]
  }

  /** A push that succeeds is undone by a pop: the depth and every frame
      are as before. */
  lemma PushThenPop(st: Frames, filename: string, lineno: nat, scope: Option<nat>)
    requires lineno != 0 && Push(st, filename, lineno, scope).Ok?
    ensures Pop(Push(st, filename, lineno, scope).value) == st
  {
    var s := Push(st, filename, lineno, scope).value;
    assert Pop(s) == s[..|st|];
  }

  /** n nested pushes onto a stack with room for all of them succeed. */
  lemma {:induction false} NestedPushes(st: Frames, n: nat, filename: string, lineno: nat)
    requires lineno != 0 && |st| + n <= StackMax
    ensures PushN(st, n, filename, lineno).Ok?
    ensures |PushN(st, n, filename, lineno).value| == |st| + n
    decreases n
  {
    if n > 0 {
      NestedPushes(st + [Frame(filename, lineno, None)], n - 1, filename, lineno);
    }
  }

  /** n nested calls from the same line, with no scope. */
  function PushN(st: Frames, n: nat, filename: string, lineno: nat): Result<Frames, Objects.Exception>
    requires lineno != 0
    decreases n
  {
    if n == 0 then Ok(st)
    else
      var s :- Push(st, filename, lineno, None);
      PushN(s, n - 1, filename, lineno)
  }

  /** The frame after StackMax nested ones is refused. */
  lemma RecursionLimit(filename: string, lineno: nat)
    requires lineno != 0
    ensures PushN([], StackMax + 1, filename, lineno) == Err(TooMuchRecursion)
  {
    NestedPushes([], StackMax, filename, lineno);
    LastPush([], StackMax, filename, lineno);
  }

  lemma {:induction false} LastPush(st: Frames, n: nat, filename: string, lineno: nat)
    requires lineno != 0 && |st| + n == StackMax
    ensures PushN(st, n + 1, filename, lineno) == Err(TooMuchRecursion)
    decreases n
  {
    if n > 0 {
      LastPush(st + [Frame(filename, lineno, None)], n - 1, filename, lineno);
    }
  }
}
