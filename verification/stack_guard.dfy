/**
 * The scoped call-depth counter that guarded functions construct on entry.
 * The source has two copies with the same counter logic: the Emscripten one
 * throws a JavaScript `Error` through `EM_ASM`, the instrumentation one throws
 * `std::runtime_error`. Both increment before comparing, so a failing entry
 * leaves its increment behind (its destructor never runs).
 *
 * The counter is `int` in C++; the model's is unbounded (see README).
 */
module StackGuard {

  const MaxDepth: int := 1000
  const InitialDepth: int := 0
  const LimitMessage: string := "Stack depth limit exceeded"

  /** Which copy of the guard: `stack_guard.cpp` or the instrumentation in `wasmCompiler.js`. */
  datatype Flavor = Emscripten | Instrumented

  datatype Thrown = JsError(message: string) | RuntimeError(message: string)

  /** The guard's constructor either returns or throws; either way `depth` is the counter afterwards. */
  datatype Entry = Entered(depth: int) | Aborted(depth: int, thrown: Thrown)

  /** The constructor: `++depth > MAX` throws. */
  function Enter(flavor: Flavor, depth: int): (e: Entry)
    ensures e.depth == depth + 1
    ensures e.Aborted? <==> depth + 1 > MaxDepth
    ensures e.Aborted? ==> e.thrown.message == LimitMessage
    ensures e.Aborted? ==> (e.thrown.JsError? <==> flavor == Emscripten)
  {
    var d := depth + 1;
    if d > MaxDepth then
      Aborted(d, if flavor == Emscripten then JsError(LimitMessage) else RuntimeError(LimitMessage))
    else Entered(d)
  }

  /** The destructor. */
  function Exit(depth: int): (d: int)
    ensures d + 1 == depth
  {
    depth - 1
  }

  /**
   * `n` nested guarded calls from depth `depth`: each frame constructs its
   * guard, runs the next frame inside, and destroys the guard when the inner
   * frame returns or unwinds. A frame whose constructor throws has no guard to
   * destroy. Result: the final depth and whether the limit error escaped.
   */
  function Nested(flavor: Flavor, depth: int, n: nat): (int, bool)
    decreases n
  {
    if n == 0 then (depth, false)
    else match Enter(flavor, depth)
      case Aborted(d, _) => (d, true)
      case Entered(d) =>
        var (d', thrown) := Nested(flavor, d, n - 1);
        (Exit(d'), thrown)
  }

  /** Nested calls that stay within the limit succeed and leave the counter where it started. */
  lemma {:induction false} NestedWithinLimit(flavor: Flavor, depth: int, n: nat)
    requires depth + n <= MaxDepth
    ensures Nested(flavor, depth, n) == (depth, false)
    decreases n
  {
    if n > 0 {
      NestedWithinLimit(flavor, depth + 1, n - 1);
    }
  }

  /** Nested calls that pass the limit throw, and leave the counter one above where it started. */
  lemma {:induction false} NestedPastLimit(flavor: Flavor, depth: int, n: nat)
    requires depth <= MaxDepth < depth + n
    ensures Nested(flavor, depth, n) == (depth + 1, true)
    decreases n
  {
    if depth + 1 <= MaxDepth {
      NestedPastLimit(flavor, depth + 1, n - 1);
    }
  }

  /** From a fresh counter, 1000 nested guards succeed and leave it at 0; 1001 throw and leave it at 1. */
  lemma ThousandDeep(flavor: Flavor)
    ensures Nested(flavor, InitialDepth, 1000) == (InitialDepth, false)
    ensures Nested(flavor, InitialDepth, 1001) == (InitialDepth + 1, true)
  {
    NestedWithinLimit(flavor, InitialDepth, 1000);
    NestedPastLimit(flavor, InitialDepth, 1001);
  }

  /** Each overflowing run leaves one more on the counter: after `k` of them, 1000 - k nested calls are all that fit. */
  lemma {:induction false} LeakAccumulates(flavor: Flavor, k: nat)
    requires k <= MaxDepth
    ensures Nested(flavor, InitialDepth + k, MaxDepth - k) == (InitialDepth + k, false)
    ensures Nested(flavor, InitialDepth + k, MaxDepth - k + 1) == (InitialDepth + k + 1, true)
  {
    NestedWithinLimit(flavor, InitialDepth + k, MaxDepth - k);
    NestedPastLimit(flavor, InitialDepth + k, MaxDepth - k + 1);
  }

  // ---------------------------------------------------------------------------
  // Flat traces of constructor and destructor calls

  datatype Op = Construct | Destruct

  /** Replays constructor and destructor calls until a constructor throws; returns the depth and whether one threw. */
  function Replay(flavor: Flavor, depth: int, ops: seq<Op>): (int, bool)
    decreases |ops|
  {
    if |ops| == 0 then (depth, false)
    else if ops[0] == Destruct then Replay(flavor, Exit(depth), ops[1..])
    else match Enter(flavor, depth)
      case Aborted(d, _) => (d, true)
      case Entered(d) => Replay(flavor, d, ops[1..])
  }

  function Net(ops: seq<Op>): int {
    if |ops| == 0 then 0 else (if ops[0] == Construct then 1 else -1) + Net(ops[1..])
  }

  /** Without a throw, the counter moves by constructions minus destructions; a balanced trace restores it. */
  lemma {:induction false} ReplayNet(flavor: Flavor, depth: int, ops: seq<Op>)
    ensures !Replay(flavor, depth, ops).1 ==> Replay(flavor, depth, ops).0 == depth + Net(ops)
    ensures !Replay(flavor, depth, ops).1 && Net(ops) == 0 ==> Replay(flavor, depth, ops).0 == depth
    decreases |ops|
  {
    if |ops| > 0 {
      if ops[0] == Destruct {
        ReplayNet(flavor, depth - 1, ops[1..]);
      } else {
        ReplayNet(flavor, depth + 1, ops[1..]);
      }
    }
  }

  // ---------------------------------------------------------------------------
  // The guard as evidently intended: a refused entry does not count

  /** Undoes the increment before throwing, so a refused frame leaves the counter as it found it. */
  function EnterCorrected(flavor: Flavor, depth: int): (e: Entry)
    ensures e.Entered? <==> depth + 1 <= MaxDepth
    ensures e.Entered? ==> e.depth == depth + 1
    ensures e.Aborted? ==> e.depth == depth && e.thrown.message == LimitMessage
  {
    match Enter(flavor, depth)
    case Aborted(d, thrown) => Aborted(Exit(d), thrown)
    case Entered(d) => Entered(d)
  }

  function NestedCorrected(flavor: Flavor, depth: int, n: nat): (int, bool)
    decreases n
  {
    if n == 0 then (depth, false)
    else match EnterCorrected(flavor, depth)
      case Aborted(d, _) => (d, true)
      case Entered(d) =>
        var (d', thrown) := NestedCorrected(flavor, d, n - 1);
        (Exit(d'), thrown)
  }

  /** With the corrected guard, every run, overflowing or not, leaves the counter where it started. */
  lemma {:induction false} NestedCorrectedRestores(flavor: Flavor, depth: int, n: nat)
    requires depth <= MaxDepth
    ensures NestedCorrected(flavor, depth, n).0 == depth
    ensures NestedCorrected(flavor, depth, n).1 <==> depth + n > MaxDepth
    decreases n
  {
    if n > 0 && depth + 1 <= MaxDepth {
      NestedCorrectedRestores(flavor, depth + 1, n - 1);
    }
  }
}
