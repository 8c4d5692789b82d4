/**
 * The delegated recursion of test_client/subtasking.py. A run of the `add`
 * task either completes with a value or hands its completion to a child
 * invocation of itself; reading the parent's result means following that
 * chain of delegations to the task that completes.
 */
module Subtasking {

  /** The `add_one` task. */
  function AddOne(a: int): (r: int)
    ensures r == a + 1
  {
    a + 1
  }

  /** What one run of a task leaves behind: a value, or the child `add` invocation it delegates to. */
  datatype Completion = Value(v: int) | Delegate(a: int, b: int)

  /** One run of the `add` task: no child when `a <= 0`, otherwise delegation to `add(a - 1, add_one(b))`. */
  function AddTask(a: int, b: int): (c: Completion)
    ensures c.Value? <==> a <= 0
    ensures c.Value? ==> c.v == b
    ensures c.Delegate? ==> c.a == a - 1 && c.b == b + 1
  {
    if a <= 0 then Value(b) else Delegate(a - 1, AddOne(b))
  }

  /** The number of delegations still ahead of `add(a, b)`; it shrinks on every hop. */
  function Depth(a: int): nat {
    if a > 0 then a else 0
  }

  /** The value a resolver reads from the handle of `add(a, b)`, following delegations. */
  function Resolve(a: int, b: int): int
    decreases Depth(a)
  {
    match AddTask(a, b)
    case Value(v) => v
    case Delegate(a', b') => Resolve(a', b')
  }

  /** The invocations the chain passes through, from `add(a, b)` to the one that completes. */
  function Chain(a: int, b: int): seq<(int, int)>
    decreases Depth(a)
  {
    match AddTask(a, b)
    case Value(_) => [(a, b)]
    case Delegate(a', b') => [(a, b)] + Chain(a', b')
  }

  /** Resolving the chain gives the direct sum when `a > 0`, and `b` otherwise. */
  lemma {:induction false} ResolveAdd(a: int, b: int)
    ensures Resolve(a, b) == if a > 0 then a + b else b
    decreases Depth(a)
  {
    if a > 0 {
      ResolveAdd(a - 1, b + 1);
    }
  }

  /**
   * The chain of `add(a, b)` has exactly Depth(a) delegated hops: its k-th
   * invocation is `add(a - k, b + k)`, each but the last delegates to the
   * next, the last completes, and the handle resolves to the last one's value.
   */
  lemma {:induction false} ChainShape(a: int, b: int)
    ensures |Chain(a, b)| == Depth(a) + 1
    ensures forall k :: 0 <= k < |Chain(a, b)| ==> Chain(a, b)[k] == (a - k, b + k)
    ensures forall k :: 0 <= k < |Chain(a, b)| - 1 ==>
              AddTask(Chain(a, b)[k].0, Chain(a, b)[k].1) == Delegate(Chain(a, b)[k + 1].0, Chain(a, b)[k + 1].1)
    ensures var last := Chain(a, b)[|Chain(a, b)| - 1];
            AddTask(last.0, last.1) == Value(Resolve(a, b))
    decreases Depth(a)
  {
    if a > 0 {
      ChainShape(a - 1, b + 1);
      var tail := Chain(a - 1, b + 1);
      assert Chain(a, b) == [(a, b)] + tail;
      forall k | 1 <= k < |Chain(a, b)|
        ensures Chain(a, b)[k] == (a - k, b + k)
      {
        assert Chain(a, b)[k] == tail[k - 1];
      }
    }
  }

  /** The scenario run by the script: `add(8, 2)` resolves to 10 after 8 delegations. */
  lemma AddEightTwo()
    ensures Resolve(8, 2) == 10
    ensures |Chain(8, 2)| == 9
  {
    ResolveAdd(8, 2);
    ChainShape(8, 2);
  }
}
