/**
 * The split-and-aggregate recursion of test_client/adaptive_vector_addition.py,
 * over one-dimensional integer vectors. A vector longer than the threshold
 * is split at its midpoint, each half is added by a subtask, and the two
 * partial results are concatenated by the aggregation task.
 */
module VectorAddition {
  import opened Wrappers

  const VectorSizeThreshold: nat := 512

  /** The ValueError raised for vectors of different shapes. */
  datatype Error = ShapeMismatch

  /** numpy's `a + b` on two vectors of one shape. */
  function Pointwise(a: seq<int>, b: seq<int>): seq<int>
    requires |a| == |b|
  {
    seq(|a|, i requires 0 <= i < |a| => a[i] + b[i])
  }

  /** The `aggregate_results` task: the first partial result, then the second. */
  function AggregateResults(result1: seq<int>, result2: seq<int>): (r: seq<int>)
    ensures |r| == |result1| + |result2|
    ensures r[..|result1|] == result1 && r[|result1|..] == result2
  {
    result1 + result2
  }

  /** Splitting at the midpoint loses nothing and gives two strictly shorter pieces. */
  lemma SplitHalves(a: seq<int>)
    requires |a| > VectorSizeThreshold
    ensures a[..|a| / 2] + a[|a| / 2..] == a
    ensures |a[..|a| / 2]| < |a| && |a[|a| / 2..]| < |a|
  {
  }

  /**
   * The `vec_add` task: reject vectors of different shapes, add short ones
   * directly, and split long ones into two subtasks whose results are
   * aggregated.
   */
  function VecAdd(a: seq<int>, b: seq<int>): (r: Result<seq<int>, Error>)
    ensures r.Err? <==> |a| != |b|
    ensures r.Ok? ==> |r.value| == |a|
    ensures r.Ok? ==> forall i :: 0 <= i < |a| ==> r.value[i] == a[i] + b[i]
    decreases |a|
  {
    if |a| != |b| then Err(ShapeMismatch)
    else if |a| > VectorSizeThreshold then
      var midPoint := |a| / 2;
      var handle1 := VecAdd(a[..midPoint], b[..midPoint]);
      var handle2 := VecAdd(a[midPoint..], b[midPoint..]);
      if handle1.Err? then handle1
      else if handle2.Err? then handle2
      else Ok(AggregateResults(handle1.value, handle2.value))
    else Ok(Pointwise(a, b))
  }

  /** For vectors of one shape, the recursion computes exactly numpy's `a + b`. */
  lemma VecAddIsPointwise(a: seq<int>, b: seq<int>)
    requires |a| == |b|
    ensures VecAdd(a, b) == Ok(Pointwise(a, b))
  {
    var r := VecAdd(a, b).value;
    assert r == Pointwise(a, b);
  }

  /** The script's vectors of 4096 elements, `arange(n)` and `2 * arange(n)`, sum to `3 * arange(n)`. */
  lemma ScriptVectors()
    ensures var a := seq(4096, i => i);
            var b := seq(4096, i => 2 * i);
            VecAdd(a, b) == Ok(seq(4096, i => 3 * i))
  {
    var a := seq(4096, i => i);
    var b := seq(4096, i => 2 * i);
    VecAddIsPointwise(a, b);
    assert Pointwise(a, b) == seq(4096, i => 3 * i);
  }
}
