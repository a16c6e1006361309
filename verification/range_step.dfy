/**
 * The integer stepper `rep(start, end, step)`: it refuses a zero step and
 * otherwise produces the values of Python's `range(start, end + 1, step)`.
 * Adding 1 to `end` makes the range inclusive for a positive step only; with
 * a negative step the values stop above `end + 1`, so `end` is never reached.
 */
module RangeStep {
  import opened Wrappers

  /** The zero-step case, which the program reports instead of ranging. */
  datatype RangeError = ZeroStep

  /** The distance still to cover before `start` reaches `stop`. */
  function Gap(start: int, stop: int, step: int): nat {
    if step > 0 then (if start < stop then stop - start else 0)
    else (if start > stop then start - stop else 0)
  }

  /** Python's `range(start, stop, step)` for a non-zero step. */
  function PyRange(start: int, stop: int, step: int): (r: seq<int>)
    requires step != 0
    ensures forall k :: 0 <= k < |r| ==> r[k] == start + k * step
    ensures step > 0 ==> (forall k :: 0 <= k < |r| ==> r[k] < stop) && start + |r| * step >= stop
    ensures step < 0 ==> (forall k :: 0 <= k < |r| ==> r[k] > stop) && start + |r| * step <= stop
    decreases Gap(start, stop, step)
  {
    if (step > 0 && start < stop) || (step < 0 && start > stop) then
      var rest := PyRange(start + step, stop, step);
      assert forall k :: 1 <= k <= |rest| ==> ([start] + rest)[k] == rest[k - 1];
      assert start + |rest| * step + step == start + (|rest| + 1) * step;
      [start] + rest
    else []
  }

  /** The length Python computes for `range(start, stop, step)`. */
  function RangeLength(start: int, stop: int, step: int): nat
    requires step != 0
  {
    if step > 0 then (if start < stop then (stop - start - 1) / step + 1 else 0)
    else (if start > stop then (start - stop - 1) / (-step) + 1 else 0)
  }

  /** Euclidean division has one quotient: `y == q * s + m` with
      `0 <= m < s` fixes `y / s == q`. */
  lemma DivUnique(y: int, s: int, q: int, m: int)
    requires s > 0 && 0 <= m < s && y == q * s + m
    ensures y / s == q
  {
    var q', m' := y / s, y % s;
    assert y == q' * s + m';
    var d := q - q';
    assert d * s == m' - m by {
      assert q * s - q' * s == (q - q') * s;
    }
  }

  lemma DivShift(x: int, s: int)
    requires s > 0
    ensures (x - s) / s == x / s - 1
  {
    DivUnique(x - s, s, x / s - 1, x % s);
  }

  /** The values produced are exactly as many as Python's range length. */
  lemma {:induction false} PyRangeLength(start: int, stop: int, step: int)
    requires step != 0
    ensures |PyRange(start, stop, step)| == RangeLength(start, stop, step)
    decreases Gap(start, stop, step)
  {
    if (step > 0 && start < stop) || (step < 0 && start > stop) {
      PyRangeLength(start + step, stop, step);
      var d, s := if step > 0 then stop - start - 1 else start - stop - 1, if step > 0 then step else -step;
      if d < s {
        DivUnique(d, s, 0, d);
      } else {
        DivShift(d, s);
      }
    }
  }

  /** `rep`: a zero step yields the error and no values; otherwise the
      values of `range(start, end + 1, step)`. */
  function Rep(start: int, end: int, step: int): (r: Result<seq<int>, RangeError>)
    ensures r.Err? <==> step == 0
    ensures r.Ok? ==> |r.value| == RangeLength(start, end + 1, step)
    ensures r.Ok? ==> forall k :: 0 <= k < |r.value| ==> r.value[k] == start + k * step
    ensures r.Ok? && step > 0 ==>
      (forall k :: 0 <= k < |r.value| ==> r.value[k] <= end) && start + |r.value| * step > end
    ensures r.Ok? && step < 0 ==>
      (forall k :: 0 <= k < |r.value| ==> r.value[k] > end + 1) && start + |r.value| * step <= end + 1
  {
    if step == 0 then Err(ZeroStep)
    else
      PyRangeLength(start, end + 1, step);
      Ok(PyRange(start, end + 1, step))
  }

  /** With a positive step the output is empty exactly when `start > end`;
      with a negative step `end` itself never appears. */
  lemma RepEdges(start: int, end: int, step: int)
    ensures step > 0 ==> (Rep(start, end, step).value == [] <==> start > end)
    ensures step < 0 ==> end !in Rep(start, end, step).value
  {
  }

  lemma ExampleRanges()
    ensures Rep(1, 10, 3) == Ok([1, 4, 7, 10])
    ensures Rep(10, 1, -3) == Ok([10, 7, 4])
    ensures Rep(1, 10, 0) == Err(ZeroStep)
  {
    assert PyRange(13, 11, 3) == [];
    assert PyRange(10, 11, 3) == [10];
    assert PyRange(7, 11, 3) == [7, 10];
    assert PyRange(4, 11, 3) == [4, 7, 10];
    assert PyRange(1, 11, 3) == [1, 4, 7, 10];
    assert PyRange(1, 2, -3) == [];
    assert PyRange(4, 2, -3) == [4];
    assert PyRange(7, 2, -3) == [7, 4];
    assert PyRange(10, 2, -3) == [10, 7, 4];
  }
}
