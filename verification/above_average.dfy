/**
 * The share of a sequence's integers that lie strictly above its mean,
 * reported as a percentage (before Python's rounding to two places).
 */
module AboveAverage {
  import opened Wrappers

  /** Python raises `ZeroDivisionError` for the percentage of an empty input. */
  datatype AverageError = ZeroDivision

  function Sum(s: seq<int>): int {
    if |s| == 0 then 0 else Sum(s[..|s| - 1]) + s[|s| - 1]
  }

  /** `averageN`: the exact mean, and 0 for the empty input the script guards. */
  function Average(s: seq<int>): (r: real)
    ensures |s| == 0 ==> r == 0.0
    ensures |s| > 0 ==> r * |s| as real == Sum(s) as real
  {
    if |s| == 0 then 0.0 else Sum(s) as real / |s| as real
  }

  /** How many elements of `s` exceed `avg`. */
  function CountAbove(s: seq<int>, avg: real): nat {
    if |s| == 0 then 0
    else CountAbove(s[..|s| - 1], avg) + (if s[|s| - 1] as real > avg then 1 else 0)
  }

  /** Being above the mean is an integer comparison: `x * len > sum`; in
      particular an element equal to the mean is not above it. */
  lemma AboveMeanIff(s: seq<int>, x: int)
    requires |s| > 0
    ensures x as real > Average(s) <==> x * |s| > Sum(s)
  {
    var n := |s| as real;
    assert Average(s) * n == Sum(s) as real;
    if x as real > Average(s) {
      assert x as real * n > Average(s) * n;
    } else {
      assert x as real * n <= Average(s) * n;
    }
  }

  lemma {:induction false} CountAboveBounded(s: seq<int>, avg: real)
    ensures CountAbove(s, avg) <= |s|
  {
    if |s| > 0 {
      CountAboveBounded(s[..|s| - 1], avg);
    }
  }

  /** If every element exceeds `avg`, the sum exceeds `len * avg`. */
  lemma {:induction false} AllAboveSum(s: seq<int>, avg: real)
    requires |s| > 0
    requires CountAbove(s, avg) == |s|
    ensures Sum(s) as real > |s| as real * avg
  {
    var p := s[..|s| - 1];
    CountAboveBounded(p, avg);
    if |p| > 0 {
      AllAboveSum(p, avg);
      assert |s| as real * avg == |p| as real * avg + avg;
    }
  }

  /** Not every element can lie above a value that times the length gives
      the sum. */
  lemma NotAllAboveMean(s: seq<int>, avg: real)
    requires |s| > 0 && |s| as real * avg == Sum(s) as real
    ensures CountAbove(s, avg) < |s|
  {
    CountAboveBounded(s, avg);
    if CountAbove(s, avg) == |s| {
      AllAboveSum(s, avg);
    }
  }

  /** Not every element can lie above the mean. */
  lemma NotAllAbove(s: seq<int>)
    requires |s| > 0
    ensures CountAbove(s, Average(s)) < |s|
  {
    NotAllAboveMean(s, Average(s));
  }

  /** The counting loop of the script. */
  method CountAboveAverage(s: seq<int>) returns (count: nat)
    ensures count == CountAbove(s, Average(s))
    ensures |s| > 0 ==> count < |s|
    ensures |s| == 0 ==> count == 0
  {
    var avg := if |s| > 0 then Sum(s) as real / |s| as real else 0.0;
    count := 0;
    var k := 0;
    while k < |s|
      invariant k <= |s|
      invariant count == CountAbove(s[..k], avg)
    {
      assert s[..k + 1][..k] == s[..k];
      if s[k] as real > avg {
        count := count + 1;
      }
      k := k + 1;
    }
    assert s[..k] == s;
    if |s| > 0 {
      NotAllAbove(s);
    }
  }

  /** `count_above_average / len(N) * 100`: the percentage of elements above
      the mean, which fails on empty input and is otherwise below 100. */
  function Percentage(s: seq<int>): (r: Result<real, AverageError>)
    ensures r.Err? <==> |s| == 0
    ensures r.Ok? ==> 0.0 <= r.value < 100.0
    ensures r.Ok? ==> r.value * |s| as real == CountAbove(s, Average(s)) as real * 100.0
  {
    if |s| == 0 then Err(ZeroDivision)
    else
      NotAllAbove(s);
      Ok(CountAbove(s, Average(s)) as real / |s| as real * 100.0)
  }

  /** Example: in [1, 2, 3, 10] the mean is 4 and only 10 lies above it. */
  lemma ExamplePercentage()
    ensures Percentage([1, 2, 3, 10]) == Ok(25.0)
  {
    var s := [1, 2, 3, 10];
    assert s[..3] == [1, 2, 3] && s[..3][..2] == [1, 2] && s[..3][..2][..1] == [1];
    assert Sum([1]) == 1 && Sum([1, 2]) == 3 && Sum([1, 2, 3]) == 6;
    assert Sum(s) == 16;
    assert CountAbove([1], 4.0) == 0 && CountAbove([1, 2], 4.0) == 0 && CountAbove([1, 2, 3], 4.0) == 0;
    assert Average(s) == 4.0;
    assert CountAbove(s, 4.0) == 1;
  }
}
