/**
 * The distribution of a list of integers by number of decimal digits: a map
 * from digit count to how many inputs have that many digits, reported in
 * ascending order of digit count. The sign is ignored, and 0 has one digit.
 */
module DigitDistribution {
  import opened Numbers

  function DigitChar(d: nat): char
    requires d < 10
  {
    ('0' as int + d) as char
  }

  /** `str(n)` for a non-negative `n`: its decimal digits, no leading zero.
      `d` digits hold exactly the numbers below `10^d`, and (beyond the single
      digit of 0..9) none below `10^(d-1)`. */
  function Str(n: nat): (r: string)
    ensures |r| >= 1
    ensures n < Pow10(|r|)
    ensures |r| == 1 || Pow10(|r| - 1) <= n
  {
    if n < 10 then [DigitChar(n)]
    else
      var q := n / 10;
      var t := Str(q);
      assert 10 * q <= n < 10 * q + 10;
      t + [DigitChar(n % 10)]
  }

  /** `len(str(abs(n)))`: the number of decimal digits of `|n|`. */
  function DigitCount(n: int): (r: nat)
    ensures r >= 1
    ensures Abs(n) < Pow10(r)
    ensures r == 1 || Pow10(r - 1) <= Abs(n)
  {
    |Str(Abs(n))|
  }

  function Pow10(k: nat): (r: nat)
    ensures r >= 1
  {
    if k == 0 then 1 else 10 * Pow10(k - 1)
  }

  /** The sign does not count as a digit, and 0 has one digit. */
  lemma SignIgnored(n: int)
    ensures DigitCount(-n) == DigitCount(n)
    ensures DigitCount(0) == 1
  {
  }

  /** How many of `nums` have `d` digits. */
  function Occurrences(nums: seq<int>, d: nat): nat {
    if |nums| == 0 then 0
    else Occurrences(nums[..|nums| - 1], d) + (if DigitCount(nums[|nums| - 1]) == d then 1 else 0)
  }

  /** `dist` holds a key exactly for the digit counts that occur in `nums`,
      and maps it to the number of inputs with that many digits. */
  ghost predicate IsDistributionOf(dist: map<nat, nat>, nums: seq<int>) {
    && (forall d :: d in dist <==> Occurrences(nums, d) > 0)
    && (forall d :: d in dist ==> dist[d] == Occurrences(nums, d))
  }

  /** The counting loop over the inputs. */
  method Distribution(nums: seq<int>) returns (dist: map<nat, nat>)
    ensures IsDistributionOf(dist, nums)
    ensures forall d :: d in dist ==> d >= 1 && dist[d] >= 1
    ensures |nums| == 0 ==> dist == map[]
  {
    dist := map[];
    var k := 0;
    while k < |nums|
      invariant k <= |nums|
      invariant IsDistributionOf(dist, nums[..k])
    {
      assert nums[..k + 1][..k] == nums[..k];
      var digits := |Str(Abs(nums[k]))|;
      if digits !in dist {
        dist := dist[digits := 0];
      }
      dist := dist[digits := dist[digits] + 1];
      k := k + 1;
    }
    assert nums[..k] == nums;
    forall d | d in dist
      ensures d >= 1
    {
      OccurringCountsPositive(nums, d);
    }
    if |nums| == 0 {
      assert forall d :: d !in dist;
    }
  }

  lemma {:induction false} OccurringCountsPositive(nums: seq<int>, d: nat)
    requires Occurrences(nums, d) > 0
    ensures d >= 1
  {
    if |nums| > 0 && DigitCount(nums[|nums| - 1]) != d {
      OccurringCountsPositive(nums[..|nums| - 1], d);
    }
  }

  ghost predicate StrictlyIncreasing(s: seq<nat>) {
    forall i, j :: 0 <= i < j < |s| ==> s[i] < s[j]
  }

  /** `m` is the least element of `s`. */
  predicate IsLeast(m: nat, s: set<nat>) {
    m in s && forall y :: y in s ==> m <= y
  }

  lemma {:induction false} LeastExists(s: set<nat>)
    requires s != {}
    ensures exists m :: IsLeast(m, s)
  {
    var x :| x in s;
    var rest := s - {x};
    if rest == {} {
      assert s == {x};
      assert IsLeast(x, s);
    } else {
      LeastExists(rest);
      var m :| IsLeast(m, rest);
      var least := if x < m then x else m;
      forall y | y in s
        ensures least <= y
      {
        if y != x {
          assert y in rest;
        }
      }
      assert IsLeast(least, s);
    }
  }

  /** The smallest element of a non-empty set. */
  function Least(s: set<nat>): (m: nat)
    requires s != {}
    ensures IsLeast(m, s)
  {
    LeastExists(s);
    var m :| IsLeast(m, s);
    m
  }

  /** `sorted(dist)`: the keys, each once, in strictly ascending order. */
  function SortedKeys(keys: set<nat>): (r: seq<nat>)
    ensures StrictlyIncreasing(r)
    ensures forall k :: k in r <==> k in keys
    ensures |r| == |keys|
    decreases |keys|
  {
    if keys == {} then []
    else
      var m := Least(keys);
      [m] + SortedKeys(keys - {m})
  }

  /** Sum of the counts of `nums` over the digit counts `keys`. */
  function SumOccurrences(keys: seq<nat>, nums: seq<int>): nat {
    if |keys| == 0 then 0 else Occurrences(nums, keys[0]) + SumOccurrences(keys[1..], nums)
  }

  /** Sum of the values `dist` reports for `keys`. */
  function SumCounts(keys: seq<nat>, dist: map<nat, nat>): nat
    requires forall k :: k in keys ==> k in dist
  {
    if |keys| == 0 then 0 else dist[keys[0]] + SumCounts(keys[1..], dist)
  }

  function CountEqual(keys: seq<nat>, v: nat): nat {
    if |keys| == 0 then 0 else (if keys[0] == v then 1 else 0) + CountEqual(keys[1..], v)
  }

  lemma {:induction false} CountEqualDistinct(keys: seq<nat>, v: nat)
    requires StrictlyIncreasing(keys)
    ensures CountEqual(keys, v) == if v in keys then 1 else 0
  {
    if |keys| > 0 {
      CountEqualDistinct(keys[1..], v);
      if keys[0] == v {
        assert v !in keys[1..];
      }
    }
  }

  lemma {:induction false} SumOccurrencesSnoc(keys: seq<nat>, nums: seq<int>, x: int)
    ensures SumOccurrences(keys, nums + [x]) == SumOccurrences(keys, nums) + CountEqual(keys, DigitCount(x))
  {
    assert (nums + [x])[..|nums|] == nums;
    if |keys| > 0 {
      SumOccurrencesSnoc(keys[1..], nums, x);
    }
  }

  /** Over distinct digit counts that cover every input, the counts add up
      to the number of inputs. */
  lemma {:induction false} SumOccurrencesTotal(keys: seq<nat>, nums: seq<int>)
    requires StrictlyIncreasing(keys)
    requires forall i :: 0 <= i < |nums| ==> DigitCount(nums[i]) in keys
    ensures SumOccurrences(keys, nums) == |nums|
  {
    if |nums| == 0 {
      ZeroOccurrences(keys, nums);
    } else {
      var p, x := nums[..|nums| - 1], nums[|nums| - 1];
      assert nums == p + [x];
      SumOccurrencesTotal(keys, p);
      SumOccurrencesSnoc(keys, p, x);
      CountEqualDistinct(keys, DigitCount(x));
    }
  }

  lemma {:induction false} ZeroOccurrences(keys: seq<nat>, nums: seq<int>)
    requires |nums| == 0
    ensures SumOccurrences(keys, nums) == 0
  {
    if |keys| > 0 {
      ZeroOccurrences(keys[1..], nums);
    }
  }

  lemma {:induction false} SumCountsIsSumOccurrences(keys: seq<nat>, dist: map<nat, nat>, nums: seq<int>)
    requires IsDistributionOf(dist, nums)
    requires forall k :: k in keys ==> k in dist
    ensures SumCounts(keys, dist) == SumOccurrences(keys, nums)
  {
    if |keys| > 0 {
      SumCountsIsSumOccurrences(keys[1..], dist, nums);
    }
  }

  lemma {:induction false} OccurrenceOfMember(nums: seq<int>, i: nat)
    requires i < |nums|
    ensures Occurrences(nums, DigitCount(nums[i])) > 0
  {
    if i < |nums| - 1 {
      OccurrenceOfMember(nums[..|nums| - 1], i);
    }
  }

  /** The counts printed, one per digit count in ascending order, add up to
      the number of inputs. */
  lemma ReportedCountsSumToLength(dist: map<nat, nat>, nums: seq<int>)
    requires IsDistributionOf(dist, nums)
    ensures SumCounts(SortedKeys(dist.Keys), dist) == |nums|
  {
    var keys := SortedKeys(dist.Keys);
    SumCountsIsSumOccurrences(keys, dist, nums);
    forall i | 0 <= i < |nums|
      ensures DigitCount(nums[i]) in keys
    {
      OccurrenceOfMember(nums, i);
    }
    SumOccurrencesTotal(keys, nums);
  }

  lemma Example()
    ensures DigitCount(-305) == 3 && DigitCount(7) == 1 && DigitCount(0) == 1
    ensures SortedKeys({3, 1}) == [1, 3]
  {
    assert Str(305) == Str(30) + ['5'];
    assert Str(30) == Str(3) + ['0'];
    var r := SortedKeys({3, 1});
    assert 1 in r && 3 in r && |r| == 2;
  }
}
