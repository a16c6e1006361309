/**
 * The median outlier of a sequence of integers: take the element at index
 * `len / 2` of a sorted copy (the upper median for even lengths), then return
 * the first element of the ORIGINAL sequence whose distance from that median
 * is largest.
 */
module OutlierMedian {
  import opened Wrappers
  import opened Numbers

  /** Raised by Python for an empty sequence (index 0 of an empty sorted list). */
  datatype MedianError = EmptySequence

  ghost predicate Sorted(t: seq<int>) {
    forall i, j :: 0 <= i < j < |t| ==> t[i] <= t[j]
  }

  /** Number of elements of `s` strictly below `m`. */
  function CountBelow(s: seq<int>, m: int): nat {
    if |s| == 0 then 0 else (if s[0] < m then 1 else 0) + CountBelow(s[1..], m)
  }

  /** Number of elements of `s` at most `m`. */
  function CountAtMost(s: seq<int>, m: int): nat {
    if |s| == 0 then 0 else (if s[0] <= m then 1 else 0) + CountAtMost(s[1..], m)
  }

  /** `m` is an element of `s` that a sorted copy of `s` holds at index `k`:
      at most `k` elements lie below it and more than `k` are at most it. */
  ghost predicate HasRank(s: seq<int>, k: int, m: int) {
    m in s && CountBelow(s, m) <= k < CountAtMost(s, m)
  }

  /** Inserts `x` into the sorted sequence `t`, keeping it sorted. */
  function Insert(x: int, t: seq<int>): (r: seq<int>)
    requires Sorted(t)
    ensures Sorted(r)
    ensures multiset(r) == multiset(t) + multiset{x}
    ensures |r| > 0 && (r[0] == x || (|t| > 0 && r[0] == t[0]))
  {
    if |t| == 0 || x <= t[0] then [x] + t
    else
      assert t == [t[0]] + t[1..];
      var rest := Insert(x, t[1..]);
      assert t[0] <= rest[0];
      SortedCons(t[0], rest);
      var r := [t[0]] + rest;
      assert multiset(r) == multiset{t[0]} + multiset(rest);
      r
  }

  /** A sorted sequence stays sorted behind a head no larger than its first
      element. */
  lemma SortedCons(h: int, t: seq<int>)
    requires Sorted(t) && (|t| > 0 ==> h <= t[0])
    ensures Sorted([h] + t)
  {
    var r := [h] + t;
    forall i, j | 0 <= i < j < |r|
      ensures r[i] <= r[j]
    {
      if i > 0 {
        assert r[i] == t[i - 1] && r[j] == t[j - 1];
      } else {
        assert r[j] == t[j - 1];
      }
    }
  }

  /** Python's `sorted`, as an insertion sort. */
  function Sort(s: seq<int>): (r: seq<int>)
    ensures Sorted(r)
    ensures multiset(r) == multiset(s)
    ensures |r| == |s|
  {
    if |s| == 0 then []
    else
      assert s == [s[0]] + s[1..];
      var r := Insert(s[0], Sort(s[1..]));
      assert |r| == |multiset(r)|;
      r
  }

  lemma {:induction false} InsertCounts(x: int, t: seq<int>, m: int)
    requires Sorted(t)
    ensures CountBelow(Insert(x, t), m) == CountBelow(t, m) + (if x < m then 1 else 0)
    ensures CountAtMost(Insert(x, t), m) == CountAtMost(t, m) + (if x <= m then 1 else 0)
  {
    if |t| == 0 || x <= t[0] {
      assert ([x] + t)[1..] == t;
    } else {
      InsertCounts(x, t[1..], m);
      assert ([t[0]] + Insert(x, t[1..]))[1..] == Insert(x, t[1..]);
    }
  }

  /** Sorting keeps, for every threshold, how many elements lie below it. */
  lemma {:induction false} SortCounts(s: seq<int>, m: int)
    ensures CountBelow(Sort(s), m) == CountBelow(s, m)
    ensures CountAtMost(Sort(s), m) == CountAtMost(s, m)
  {
    if |s| > 0 {
      SortCounts(s[1..], m);
      InsertCounts(s[0], Sort(s[1..]), m);
    }
  }

  lemma {:induction false} CountsSplit(a: seq<int>, b: seq<int>, m: int)
    ensures CountBelow(a + b, m) == CountBelow(a, m) + CountBelow(b, m)
    ensures CountAtMost(a + b, m) == CountAtMost(a, m) + CountAtMost(b, m)
  {
    if |a| > 0 {
      CountsSplit(a[1..], b, m);
      assert (a + b)[1..] == a[1..] + b;
    } else {
      assert a + b == b;
    }
  }

  lemma {:induction false} CountsBounded(s: seq<int>, m: int)
    ensures CountBelow(s, m) <= |s|
    ensures (forall i :: 0 <= i < |s| ==> s[i] >= m) ==> CountBelow(s, m) == 0
    ensures (forall i :: 0 <= i < |s| ==> s[i] <= m) ==> CountAtMost(s, m) == |s|
  {
    if |s| > 0 {
      CountsBounded(s[1..], m);
      assert forall i :: 1 <= i < |s| ==> s[1..][i - 1] == s[i];
    }
  }

  /** At most `k` elements of a sorted sequence lie below its element at
      index `k`. */
  lemma SortedBelow(t: seq<int>, k: nat)
    requires Sorted(t) && k < |t|
    ensures CountBelow(t, t[k]) <= k
  {
    var lo, hi := t[..k], t[k..];
    assert t == lo + hi;
    CountsSplit(lo, hi, t[k]);
    CountsBounded(lo, t[k]);
    assert forall i :: 0 <= i < |hi| ==> hi[i] >= t[k] by {
      forall i | 0 <= i < |hi|
        ensures hi[i] >= t[k]
      {
        assert hi[i] == t[k + i];
      }
    }
    CountsBounded(hi, t[k]);
  }

  /** More than `k` elements of a sorted sequence are at most its element at
      index `k`. */
  lemma SortedAtMost(t: seq<int>, k: nat)
    requires Sorted(t) && k < |t|
    ensures CountAtMost(t, t[k]) > k
  {
    var lo, hi := t[..k + 1], t[k + 1..];
    assert t == lo + hi;
    CountsSplit(lo, hi, t[k]);
    assert forall i :: 0 <= i < |lo| ==> lo[i] <= t[k] by {
      forall i | 0 <= i < |lo|
        ensures lo[i] <= t[k]
      {
        assert lo[i] == t[i];
      }
    }
    CountsBounded(lo, t[k]);
  }

  /** In a sorted sequence the element at index `k` has rank `k`. */
  lemma SortedRank(t: seq<int>, k: nat)
    requires Sorted(t) && k < |t|
    ensures HasRank(t, k, t[k])
  {
    SortedBelow(t, k);
    SortedAtMost(t, k);
  }

  /** The element at index `len / 2` of a sorted copy of `s`. */
  function Median(s: seq<int>): (r: Result<int, MedianError>)
    ensures r.Err? <==> |s| == 0
    ensures r.Ok? ==> HasRank(s, |s| / 2, r.value)
  {
    if |s| == 0 then Err(EmptySequence)
    else
      var t := Sort(s);
      SortedRank(t, |s| / 2);
      SortCounts(s, t[|s| / 2]);
      assert t[|s| / 2] in multiset(s);
      Ok(t[|s| / 2])
  }

  /** `s[i]` is the element Python's `max(s, key=...)` returns for the key
      `|x - m|`: a farthest element, and the first of those. */
  ghost predicate FirstFarthest(s: seq<int>, m: int, i: int) {
    && 0 <= i < |s|
    && (forall j :: 0 <= j < |s| ==> Abs(s[j] - m) <= Abs(s[i] - m))
    && (forall j :: 0 <= j < i ==> Abs(s[j] - m) < Abs(s[i] - m))
  }

  /** A left-to-right scan that replaces the best element only on a strictly
      larger distance, as `max` with a key does. */
  method FarthestFrom(s: seq<int>, m: int) returns (i: nat)
    requires |s| > 0
    ensures FirstFarthest(s, m, i)
  {
    i := 0;
    var k := 1;
    while k < |s|
      invariant 1 <= k <= |s|
      invariant i < k
      invariant forall j :: 0 <= j < k ==> Abs(s[j] - m) <= Abs(s[i] - m)
      invariant forall j :: 0 <= j < i ==> Abs(s[j] - m) < Abs(s[i] - m)
    {
      if Abs(s[k] - m) > Abs(s[i] - m) {
        i := k;
      }
      k := k + 1;
    }
  }

  /** `find_outlier_median`: the first element farthest from the median; the
      sequence itself is never reordered, only a sorted copy is taken. */
  method FindOutlierMedian(s: seq<int>) returns (r: Result<int, MedianError>)
    ensures r.Err? <==> |s| == 0
    ensures r.Ok? ==> exists i :: FirstFarthest(s, Median(s).value, i) && r.value == s[i]
  {
    var median := Median(s);
    if median.Err? {
      return Err(median.error);
    }
    var i := FarthestFrom(s, median.value);
    r := Ok(s[i]);
  }

  /** A worked example: in [1, 2, 3, 100] only 3 has rank 2, so 3 is the
      median `Median` returns, and 100 is the element farthest from it. */
  lemma ExampleMedian(m: int)
    requires HasRank([1, 2, 3, 100], 2, m)
    ensures m == 3
  {
    var s := [1, 2, 3, 100];
    assert s[1..] == [2, 3, 100] && s[1..][1..] == [3, 100] && s[1..][1..][1..] == [100];
    assert CountBelow([100], m) <= 1 && CountAtMost([100], m) <= 1;
  }

  lemma ExampleOutlier()
    ensures FirstFarthest([1, 2, 3, 100], 3, 3)
  {
    var s := [1, 2, 3, 100];
    assert forall j :: 0 <= j < 4 ==> Abs(s[j] - 3) <= 97 by {
      assert Abs(s[0] - 3) == 2 && Abs(s[1] - 3) == 1 && Abs(s[2] - 3) == 0 && Abs(s[3] - 3) == 97;
    }
  }
}
