/**
 * `hamming_weight(x)`: the number of '1' characters in Python's `bin(x)`,
 * and the prompt loop that only ever passes it a non-negative number.
 */
module Hamming {
  import opened Wrappers
  import opened Numbers

  /** The base-2 digits of `n` with no leading zero; "0" for 0. */
  function BinDigits(n: nat): (r: string)
    ensures |r| >= 1
    ensures n > 0 ==> r[0] == '1'
  {
    if n < 2 then (if n == 0 then "0" else "1")
    else BinDigits(n / 2) + (if n % 2 == 0 then "0" else "1")
  }

  /** Python's `bin(x)`: "0b" or "-0b" followed by the digits of `|x|`. */
  function Bin(x: int): string {
    (if x < 0 then "-0b" else "0b") + BinDigits(Abs(x))
  }

  function CountChar(s: string, c: char): (r: nat)
    ensures r <= |s|
  {
    if |s| == 0 then 0 else (if s[0] == c then 1 else 0) + CountChar(s[1..], c)
  }

  lemma {:induction false} CountCharConcat(a: string, b: string, c: char)
    ensures CountChar(a + b, c) == CountChar(a, c) + CountChar(b, c)
  {
    if |a| == 0 {
      assert a + b == b;
    } else {
      assert (a + b)[1..] == a[1..] + b;
      CountCharConcat(a[1..], b, c);
    }
  }

  /** Reference definition: the sum of the bits of `n`, lowest first. */
  function PopCount(n: nat): nat {
    if n == 0 then 0 else n % 2 + PopCount(n / 2)
  }

  /** The prefix adds nothing: the count is the number of one digits. */
  lemma PrefixCountsNothing(x: int)
    ensures CountChar(Bin(x), '1') == CountChar(BinDigits(Abs(x)), '1')
  {
    assert CountChar("0b", '1') == 0;
    assert CountChar("-0b", '1') == 0;
    CountCharConcat(if x < 0 then "-0b" else "0b", BinDigits(Abs(x)), '1');
  }

  lemma {:induction false} DigitsCountIsPopCount(n: nat)
    ensures CountChar(BinDigits(n), '1') == PopCount(n)
  {
    if n >= 2 {
      DigitsCountIsPopCount(n / 2);
      CountCharConcat(BinDigits(n / 2), if n % 2 == 0 then "0" else "1", '1');
    }
  }

  /** `bin(x).count("1")`: counting characters agrees with summing the bits
      of `|x|`. */
  function HammingWeight(x: int): (r: nat)
    ensures r == PopCount(Abs(x))
  {
    PrefixCountsNothing(x);
    DigitsCountIsPopCount(Abs(x));
    CountChar(Bin(x), '1')
  }

  /** A shift left adds no one bit; setting the low bit adds one. */
  lemma Recurrence(x: nat)
    ensures HammingWeight(2 * x) == HammingWeight(x)
    ensures HammingWeight(2 * x + 1) == HammingWeight(x) + 1
  {
    PopCountShift(x);
  }

  lemma PopCountShift(x: nat)
    ensures PopCount(2 * x) == PopCount(x)
    ensures PopCount(2 * x + 1) == PopCount(x) + 1
  {
    assert (2 * x) / 2 == x && (2 * x) % 2 == 0;
    assert (2 * x + 1) / 2 == x && (2 * x + 1) % 2 == 1;
  }

  /** 0 has no one bits; a positive `x` has at least one and at most as many
      as its binary length. */
  lemma Bounds(x: nat)
    ensures x == 0 ==> HammingWeight(x) == 0
    ensures x > 0 ==> 1 <= HammingWeight(x) <= |BinDigits(x)|
  {
    DigitsCountIsPopCount(x);
    if x > 0 {
      var d := BinDigits(x);
      assert d == [d[0]] + d[1..];
    }
  }

  /** `bin(-x)` carries the same digits after its minus sign. */
  lemma SignIgnored(x: int)
    ensures HammingWeight(-x) == HammingWeight(x)
  {
  }

  /** The prompt loop: the first number read that is not negative; negative
      numbers are refused and the user is asked again. `None` means no
      acceptable number has been read yet. */
  function FirstNonNegative(inputs: seq<int>): (r: Option<nat>)
    ensures r.None? <==> forall i :: 0 <= i < |inputs| ==> inputs[i] < 0
    ensures r.Some? ==> exists i :: 0 <= i < |inputs| && inputs[i] == r.value && forall j :: 0 <= j < i ==> inputs[j] < 0
  {
    if |inputs| == 0 then None
    else if inputs[0] >= 0 then Some(inputs[0])
    else
      var r := FirstNonNegative(inputs[1..]);
      assert forall i :: 1 <= i < |inputs| ==> inputs[1..][i - 1] == inputs[i];
      r
  }

  /** What the program reports for a run of inputs: the weight of the first
      non-negative one. */
  function Report(inputs: seq<int>): (r: Option<nat>)
    ensures r.Some? <==> FirstNonNegative(inputs).Some?
    ensures r.Some? ==> r.value == PopCount(FirstNonNegative(inputs).value)
  {
    match FirstNonNegative(inputs)
    case None => None
    case Some(n) => Some(HammingWeight(n))
  }

  lemma Examples()
    ensures HammingWeight(0) == 0
    ensures HammingWeight(11) == 3
    ensures Report([-4, 6]) == Some(2)
  {
    assert PopCount(1) == 1 && PopCount(2) == 1 && PopCount(5) == 2 && PopCount(11) == 3;
    assert PopCount(3) == 2 && PopCount(6) == 2;
    assert [-4, 6][1..] == [6];
    assert FirstNonNegative([-4, 6]) == Some(6);
  }
}
