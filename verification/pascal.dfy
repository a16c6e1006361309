/**
 * The first `n` rows of Pascal's triangle, built row by row: each row starts
 * as a list of placeholders, gets 1 at both ends, and every interior entry is
 * the sum of the two entries above it.
 */
module Pascal {
  import opened Wrappers

  /** `row` follows `prev` in Pascal's triangle: one entry longer, 1 at both
      ends, and every interior entry the sum of the two entries above it. */
  ghost predicate NextRow(prev: seq<int>, row: seq<int>) {
    && |row| == |prev| + 1
    && row[0] == 1 && row[|prev|] == 1
    && forall j :: 0 < j < |prev| ==> row[j] == prev[j - 1] + prev[j]
  }

  /** Row `i` has `i + 1` entries, the first row is [1], and every later row
      follows the one before it. */
  ghost predicate IsPascal(tri: seq<seq<int>>) {
    && (forall i :: 0 <= i < |tri| ==> |tri[i]| == i + 1)
    && (|tri| > 0 ==> tri[0] == [1])
    && (forall i :: 0 < i < |tri| ==> NextRow(tri[i - 1], tri[i]))
  }

  /** A row whose placeholders have all been assigned, with the placeholders
      dropped. */
  function Filled(row: seq<Option<int>>): (r: seq<int>)
    requires forall k :: 0 <= k < |row| ==> row[k].Some?
    ensures |r| == |row|
    ensures forall k :: 0 <= k < |row| ==> row[k] == Some(r[k])
  {
    seq(|row|, k requires 0 <= k < |row| => row[k].value)
  }

  /** `pascal_triangle(n)`; a non-positive `n` gives no rows, as `range(n)`
      does. */
  method PascalTriangle(n: int) returns (tri: seq<seq<int>>)
    ensures |tri| == if n > 0 then n else 0
    ensures IsPascal(tri)
  {
    tri := [];
    var i := 0;
    while i < n
      invariant 0 <= i
      invariant i <= n || i == 0
      invariant |tri| == i
      invariant IsPascal(tri)
    {
      var row: seq<Option<int>> := seq(i + 1, _ => None);
      row := row[0 := Some(1)][i := Some(1)];
      var j := 1;
      while j < i
        invariant 1 <= j <= i + 1
        invariant |row| == i + 1
        invariant row[0] == Some(1) && row[i] == Some(1)
        invariant forall k :: 0 < k < j && k < i ==> row[k] == Some(tri[i - 1][k - 1] + tri[i - 1][k])
      {
        row := row[j := Some(tri[i - 1][j - 1] + tri[i - 1][j])];
        j := j + 1;
      }
      tri := tri + [Filled(row)];
      i := i + 1;
    }
  }

  function Fact(n: nat): (r: nat)
    ensures r > 0
  {
    if n == 0 then 1 else n * Fact(n - 1)
  }

  /** The arithmetic step of Pascal's rule with factorials:
      C(i-1, j-1) + C(i-1, j) == C(i, j). */
  lemma PascalRuleStep(a: int, b: int, x: int, bigX: int, y: int, bigY: int, f: int, i: int, j: int)
    requires a * x * bigY == f
    requires b * bigX * y == f
    requires bigX == j * x
    requires bigY == (i - j) * y
    ensures (a + b) * bigX * bigY == i * f
  {
    calc {
      (a + b) * bigX * bigY;
      a * bigX * bigY + b * bigX * bigY;
      a * (j * x) * bigY + b * bigX * ((i - j) * y);
      { assert a * (j * x) * bigY == j * (a * x * bigY);
        assert b * bigX * ((i - j) * y) == (i - j) * (b * bigX * y); }
      j * f + (i - j) * f;
      i * f;
    }
  }

  /** Entry `j` of row `i` is the binomial coefficient `i! / (j! (i-j)!)`. */
  lemma {:induction false} EntriesAreBinomials(tri: seq<seq<int>>, i: nat)
    requires IsPascal(tri) && i < |tri|
    ensures forall j :: 0 <= j <= i ==> tri[i][j] * Fact(j) * Fact(i - j) == Fact(i)
  {
    if i > 0 {
      EntriesAreBinomials(tri, i - 1);
      forall j | 0 <= j <= i
        ensures tri[i][j] * Fact(j) * Fact(i - j) == Fact(i)
      {
        if 0 < j < i {
          PascalRuleStep(tri[i - 1][j - 1], tri[i - 1][j], Fact(j - 1), Fact(j),
                         Fact(i - 1 - j), Fact(i - j), Fact(i - 1), i, j);
        }
      }
    }
  }

  lemma CancelFactor(x: int, y: int, p: int)
    requires p > 0 && x * p == y * p
    ensures x == y
  {
  }

  /** Two numbers with the same product by the same positive factors are
      equal. */
  lemma EntryUnique(x: int, y: int, p: int, q: int, f: int)
    requires p > 0 && q > 0 && x * p * q == f && y * p * q == f
    ensures x == y
  {
    CancelFactor(x * p, y * p, q);
    CancelFactor(x, y, p);
  }

  /** The row rules determine the triangle: two triangles with the same
      number of rows are equal. */
  lemma PascalUnique(a: seq<seq<int>>, b: seq<seq<int>>)
    requires IsPascal(a) && IsPascal(b) && |a| == |b|
    ensures a == b
  {
    forall i | 0 <= i < |a|
      ensures a[i] == b[i]
    {
      EntriesAreBinomials(a, i);
      EntriesAreBinomials(b, i);
      forall j | 0 <= j <= i
        ensures a[i][j] == b[i][j]
      {
        EntryUnique(a[i][j], b[i][j], Fact(j), Fact(i - j), Fact(i));
      }
    }
  }

  /** The five-row example in the comment at the top of the program. */
  lemma ExampleFiveRows(tri: seq<seq<int>>)
    requires IsPascal(tri) && |tri| == 5
    ensures tri == [[1], [1, 1], [1, 2, 1], [1, 3, 3, 1], [1, 4, 6, 4, 1]]
  {
    var expected := [[1], [1, 1], [1, 2, 1], [1, 3, 3, 1], [1, 4, 6, 4, 1]];
    assert IsPascal(expected);
    PascalUnique(tri, expected);
  }
}
