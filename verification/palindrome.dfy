/**
 * `is_palindrome(text)`: lower-case the text, keep only its alphanumeric
 * characters, and compare the result with its reverse. Characters are
 * restricted to ASCII, where `lower` and `isalnum` have their plain meaning.
 */
module Palindrome {

  ghost predicate IsAscii(s: string) {
    forall i :: 0 <= i < |s| ==> s[i] < 128 as char
  }

  /** `str.lower` on one ASCII character. */
  function Lower(c: char): char {
    if 'A' <= c <= 'Z' then (c as int + 32) as char else c
  }

  /** `str.isalnum` on one ASCII character. */
  predicate IsAlnum(c: char) {
    'a' <= c <= 'z' || 'A' <= c <= 'Z' || '0' <= c <= '9'
  }

  function LowerAll(s: string): (r: string)
    ensures |r| == |s|
  {
    seq(|s|, i requires 0 <= i < |s| => Lower(s[i]))
  }

  function KeepAlnum(s: string): string {
    if |s| == 0 then [] else (if IsAlnum(s[0]) then [s[0]] else []) + KeepAlnum(s[1..])
  }

  function Reverse(s: string): (r: string)
    ensures |r| == |s|
  {
    if |s| == 0 then [] else Reverse(s[1..]) + [s[0]]
  }

  /** The text the program compares: lowered, then alphanumerics only. */
  function Filtered(s: string): string {
    KeepAlnum(LowerAll(s))
  }

  /** The filtered text reads the same from both ends. */
  function IsPalindrome(s: string): (r: bool)
    requires IsAscii(s)
    ensures r <==> forall i :: 0 <= i < |Filtered(s)| ==> Filtered(s)[i] == Filtered(s)[|Filtered(s)| - 1 - i]
  {
    var f := Filtered(s);
    ReverseIndex(f);
    f == Reverse(f)
  }

  lemma {:induction false} ReverseIndex(s: string)
    ensures forall i :: 0 <= i < |s| ==> Reverse(s)[i] == s[|s| - 1 - i]
  {
    if |s| > 0 {
      ReverseIndex(s[1..]);
    }
  }

  lemma {:induction false} KeepAlnumConcat(a: string, b: string)
    ensures KeepAlnum(a + b) == KeepAlnum(a) + KeepAlnum(b)
  {
    if |a| == 0 {
      assert a + b == b;
    } else {
      var head := if IsAlnum(a[0]) then [a[0]] else [];
      assert (a + b)[0] == a[0] && (a + b)[1..] == a[1..] + b;
      KeepAlnumConcat(a[1..], b);
      calc {
        KeepAlnum(a + b);
        head + KeepAlnum(a[1..] + b);
        head + (KeepAlnum(a[1..]) + KeepAlnum(b));
        (head + KeepAlnum(a[1..])) + KeepAlnum(b);
      }
    }
  }

  lemma {:induction false} ReverseConcat(a: string, b: string)
    ensures Reverse(a + b) == Reverse(b) + Reverse(a)
  {
    if |a| == 0 {
      assert a + b == b;
    } else {
      assert (a + b)[1..] == a[1..] + b;
      ReverseConcat(a[1..], b);
    }
  }

  lemma {:induction false} KeepAlnumReverse(s: string)
    ensures KeepAlnum(Reverse(s)) == Reverse(KeepAlnum(s))
  {
    if |s| > 0 {
      KeepAlnumReverse(s[1..]);
      KeepAlnumConcat(Reverse(s[1..]), [s[0]]);
      assert KeepAlnum([s[0]]) == if IsAlnum(s[0]) then [s[0]] else [];
      ReverseConcat(if IsAlnum(s[0]) then [s[0]] else [], KeepAlnum(s[1..]));
    }
  }

  lemma ReverseIsAscii(s: string)
    requires IsAscii(s)
    ensures IsAscii(Reverse(s))
  {
    ReverseIndex(s);
  }

  /** Filtering commutes with reversal. */
  lemma FilteredReverse(s: string)
    ensures Filtered(Reverse(s)) == Reverse(Filtered(s))
  {
    ReverseIndex(s);
    assert LowerAll(Reverse(s)) == Reverse(LowerAll(s)) by {
      ReverseIndex(LowerAll(s));
    }
    KeepAlnumReverse(LowerAll(s));
  }

  lemma ReverseReverse(s: string)
    ensures Reverse(Reverse(s)) == s
  {
    ReverseIndex(s);
    ReverseIndex(Reverse(s));
  }

  /** Reading the text backwards does not change the verdict. */
  lemma PalindromeOfReverse(s: string)
    requires IsAscii(s)
    ensures IsAscii(Reverse(s)) && IsPalindrome(Reverse(s)) == IsPalindrome(s)
  {
    ReverseIsAscii(s);
    FilteredReverse(s);
    var f := Filtered(s);
    ReverseReverse(f);
    ReverseIndex(f);
    ReverseIndex(Reverse(f));
  }

  /** Text without a single letter or digit, the empty text included, is a
      palindrome. */
  lemma NoAlnumIsPalindrome(s: string)
    requires IsAscii(s)
    requires forall i :: 0 <= i < |s| ==> !IsAlnum(s[i])
    ensures IsPalindrome(s)
  {
    NoAlnumFiltersEmpty(LowerAll(s));
  }

  lemma {:induction false} NoAlnumFiltersEmpty(s: string)
    requires forall i :: 0 <= i < |s| ==> !IsAlnum(s[i])
    ensures KeepAlnum(s) == []
  {
    if |s| > 0 {
      NoAlnumFiltersEmpty(s[1..]);
    }
  }

  /** `s` and `t` differ at most in the case of their letters. */
  ghost predicate SameIgnoringCase(s: string, t: string) {
    |s| == |t| && forall i :: 0 <= i < |s| ==> Lower(s[i]) == Lower(t[i])
  }

  /** Changing the case of letters does not change the verdict. */
  lemma CaseInsensitive(s: string, t: string)
    requires IsAscii(s) && IsAscii(t) && SameIgnoringCase(s, t)
    ensures IsPalindrome(s) == IsPalindrome(t)
  {
    assert LowerAll(s) == LowerAll(t);
  }

  /** Inserting a character that is neither a letter nor a digit (a space, a
      comma, ...) anywhere does not change the verdict. */
  lemma InsertPunctuation(s: string, i: nat, c: char)
    requires IsAscii(s) && i <= |s| && c < 128 as char && !IsAlnum(c)
    ensures IsAscii(s[..i] + [c] + s[i..])
    ensures IsPalindrome(s[..i] + [c] + s[i..]) == IsPalindrome(s)
  {
    var t := s[..i] + [c] + s[i..];
    assert LowerAll(t) == LowerAll(s[..i]) + [Lower(c)] + LowerAll(s[i..]);
    assert LowerAll(s) == LowerAll(s[..i]) + LowerAll(s[i..]);
    KeepAlnumConcat(LowerAll(s[..i]) + [Lower(c)], LowerAll(s[i..]));
    KeepAlnumConcat(LowerAll(s[..i]), [Lower(c)]);
    KeepAlnumConcat(LowerAll(s[..i]), LowerAll(s[i..]));
    assert KeepAlnum([Lower(c)]) == [];
    assert Filtered(t) == Filtered(s);
  }

  /** Case and punctuation are ignored. */
  lemma ExampleMixed()
    ensures IsPalindrome("Aba!")
  {
    assert LowerAll("Aba!") == "aba!";
    assert KeepAlnum("aba!") == "aba";
    assert Filtered("Aba!") == "aba";
  }

  lemma ExampleAb()
    ensures !IsPalindrome("Ab")
  {
    assert LowerAll("Ab") == "ab";
    assert Filtered("Ab") == "ab";
  }

  /** The empty text is a palindrome. */
  lemma ExampleEmpty()
    ensures IsPalindrome("")
  {
    assert Filtered("") == "";
  }
}
