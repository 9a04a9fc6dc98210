/** Python string operations the crawler relies on: `str.strip()`,
    `str.isdigit()`, `int(...)` on a digit string, and the `<` order on
    strings that `list.sort(key=...)` uses when the key is a string. */
module Text {

  /** The characters `str.isspace()` accepts, hence the ones `str.strip()`
      removes: ASCII blanks and separators, NEL, no-break space and the
      Unicode space separators. */
  predicate IsSpace(c: char) {
    || c == ' ' || c == '\t' || c == '\n' || c == '\r'
    || c == '\U{000B}' || c == '\U{000C}'
    || ('\U{001C}' <= c <= '\U{001F}')
    || c == '\U{0085}' || c == '\U{00A0}' || c == '\U{1680}'
    || ('\U{2000}' <= c <= '\U{200A}')
    || c == '\U{2028}' || c == '\U{2029}' || c == '\U{202F}' || c == '\U{205F}' || c == '\U{3000}'
  }

  predicate IsDigit(c: char) {
    '0' <= c <= '9'
  }

  /** `s.isdigit()`: true only for a non-empty string of digits. */
  predicate IsDigits(s: string) {
    |s| > 0 && forall k :: 0 <= k < |s| ==> IsDigit(s[k])
  }

  /** Every character is a digit (the empty string included). */
  predicate AllDigits(s: string) {
    forall k :: 0 <= k < |s| ==> IsDigit(s[k])
  }

  /** Every character is whitespace (the empty string included). */
  predicate AllSpace(s: string) {
    forall k :: 0 <= k < |s| ==> IsSpace(s[k])
  }

  /** Number of whitespace characters at the front of `s`. */
  function LeadingSpaces(s: string): (n: nat)
    ensures n <= |s|
  {
    if s == [] || !IsSpace(s[0]) then 0 else 1 + LeadingSpaces(s[1..])
  }

  /** The leading run is all whitespace and stops at the first other
      character. */
  lemma {:induction false} LeadingSpacesRun(s: string)
    ensures AllSpace(s[..LeadingSpaces(s)])
    ensures LeadingSpaces(s) == |s| || !IsSpace(s[LeadingSpaces(s)])
  {
    if s != [] && IsSpace(s[0]) {
      LeadingSpacesRun(s[1..]);
      var n := LeadingSpaces(s[1..]);
      var run, tail := s[..n + 1], s[1..][..n];
      forall k | 0 <= k < |run| ensures IsSpace(run[k]) {
        if k > 0 {
          assert run[k] == tail[k - 1];
        }
      }
    }
  }

  /** Number of whitespace characters at the back of `s`. */
  function TrailingSpaces(s: string): (n: nat)
    ensures n <= |s|
  {
    if s == [] || !IsSpace(s[|s| - 1]) then 0 else 1 + TrailingSpaces(s[..|s| - 1])
  }

  /** The trailing run is all whitespace and stops at the last other
      character. */
  lemma {:induction false} TrailingSpacesRun(s: string)
    ensures AllSpace(s[|s| - TrailingSpaces(s)..])
    ensures TrailingSpaces(s) == |s| || !IsSpace(s[|s| - 1 - TrailingSpaces(s)])
  {
    if s != [] && IsSpace(s[|s| - 1]) {
      var init := s[..|s| - 1];
      TrailingSpacesRun(init);
      var n := TrailingSpaces(init);
      var run, front := s[|s| - (n + 1)..], init[|init| - n..];
      forall k | 0 <= k < |run| ensures IsSpace(run[k]) {
        if k < n {
          assert run[k] == front[k];
        }
      }
    }
  }

  /** `s.strip()`: the middle of `s` once the whitespace at both ends is cut
      off. */
  function Strip(s: string): string {
    var i := LeadingSpaces(s);
    var rest := s[i..];
    rest[..|rest| - TrailingSpaces(rest)]
  }

  /** What `strip()` returns: the text after the leading whitespace, followed
      in `s` only by whitespace, and with no whitespace at either end. */
  lemma StripMiddle(s: string)
    ensures var r, i := Strip(s), LeadingSpaces(s);
      && i + |r| <= |s| && r == s[i..i + |r|]
      && AllSpace(s[..i]) && AllSpace(s[i + |r|..])
      && (r == [] || (!IsSpace(r[0]) && !IsSpace(r[|r| - 1])))
  {
    var i := LeadingSpaces(s);
    var rest := s[i..];
    var n := TrailingSpaces(rest);
    var r := rest[..|rest| - n];
    assert Strip(s) == r;
    assert r == s[i..i + |r|];
    LeadingSpacesRun(s);
    assert AllSpace(s[i + |r|..]) by {
      TrailingSpacesRun(rest);
      assert s[i + |r|..] == rest[|rest| - n..];
    }
    assert r == [] || (!IsSpace(r[0]) && !IsSpace(r[|r| - 1])) by {
      TrailingSpacesRun(rest);
      if r != [] {
        assert r[0] == s[i];
        assert r[|r| - 1] == rest[|rest| - 1 - n];
      }
    }
  }

  /** Padding a string that has no whitespace at its ends and stripping it
      again gives the string back. */
  lemma {:induction false} StripPadded(pre: string, t: string, post: string)
    requires AllSpace(pre) && AllSpace(post)
    requires t == [] || (!IsSpace(t[0]) && !IsSpace(t[|t| - 1]))
    ensures Strip(pre + t + post) == t
  {
    var s := pre + t + post;
    var i := LeadingSpaces(s);
    LeadingSpacesRun(s);
    if t == [] {
      assert s == pre + post;
      assert forall k :: 0 <= k < |s| ==> IsSpace(s[k]) by {
        forall k | 0 <= k < |s| ensures IsSpace(s[k]) {
          if k < |pre| { assert s[k] == pre[k]; } else { assert s[k] == post[k - |pre|]; }
        }
      }
    } else {
      assert s[|pre|] == t[0];
      forall k | 0 <= k < |pre| ensures IsSpace(s[k]) {
        assert s[k] == pre[k];
      }
      assert i == |pre|;
      var rest := s[i..];
      assert rest == t + post;
      TrailingSpacesRun(rest);
      var n := TrailingSpaces(rest);
      assert forall k :: |t| <= k < |rest| ==> IsSpace(rest[k]) by {
        forall k | |t| <= k < |rest| ensures IsSpace(rest[k]) {
          assert rest[k] == post[k - |t|];
        }
      }
      assert rest[|t| - 1] == t[|t| - 1];
      assert n == |post|;
      assert rest[..|rest| - n] == t;
    }
  }

  function DigitValue(c: char): (d: nat)
    requires IsDigit(c)
    ensures d <= 9
  {
    c as int - '0' as int
  }

  function Pow10(n: nat): (p: nat)
    ensures p >= 1
  {
    if n == 0 then 1 else 10 * Pow10(n - 1)
  }

  /** `int(s)` for a string of decimal digits; leading zeros are ignored. */
  function ParseNat(s: string): (r: nat)
    requires AllDigits(s)
    ensures r < Pow10(|s|)
  {
    if s == [] then 0
    else
      var p := Pow10(|s| - 1);
      var d := DigitValue(s[0]);
      var rest := ParseNat(s[1..]);
      assert d * p + rest < (d + 1) * p <= 10 * p;
      d * p + rest
  }

  /** Python's `a < b` on strings: lexicographic by code point, a proper
      prefix before the longer string. */
  predicate Less(a: string, b: string)
    decreases |a|
  {
    if a == [] then b != []
    else if b == [] then false
    else if a[0] != b[0] then a[0] < b[0]
    else Less(a[1..], b[1..])
  }

  lemma {:induction false} LessIrreflexive(a: string)
    ensures !Less(a, a)
    decreases |a|
  {
    if a != [] { LessIrreflexive(a[1..]); }
  }

  lemma {:induction false} LessTransitive(a: string, b: string, c: string)
    requires Less(a, b) && Less(b, c)
    ensures Less(a, c)
    decreases |a|
  {
    if a != [] && a[0] == b[0] && b[0] == c[0] {
      LessTransitive(a[1..], b[1..], c[1..]);
    }
  }

  /** Any two different strings are ordered one way or the other. */
  lemma {:induction false} LessTotal(a: string, b: string)
    ensures a == b || Less(a, b) || Less(b, a)
    decreases |a|
  {
    if a != [] && b != [] && a[0] == b[0] {
      LessTotal(a[1..], b[1..]);
      if a[1..] == b[1..] {
        assert a == [a[0]] + a[1..] && b == [b[0]] + b[1..];
      }
    }
  }

  lemma LessAsymmetric(a: string, b: string)
    requires Less(a, b)
    ensures !Less(b, a)
  {
    if Less(b, a) {
      LessTransitive(a, b, a);
      LessIrreflexive(a);
    }
  }

  /** `!(b < a)` is transitive: the sort key order is a total preorder. */
  lemma NotLessTransitive(a: string, b: string, c: string)
    requires !Less(b, a) && !Less(c, b)
    ensures !Less(c, a)
  {
    LessTotal(a, b);
    LessTotal(b, c);
    if Less(c, a) {
      if a == b {
      } else if b == c {
      } else {
        LessTransitive(c, a, b);
      }
    }
  }

  /** Comparing two concatenations whose first parts have equal length
      compares the first parts, and the second parts only on a tie. */
  lemma {:induction false} LessConcat(a: string, b: string, c: string, d: string)
    requires |a| == |c|
    ensures Less(a + b, c + d) <==> (Less(a, c) || (a == c && Less(b, d)))
    decreases |a|
  {
    if a == [] {
      assert a + b == b && c + d == d;
    } else {
      assert (a + b)[0] == a[0] && (c + d)[0] == c[0];
      assert (a + b)[1..] == a[1..] + b && (c + d)[1..] == c[1..] + d;
      LessConcat(a[1..], b, c[1..], d);
      if a[0] == c[0] && a[1..] == c[1..] {
        assert a == c;
      }
      if a == c {
        assert a[1..] == c[1..];
      }
    }
  }

  /** A smaller leading digit decides the comparison whatever follows. */
  lemma LeadingDigitDominates(da: nat, db: nat, p: nat, ra: nat, rb: nat)
    requires da < db && ra < p
    ensures da * p + ra < db * p + rb
  {
    assert (da + 1) * p == da * p + p;
    assert (da + 1) * p <= db * p;
  }

  /** On digit strings of one length, the string order is the numeric order. */
  lemma {:induction false} DigitsLess(a: string, b: string)
    requires |a| == |b| && AllDigits(a) && AllDigits(b)
    ensures Less(a, b) <==> ParseNat(a) < ParseNat(b)
    decreases |a|
  {
    if a != [] {
      var p := Pow10(|a| - 1);
      var da, db := DigitValue(a[0]), DigitValue(b[0]);
      var ra, rb := ParseNat(a[1..]), ParseNat(b[1..]);
      assert ParseNat(a) == da * p + ra && ParseNat(b) == db * p + rb;
      if da < db {
        LeadingDigitDominates(da, db, p, ra, rb);
      } else if db < da {
        LeadingDigitDominates(db, da, p, rb, ra);
      } else {
        DigitsLess(a[1..], b[1..]);
      }
    }
  }

  /** Equal digit strings of one length have equal values, and conversely. */
  lemma {:induction false} DigitsEqual(a: string, b: string)
    requires |a| == |b| && AllDigits(a) && AllDigits(b)
    ensures a == b <==> ParseNat(a) == ParseNat(b)
  {
    DigitsLess(a, b);
    DigitsLess(b, a);
    LessTotal(a, b);
    LessIrreflexive(a);
  }
}
