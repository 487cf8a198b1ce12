/**
 * Python `str` operations the pipeline relies on: code-point ordering,
 * prefix/suffix tests, `strip()`, `split(',')`, `replace(p, '')` and
 * fixed-width decimal digits.
 */
module Strings {

  /** Python's `a < b` on `str`: lexicographic by code point, a proper prefix is smaller. */
  predicate LexLess(a: string, b: string)
    decreases |a|
  {
    if |a| == 0 then |b| > 0
    else if |b| == 0 then false
    else if a[0] == b[0] then LexLess(a[1..], b[1..])
    else a[0] < b[0]
  }

  predicate LexLe(a: string, b: string) {
    a == b || LexLess(a, b)
  }

  lemma {:induction false} LexLessIrreflexive(a: string)
    ensures !LexLess(a, a)
    decreases |a|
  {
    if |a| > 0 {
      LexLessIrreflexive(a[1..]);
    }
  }

  lemma {:induction false} LexLessTransitive(a: string, b: string, c: string)
    requires LexLess(a, b) && LexLess(b, c)
    ensures LexLess(a, c)
    decreases |a|
  {
    if |a| > 0 && a[0] == b[0] && b[0] == c[0] {
      LexLessTransitive(a[1..], b[1..], c[1..]);
    }
  }

  lemma {:induction false} LexLessTotal(a: string, b: string)
    ensures a == b || LexLess(a, b) || LexLess(b, a)
    decreases |a|
  {
    if |a| > 0 && |b| > 0 && a[0] == b[0] {
      LexLessTotal(a[1..], b[1..]);
      if a[1..] == b[1..] {
        assert a == [a[0]] + a[1..] && b == [b[0]] + b[1..];
      }
    }
  }

  lemma LexLessAsymmetric(a: string, b: string)
    requires LexLess(a, b)
    ensures !LexLess(b, a)
  {
    if LexLess(b, a) {
      LexLessTransitive(a, b, a);
      LexLessIrreflexive(a);
    }
  }

  predicate StartsWith(s: string, p: string) {
    |p| <= |s| && s[..|p|] == p
  }

  predicate EndsWith(s: string, p: string) {
    |p| <= |s| && s[|s| - |p|..] == p
  }

  /** Characters for which Python's `str.isspace()` holds (what `strip()` removes). */
  predicate IsSpace(c: char) {
    var u := c as int;
    || (0x09 <= u <= 0x0D) || (0x1C <= u <= 0x20) || u == 0x85 || u == 0xA0 || u == 0x1680
    || (0x2000 <= u <= 0x200A) || u == 0x2028 || u == 0x2029 || u == 0x202F || u == 0x205F || u == 0x3000
  }

  function StripLeft(s: string): (r: string)
    ensures |r| <= |s| && r == s[|s| - |r|..]
    ensures |r| > 0 ==> !IsSpace(r[0])
    ensures forall i | 0 <= i < |s| - |r| :: IsSpace(s[i])
  {
    if |s| > 0 && IsSpace(s[0]) then StripLeft(s[1..]) else s
  }

  function StripRight(s: string): (r: string)
    ensures |r| <= |s| && r == s[..|r|]
    ensures |r| > 0 ==> !IsSpace(r[|r| - 1])
    ensures forall i | |r| <= i < |s| :: IsSpace(s[i])
  {
    if |s| > 0 && IsSpace(s[|s| - 1]) then StripRight(s[..|s| - 1]) else s
  }

  /** Python's `s.strip()`. */
  function Strip(s: string): (r: string)
  {
    StripRight(StripLeft(s))
  }

  /** Number of white-space characters `strip()` removes from the front of `s`. */
  function LeadingSpaces(s: string): nat
    ensures LeadingSpaces(s) <= |s|
  {
    |s| - |StripLeft(s)|
  }

  /** `strip()` keeps a contiguous piece of `s`, removes only white space, and leaves none at either end. */
  lemma StripSpec(s: string)
    ensures var r, i := Strip(s), LeadingSpaces(s);
      && i + |r| <= |s| && r == s[i..i + |r|]
      && (forall k | 0 <= k < i :: IsSpace(s[k]))
      && (forall k | i + |r| <= k < |s| :: IsSpace(s[k]))
      && (|r| > 0 ==> !IsSpace(r[0]) && !IsSpace(r[|r| - 1]))
  {
    var l := StripLeft(s);
    var r := StripRight(l);
    var i := |s| - |l|;
    PrefixOfSuffix(s, i, r);
    SpacesAfterPrefix(s, i, l, r);
  }

  /** White space after a kept prefix of a suffix is white space in `s` itself. */
  lemma SpacesAfterPrefix(s: string, i: nat, l: string, r: string)
    requires i <= |s| && l == s[i..] && |r| <= |l|
    requires forall k | |r| <= k < |l| :: IsSpace(l[k])
    ensures forall k | i + |r| <= k < |s| :: IsSpace(s[k])
  {
    forall k | i + |r| <= k < |s|
      ensures IsSpace(s[k])
    {
      assert s[k] == l[k - i];
    }
  }

  /** A prefix of the suffix of `s` from `i` is the slice of `s` starting at `i`. */
  lemma PrefixOfSuffix(s: string, i: nat, r: string)
    requires i <= |s| && |r| <= |s| - i && r == s[i..][..|r|]
    ensures r == s[i..i + |r|]
  {
  }

  /** Index of the first occurrence of `c` in `s`, or `|s|` when there is none. */
  function IndexOf(s: string, c: char): (k: nat)
    ensures k <= |s|
    ensures k < |s| ==> s[k] == c
    ensures forall j | 0 <= j < k :: s[j] != c
  {
    if |s| == 0 then 0 else if s[0] == c then 0 else 1 + IndexOf(s[1..], c)
  }

  /** Python's `s.split(sep)` for a one-character separator. */
  function Split(s: string, sep: char): (r: seq<string>)
    ensures |r| >= 1
    ensures forall k | 0 <= k < |r| :: sep !in r[k]
    decreases |s|
  {
    var k := IndexOf(s, sep);
    if k == |s| then [s] else [s[..k]] + Split(s[k + 1..], sep)
  }

  /** Python's `sep.join(parts)`. */
  function Join(parts: seq<string>, sep: char): string
    requires |parts| >= 1
  {
    if |parts| == 1 then parts[0] else parts[0] + [sep] + Join(parts[1..], sep)
  }

  /** Splitting and joining back on the same separator gives the original text. */
  lemma {:induction false} SplitJoin(s: string, sep: char)
    ensures Join(Split(s, sep), sep) == s
    decreases |s|
  {
    var k := IndexOf(s, sep);
    if k < |s| {
      var tail := Split(s[k + 1..], sep);
      assert Split(s, sep) == [s[..k]] + tail;
      JoinCons(s[..k], tail, sep);
      SplitJoin(s[k + 1..], sep);
      assert s == s[..k] + [sep] + s[k + 1..];
    }
  }

  lemma JoinCons(head: string, rest: seq<string>, sep: char)
    requires |rest| >= 1
    ensures Join([head] + rest, sep) == head + [sep] + Join(rest, sep)
  {
    assert ([head] + rest)[1..] == rest;
  }

  /** Python's `s.replace(p, '')`: removes every non-overlapping occurrence of `p`, scanning left to right. */
  function RemoveAll(s: string, p: string): (r: string)
    requires |p| > 0
    ensures |r| <= |s|
    decreases |s|
  {
    if |s| < |p| then s
    else if s[..|p|] == p then RemoveAll(s[|p|..], p)
    else [s[0]] + RemoveAll(s[1..], p)
  }

  /** Text in which `p` cannot start anywhere, because `p`'s first character is absent, is left alone. */
  lemma {:induction false} RemoveAllAbsent(s: string, p: string)
    requires |p| > 0 && p[0] !in s
    ensures RemoveAll(s, p) == s
    decreases |s|
  {
    if |s| >= |p| {
      assert s[0] != p[0];
      assert s[..|p|][0] == s[0];
      RemoveAllAbsent(s[1..], p);
      assert s == [s[0]] + s[1..];
    }
  }

  /** Removing `p` from `t + p` when `p` cannot start inside `t` leaves `t`. */
  lemma {:induction false} RemoveAllTrailing(t: string, p: string)
    requires |p| > 0 && p[0] !in t && p[0] !in p[1..]
    ensures RemoveAll(t + p, p) == t
    decreases |t|
  {
    var s := t + p;
    if |t| == 0 {
      assert s[..|p|] == p;
      assert s[|p|..] == [];
    } else {
      assert s[..|p|][0] == t[0] != p[0];
      assert s[1..] == t[1..] + p;
      RemoveAllTrailing(t[1..], p);
      assert t == [t[0]] + t[1..];
    }
  }

  /** A slice is equal to a text it agrees with character by character. */
  lemma SliceFromChars(s: string, i: nat, x: string)
    requires i + |x| <= |s| && forall k | 0 <= k < |x| :: s[i + k] == x[k]
    ensures s[i..i + |x|] == x
  {
    var t := s[i..i + |x|];
    forall k | 0 <= k < |x| ensures t[k] == x[k] {
      assert t[k] == s[i + k];
    }
  }

  predicate IsDigit(c: char) {
    '0' <= c <= '9'
  }

  predicate AllDigits(s: string) {
    forall i | 0 <= i < |s| :: IsDigit(s[i])
  }

  /** Value of a run of ASCII decimal digits (Python's `int(s)`). */
  function DigitsValue(s: string): (n: nat)
    requires AllDigits(s)
  {
    if |s| == 0 then 0 else 10 * DigitsValue(s[..|s| - 1]) + (s[|s| - 1] - '0') as nat
  }

  function Pow10(k: nat): (r: nat)
    ensures r >= 1
  {
    if k == 0 then 1 else 10 * Pow10(k - 1)
  }

  /** `n` written with exactly `width` digits, zero padded (`f"{n:0{width}d}"`). */
  function PadDigits(n: nat, width: nat): (r: string)
    requires n < Pow10(width)
    ensures |r| == width && AllDigits(r)
  {
    if width == 0 then [] else PadDigits(n / 10, width - 1) + [('0' as int + n % 10) as char]
  }

  /** Reading back a zero-padded number gives the number. */
  lemma {:induction false} PadDigitsValue(n: nat, width: nat)
    requires n < Pow10(width)
    ensures DigitsValue(PadDigits(n, width)) == n
  {
    if width > 0 {
      var r := PadDigits(n, width);
      PadDigitsValue(n / 10, width - 1);
      assert r[..width - 1] == PadDigits(n / 10, width - 1);
    }
  }

  lemma {:induction false} DigitsValueBound(s: string)
    requires AllDigits(s)
    ensures DigitsValue(s) < Pow10(|s|)
  {
    if |s| > 0 {
      DigitsValueBound(s[..|s| - 1]);
    }
  }

  /** Writing back the value of a digit run reproduces the digits. */
  lemma {:induction false} DigitsPadValue(s: string)
    requires AllDigits(s)
    ensures DigitsValue(s) < Pow10(|s|)
    ensures PadDigits(DigitsValue(s), |s|) == s
  {
    DigitsValueBound(s);
    if |s| > 0 {
      var t, c := s[..|s| - 1], s[|s| - 1];
      assert AllDigits(t) by {
        forall i | 0 <= i < |t| ensures IsDigit(t[i]) {
          assert t[i] == s[i];
        }
      }
      DigitsPadValue(t);
      var n, d := DigitsValue(s), (c - '0') as nat;
      assert n == 10 * DigitsValue(t) + d && d < 10;
      assert n / 10 == DigitsValue(t) && n % 10 == d;
      assert ('0' as int + d) as char == c;
      assert PadDigits(n, |s|) == PadDigits(DigitsValue(t), |t|) + [c];
      assert s == t + [c];
    }
  }
}
