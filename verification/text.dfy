/**
 Character classes and string primitives of the Java/Kotlin standard library
 that the application relies on: trimming, case mapping, substring search,
 decimal rendering of numbers and the lexicographic `String.compareTo`.

 Letters and digits are the ASCII ones; whitespace follows the JDK's exact
 definitions (see each predicate).
 */
module Text {

  predicate IsDigit(c: char) { '0' <= c <= '9' }
  predicate IsUpper(c: char) { 'A' <= c <= 'Z' }
  predicate IsLower(c: char) { 'a' <= c <= 'z' }
  predicate IsLetter(c: char) { IsUpper(c) || IsLower(c) }
  predicate IsLetterOrDigit(c: char) { IsLetter(c) || IsDigit(c) }

  /** The characters `String.trim()` removes in Java: every code point up to U+0020. */
  predicate IsJavaTrimmed(c: char) { c <= ' ' }

  /** The regular-expression class `\s`: [ \t\n\x0B\f\r]. */
  predicate IsRegexSpace(c: char) {
    c == ' ' || c == '\t' || c == '\n' || c == '\U{000B}' || c == '\U{000C}' || c == '\r'
  }

  /**
   Kotlin's `Char.isWhitespace()` (used by Kotlin's `trim()`): Java's
   `Character.isWhitespace` or `Character.isSpaceChar`.
   */
  predicate IsKotlinWhitespace(c: char) {
    || IsRegexSpace(c)
    || ('\U{001C}' <= c <= '\U{001F}')
    || c == '\U{00A0}' || c == '\U{1680}'
    || ('\U{2000}' <= c <= '\U{200A}')
    || c == '\U{2028}' || c == '\U{2029}' || c == '\U{202F}' || c == '\U{205F}' || c == '\U{3000}'
  }

  function ToLowerChar(c: char): (r: char)
    ensures IsUpper(c) ==> IsLower(r)
    ensures !IsUpper(c) ==> r == c
  {
    if IsUpper(c) then c - 'A' + 'a' else c
  }

  function ToUpperChar(c: char): (r: char)
    ensures IsLower(c) ==> IsUpper(r)
    ensures !IsLower(c) ==> r == c
  {
    if IsLower(c) then c - 'a' + 'A' else c
  }

  /** `String.toLowerCase()` restricted to ASCII letters. */
  function ToLower(s: string): (r: string)
    ensures |r| == |s|
    ensures forall i :: 0 <= i < |s| ==> r[i] == ToLowerChar(s[i])
  {
    seq(|s|, i requires 0 <= i < |s| => ToLowerChar(s[i]))
  }

  /** `String.uppercase()` restricted to ASCII letters. */
  function ToUpper(s: string): (r: string)
    ensures |r| == |s|
    ensures forall i :: 0 <= i < |s| ==> r[i] == ToUpperChar(s[i])
  {
    seq(|s|, i requires 0 <= i < |s| => ToUpperChar(s[i]))
  }

  /** Drops the longest prefix of characters satisfying `p`. */
  function TrimStart(s: string, p: char -> bool): (r: string)
    ensures |r| <= |s| && r == s[|s| - |r|..]
    ensures |r| > 0 ==> !p(r[0])
    ensures forall k :: 0 <= k < |s| - |r| ==> p(s[k])
  {
    if |s| > 0 && p(s[0]) then
      var r := TrimStart(s[1..], p);
      assert forall k :: 1 <= k < |s| - |r| ==> s[k] == s[1..][k - 1];
      r
    else s
  }

  /** Drops the longest suffix of characters satisfying `p`. */
  function TrimEnd(s: string, p: char -> bool): (r: string)
    ensures |r| <= |s| && r == s[..|r|]
    ensures |r| > 0 ==> !p(r[|r| - 1])
    ensures forall k :: |r| <= k < |s| ==> p(s[k])
  {
    if |s| > 0 && p(s[|s| - 1]) then
      var r := TrimEnd(s[..|s| - 1], p);
      assert forall k :: |r| <= k < |s| - 1 ==> s[k] == s[..|s| - 1][k];
      r
    else s
  }

  /** Drops the characters satisfying `p` from both ends. */
  function Trim(s: string, p: char -> bool): (r: string)
    ensures |r| > 0 ==> !p(r[0]) && !p(r[|r| - 1])
    ensures |r| <= |s|
  {
    TrimEnd(TrimStart(s, p), p)
  }

  /** Trimming twice trims nothing more. */
  lemma {:induction false} TrimIdempotent(s: string, p: char -> bool)
    ensures Trim(Trim(s, p), p) == Trim(s, p)
  {
    var t := Trim(s, p);
    if |t| > 0 {
      assert TrimStart(t, p) == t;
      assert TrimEnd(t, p) == t;
    } else {
      assert TrimStart(t, p) == [];
    }
  }

  /** A string with untrimmable ends is left as it is. */
  lemma {:induction false} TrimKeepsTrimmed(s: string, p: char -> bool)
    requires |s| > 0 && !p(s[0]) && !p(s[|s| - 1])
    ensures Trim(s, p) == s
  {
    assert TrimStart(s, p) == s;
  }

  /** Where the trimmed text starts inside the original. */
  function TrimOffset(s: string, p: char -> bool): (i: nat)
    ensures i + |Trim(s, p)| <= |s|
    ensures forall k :: 0 <= k < i ==> p(s[k])
  {
    |s| - |TrimStart(s, p)|
  }

  /** Trimming keeps the middle of the text intact ... */
  lemma {:induction false} TrimIsInfix(s: string, p: char -> bool)
    ensures var i := TrimOffset(s, p);
      s == s[..i] + Trim(s, p) + s[i + |Trim(s, p)|..]
  {
    var a := TrimStart(s, p);
    var t := Trim(s, p);
    var i := TrimOffset(s, p);
    assert t == TrimEnd(a, p) && i == |s| - |a|;
    SliceOfSuffix(s, i, |t|);
    SplitInThree(s, i, i + |t|);
  }

  /** A prefix of a suffix is a slice. */
  lemma {:induction false} SliceOfSuffix(s: string, i: nat, n: nat)
    requires i + n <= |s|
    ensures s[i..][..n] == s[i..i + n]
  {
  }

  /** Cutting a text at two points and joining the pieces gives it back. */
  lemma {:induction false} SplitInThree(s: string, i: nat, j: nat)
    requires i <= j <= |s|
    ensures s == s[..i] + s[i..j] + s[j..]
  {
    assert s[..j] == s[..i] + s[i..j];
    assert s == s[..j] + s[j..];
  }

  /** ... and removes only `p` characters after it. */
  lemma {:induction false} TrimDropsTail(s: string, p: char -> bool)
    ensures forall k :: TrimOffset(s, p) + |Trim(s, p)| <= k < |s| ==> p(s[k])
  {
    var a := TrimStart(s, p);
    var t := TrimEnd(a, p);
    var i := |s| - |a|;
    assert forall k :: i + |t| <= k < |s| ==> s[k] == a[k - i];
  }

  /** Java's `String.trim()`. */
  function JavaTrim(s: string): string {
    Trim(s, IsJavaTrimmed)
  }

  /** Kotlin's `CharSequence.trim()`. */
  function KotlinTrim(s: string): string {
    Trim(s, IsKotlinWhitespace)
  }

  /** `s.trim().isEmpty()` in Java: every character is trimmed away. */
  predicate IsBlank(s: string) {
    JavaTrim(s) == []
  }

  lemma {:induction false} BlankIffAllTrimmed(s: string)
    ensures IsBlank(s) <==> forall k :: 0 <= k < |s| ==> IsJavaTrimmed(s[k])
  {
    var a := TrimStart(s, IsJavaTrimmed);
    if a != [] {
      assert !IsJavaTrimmed(s[|s| - |a|]);
    }
  }

  predicate IsPrefix(p: string, s: string) {
    |p| <= |s| && s[..|p|] == p
  }

  lemma {:induction false} FirstCharRulesOutPrefix(p: string, s: string)
    requires |p| > 0 && |s| > 0 && p[0] != s[0]
    ensures !IsPrefix(p, s)
  {
  }

  /** `s.contains(sub)` in Java/Kotlin. */
  predicate Contains(s: string, sub: string) {
    IsPrefix(sub, s) || (|s| > 0 && Contains(s[1..], sub))
  }

  /** `Contains` holds exactly when `sub` occurs at some index of `s`. */
  lemma {:induction false} ContainsIffOccurs(s: string, sub: string)
    ensures Contains(s, sub) <==> exists i :: 0 <= i <= |s| - |sub| && IsPrefix(sub, s[i..])
  {
    if IsPrefix(sub, s) {
      assert s[0..] == s;
    } else if |s| == 0 {
    } else {
      ContainsIffOccurs(s[1..], sub);
      if Contains(s[1..], sub) {
        var i :| 0 <= i <= |s[1..]| - |sub| && IsPrefix(sub, s[1..][i..]);
        assert s[1..][i..] == s[i + 1..];
      }
      if exists i :: 0 <= i <= |s| - |sub| && IsPrefix(sub, s[i..]) {
        var i :| 0 <= i <= |s| - |sub| && IsPrefix(sub, s[i..]);
        assert i != 0 by { assert s[0..] == s; }
        assert s[1..][i - 1..] == s[i..];
      }
    }
  }

  lemma {:induction false} ContainsItself(s: string)
    ensures Contains(s, s)
  {
    assert s[..|s|] == s;
  }

  function DigitChar(d: nat): (c: char)
    requires d < 10
    ensures IsDigit(c)
  {
    '0' + d as char
  }

  /** Decimal rendering of a natural number, as `String.valueOf` prints it. */
  function NatToString(n: nat): (r: string)
    ensures |r| > 0
    ensures forall i :: 0 <= i < |r| ==> IsDigit(r[i])
  {
    if n < 10 then [DigitChar(n)] else NatToString(n / 10) + [DigitChar(n % 10)]
  }

  /** Decimal rendering of a (Java `long`) integer, with a leading '-' for negatives. */
  function IntToString(n: int): (r: string)
    ensures |r| > 0
    ensures n >= 0 ==> forall i :: 0 <= i < |r| ==> IsDigit(r[i])
    ensures n < 0 ==> r[0] == '-'
  {
    if n < 0 then "-" + NatToString(-n) else NatToString(n)
  }

  /** The value of a string of decimal digits, read most significant digit first. */
  function DigitsValue(s: string): nat
    requires forall i :: 0 <= i < |s| ==> IsDigit(s[i])
  {
    if |s| == 0 then 0
    else
      assert IsDigit(s[|s| - 1]);
      10 * DigitsValue(s[..|s| - 1]) + (s[|s| - 1] as int - '0' as int)
  }

  /** Reading a rendered number gives the number back. */
  lemma {:induction false} NatToStringReadsBack(n: nat)
    ensures DigitsValue(NatToString(n)) == n
  {
    if n >= 10 {
      var r := NatToString(n);
      assert r[..|r| - 1] == NatToString(n / 10);
      NatToStringReadsBack(n / 10);
    }
  }

  /** A leading zero does not change the value read. */
  lemma {:induction false} LeadingZeroReadsSame(s: string)
    requires forall i :: 0 <= i < |s| ==> IsDigit(s[i])
    ensures DigitsValue("0" + s) == DigitsValue(s)
  {
    if |s| > 0 {
      var z := "0" + s;
      assert z[..|z| - 1] == "0" + s[..|s| - 1];
      LeadingZeroReadsSame(s[..|s| - 1]);
    } else {
      assert ("0" + s)[..0] == [];
    }
  }

  function Pow10(k: nat): (r: nat)
    ensures r >= 1
  {
    if k == 0 then 1 else 10 * Pow10(k - 1)
  }

  /** A number of at least 10^k takes more than k decimal digits. */
  lemma {:induction false} NatToStringLength(n: nat, k: nat)
    requires n >= Pow10(k)
    ensures |NatToString(n)| > k
  {
    if k > 0 {
      assert n >= 10;
      NatToStringLength(n / 10, k - 1);
    }
  }

  /** A number below 10^k takes at most k decimal digits (one digit for 0). */
  lemma {:induction false} NatToStringShort(n: nat, k: nat)
    requires 0 < k && n < Pow10(k)
    ensures |NatToString(n)| <= k
  {
    if n >= 10 {
      assert k > 1;
      NatToStringShort(n / 10, k - 1);
    }
  }

  /**
   Java's `String.compareTo`: the difference of the first differing
   characters, or else the difference of the lengths.
   */
  function CompareTo(a: string, b: string): int {
    if |a| == 0 || |b| == 0 then |a| - |b|
    else if a[0] != b[0] then a[0] as int - b[0] as int
    else CompareTo(a[1..], b[1..])
  }

  lemma {:induction false} CompareToAntisymmetric(a: string, b: string)
    ensures CompareTo(a, b) == -CompareTo(b, a)
    ensures CompareTo(a, b) == 0 <==> a == b
  {
    if |a| == 0 || |b| == 0 {
    } else if a[0] != b[0] {
    } else {
      CompareToAntisymmetric(a[1..], b[1..]);
      if a[1..] == b[1..] { assert a == [a[0]] + a[1..]; assert b == [b[0]] + b[1..]; }
    }
  }

  lemma {:induction false} CompareToTransitive(a: string, b: string, c: string)
    requires CompareTo(a, b) <= 0 && CompareTo(b, c) <= 0
    ensures CompareTo(a, c) <= 0
  {
    if |a| == 0 || |b| == 0 || |c| == 0 {
      if |b| == 0 { CompareToAntisymmetric(a, b); }
    } else if a[0] != b[0] || b[0] != c[0] {
    } else {
      CompareToTransitive(a[1..], b[1..], c[1..]);
    }
  }

  /** `String.compareToIgnoreCase` / `String.CASE_INSENSITIVE_ORDER`. */
  function CompareIgnoreCase(a: string, b: string): int {
    CompareTo(ToLower(a), ToLower(b))
  }
}
