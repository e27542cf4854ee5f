/**
 * Text primitives of the matcher: Python's str.strip(), an ASCII model of
 * str.lower(), the substring test `needle in hay`, and normalize_string
 * (src/matcher.py).
 */
module Text {

  /** Characters for which Python's str.isspace() holds (what strip() removes). */
  predicate IsSpace(c: char) {
    ('\t' <= c <= '\r') || ('\U{1C}' <= c <= '\U{20}') || c == '\U{85}' || c == '\U{A0}' ||
    c == '\U{1680}' || ('\U{2000}' <= c <= '\U{200A}') || c == '\U{2028}' || c == '\U{2029}' ||
    c == '\U{202F}' || c == '\U{205F}' || c == '\U{3000}'
  }

  /** A precomposed Hangul syllable, the range 가-힣 of the normaliser's regular expression. */
  predicate IsHangulSyllable(c: char) {
    '\U{AC00}' <= c <= '\U{D7A3}'
  }

  /** The characters normalize_string keeps: a-z, 0-9 and 가-힣. */
  predicate IsKept(c: char) {
    ('a' <= c <= 'z') || ('0' <= c <= '9') || IsHangulSyllable(c)
  }

  /** Leading whitespace removed; the result is a suffix of s. */
  function TrimStart(s: string): string {
    if |s| > 0 && IsSpace(s[0]) then TrimStart(s[1..]) else s
  }

  /** Trailing whitespace removed; the result is a prefix of s. */
  function TrimEnd(s: string): string {
    if |s| > 0 && IsSpace(s[|s| - 1]) then TrimEnd(s[..|s| - 1]) else s
  }

  /** Python's s.strip(). */
  function Strip(s: string): string {
    TrimEnd(TrimStart(s))
  }

  /** `not s.strip()`: the source's test for a blank cell or query. */
  predicate IsBlank(s: string) {
    Strip(s) == ""
  }

  function LowerChar(c: char): char {
    if 'A' <= c <= 'Z' then (c as int + 32) as char else c
  }

  /** str.lower() restricted to ASCII letters. */
  function LowerAscii(s: string): (r: string)
    ensures |r| == |s|
  {
    seq(|s|, i requires 0 <= i < |s| => LowerChar(s[i]))
  }

  /** Lower-casing maps A-Z to a-z, one for one, and leaves every other character as it is. */
  lemma LowerAsciiSpec(s: string)
    ensures |LowerAscii(s)| == |s|
    ensures forall i :: 0 <= i < |s| ==>
      LowerAscii(s)[i] == if 'A' <= s[i] <= 'Z' then (s[i] as int - 'A' as int + 'a' as int) as char else s[i]
  {
  }

  /** re.sub(r'[^a-z0-9가-힣]', '', s): keep the kept characters, in order. */
  function KeepOnly(s: string): string {
    if s == [] then []
    else if IsKept(s[0]) then [s[0]] + KeepOnly(s[1..])
    else KeepOnly(s[1..])
  }

  /** normalize_string (src/matcher.py:9-34): strip, lower-case, keep a-z, 0-9, 가-힣. */
  function Normalize(s: string): string {
    KeepOnly(LowerAscii(Strip(s)))
  }

  /** TrimStart removes exactly a run of leading whitespace: a suffix of s that is empty or starts with a non-space. */
  lemma {:induction false} TrimStartSpec(s: string)
    ensures var r := TrimStart(s);
      && |r| <= |s| && r == s[|s| - |r|..]
      && (forall k :: 0 <= k < |s| - |r| ==> IsSpace(s[k]))
      && (r == [] || !IsSpace(r[0]))
  {
    if |s| > 0 && IsSpace(s[0]) {
      TrimStartSpec(s[1..]);
    }
  }

  /** TrimEnd removes exactly a run of trailing whitespace: a prefix of s that is empty or ends with a non-space. */
  lemma {:induction false} TrimEndSpec(s: string)
    ensures var r := TrimEnd(s);
      && |r| <= |s| && r == s[..|r|]
      && (forall k :: |r| <= k < |s| ==> IsSpace(s[k]))
      && (r == [] || !IsSpace(r[|r| - 1]))
  {
    if |s| > 0 && IsSpace(s[|s| - 1]) {
      TrimEndSpec(s[..|s| - 1]);
    }
  }

  /**
   * KeepOnly keeps only kept characters, never lengthens its input, and
   * keeps every occurrence of every kept character.
   */
  lemma {:induction false} KeepOnlySpec(s: string)
    ensures |KeepOnly(s)| <= |s|
    ensures forall k :: 0 <= k < |KeepOnly(s)| ==> IsKept(KeepOnly(s)[k])
    ensures forall c :: IsKept(c) ==> multiset(KeepOnly(s))[c] == multiset(s)[c]
  {
    if s != [] {
      KeepOnlySpec(s[1..]);
      assert s == [s[0]] + s[1..];
    }
  }

  /** The filter works left to right: the kept characters of a + b are those of a, then those of b. */
  lemma {:induction false} KeepOnlyAppend(a: string, b: string)
    ensures KeepOnly(a + b) == KeepOnly(a) + KeepOnly(b)
  {
    if a == [] {
      assert a + b == b;
    } else {
      assert (a + b)[0] == a[0];
      assert (a + b)[1..] == a[1..] + b;
      KeepOnlyAppend(a[1..], b);
    }
  }

  /**
   * normalize_string maps "" to "", never lengthens its input, its output
   * holds only a-z, 0-9 and 가-힣, and every a-z, 0-9 or 가-힣 character of
   * the stripped, lower-cased input survives as often as it occurs
   * (src/matcher.py:23-34).
   */
  lemma NormalizeSpec(s: string)
    ensures s == "" ==> Normalize(s) == ""
    ensures |Normalize(s)| <= |s|
    ensures forall k :: 0 <= k < |Normalize(s)| ==> IsKept(Normalize(s)[k])
    ensures forall c :: IsKept(c) ==> multiset(Normalize(s))[c] == multiset(LowerAscii(Strip(s)))[c]
  {
    TrimStartSpec(s);
    TrimEndSpec(TrimStart(s));
    KeepOnlySpec(LowerAscii(Strip(s)));
  }

  /** Python's `needle in hay` for strings (the empty needle is in every string). */
  predicate Contains(hay: string, needle: string) {
    exists i | 0 <= i <= |hay| - |needle| :: OccursAt(hay, needle, i)
  }

  predicate OccursAt(hay: string, needle: string, i: int) {
    0 <= i <= |hay| - |needle| && hay[i..i + |needle|] == needle
  }

  /** Decimal rendering of a natural number, as Python's str(int). */
  function DecimalString(n: nat): (r: string)
    ensures |r| > 0
    ensures forall k :: 0 <= k < |r| ==> '0' <= r[k] <= '9'
  {
    var d := ['0' + (n % 10) as char];
    if n < 10 then d else DecimalString(n / 10) + d
  }

  /** The number a string of decimal digits denotes. */
  function DigitsValue(s: string): int {
    if s == [] then 0 else DigitsValue(s[..|s| - 1]) * 10 + (s[|s| - 1] as int - '0' as int)
  }

  /** The rendering denotes n and has no leading zero, as str(int) (src/matcher.py:247). */
  lemma {:induction false} DecimalStringValue(n: nat)
    ensures DigitsValue(DecimalString(n)) == n
    ensures DecimalString(n)[0] != '0' || DecimalString(n) == "0"
  {
    var r := DecimalString(n);
    if n >= 10 {
      DecimalStringValue(n / 10);
      assert r[..|r| - 1] == DecimalString(n / 10);
      assert r[0] == DecimalString(n / 10)[0];
    } else {
      assert r[..|r| - 1] == [];
    }
  }

  lemma {:induction false} StripNoSpace(s: string)
    requires forall k :: 0 <= k < |s| ==> !IsSpace(s[k])
    ensures Strip(s) == s
  {
    assert TrimStart(s) == s;
    assert TrimEnd(s) == s;
  }

  lemma {:induction false} LowerKept(s: string)
    requires forall k :: 0 <= k < |s| ==> IsKept(s[k])
    ensures LowerAscii(s) == s
  {
    assert forall k :: 0 <= k < |s| ==> LowerChar(s[k]) == s[k];
  }

  lemma {:induction false} KeepOnlyKept(s: string)
    requires forall k :: 0 <= k < |s| ==> IsKept(s[k])
    ensures KeepOnly(s) == s
  {
    if s != [] {
      KeepOnlyKept(s[1..]);
    }
  }

  /** A string of kept characters only (lower-case letters, digits, Hangul syllables) normalises to itself. */
  lemma NormalizeFixesKept(s: string)
    requires forall k :: 0 <= k < |s| ==> IsKept(s[k])
    ensures Normalize(s) == s
  {
    assert forall k :: 0 <= k < |s| ==> !IsSpace(s[k]) by {
      forall k | 0 <= k < |s| ensures !IsSpace(s[k]) { assert IsKept(s[k]); }
    }
    StripNoSpace(s);
    LowerKept(s);
    KeepOnlyKept(s);
  }

  /** Normalising twice is normalising once (src/matcher.py:23-34). */
  lemma {:induction false} NormalizeIdempotent(s: string)
    ensures Normalize(Normalize(s)) == Normalize(s)
  {
    NormalizeSpec(s);
    NormalizeFixesKept(Normalize(s));
  }
}
