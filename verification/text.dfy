/**
 * String rendering and scanning helpers shared by the formatter, the colour
 * helpers and the GUI logic: Python's `str(int)`, `format(n, "02d")`,
 * `format(n, "x")` and `str.strip()`.
 */
module Text {

  predicate IsDigit(c: char)
  {
    '0' <= c <= '9'
  }

  predicate AllDigits(s: string)
  {
    forall i :: 0 <= i < |s| ==> IsDigit(s[i])
  }

  function DigitChar(d: nat): (c: char)
    requires d < 10
    ensures IsDigit(c)
    ensures c as int - '0' as int == d
  {
    ('0' as int + d) as char
  }

  /** The number a string of decimal digits denotes (most significant digit first). */
  function DigitsValue(s: string): nat
    requires AllDigits(s)
  {
    if |s| == 0 then 0 else DigitsValue(s[..|s| - 1]) * 10 + (s[|s| - 1] as int - '0' as int)
  }

  /** Python's `str(n)` for a non-negative integer: shortest decimal form. */
  function NatToString(n: nat): (s: string)
    ensures |s| >= 1 && AllDigits(s)
    ensures |s| > 1 ==> s[0] != '0'
    ensures n < 10 <==> |s| == 1
  {
    if n < 10 then [DigitChar(n)] else NatToString(n / 10) + [DigitChar(n % 10)]
  }

  /** A positive number does not print with a leading zero. */
  lemma NatToStringNonZero(n: nat)
    requires n > 0
    ensures NatToString(n)[0] != '0'
  {
    if n < 10 {
      assert NatToString(n) == [DigitChar(n)];
    }
  }

  /** One- and two-digit numbers print in at most two characters. */
  lemma NatToStringShort(n: nat)
    requires n < 100
    ensures |NatToString(n)| <= 2
  {
    if n >= 10 {
      assert NatToString(n) == NatToString(n / 10) + [DigitChar(n % 10)];
    }
  }

  /** `str(n)` is read back as `n`: the decimal rendering loses nothing. */
  lemma {:induction false} NatToStringValue(n: nat)
    ensures DigitsValue(NatToString(n)) == n
  {
    if n >= 10 {
      var s := NatToString(n / 10);
      var t := s + [DigitChar(n % 10)];
      assert t[..|t| - 1] == s;
      NatToStringValue(n / 10);
    }
  }

  /** Python's `str(i)` for any integer: a minus sign before the magnitude when negative. */
  function IntToString(i: int): (s: string)
    ensures i >= 0 ==> s == NatToString(i)
    ensures i < 0 ==> |s| >= 2 && s[0] == '-' && s[1..] == NatToString(-i)
  {
    if i < 0 then "-" + NatToString(-i) else NatToString(i)
  }

  /** Right-aligns `s` in a field of `width` characters, filling on the left. */
  function PadLeft(s: string, width: nat, fill: char): (r: string)
    ensures |r| == if |s| >= width then |s| else width
    ensures r[|r| - |s|..] == s
    ensures forall i :: 0 <= i < |r| - |s| ==> r[i] == fill
  {
    if |s| >= width then s
    else
      var r := seq(width - |s|, _ => fill) + s;
      assert r[|r| - |s|..] == s;
      r
  }

  /** Python's `format(n, "02d")` for a non-negative integer: at least two digits. */
  function Pad2(n: nat): (r: string)
    ensures n < 100 ==> |r| == 2 && AllDigits(r) && DigitsValue(r) == n
    ensures |r| >= 2 && AllDigits(r)
  {
    NatToStringValue(n);
    if n < 10 then
      var r := "0" + NatToString(n);
      assert r[..1] == "0";
      r
    else
      NatToStringShort2(n);
      NatToString(n)
  }

  lemma NatToStringShort2(n: nat)
    requires n >= 10
    ensures |NatToString(n)| >= 2
    ensures n < 100 ==> |NatToString(n)| == 2
  {
    assert NatToString(n) == NatToString(n / 10) + [DigitChar(n % 10)];
  }

  predicate StartsWith(s: string, prefix: string)
  {
    |prefix| <= |s| && s[..|prefix|] == prefix
  }

  predicate EndsWith(s: string, suffix: string)
  {
    |suffix| <= |s| && s[|s| - |suffix|..] == suffix
  }

  lemma ConcatStartsEnds(a: string, b: string)
    ensures StartsWith(a + b, a) && EndsWith(a + b, b)
  {
    assert (a + b)[..|a|] == a;
    assert (a + b)[|a + b| - |b|..] == b;
  }

  // ---------------------------------------------------------------------
  // Hexadecimal digits
  // ---------------------------------------------------------------------

  predicate IsHexDigit(c: char)
  {
    '0' <= c <= '9' || 'a' <= c <= 'f' || 'A' <= c <= 'F'
  }

  /** The value of one hexadecimal digit, either case, as Python's `int(c, 16)`. */
  function HexValue(c: char): (v: nat)
    requires IsHexDigit(c)
    ensures v < 16
  {
    if '0' <= c <= '9' then c as int - '0' as int
    else if 'a' <= c <= 'f' then c as int - 'a' as int + 10
    else c as int - 'A' as int + 10
  }

  /** The lower-case digit Python's `format(d, "x")` prints for `d < 16`. */
  function LowerHexDigit(d: nat): (c: char)
    requires d < 16
    ensures IsHexDigit(c) && HexValue(c) == d
    ensures !('A' <= c <= 'F')
  {
    if d < 10 then ('0' as int + d) as char else ('a' as int + d - 10) as char
  }

  /** Python's `format(n, "x")`: shortest lower-case hexadecimal form. */
  function NatToHex(n: nat): (s: string)
    ensures |s| >= 1
    ensures forall i :: 0 <= i < |s| ==> IsHexDigit(s[i]) && !('A' <= s[i] <= 'F')
    ensures n < 16 <==> |s| == 1
    ensures n < 16 ==> HexValue(s[0]) == n
    ensures 16 <= n < 256 ==> |s| == 2 && HexValue(s[0]) * 16 + HexValue(s[1]) == n
  {
    if n < 16 then [LowerHexDigit(n)] else NatToHex(n / 16) + [LowerHexDigit(n % 16)]
  }

  // ---------------------------------------------------------------------
  // Whitespace (Python's str.isspace / str.strip)
  // ---------------------------------------------------------------------

  /** The characters Python's `str.isspace()` accepts. */
  predicate IsSpace(c: char)
  {
    || c == ' ' || c == '\t' || c == '\n' || c == '\r'
    || c == '\U{0B}' || c == '\U{0C}'
    || ('\U{1C}' <= c <= '\U{1F}')
    || c == '\U{85}' || c == '\U{A0}' || c == '\U{1680}'
    || ('\U{2000}' <= c <= '\U{200A}')
    || c == '\U{2028}' || c == '\U{2029}' || c == '\U{202F}'
    || c == '\U{205F}' || c == '\U{3000}'
  }

  predicate AllSpace(s: string)
  {
    forall i :: 0 <= i < |s| ==> IsSpace(s[i])
  }

  /** Python's `s.lstrip()`: drops the leading whitespace. */
  function StripLeft(s: string): (r: string)
    ensures |r| <= |s| && r == s[|s| - |r|..]
    ensures AllSpace(s[..|s| - |r|])
    ensures |r| > 0 ==> !IsSpace(r[0])
  {
    if |s| > 0 && IsSpace(s[0]) then
      var r := StripLeft(s[1..]);
      StripLeftStep(s, r);
      r
    else s
  }

  lemma StripLeftStep(s: string, r: string)
    requires |s| > 0 && IsSpace(s[0])
    requires |r| <= |s| - 1 && r == s[1..][|s| - 1 - |r|..]
    requires AllSpace(s[1..][..|s| - 1 - |r|])
    ensures r == s[|s| - |r|..] && AllSpace(s[..|s| - |r|])
  {
    var k := |s| - |r|;
    forall i | 0 <= i < k
      ensures IsSpace(s[..k][i])
    {
      if i > 0 {
        assert s[..k][i] == s[1..][..k - 1][i - 1];
      }
    }
  }

  /** Python's `s.rstrip()`: drops the trailing whitespace. */
  function StripRight(s: string): (r: string)
    ensures |r| <= |s| && r == s[..|r|]
    ensures AllSpace(s[|r|..])
    ensures |r| > 0 ==> !IsSpace(r[|r| - 1])
  {
    if |s| > 0 && IsSpace(s[|s| - 1]) then
      var r := StripRight(s[..|s| - 1]);
      assert s[|r|..] == s[..|s| - 1][|r|..] + [s[|s| - 1]];
      r
    else s
  }

  /** Python's `s.strip()`. */
  function Strip(s: string): (r: string)
    ensures |r| <= |s|
    ensures |r| > 0 ==> !IsSpace(r[0]) && !IsSpace(r[|r| - 1])
    ensures |r| == 0 <==> AllSpace(s)
    ensures exists i, j :: TrimmedSlice(s, r, i, j)
  {
    StripFacts(s);
    StripSlice(s);
    StripRight(StripLeft(s))
  }

  /** `r` is `s[i..j]`, and everything of `s` outside that slice is whitespace. */
  predicate TrimmedSlice(s: string, r: string, i: int, j: int)
  {
    0 <= i <= j <= |s| && r == s[i..j] && AllSpace(s[..i]) && AllSpace(s[j..])
  }

  lemma StripSlice(s: string)
    ensures TrimmedSlice(s, StripRight(StripLeft(s)), |s| - |StripLeft(s)|,
                         |s| - |StripLeft(s)| + |StripRight(StripLeft(s))|)
  {
    TrimBothEnds(s, StripLeft(s), StripRight(StripLeft(s)));
  }

  /**
   * Dropping a whitespace prefix of `s` to get `l`, then a whitespace suffix
   * of `l` to get `r`, leaves `r` as a trimmed slice of `s`.
   */
  lemma TrimBothEnds(s: string, l: string, r: string)
    requires |l| <= |s| && l == s[|s| - |l|..] && AllSpace(s[..|s| - |l|])
    requires |r| <= |l| && r == l[..|r|] && AllSpace(l[|r|..])
    ensures TrimmedSlice(s, r, |s| - |l|, |s| - |l| + |r|)
  {
    var i := |s| - |l|;
    assert r == s[i..i + |r|];
    assert l[|r|..] == s[i + |r|..];
  }

  lemma StripFacts(s: string)
    ensures |StripRight(StripLeft(s))| == 0 <==> AllSpace(s)
  {
    var l := StripLeft(s);
    if |StripRight(l)| == 0 {
      assert l == l[0..];
      assert |l| == 0;
      assert s[..|s|] == s;
    }
  }

  /** A string with no whitespace at either end is left as it is. */
  lemma StripKeepsTrimmed(s: string)
    requires |s| > 0 ==> !IsSpace(s[0]) && !IsSpace(s[|s| - 1])
    ensures Strip(s) == s
  {
  }

  /** Stripping is idempotent: a stripped string has no whitespace left at either end. */
  lemma StripIdempotent(s: string)
    ensures Strip(Strip(s)) == Strip(s)
  {
    var r := Strip(s);
    if |r| > 0 {
      assert StripLeft(r) == r;
      assert StripRight(r) == r;
    }
  }
}
