/**
 * The colour helpers of app/main.py: `_hex_to_rgb`, which reads three
 * two-character fields of a `#rrggbb` string with Python's `int(s, 16)`,
 * and `_lerp_hex`, which blends two such colours and prints the result with
 * `format(c, "02x")`.
 */
module Colors {
  import opened Base
  import opened Text
  import opened Numeric

  datatype Rgb = Rgb(r: int, g: int, b: int)

  /** `h.lstrip("#")`: drops every leading `#`. */
  function StripHashes(h: string): (t: string)
    ensures |t| <= |h| && t == h[|h| - |t|..]
    ensures forall i :: 0 <= i < |h| - |t| ==> h[i] == '#'
    ensures |t| > 0 ==> t[0] != '#'
  {
    if |h| > 0 && h[0] == '#' then
      var t := StripHashes(h[1..]);
      assert forall i :: 1 <= i < |h| - |t| ==> h[i] == h[1..][i - 1];
      t
    else h
  }

  /** Python's slice `t[i:j]` for `0 <= i <= j`: both ends are clipped to the length. */
  function Slice(t: string, i: nat, j: nat): (s: string)
    requires i <= j
    ensures |s| <= j - i
    ensures j <= |t| ==> s == t[i..j]
  {
    if |t| <= i then [] else if |t| <= j then t[i..] else t[i..j]
  }

  /**
   * Python's `int(s, 16)` on a string of at most two characters, `None`
   * where it raises `ValueError`: surrounding whitespace is ignored, one
   * sign is allowed, and at least one hex digit must remain.  (Underscores
   * and a `0x` prefix need three characters or more, so they cannot occur.)
   */
  function HexField(s: string): (v: Option<int>)
    requires |s| <= 2
    ensures v.Some? ==> -15 <= v.value <= 255
    ensures |s| == 2 && IsHexDigit(s[0]) && IsHexDigit(s[1]) ==>
              v == Some(HexValue(s[0]) * 16 + HexValue(s[1]))
    ensures |s| == 0 ==> v.None?
  {
    FieldValue(StripShort(s))
  }

  /** `s.strip()` written out for a string of at most two characters. */
  function StripShort(s: string): (t: string)
    requires |s| <= 2
    ensures |t| <= |s|
    ensures |s| == 2 && !IsSpace(s[0]) && !IsSpace(s[1]) ==> t == s
  {
    if |s| == 0 then s
    else if |s| == 1 then (if IsSpace(s[0]) then [] else s)
    else if IsSpace(s[0]) then (if IsSpace(s[1]) then [] else s[1..])
    else if IsSpace(s[1]) then s[..1]
    else s
  }

  /** The two-character strip agrees with Python's `str.strip()`. */
  lemma StripShortIsStrip(s: string)
    requires |s| <= 2
    ensures StripShort(s) == Strip(s)
  {
    if |s| == 2 {
      if IsSpace(s[0]) && !IsSpace(s[1]) {
        assert StripLeft(s) == StripLeft(s[1..]);
        assert StripLeft(s[1..]) == s[1..];
      } else if !IsSpace(s[0]) && IsSpace(s[1]) {
        assert StripRight(s) == StripRight(s[..1]);
        assert StripRight(s[..1]) == s[..1];
      } else if IsSpace(s[0]) && IsSpace(s[1]) {
        assert AllSpace(s);
      }
    } else if |s| == 1 && IsSpace(s[0]) {
      assert AllSpace(s);
    }
  }

  /** The value of a field once its surrounding whitespace is gone. */
  function FieldValue(t: string): (v: Option<int>)
    requires |t| <= 2
    ensures v.Some? ==> -15 <= v.value <= 255
    ensures |t| == 2 && IsHexDigit(t[0]) && IsHexDigit(t[1]) ==>
              v == Some(HexValue(t[0]) * 16 + HexValue(t[1]))
    ensures |t| == 0 ==> v.None?
  {
    if |t| == 0 then None
    else if t[0] == '+' || t[0] == '-' then
      if |t| == 2 && IsHexDigit(t[1]) then
        Some(if t[0] == '-' then -(HexValue(t[1]) as int) else HexValue(t[1]))
      else None
    else if |t| == 1 && IsHexDigit(t[0]) then Some(HexValue(t[0]))
    else if |t| == 2 && IsHexDigit(t[0]) && IsHexDigit(t[1]) then
      Some(HexValue(t[0]) * 16 + HexValue(t[1]))
    else None
  }

  /** `_hex_to_rgb(h)`, `None` where it raises `ValueError`. */
  function HexToRgb(h: string): (c: Option<Rgb>)
    ensures c.Some? ==> -15 <= c.value.r <= 255 && -15 <= c.value.g <= 255 && -15 <= c.value.b <= 255
  {
    var t := StripHashes(h);
    var r := HexField(Slice(t, 0, 2));
    var g := HexField(Slice(t, 2, 4));
    var b := HexField(Slice(t, 4, 6));
    if r.Some? && g.Some? && b.Some? then Some(Rgb(r.value, g.value, b.value)) else None
  }

  /** Python's `format(n, "02x")`: at least two lower-case digits, a minus sign before negatives. */
  function Hex02(n: int): (s: string)
    ensures 0 <= n < 256 ==> |s| == 2 && IsHexDigit(s[0]) && IsHexDigit(s[1])
                             && HexValue(s[0]) * 16 + HexValue(s[1]) == n
                             && !('A' <= s[0] <= 'F') && !('A' <= s[1] <= 'F')
    ensures n < 0 ==> |s| >= 2 && s[0] == '-'
  {
    if n < 0 then "-" + NatToHex(-n)
    else
      var h := NatToHex(n);
      if |h| < 2 then "0" + h else h
  }

  /** `"#" + format(r, "02x") + format(g, "02x") + format(b, "02x")`. */
  function Render(c: Rgb): string
  {
    "#" + Hex02(c.r) + Hex02(c.g) + Hex02(c.b)
  }

  /** `_lerp_hex(c1, c2, t)`: per channel `int(a + (b - a) * t)`; `None` where a parse raises. */
  function LerpHex(c1: string, c2: string, t: real): (s: Option<string>)
    ensures s.Some? <==> HexToRgb(c1).Some? && HexToRgb(c2).Some?
  {
    var a := HexToRgb(c1);
    var b := HexToRgb(c2);
    if a.Some? && b.Some? then
      Some(Render(Rgb(Blend(a.value.r, b.value.r, t), Blend(a.value.g, b.value.g, t),
                      Blend(a.value.b, b.value.b, t))))
    else None
  }

  /** One channel of the blend: `int(a + (b - a) * t)`. */
  function Blend(a: int, b: int, t: real): (c: int)
    ensures t == 0.0 ==> c == a
    ensures t == 1.0 ==> c == b
    ensures 0.0 <= t <= 1.0 && 0 <= a && 0 <= b ==>
              (if a <= b then a <= c <= b else b <= c <= a)
  {
    var x := a as real + (b - a) as real * t;
    if 0.0 <= t <= 1.0 then BlendBetween(a, b, t); Truncate(x) else Truncate(x)
  }

  lemma BlendBetween(a: int, b: int, t: real)
    requires 0.0 <= t <= 1.0
    ensures var x := a as real + (b - a) as real * t;
            (if a <= b then a as real <= x <= b as real else b as real <= x <= a as real)
  {
    var d := (b - a) as real;
    if a <= b {
      assert 0.0 <= d * t <= d;
    } else {
      assert d <= d * t <= 0.0;
    }
  }

  // ---------------------------------------------------------------------
  // Well-formed colours
  // ---------------------------------------------------------------------

  /** `#` followed by exactly six hex digits, either case. */
  predicate IsHexColor(h: string)
  {
    |h| == 7 && h[0] == '#' && forall i :: 1 <= i < 7 ==> IsHexDigit(h[i])
  }

  /** The colour a well-formed string names. */
  function ColorOf(h: string): (c: Rgb)
    requires IsHexColor(h)
    ensures 0 <= c.r < 256 && 0 <= c.g < 256 && 0 <= c.b < 256
  {
    Rgb(HexValue(h[1]) * 16 + HexValue(h[2]), HexValue(h[3]) * 16 + HexValue(h[4]),
        HexValue(h[5]) * 16 + HexValue(h[6]))
  }

  /** The lower-case spelling of a hex digit. */
  function LowerDigit(c: char): (d: char)
    requires IsHexDigit(c)
    ensures IsHexDigit(d) && HexValue(d) == HexValue(c) && !('A' <= d <= 'F')
  {
    LowerHexDigit(HexValue(c))
  }

  /** A well-formed colour with its hex digits in lower case. */
  function Lowered(h: string): (l: string)
    requires IsHexColor(h)
    ensures IsHexColor(l) && ColorOf(l) == ColorOf(h)
  {
    ['#', LowerDigit(h[1]), LowerDigit(h[2]), LowerDigit(h[3]), LowerDigit(h[4]),
     LowerDigit(h[5]), LowerDigit(h[6])]
  }

  /** A well-formed colour string parses to the colour it names. */
  lemma ParseHexColor(h: string)
    requires IsHexColor(h)
    ensures HexToRgb(h) == Some(ColorOf(h))
  {
    var t := h[1..];
    assert StripHashes(h) == t by {
      assert t[0] == h[1] && h[1] != '#';
    }
    assert Slice(t, 0, 2) == h[1..3];
    assert Slice(t, 2, 4) == h[3..5];
    assert Slice(t, 4, 6) == h[5..7];
    DigitsField2(h[1..3], h[1], h[2]);
    DigitsField2(h[3..5], h[3], h[4]);
    DigitsField2(h[5..7], h[5], h[6]);
    var c := ColorOf(h);
    assert HexField(Slice(t, 0, 2)) == Some(c.r);
    assert HexField(Slice(t, 2, 4)) == Some(c.g);
    assert HexField(Slice(t, 4, 6)) == Some(c.b);
    FieldsToRgb(h, t, c);
  }

  /** `_hex_to_rgb` in terms of its three fields of the string left after the `#`s. */
  lemma FieldsToRgb(h: string, t: string, c: Rgb)
    requires StripHashes(h) == t
    requires HexField(Slice(t, 0, 2)) == Some(c.r) && HexField(Slice(t, 2, 4)) == Some(c.g)
    requires HexField(Slice(t, 4, 6)) == Some(c.b)
    ensures HexToRgb(h) == Some(c)
  {
  }

  lemma FieldOfDigits(t: string, i: nat)
    requires i + 2 <= |t| && IsHexDigit(t[i]) && IsHexDigit(t[i + 1])
    ensures HexField(Slice(t, i, i + 2)) == Some(HexValue(t[i]) * 16 + HexValue(t[i + 1]))
  {
    assert Slice(t, i, i + 2) == t[i..i + 2];
    DigitsField2(t[i..i + 2], t[i], t[i + 1]);
  }

  lemma DigitsField2(s: string, c: char, d: char)
    requires |s| == 2 && IsHexDigit(c) && IsHexDigit(d) && s[0] == c && s[1] == d
    ensures HexField(s) == Some(HexValue(c) * 16 + HexValue(d))
  {
    assert HexField(s) == Some(HexValue(s[0]) * 16 + HexValue(s[1]));
  }

  /** Two digits printed by `Hex02` are the lower-case spelling of any two digits of the same value. */
  lemma Hex02Digits(n: int, a: char, b: char)
    requires IsHexDigit(a) && IsHexDigit(b) && n == HexValue(a) * 16 + HexValue(b)
    ensures Hex02(n) == [LowerDigit(a), LowerDigit(b)]
  {
    var s := Hex02(n);
    LowerHexUnique(s[0], LowerDigit(a));
    LowerHexUnique(s[1], LowerDigit(b));
  }

  /** A lower-case hex digit is determined by its value. */
  lemma LowerHexUnique(c: char, d: char)
    requires IsHexDigit(c) && IsHexDigit(d) && !('A' <= c <= 'F') && !('A' <= d <= 'F')
    requires HexValue(c) == HexValue(d)
    ensures c == d
  {
  }

  /** Printing a colour whose channels are bytes and reading it back gives the colour. */
  lemma RenderRoundTrip(c: Rgb)
    requires 0 <= c.r < 256 && 0 <= c.g < 256 && 0 <= c.b < 256
    ensures IsHexColor(Render(c)) && ColorOf(Render(c)) == c
    ensures HexToRgb(Render(c)) == Some(c)
  {
    var x, y, z := Hex02(c.r), Hex02(c.g), Hex02(c.b);
    RenderShape(x, y, z);
    var s := Render(c);
    assert IsHexColor(s) by {
      assert s == ['#', x[0], x[1], y[0], y[1], z[0], z[1]];
    }
    assert ColorOf(s) == c;
    ParseHexColor(s);
  }

  /** Three two-character fields after a `#` make a seven-character string. */
  lemma RenderShape(x: string, y: string, z: string)
    requires |x| == 2 && |y| == 2 && |z| == 2
    ensures "#" + x + y + z == ['#', x[0], x[1], y[0], y[1], z[0], z[1]]
  {
  }

  /** Reading a well-formed colour and printing it gives its lower-case spelling. */
  lemma RenderOfParse(h: string)
    requires IsHexColor(h)
    ensures Render(ColorOf(h)) == Lowered(h)
  {
    var c := ColorOf(h);
    Hex02Digits(c.r, h[1], h[2]);
    Hex02Digits(c.g, h[3], h[4]);
    Hex02Digits(c.b, h[5], h[6]);
    SixDigits(LowerDigit(h[1]), LowerDigit(h[2]), LowerDigit(h[3]), LowerDigit(h[4]),
              LowerDigit(h[5]), LowerDigit(h[6]));
  }

  lemma SixDigits(a: char, b: char, c: char, d: char, e: char, f: char)
    ensures "#" + [a, b] + [c, d] + [e, f] == ['#', a, b, c, d, e, f]
  {
  }

  /** At `t = 0` the blend re-renders the first colour, in lower case. */
  lemma LerpAtStart(c1: string, c2: string)
    requires IsHexColor(c1) && IsHexColor(c2)
    ensures LerpHex(c1, c2, 0.0) == Some(Lowered(c1))
  {
    ParseHexColor(c1);
    ParseHexColor(c2);
    RenderOfParse(c1);
  }

  /** At `t = 1` the blend re-renders the second colour, in lower case. */
  lemma LerpAtEnd(c1: string, c2: string)
    requires IsHexColor(c1) && IsHexColor(c2)
    ensures LerpHex(c1, c2, 1.0) == Some(Lowered(c2))
  {
    ParseHexColor(c1);
    ParseHexColor(c2);
    RenderOfParse(c2);
  }

  /**
   * For `0 <= t <= 1` every channel of the blend lies between the two
   * colours' channels, so the result is again a well-formed colour.
   */
  lemma LerpStaysInGamut(c1: string, c2: string, t: real)
    requires IsHexColor(c1) && IsHexColor(c2) && 0.0 <= t <= 1.0
    ensures LerpHex(c1, c2, t).Some? && IsHexColor(LerpHex(c1, c2, t).value)
  {
    ParseHexColor(c1);
    ParseHexColor(c2);
    var a := ColorOf(c1);
    var b := ColorOf(c2);
    RenderRoundTrip(Rgb(Blend(a.r, b.r, t), Blend(a.g, b.g, t), Blend(a.b, b.b, t)));
  }
}
