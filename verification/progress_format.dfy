/**
 * The progress formatter of app/downloader.py: `_format_bytes`, `_format_eta`
 * and `format_status_line`.  Python floats are modelled by their exact value
 * as a `real`; dividing by 1024 is exact in binary floating point, so the
 * unit chosen here is the unit Python chooses.
 */
module ProgressFormat {
  import opened Base
  import opened Text
  import opened Numeric
  import opened Events

  /** The placeholder printed for an unknown quantity (an em dash). */
  const Dash: string := "\U{2014}"

  const Units: seq<string> := ["B", "KB", "MB", "GB", "TB"]

  function Pow1024(i: nat): (p: nat)
    ensures p >= 1
  {
    if i == 0 then 1 else 1024 * Pow1024(i - 1)
  }

  lemma {:induction false} Pow1024Monotone(a: nat, b: nat)
    requires a <= b
    ensures Pow1024(a) <= Pow1024(b)
  {
    if a < b {
      Pow1024Monotone(a, b - 1);
    }
  }

  // ---------------------------------------------------------------------
  // _format_bytes
  // ---------------------------------------------------------------------

  /**
   * The unit `_format_bytes` settles on: the largest index `i <= 4` with
   * `v >= 1024^i`, or 0 (bytes) when `v < 1024`.
   */
  function UnitIndex(v: real): (i: nat)
    ensures i <= 4
    ensures i == 0 || v >= Pow1024(i) as real
    ensures i == 4 || v < Pow1024(i + 1) as real
  {
    LargestUnitFrom(v, 4)
  }

  function LargestUnitFrom(v: real, i: nat): (j: nat)
    requires i <= 4
    requires i == 4 || v < Pow1024(i + 1) as real
    ensures j <= i
    ensures j == 0 || v >= Pow1024(j) as real
    ensures j == 4 || v < Pow1024(j + 1) as real
  {
    if i == 0 || v >= Pow1024(i) as real then i else LargestUnitFrom(v, i - 1)
  }

  /** Any index meeting the two bounds is the one `UnitIndex` picks. */
  lemma UnitIndexUnique(v: real, j: nat)
    requires j <= 4
    requires j == 0 || v >= Pow1024(j) as real
    requires j == 4 || v < Pow1024(j + 1) as real
    ensures j == UnitIndex(v)
  {
    var i := UnitIndex(v);
    if j < i {
      Pow1024Monotone(j + 1, i);
    } else if i < j {
      Pow1024Monotone(i + 1, j);
    }
  }

  /** Python's `f"{x:.2f}"` for `x >= 0`: the exact value rounded half-to-even to 2 places. */
  function Fixed2(x: real): (r: string)
    requires x >= 0.0
    ensures |r| >= 4 && r[|r| - 3] == '.'
    ensures AllDigits(r[..|r| - 3]) && AllDigits(r[|r| - 2..])
    ensures DigitsValue(r[..|r| - 3]) * 100 + DigitsValue(r[|r| - 2..]) == RoundHalfEven(x * 100.0)
    ensures |r| == 4 || r[0] != '0'
  {
    var k := RoundHalfEven(x * 100.0);
    assert k >= 0;
    var whole := NatToString(k / 100);
    var r := whole + "." + Pad2(k % 100);
    assert r[..|r| - 3] == whole;
    assert r[|r| - 2..] == Pad2(k % 100);
    assert r[0] == whole[0];
    NatToStringValue(k / 100);
    r
  }

  /** The number `_format_bytes` prints before the unit, for the unit index `i`. */
  function Magnitude(v: real, i: nat): (s: string)
    requires v > 0.0 && i <= 4
    ensures |s| >= 1
  {
    if i == 0 then NatToString(Scaled(v, i).Floor) else Fixed2(Scaled(v, i))
  }

  /** The size expressed in the unit of index `i`. */
  function Scaled(v: real, i: nat): (x: real)
    ensures v > 0.0 ==> x > 0.0
  {
    v / Pow1024(i) as real
  }

  /** `_format_bytes(num)`. */
  function FormatBytes(num: Option<real>): (r: string)
    ensures r == Dash <==> num.None? || num.value <= 0.0
    ensures num.Some? && num.value > 0.0 ==>
              var i := UnitIndex(num.value);
              |r| > |Units[i]| + 1 && r[|r| - |Units[i]| - 1..] == " " + Units[i]
    ensures num.Some? && 0.0 < num.value < 1024.0 ==>
              r == NatToString(num.value.Floor) + " B"
    ensures num.Some? && num.value >= 1024.0 ==>
              UnitIndex(num.value) >= 1 &&
              r == Fixed2(Scaled(num.value, UnitIndex(num.value))) + " " + Units[UnitIndex(num.value)]
  {
    if num.None? || num.value <= 0.0 then Dash
    else
      var r := Magnitude(num.value, UnitIndex(num.value)) + " " + Units[UnitIndex(num.value)];
      FormatBytesText(num, r);
      r
  }

  /** The clauses of `FormatBytes` for a positive size, stated about its text. */
  lemma FormatBytesText(num: Option<real>, r: string)
    requires num.Some? && num.value > 0.0
    requires r == Magnitude(num.value, UnitIndex(num.value)) + " " + Units[UnitIndex(num.value)]
    ensures r != Dash
    ensures var i := UnitIndex(num.value);
              |r| > |Units[i]| + 1 && r[|r| - |Units[i]| - 1..] == " " + Units[i]
    ensures num.value < 1024.0 ==> r == NatToString(num.value.Floor) + " B"
    ensures num.value >= 1024.0 ==>
              UnitIndex(num.value) >= 1 &&
              r == Fixed2(Scaled(num.value, UnitIndex(num.value))) + " " + Units[UnitIndex(num.value)]
  {
    FormatBytesShape(num.value);
  }

  lemma FormatBytesShape(v: real)
    requires v > 0.0
    ensures var i := UnitIndex(v);
      var r := Magnitude(v, i) + " " + Units[i];
      && |r| > |Units[i]| + 1 && r[|r| - |Units[i]| - 1..] == " " + Units[i]
      && r != Dash
      && (v < 1024.0 ==> r == NatToString(v.Floor) + " B")
      && (v >= 1024.0 ==> i >= 1 && r == Fixed2(Scaled(v, i)) + " " + Units[i])
  {
    var i := UnitIndex(v);
    UnitSuffix(Magnitude(v, i), Units[i]);
    if v < 1024.0 {
      BytesText(v);
    } else {
      AboveOneKilobyte(v);
    }
  }

  lemma BytesText(v: real)
    requires 0.0 < v < 1024.0
    ensures Magnitude(v, UnitIndex(v)) + " " + Units[UnitIndex(v)] == NatToString(v.Floor) + " B"
  {
    BelowOneKilobyte(v);
    ByteSuffix(NatToString(v.Floor));
  }

  lemma AboveOneKilobyte(v: real)
    requires v >= 1024.0
    ensures UnitIndex(v) >= 1 && Magnitude(v, UnitIndex(v)) == Fixed2(Scaled(v, UnitIndex(v)))
  {
    assert Pow1024(1) == 1024;
  }

  lemma ByteSuffix(m: string)
    ensures m + " " + Units[0] == m + " B"
  {
    assert Units[0] == "B";
    ConcatAssoc(m, " ", "B");
    assert " " + "B" == " B";
  }

  lemma UnitSuffix(m: string, u: string)
    requires |m| >= 1
    ensures var r := m + " " + u;
      |r| > |u| + 1 && r[|r| - |u| - 1..] == " " + u && r != Dash
  {
    var r := m + " " + u;
    assert r[|r| - |u| - 1..] == " " + u;
  }

  lemma BelowOneKilobyte(v: real)
    requires 0.0 < v < 1024.0
    ensures UnitIndex(v) == 0 && Magnitude(v, 0) == NatToString(v.Floor)
  {
    assert Pow1024(1) == 1024;
    UnitIndexUnique(v, 0);
    assert Pow1024(0) as real == 1.0;
    assert v / Pow1024(0) as real == v;
  }

  /**
   * The loop of `_format_bytes` as written: divide by 1024 while the value is
   * at least 1024 and a larger unit remains.  It ends on `UnitIndex`, with the
   * value scaled by exactly 1024 per step.
   */
  method ScaleToUnit(num: real) returns (n: real, i: nat)
    requires num > 0.0
    ensures i == UnitIndex(num)
    ensures n == num / Pow1024(i) as real
  {
    n := num;
    i := 0;
    while n >= 1024.0 && i < 4
      invariant i <= 4
      invariant n * Pow1024(i) as real == num
      invariant i == 0 || n >= 1.0
    {
      ScaleStep(n, i);
      n := n / 1024.0;
      i := i + 1;
    }
    ScaleExit(n, i, num);
    UnitIndexUnique(num, i);
  }

  /** One turn of the loop keeps the scaled value times the unit size fixed. */
  lemma ScaleStep(n: real, i: nat)
    ensures (n / 1024.0) * Pow1024(i + 1) as real == n * Pow1024(i) as real
  {
    var p := Pow1024(i) as real;
    assert Pow1024(i + 1) as real == 1024.0 * p;
    assert (n / 1024.0) * (1024.0 * p) == n * p;
  }

  /** Where the loop stops, `i` meets the bounds that characterise `UnitIndex`. */
  lemma ScaleExit(n: real, i: nat, num: real)
    requires i <= 4 && n * Pow1024(i) as real == num
    requires i == 0 || n >= 1.0
    requires n < 1024.0 || i == 4
    ensures i == 0 || num >= Pow1024(i) as real
    ensures i == 4 || num < Pow1024(i + 1) as real
  {
    var p := Pow1024(i) as real;
    assert Pow1024(i + 1) as real == 1024.0 * p;
    if i != 0 {
      assert n * p >= 1.0 * p;
    }
    if i != 4 {
      assert n * p < 1024.0 * p;
    }
  }

  /** `_format_bytes` with its loop: agrees with `FormatBytes` on every input. */
  method FormatBytesByLoop(num: Option<real>) returns (r: string)
    ensures r == FormatBytes(num)
  {
    if num.None? || num.value <= 0.0 {
      return Dash;
    }
    var n, i := ScaleToUnit(num.value);
    if i == 0 {
      r := NatToString(n.Floor) + " " + Units[i];
    } else {
      r := Fixed2(n) + " " + Units[i];
    }
  }

  /**
   * Multiplying a size by 1024 moves it exactly one unit up and leaves the
   * printed magnitude unchanged (for sizes already past the byte scale).
   */
  lemma FormatBytesScalesBy1024(v: real)
    requires v >= 1024.0 && UnitIndex(v) < 4
    ensures UnitIndex(v * 1024.0) == UnitIndex(v) + 1
    ensures FormatBytes(Some(v * 1024.0))
         == Magnitude(v, UnitIndex(v)) + " " + Units[UnitIndex(v) + 1]
  {
    UnitIndexScales(v, UnitIndex(v));
    ScaledFormat(v, UnitIndex(v), v * 1024.0);
  }

  lemma ScaledFormat(v: real, i: nat, w: real)
    requires v > 0.0 && 1 <= i < 4 && w == v * 1024.0 && UnitIndex(w) == i + 1
    ensures FormatBytes(Some(w)) == Magnitude(v, i) + " " + Units[i + 1]
  {
    calc {
      FormatBytes(Some(w));
    == { FormatBytesPositive(w); }
      Magnitude(w, i + 1) + " " + Units[i + 1];
    ==
      Fixed2(Scaled(w, i + 1)) + " " + Units[i + 1];
    == { ScaledBy1024(v, i); }
      Fixed2(Scaled(v, i)) + " " + Units[i + 1];
    }
  }

  lemma FormatBytesPositive(w: real)
    requires w > 0.0
    ensures FormatBytes(Some(w)) == Magnitude(w, UnitIndex(w)) + " " + Units[UnitIndex(w)]
  {
  }

  lemma UnitIndexScales(v: real, i: nat)
    requires v >= 1024.0 && i == UnitIndex(v) && i < 4
    ensures i >= 1 && UnitIndex(v * 1024.0) == i + 1
  {
    assert i >= 1;
    assert Pow1024(i + 1) as real == 1024.0 * Pow1024(i) as real;
    assert Pow1024(i + 2) as real == 1024.0 * Pow1024(i + 1) as real;
    UnitIndexUnique(v * 1024.0, i + 1);
  }

  /** A size 1024 times larger, measured one unit up, is the same number. */
  lemma ScaledBy1024(v: real, i: nat)
    ensures Scaled(v * 1024.0, i + 1) == Scaled(v, i)
  {
    var p := Pow1024(i) as real;
    var q := Pow1024(i + 1) as real;
    assert q == 1024.0 * p;
    ScaledQuotient(v, p, q);
  }

  lemma ScaledQuotient(v: real, p: real, q: real)
    requires p > 0.0 && q == 1024.0 * p
    ensures (v * 1024.0) / q == v / p
  {
  }

  lemma FormatBytesExamples()
    ensures FormatBytes(Some(500.0)) == "500 B"
    ensures FormatBytes(Some(1536.0)) == "1.50 KB"
    ensures FormatBytes(Some(0.0)) == Dash && FormatBytes(None) == Dash
  {
    FormatBytesOfBytes();
    FormatBytesOfKilobytes();
  }

  lemma FormatBytesOfBytes()
    ensures FormatBytes(Some(500.0)) == "500 B"
  {
    assert NatToString(5) == "5";
    assert NatToString(50) == NatToString(5) + "0";
    assert NatToString(500) == NatToString(50) + "0";
    assert (500.0).Floor == 500;
  }

  lemma FormatBytesOfKilobytes()
    ensures FormatBytes(Some(1536.0)) == "1.50 KB"
  {
    KilobyteUnit();
    assert Scaled(1536.0, 1) == 1.5;
    assert FormatBytes(Some(1536.0)) == Fixed2(1.5) + " " + Units[1];
    Fixed2Example();
  }

  lemma KilobyteUnit()
    ensures UnitIndex(1536.0) == 1 && Pow1024(1) == 1024
  {
    assert Pow1024(1) == 1024;
    assert Pow1024(2) == 1024 * 1024;
    UnitIndexUnique(1536.0, 1);
  }

  lemma Fixed2Example()
    ensures Fixed2(1.5) == "1.50"
  {
    assert (150.0).Floor == 150;
    assert RoundHalfEven(1.5 * 100.0) == 150;
    assert NatToString(1) == "1";
    assert NatToString(50) == NatToString(5) + "0";
    assert Pad2(50) == "50";
  }

  // ---------------------------------------------------------------------
  // _format_eta
  // ---------------------------------------------------------------------

  /** The clock text for a whole number of seconds: `M:SS`, or `H:MM:SS` from one hour on. */
  function Clock(s: nat): (r: string)
  {
    var m := s / 60;
    var h := m / 60;
    if h != 0 then NatToString(h) + ":" + Pad2(m % 60) + ":" + Pad2(s % 60)
    else NatToString(m % 60) + ":" + Pad2(s % 60)
  }

  /** `_format_eta(seconds)`. */
  function FormatEta(seconds: Option<real>): (r: string)
    ensures r == Dash <==> seconds.None? || seconds.value < 0.0
    ensures seconds.Some? && seconds.value >= 0.0 ==>
              |r| >= 4 && r[|r| - 3] == ':' &&
              (seconds.value >= 3600.0 <==> |r| >= 7 && r[|r| - 6] == ':')
    ensures seconds.Some? && 0.0 <= seconds.value < 3600.0 ==> MinutesForm(r)
    ensures seconds.Some? && seconds.value >= 3600.0 ==> HoursForm(r)
  {
    if seconds.None? || seconds.value < 0.0 then Dash
    else
      var s := seconds.value.Floor;
      ClockShape(s);
      Clock(s)
  }

  /** A decimal field without a leading zero, unless it is the single digit `0`. */
  predicate Unpadded(f: string)
  {
    |f| >= 1 && AllDigits(f) && (|f| == 1 || f[0] != '0')
  }

  /** `M:SS`: an unpadded field of at most two digits, a colon, two digits. */
  predicate MinutesForm(r: string)
  {
    |r| >= 4 && r[|r| - 3] == ':' && Unpadded(r[..|r| - 3]) && |r| <= 5
    && AllDigits(r[|r| - 2..])
  }

  /** `H:MM:SS`: an unpadded non-zero field, then two colon-separated two-digit fields. */
  predicate HoursForm(r: string)
  {
    |r| >= 7 && r[|r| - 3] == ':' && r[|r| - 6] == ':'
    && Unpadded(r[..|r| - 6]) && r[0] != '0'
    && AllDigits(r[|r| - 5..|r| - 3]) && AllDigits(r[|r| - 2..])
  }

  lemma ClockShape(s: nat)
    ensures var r := Clock(s);
      && |r| >= 4 && r[|r| - 3] == ':' && r[0] != Dash[0]
      && (s >= 3600 <==> |r| >= 7 && r[|r| - 6] == ':')
      && (s < 3600 ==> MinutesForm(r))
      && (s >= 3600 ==> HoursForm(r))
  {
    var m := s / 60;
    var h := m / 60;
    assert h != 0 <==> s >= 3600;
    if h == 0 {
      ClockShapeMinutes(s);
    } else {
      ClockShapeHours(s);
    }
  }

  lemma ClockShapeMinutes(s: nat)
    requires s / 60 / 60 == 0
    ensures var r := Clock(s);
      && |r| >= 4 && r[|r| - 3] == ':' && r[0] != Dash[0]
      && !(|r| >= 7 && r[|r| - 6] == ':') && MinutesForm(r)
  {
    var m := s / 60;
    var a := NatToString(m % 60);
    var p := Pad2(s % 60);
    var r := Clock(s);
    assert r == a + ":" + p;
    NatToStringShort(m % 60);
    assert r[..|r| - 3] == a;
    assert r[|r| - 2..] == p;
  }

  lemma ClockShapeHours(s: nat)
    requires s / 60 / 60 != 0
    ensures var r := Clock(s);
      && |r| >= 7 && r[|r| - 3] == ':' && r[|r| - 6] == ':' && r[0] != Dash[0] && HoursForm(r)
  {
    var m := s / 60;
    var h := m / 60;
    var a := NatToString(h);
    var p1 := Pad2(m % 60);
    var p2 := Pad2(s % 60);
    var r := Clock(s);
    assert r == a + ":" + p1 + ":" + p2;
    assert r[..|r| - 6] == a;
    assert r[|r| - 5..|r| - 3] == p1;
    assert r[|r| - 2..] == p2;
    NatToStringNonZero(h);
  }

  /**
   * Reads clock text back: decimal fields separated by ':', every field after
   * the first exactly two digits below 60, weighted base 60.
   */
  function ParseClock(r: string): Option<nat>
  {
    if |r| > 0 && AllDigits(r) then Some(DigitsValue(r))
    else if |r| >= 4 && r[|r| - 3] == ':' && AllDigits(r[|r| - 2..]) && DigitsValue(r[|r| - 2..]) < 60 then
      match ParseClock(r[..|r| - 3])
      case Some(v) => Some(v * 60 + DigitsValue(r[|r| - 2..]))
      case None => None
    else None
  }

  /** The clock text of `s` seconds reads back as `s`: no field overflows or is lost. */
  lemma ClockRoundTrip(s: nat)
    ensures ParseClock(Clock(s)) == Some(s)
  {
    var m := s / 60;
    var h := m / 60;
    if h == 0 {
      ClockRoundTripMinutes(s);
    } else {
      ClockRoundTripHours(s);
    }
  }

  /** Reading `a:b` where `b` is a two-digit field below 60: `a` in base 60, then `b`. */
  lemma ParseClockSplit(a: string, b: string)
    requires |b| == 2 && AllDigits(b) && DigitsValue(b) < 60
    ensures ParseClock(a + ":" + b)
         == if ParseClock(a).Some? then Some(ParseClock(a).value * 60 + DigitsValue(b)) else None
  {
    var r := a + ":" + b;
    assert r[..|r| - 3] == a;
    assert r[|r| - 2..] == b;
    assert !IsDigit(r[|r| - 3]);
  }

  /** Appending a zero-padded field below 60 multiplies the reading by 60 and adds the field. */
  lemma ParseClockAppend(a: string, v: nat, f: nat)
    requires ParseClock(a) == Some(v) && f < 60
    ensures ParseClock(a + ":" + Pad2(f)) == Some(v * 60 + f)
  {
    ParseClockSplit(a, Pad2(f));
  }

  lemma ParseClockNumber(n: nat)
    ensures ParseClock(NatToString(n)) == Some(n)
  {
    NatToStringValue(n);
  }

  lemma ClockRoundTripMinutes(s: nat)
    requires s / 60 / 60 == 0
    ensures ParseClock(Clock(s)) == Some(s)
  {
    var m := s / 60;
    assert m % 60 == m && m * 60 + s % 60 == s;
    assert Clock(s) == NatToString(m % 60) + ":" + Pad2(s % 60);
    ParseClockNumber(m % 60);
    ParseClockAppend(NatToString(m % 60), m % 60, s % 60);
  }

  lemma ClockRoundTripHours(s: nat)
    requires s / 60 / 60 != 0
    ensures ParseClock(Clock(s)) == Some(s)
  {
    var m := s / 60;
    var h := m / 60;
    assert h * 60 + m % 60 == m;
    assert m * 60 + s % 60 == s;
    var a := NatToString(h) + ":" + Pad2(m % 60);
    assert Clock(s) == a + ":" + Pad2(s % 60);
    ParseClockNumber(h);
    ParseClockAppend(NatToString(h), h, m % 60);
    ParseClockAppend(a, m, s % 60);
  }

  /**
   * Every non-negative eta is printed so that it reads back as its whole
   * seconds (`int(seconds)`), with minutes and seconds fields below 60.
   */
  lemma FormatEtaRoundTrip(seconds: real)
    requires seconds >= 0.0
    ensures ParseClock(FormatEta(Some(seconds))) == Some(seconds.Floor)
  {
    ClockRoundTrip(seconds.Floor);
  }

  lemma FormatEtaExamples()
    ensures FormatEta(Some(125.0)) == "2:05"
    ensures FormatEta(Some(3725.0)) == "1:02:05"
    ensures FormatEta(Some(0.0)) == "0:00"
    ensures FormatEta(None) == Dash && FormatEta(Some(-1.0)) == Dash
  {
    ClockExampleMinutes();
    ClockExampleHours();
    ClockExampleZero();
  }

  lemma ClockExampleMinutes()
    ensures FormatEta(Some(125.0)) == "2:05"
  {
    assert (125.0).Floor == 125;
    assert NatToString(2) == "2";
    assert Pad2(5) == "05" by { assert NatToString(5) == "5"; }
  }

  lemma ClockExampleHours()
    ensures FormatEta(Some(3725.0)) == "1:02:05"
  {
    assert (3725.0).Floor == 3725;
    assert FormatEta(Some(3725.0)) == Clock(3725);
    ClockHoursText();
  }

  /** One hour, two minutes and five seconds as a clock reading. */
  lemma ClockHoursText()
    ensures Clock(3725) == "1:02:05"
  {
    assert 3725 / 60 == 62 && 62 / 60 == 1 && 62 % 60 == 2 && 3725 % 60 == 5;
    assert Clock(3725) == NatToString(1) + ":" + Pad2(2) + ":" + Pad2(5);
    assert NatToString(1) == "1";
    assert Pad2(2) == "02" by { assert NatToString(2) == "2"; }
    assert Pad2(5) == "05" by { assert NatToString(5) == "5"; }
  }

  lemma ClockExampleZero()
    ensures FormatEta(Some(0.0)) == "0:00"
  {
    assert (0.0).Floor == 0;
    assert NatToString(0) == "0";
    assert Pad2(0) == "00";
  }

  // ---------------------------------------------------------------------
  // format_status_line
  // ---------------------------------------------------------------------

  /** The separator between the speed and the eta parts (" • " with two spaces each side). */
  const Bullet: string := "  \U{2022}  "

  /** `int(round(value * 100))`, right-aligned in three columns, then `%`. */
  function PercentField(value: real): string
  {
    PadLeft(IntToString(RoundHalfEven(value * 100.0)), 3, ' ') + "%"
  }

  /** The left part: percentage, downloaded size and, when the total is known, `/ total`. */
  function LeftPart(p: ProgressInfo): string
  {
    var head := PercentField(p.value) + "  " + FormatBytes(Some(OrElse(p.downloaded, 0.0)));
    if Truthy(p.total) then head + " / " + FormatBytes(p.total) else head
  }

  /** `<speed>/s`, shown when the speed is known and non-zero. */
  function SpeedPart(p: ProgressInfo): string
  {
    FormatBytes(p.speed) + "/s"
  }

  /** `ETA <eta>`, shown whenever an eta is present (even zero). */
  function EtaPart(p: ProgressInfo): string
  {
    "ETA " + FormatEta(p.eta)
  }

  /** The pieces of the right part, in the order the source appends them. */
  function RightParts(p: ProgressInfo): seq<string>
  {
    (if Truthy(p.speed) then [SpeedPart(p)] else [])
    + (if p.eta.Some? then [EtaPart(p)] else [])
  }

  /** Python's `sep.join(parts)`. */
  function Join(parts: seq<string>, sep: string): string
  {
    if |parts| == 0 then ""
    else if |parts| == 1 then parts[0]
    else parts[0] + sep + Join(parts[1..], sep)
  }

  /** `format_status_line(evt)` for a progress event. */
  function FormatStatusLine(p: ProgressInfo): (r: string)
    ensures |r| >= |LeftPart(p)| && r[..|LeftPart(p)|] == LeftPart(p)
    ensures r == LeftPart(p) <==> !Truthy(p.speed) && p.eta.None?
  {
    var left := LeftPart(p);
    var right := Join(RightParts(p), Bullet);
    assert |RightParts(p)| > 0 ==> |right| > 0;
    left + (if right != "" then "    " + right else "")
  }

  /**
   * The trailing segment of the status line: the speed first, then the eta,
   * separated by a bullet; whichever is unavailable is left out.
   */
  lemma StatusLineSegments(p: ProgressInfo)
    ensures Truthy(p.speed) && p.eta.None? ==>
              FormatStatusLine(p) == LeftPart(p) + "    " + SpeedPart(p)
    ensures !Truthy(p.speed) && p.eta.Some? ==>
              FormatStatusLine(p) == LeftPart(p) + "    " + EtaPart(p)
    ensures Truthy(p.speed) && p.eta.Some? ==>
              FormatStatusLine(p) == LeftPart(p) + "    " + SpeedPart(p) + Bullet + EtaPart(p)
  {
    if Truthy(p.speed) && p.eta.None? {
      assert RightParts(p) == [SpeedPart(p)];
      ConcatAssoc(LeftPart(p), "    ", SpeedPart(p));
    } else if !Truthy(p.speed) && p.eta.Some? {
      assert RightParts(p) == [EtaPart(p)];
      ConcatAssoc(LeftPart(p), "    ", EtaPart(p));
    } else if Truthy(p.speed) && p.eta.Some? {
      StatusLineBothSegments(p);
    }
  }

  lemma StatusLineBothSegments(p: ProgressInfo)
    requires Truthy(p.speed) && p.eta.Some?
    ensures FormatStatusLine(p) == LeftPart(p) + "    " + SpeedPart(p) + Bullet + EtaPart(p)
  {
    var parts := RightParts(p);
    var l := LeftPart(p);
    var a, b := SpeedPart(p), EtaPart(p);
    assert parts == [a, b];
    assert parts[1..] == [b];
    assert Join(parts, Bullet) == a + Bullet + b;
    var x := l + "    ";
    assert FormatStatusLine(p) == x + ((a + Bullet) + b) by {
      ConcatAssoc(l, "    ", (a + Bullet) + b);
    }
    ConcatAssoc(x, a + Bullet, b);
    ConcatAssoc(x, a, Bullet);
  }

  /** For a fraction in [0, 1] the percentage is 0..100 and `%` sits in the fourth column. */
  lemma PercentFieldWidth(value: real)
    requires 0.0 <= value <= 1.0
    ensures 0 <= RoundHalfEven(value * 100.0) <= 100
    ensures |PercentField(value)| == 4 && PercentField(value)[3] == '%'
  {
    var k := RoundHalfEven(value * 100.0);
    assert 0 <= k <= 100;
    var s := IntToString(k);
    assert |s| <= 3 by {
      if k >= 10 {
        assert NatToString(k) == NatToString(k / 10) + [DigitChar(k % 10)];
      }
    }
  }
}
