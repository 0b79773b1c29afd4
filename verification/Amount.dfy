/** Decimal amounts (amount/amount.go): parsing to and rendering from integer units. */
module Amounts {
  import opened Arith
  import Text

  const UINT64: nat := 0x1_0000_0000_0000_0000

  // ---------------------------------------------------------------- decimal numerals

  predicate IsDigit(c: char) {
    '0' <= c <= '9'
  }

  predicate AllDigits(s: string) {
    forall i :: 0 <= i < |s| ==> IsDigit(s[i])
  }

  function ValueOf(s: string): nat
    requires AllDigits(s)
  {
    if s == "" then 0 else 10 * ValueOf(s[..|s| - 1]) + (s[|s| - 1] as int - '0' as int)
  }

  function Power10(n: nat): (p: nat)
    ensures p >= 1
  {
    if n == 0 then 1 else 10 * Power10(n - 1)
  }

  /** `%d` */
  function Shown(n: nat): (s: string)
    ensures s != "" && AllDigits(s) && ValueOf(s) == n
  {
    if n < 10 then
      var s := ['0' + n as char];
      assert s[..0] == "";
      s
    else
      var front := Shown(n / 10);
      var s := front + ['0' + (n % 10) as char];
      assert s[..|front|] == front;
      s
  }

  function Zeros(n: nat): (s: string)
    ensures |s| == n && AllDigits(s)
  {
    seq(n, _ => '0')
  }

  /** `%0*d` */
  function Padded(n: nat, width: nat): string {
    var s := Shown(n);
    if |s| >= width then s else Zeros(width - |s|) + s
  }

  lemma {:induction false} ZerosInFront(n: nat, s: string)
    requires AllDigits(s)
    ensures AllDigits(Zeros(n) + s) && ValueOf(Zeros(n) + s) == ValueOf(s)
  {
    var all := Zeros(n) + s;
    if s != "" {
      assert all[..|all| - 1] == Zeros(n) + s[..|s| - 1];
      ZerosInFront(n, s[..|s| - 1]);
    } else if n > 0 {
      assert all[..|all| - 1] == Zeros(n - 1) + s;
      ZerosInFront(n - 1, s);
    }
  }

  lemma {:induction false} ZerosBehind(s: string, n: nat)
    requires AllDigits(s)
    ensures AllDigits(s + Zeros(n)) && ValueOf(s + Zeros(n)) == ValueOf(s) * Power10(n)
  {
    if n == 0 {
      assert s + Zeros(0) == s;
    } else {
      var all := s + Zeros(n);
      assert all[..|all| - 1] == s + Zeros(n - 1);
      ZerosBehind(s, n - 1);
      TenTimes(ValueOf(s), Power10(n - 1));
    }
  }

  lemma TenTimes(x: nat, p: nat)
    ensures 10 * (x * p) == x * (10 * p)
  {
  }

  lemma {:induction false} ShownFits(n: nat, width: nat)
    requires n < Power10(width) && width > 0
    ensures |Shown(n)| <= width
  {
    if n >= 10 {
      assert width > 1 by {
        assert Power10(1) == 10 * Power10(0);
      }
      ShownFits(n / 10, width - 1);
    }
  }

  /** `strconv.ParseUint(s, 10, 64)` */
  function ParseUint(s: string): Option<u64> {
    if s != "" && AllDigits(s) && ValueOf(s) <= MAX_U64 then Some(ValueOf(s)) else None
  }

  // ---------------------------------------------------------------- the decimal point

  /** The position of the first point, or the length. */
  function Point(s: string): (i: nat)
    ensures i <= |s| && (forall k :: 0 <= k < i ==> s[k] != '.') && (i < |s| ==> s[i] == '.')
  {
    if s == "" || s[0] == '.' then 0 else 1 + Point(s[1..])
  }

  /** `strings.Split(s, ".")` */
  function Split(s: string): (parts: seq<string>)
    ensures |parts| >= 1
    decreases |s|
  {
    var i := Point(s);
    if i == |s| then [s] else [s[..i]] + Split(s[i + 1..])
  }

  function Whole(s: string): string {
    s[..Point(s)]
  }

  function Fraction(s: string): string {
    if Point(s) < |s| then s[Point(s) + 1..] else ""
  }

  /** Digits, at most one point, and at most `d` digits after it; with `d` = 0 no point at all. */
  predicate IsDecimal(s: string, d: nat) {
    && s != "" && AllDigits(Whole(s)) && AllDigits(Fraction(s)) && |Fraction(s)| <= d
    && (Point(s) < |s| ==> d > 0)
  }

  /** The decimal as a number of units, with `scale` of them to the whole. */
  function Scaled(s: string, d: nat, scale: nat): nat
    requires IsDecimal(s, d)
  {
    ValueOf(Whole(s)) * scale + ValueOf(Fraction(s)) * Power10(d - |Fraction(s)|)
  }

  function InRange(n: nat): Option<u64> {
    if 0 < n <= MAX_U64 then Some(n) else None
  }

  function ReadWith(value: string, d: nat, scale: nat): Option<u64> {
    var s := Text.Trim(value);
    if IsDecimal(s, d) then InRange(Scaled(s, d, scale)) else None
  }

  /** What parsing should give: the number of 10^-d units the decimal denotes, when that is from 1 to
      2^64 - 1. */
  function Units(value: string, d: nat): Option<u64> {
    ReadWith(value, d, Power10(d))
  }

  /** The scale multiplied out in 64 bits. */
  function Scale(d: nat): (scale: u64)
    ensures d <= 19 ==> scale == Power10(d)
    ensures scale == 0 <==> d >= 64
  {
    ScaleVanishes(d);
    ScaleFits(d);
    Power10(d) % UINT64
  }

  /** What parsing gives: the same with the scale as the machine computes it. */
  function Read(value: string, d: nat): Option<u64> {
    ReadWith(value, d, Scale(d))
  }

  // ---------------------------------------------------------------- parsing

  /** Multiplied out in 64 bits: exact up to 19 decimals, and 0 from 64 decimals on. */
  method UnitsPerWhole(d: nat) returns (scale: u64)
    ensures scale == Scale(d)
  {
    scale := 1;
    for i := 0 to d
      invariant scale == Power10(i) % UINT64
    {
      WrappedStep(Power10(i));
      scale := 10 * scale % UINT64;
    }
  }

  lemma WrappedStep(p: nat)
    ensures (10 * (p % UINT64)) % UINT64 == (10 * p) % UINT64
  {
    var q := p / UINT64;
    assert 10 * p == 10 * (p % UINT64) + UINT64 * (10 * q);
  }

  lemma {:induction false} Power10Grows(i: nat, j: nat)
    requires i <= j
    ensures Power10(i) <= Power10(j)
    decreases j
  {
    if i < j {
      Power10Grows(i, j - 1);
    }
  }

  lemma NineteenFit(d: nat)
    requires d <= 19
    ensures Power10(d) <= 10000000000000000000 < MAX_U64
  {
    Power10Grows(d, 19);
    Nineteen();
  }

  lemma ScaleFits(d: nat)
    ensures d <= 19 ==> Power10(d) % UINT64 == Power10(d)
  {
    if d <= 19 {
      NineteenFit(d);
    }
  }

  lemma Larger(x: nat, y: nat)
    requires y >= 1
    ensures x <= x * y
  {
  }

  lemma Nineteen()
    ensures Power10(19) == 10000000000000000000
  {
    assert Power10(4) == 10000;
    assert Power10(8) == 100000000;
    assert Power10(12) == 1000000000000;
    assert Power10(16) == 10000000000000000;
  }

  lemma {:induction false} PowerSplits(i: nat, j: nat)
    ensures Power10(i + j) == Power10(i) * Power10(j)
    decreases i
  {
    if i > 0 {
      PowerSplits(i - 1, j);
      TenTimes(Power10(j), Power10(i - 1));
    }
  }

  lemma Sixteen()
    ensures Power10(15) == 1000000000000000 && Power10(16) == 10000000000000000
  {
    assert Power10(4) == 10000;
    assert Power10(8) == 100000000;
    assert Power10(12) == 1000000000000;
  }

  lemma SixtyThree()
    ensures Power10(63) == 10000000000000000 * 10000000000000000 * 10000000000000000 * 1000000000000000
  {
    hide Power10;
    Sixteen();
    PowerSplits(16, 15);
    PowerSplits(16, 31);
    PowerSplits(16, 47);
  }

  lemma MultipleOf(p: nat, q: nat, m: nat)
    requires m > 0 && p % m == 0
    ensures (q * p) % m == 0
  {
    var k := p / m;
    assert p == k * m;
    assert q * p == (q * k) * m;
    NoRest(q * k, m);
  }

  lemma NoRest(k: nat, m: nat)
    requires m > 0
    ensures (k * m) % m == 0
  {
    var q, r := (k * m) / m, (k * m) % m;
    assert k * m == q * m + r;
    assert (q + 1) * m == q * m + m && (k + 1) * m == k * m + m;
    if k > q {
      MulOrder(q + 1, k, m);
    } else if k < q {
      MulOrder(k + 1, q, m);
    }
  }

  /** 10^64 is the first power of ten that 2^64 divides. */
  lemma ScaleVanishes(d: nat)
    ensures Power10(d) % UINT64 == 0 <==> d >= 64
  {
    SixtyThree();
    if d >= 64 {
      assert Power10(64) % UINT64 == 0 by {
        assert Power10(64) == 10 * Power10(63);
      }
      PowerSplits(d - 64, 64);
      hide Power10;
      MultipleOf(Power10(64), Power10(d - 64), UINT64);
    } else if Power10(d) % UINT64 == 0 {
      PowerSplits(63 - d, d);
      hide Power10;
      MultipleOf(Power10(d), Power10(63 - d), UINT64);
      assert false;
    }
  }

  lemma TwentyIsLarge(d: nat, w: nat)
    requires d >= 20 && w > 0
    ensures w * Power10(d) > MAX_U64
  {
    Power10Grows(20, d);
    Nineteen();
    Larger(Power10(d), w);
  }

  /** When an amount is read as what it says: always up to 19 decimals. With 20 to 63 decimals the scale
      has wrapped, and the amount is misread exactly when it is a decimal with a non-zero whole part
      whose wrapped value fits 64 bits. */
  lemma ReadIffUnits(value: string, d: nat)
    requires d < 64
    ensures
      var s := Text.Trim(value);
      Read(value, d) == Units(value, d)
      <==> d <= 19 || !IsDecimal(s, d) || ValueOf(Whole(s)) == 0 || Scaled(s, d, Scale(d)) > MAX_U64
  {
    var s := Text.Trim(value);
    ScaleIsBelow(d);
    if d > 19 && IsDecimal(s, d) {
      TwentyIsLarge(d, 1);
      hide Power10, ValueOf, Text.Trim, Scale, IsDecimal, Whole, Fraction, InRange;
      Wraps(ValueOf(Whole(s)), ValueOf(Fraction(s)) * Power10(d - |Fraction(s)|), Scale(d), Power10(d));
    }
  }

  lemma Wraps(w: nat, f: nat, scale: nat, p: nat)
    requires 0 < scale && p > MAX_U64
    ensures InRange(w * scale + f) == InRange(w * p + f) <==> w == 0 || w * scale + f > MAX_U64
  {
    if w > 0 {
      Larger(p, w);
      Larger(w, scale);
    }
  }

  /** One whole unit at 20 decimals is read as 10^20 - 5 * 2^64 units, though it does not fit. */
  lemma TwentyWrap()
    ensures Read("1", 20) == Some(7766279631452241920)
    ensures Units("1", 20) == None
  {
    assert Scale(20) == 7766279631452241920 && Power10(20) == 100000000000000000000 by {
      Nineteen();
    }
    assert "1"[..0] == "";
    assert ValueOf("1") == 1;
    PlainNumeral("1");
  }

  lemma PlainNumeral(s: string)
    requires s != "" && AllDigits(s)
    ensures Text.Trim(s) == s && Whole(s) == s && Fraction(s) == "" && Point(s) == |s|
  {
    PointAfterDigits(s, "");
    assert s + "" == s;
    TrimKeeps(s);
  }

  lemma SplitCases(s: string)
    ensures |Split(s)| == 1 ==> Split(s)[0] == s == Whole(s) && Fraction(s) == "" && Point(s) == |s|
    ensures |Split(s)| == 2 ==> Split(s) == [Whole(s), Fraction(s)] && Point(s) < |s|
    ensures |Split(s)| > 2 ==> !AllDigits(Fraction(s))
  {
    if Point(s) < |s| {
      var rest := s[Point(s) + 1..];
      if Point(rest) < |rest| {
        assert rest[Point(rest)] == '.';
      }
    }
  }

  lemma DivBound(a: nat, b: nat, c: nat)
    requires c > 0
    ensures a > b / c <==> a * c > b
  {
    var q, r := b / c, b % c;
    assert b == q * c + r;
    MulOrder(a, q, c);
    MulOrder(q + 1, a, c);
  }

  lemma MulOrder(x: nat, y: nat, c: nat)
    ensures x <= y ==> x * c <= y * c
  {
  }

  /** The decimal grammar, in terms of the parts between points. */
  lemma ReadCases(value: string, d: nat, scale: nat)
    ensures
      var s := Text.Trim(value);
      var parts := Split(s);
      var digits := AllDigits(parts[0]);
      && (s == "" || s[0] == '-' || |parts| > 2 || !digits ==> ReadWith(value, d, scale).None?)
      && (s != "" && |parts| == 1 && digits ==> ReadWith(value, d, scale) == InRange(ValueOf(parts[0]) * scale))
      && (|parts| == 2 && digits ==>
            ReadWith(value, d, scale)
              == if AllDigits(parts[1]) && |parts[1]| <= d && d > 0
                 then InRange(ValueOf(parts[0]) * scale + ValueOf(parts[1]) * Power10(d - |parts[1]|))
                 else None)
  {
    var s := Text.Trim(value);
    SplitCases(s);
    NoFraction(d);
    hide Text.Trim, Split, ValueOf, Power10;
    if s != "" && s[0] == '-' {
      assert Whole(s)[0] == '-';
    }
  }

  method ParseWhole(part: string) returns (r: Option<u64>)
    ensures r == if AllDigits(part) && ValueOf(part) <= MAX_U64 then Some(ValueOf(part)) else None
  {
    r := ParseUint(if part == "" then "0" else part);
    assert "0"[..0] == "" && AllDigits("0") && ValueOf("0") == 0;
  }

  /** The fraction filled up with zeros to `d` digits. */
  method ParseFraction(part: string, d: nat) returns (r: Option<u64>)
    ensures r ==
            if |part| <= d && d > 0 && AllDigits(part) && ValueOf(part) * Power10(d - |part|) <= MAX_U64
            then Some(ValueOf(part) * Power10(d - |part|)) else None
  {
    if |part| > d {
      return None;
    }
    var fraction := part;
    while |fraction| < d
      invariant |part| <= |fraction| <= d && fraction == part + Zeros(|fraction| - |part|)
    {
      fraction := fraction + "0";
    }
    r := ParseUint(fraction);
    assert forall i :: 0 <= i < |part| ==> fraction[i] == part[i];
    if AllDigits(part) {
      ZerosBehind(part, d - |part|);
    }
  }

  /** Up to 19 decimals, an accepted string yields exactly its decimal value; everything else, a value
      that does not fit 64 bits and zero included, is refused. From 64 decimals on the scale is 0 and is
      divided by. */
  method ParseUnits(value: string, d: nat) returns (r: Option<u64>)
    requires d < 64
    ensures r == Read(value, d)
    ensures d <= 19 ==> r == Units(value, d)
  {
    hide ValueOf, Power10, Split, Text.Trim, AllDigits, ReadWith, UINT64, Scale;
    ReadCases(value, d, Scale(d));
    var s := Text.Trim(value);
    if |s| == 0 || s[0] == '-' {
      return None;
    }
    var parts := Split(s);
    if |parts| > 2 {
      return None;
    }
    var whole := ParseWhole(parts[0]);
    var scale := UnitsPerWhole(d);
    if AllDigits(parts[0]) {
      DivBound(ValueOf(parts[0]), MAX_U64, scale);
      Larger(ValueOf(parts[0]), scale);
    }
    if whole.None? || whole.value > MAX_U64 / scale {
      return None;
    }
    var total := whole.value * scale;
    if |parts| == 2 {
      var fraction := ParseFraction(parts[1], d);
      if fraction.None? || MAX_U64 - total < fraction.value {
        return None;
      }
      total := total + fraction.value;
    }
    if total == 0 {
      return None;
    }
    return Some(total);
  }

  lemma NoFraction(d: nat)
    ensures AllDigits("") && ValueOf("") * Power10(d) == 0
  {
  }

  // ---------------------------------------------------------------- rendering

  /** `strings.TrimRight` of one character. */
  function DropRight(s: string, c: char): (t: string)
    ensures t <= s && (t != "" ==> t[|t| - 1] != c)
    ensures forall i :: |t| <= i < |s| ==> s[i] == c
  {
    if s != "" && s[|s| - 1] == c then DropRight(s[..|s| - 1], c) else s
  }

  function Quotient(x: nat, y: nat): nat
    requires y > 0
  {
    x / y
  }

  function Remainder(x: nat, y: nat): nat
    requires y > 0
  {
    x % y
  }

  lemma DivMod(x: nat, y: nat)
    requires y > 0
    ensures x == Quotient(x, y) * y + Remainder(x, y) && Remainder(x, y) < y
  {
  }

  function RenderedWith(units: nat, d: nat, scale: nat): string
    requires scale > 0
  {
    if d == 0 then Shown(units)
    else DropRight(DropRight(Shown(Quotient(units, scale)) + "." + Padded(Remainder(units, scale), d), '0'), '.')
  }

  /** The decimal that denotes `units`, without trailing zeros. */
  function Formatted(units: nat, d: nat): string {
    RenderedWith(units, d, Power10(d))
  }

  method FormatUnits(units: u64, d: nat) returns (s: string)
    requires d < 64
    ensures s == RenderedWith(units, d, Scale(d))
    ensures d <= 19 ==> s == Formatted(units, d)
  {
    hide Quotient, Remainder, Shown, Padded, DropRight, Scale, Power10;
    var scale := UnitsPerWhole(d);
    if d == 0 {
      return Shown(units);
    }
    var whole, fraction := Quotient(units, scale), Remainder(units, scale);
    var value := Shown(whole) + "." + Padded(fraction, d);
    return DropRight(DropRight(value, '0'), '.');
  }

  lemma PaddedIsExact(n: nat, d: nat)
    requires d > 0 && n < Power10(d)
    ensures |Padded(n, d)| == d && AllDigits(Padded(n, d)) && ValueOf(Padded(n, d)) == n
  {
    ShownFits(n, d);
    ZerosInFront(d - |Shown(n)|, Shown(n));
  }

  lemma {:induction false} DropStops(w: string, f: string, c: char)
    requires c != '.'
    ensures DropRight(w + "." + f, c) == w + "." + DropRight(f, c)
  {
    var s := w + "." + f;
    if f == "" {
      assert s[|s| - 1] == '.';
      assert w + "." + "" == w + ".";
    } else {
      assert s[..|s| - 1] == w + "." + f[..|f| - 1];
      DropStops(w, f[..|f| - 1], c);
    }
  }

  lemma DroppedZeros(f: string)
    requires AllDigits(f)
    ensures
      var g := DropRight(f, '0');
      AllDigits(g) && |g| <= |f| && ValueOf(f) == ValueOf(g) * Power10(|f| - |g|)
  {
    var g := DropRight(f, '0');
    assert f == g + Zeros(|f| - |g|);
    ZerosBehind(g, |f| - |g|);
  }

  lemma {:induction false} PointAfterDigits(w: string, rest: string)
    requires AllDigits(w) && (rest != "" ==> rest[0] == '.')
    ensures Point(w + rest) == |w|
  {
    if w != "" {
      assert (w + rest)[1..] == w[1..] + rest;
      PointAfterDigits(w[1..], rest);
    } else {
      assert w + rest == rest;
    }
  }

  /** A decimal text: digits, or digits, a point and digits. */
  lemma TrimKeeps(s: string)
    requires s != "" && !Text.IsSpace(s[0]) && !Text.IsSpace(s[|s| - 1])
    ensures Text.Trim(s) == s
  {
  }

  lemma DecimalText(w: string, g: string, d: nat, scale: nat)
    requires w != "" && AllDigits(w) && AllDigits(g) && |g| <= d
    ensures
      var s := if g == "" then w else w + "." + g;
      && Text.Trim(s) == s && IsDecimal(s, d)
      && Scaled(s, d, scale) == ValueOf(w) * scale + ValueOf(g) * Power10(d - |g|)
  {
    var s := if g == "" then w else w + "." + g;
    hide ValueOf, Power10;
    if g == "" {
      assert w + "" == w;
      PointAfterDigits(w, "");
    } else {
      assert w + ("." + g) == s;
      PointAfterDigits(w, "." + g);
      assert Fraction(s) == g;
    }
    assert Whole(s) == w;
    TrimKeeps(s);
  }

  lemma DropPoint(w: string, g: string)
    requires w != "" && AllDigits(w) && AllDigits(g)
    ensures DropRight(w + "." + g, '.') == if g == "" then w else w + "." + g
  {
    var s := w + "." + g;
    if g == "" {
      assert s[..|s| - 1] == w;
    }
  }

  lemma PointedDecimal(whole: nat, fraction: nat, d: nat, scale: nat)
    requires d > 0 && fraction < Power10(d)
    ensures
      var s := DropRight(DropRight(Shown(whole) + "." + Padded(fraction, d), '0'), '.');
      Text.Trim(s) == s && IsDecimal(s, d) && Scaled(s, d, scale) == whole * scale + fraction
  {
    hide *;
    var w, f := Shown(whole), Padded(fraction, d);
    PaddedIsExact(fraction, d);
    var g := DropRight(f, '0');
    DropStops(w, f, '0');
    DroppedZeros(f);
    DropPoint(w, g);
    DecimalText(w, g, d, scale);
  }

  lemma PlainDecimal(n: nat)
    ensures
      var s := Shown(n);
      Text.Trim(s) == s && IsDecimal(s, 0) && Scaled(s, 0, 1) == n
  {
    hide Shown, Text.Trim, IsDecimal;
    DecimalText(Shown(n), "", 0, 1);
    assert Power10(0) == 1;
  }

  lemma ScaleIsBelow(d: nat)
    requires d < 64
    ensures 0 < Scale(d) <= Power10(d)
  {
    if d >= 20 {
      TwentyIsLarge(d, 1);
    }
  }

  lemma RenderedIsDecimal(units: nat, d: nat, scale: nat, other: nat)
    requires 0 < scale <= Power10(d) && d > 0
    ensures
      var s := RenderedWith(units, d, scale);
      && Text.Trim(s) == s && IsDecimal(s, d)
      && Scaled(s, d, other) == Quotient(units, scale) * other + Remainder(units, scale)
  {
    hide DropRight, Shown, Padded, Text.Trim, IsDecimal, Scaled, Power10, Quotient, Remainder;
    DivMod(units, scale);
    PointedDecimal(Quotient(units, scale), Remainder(units, scale), d, other);
  }

  lemma ReadsBack(s: string, units: u64, d: nat, scale: nat)
    requires Text.Trim(s) == s && IsDecimal(s, d) && Scaled(s, d, scale) == units && units > 0
    ensures ReadWith(s, d, scale) == Some(units)
  {
    hide Text.Trim, IsDecimal, Scaled;
  }

  lemma RenderedReadsBack(units: u64, d: nat, scale: nat)
    requires units > 0 && 0 < scale <= Power10(d)
    ensures ReadWith(RenderedWith(units, d, scale), d, scale) == Some(units)
  {
    if d == 0 {
      PlainDecimal(units);
      assert Power10(0) == 1;
      hide Shown, Text.Trim, IsDecimal, Scaled, ReadWith;
      ReadsBack(Shown(units), units, 0, 1);
    } else {
      hide *;
      RenderedIsDecimal(units, d, scale, scale);
      DivMod(units, scale);
      ReadsBack(RenderedWith(units, d, scale), units, d, scale);
    }
  }

  /** Parsing what was rendered gives the units back, for every positive amount, even where the scale has
      wrapped. */
  lemma ParseFormatted(units: u64, d: nat)
    requires units > 0 && d < 64
    ensures Read(RenderedWith(units, d, Scale(d)), d) == Some(units)
    ensures d <= 19 ==> Units(Formatted(units, d), d) == Some(units)
  {
    hide Scale, Power10, ReadWith, RenderedWith;
    ScaleIsBelow(d);
    RenderedReadsBack(units, d, Scale(d));
  }

  /** When an amount is rendered as what it is: always up to 19 decimals, and with 20 to 63 exactly when
      it is below the wrapped scale. */
  lemma RenderedIffFormatted(units: u64, d: nat)
    requires d < 64
    ensures RenderedWith(units, d, Scale(d)) == Formatted(units, d) <==> d <= 19 || units < Scale(d)
  {
    if d > 19 {
      ScaleIsBelow(d);
      TwentyIsLarge(d, 1);
      hide *;
      var scale, p := Scale(d), Power10(d);
      assert Formatted(units, d) == RenderedWith(units, d, p) by {
        FormattedIs(units, d);
      }
      Below(units, p);
      if units < scale {
        Below(units, scale);
        SameParts(units, d, scale, p);
      } else {
        RenderedIsDecimal(units, d, scale, p);
        RenderedIsDecimal(units, d, p, p);
        OtherParts(units, scale, p);
      }
    }
  }

  lemma OtherParts(x: nat, y: nat, p: nat)
    requires 0 < y <= x < p
    ensures Quotient(x, y) * p + Remainder(x, y) != Quotient(x, p) * p + Remainder(x, p)
  {
    Below(x, p);
    AtLeastOnce(x, y);
    hide Quotient, Remainder;
    Larger(p, Quotient(x, y));
    assert Quotient(x, p) * p == 0;
  }

  lemma AtLeastOnce(x: nat, y: nat)
    requires 0 < y <= x
    ensures Quotient(x, y) >= 1
  {
  }

  lemma Below(x: nat, y: nat)
    requires y > 0 && x < y
    ensures Quotient(x, y) == 0 && Remainder(x, y) == x
  {
  }

  lemma FormattedIs(units: nat, d: nat)
    ensures Formatted(units, d) == RenderedWith(units, d, Power10(d))
  {
    hide RenderedWith;
  }

  lemma SameParts(units: nat, d: nat, p: nat, q: nat)
    requires p > 0 && q > 0
    requires Quotient(units, p) == Quotient(units, q) && Remainder(units, p) == Remainder(units, q)
    ensures RenderedWith(units, d, p) == RenderedWith(units, d, q)
  {
    hide Quotient, Remainder, DropRight, Shown, Padded;
  }
}
