// Numbers: exactly which bytes parse_number takes for one, and what it makes of them.
module JsonNumbers {
  import opened Bytes
  import opened Decimal
  import opened JsonText
  import opened JsonGrammar

  // ----- the language -----

  datatype Exponent = Exponent(mark: byte, sign: seq<byte>, digits: seq<byte>)

  datatype Number = Number(minus: bool, digits: seq<byte>, fraction: Option<seq<byte>>, exponent: Option<Exponent>)

  predicate OnlyDigits(t: seq<byte>) { forall i :: 0 <= i < |t| ==> 0x30 <= t[i] <= 0x39 }

  predicate GoodExponent(x: Exponent)
  {
    // e or E, at most one sign, at least one digit
    (x.mark == 0x65 || x.mark == 0x45) && x.sign in {[], [0x2B], [0x2D]} && x.digits != [] && OnlyDigits(x.digits)
  }

  function FractionDigits(n: Number): seq<byte> { if n.fraction.Some? then n.fraction.value else [] }

  // What parse_number takes: digits in front of the point may be missing behind
  // a minus sign, those behind it anywhere, but not both.
  predicate GoodNumber(n: Number)
  {
    && OnlyDigits(n.digits) && OnlyDigits(FractionDigits(n)) && n.digits + FractionDigits(n) != []
    && (!n.minus ==> n.digits != []) && (n.exponent.Some? ==> GoodExponent(n.exponent.value))
  }

  // Section 6 of RFC 8259: no superfluous zero in front, digits on both sides.
  predicate StandardNumber(n: Number)
  {
    && OnlyDigits(n.digits) && n.digits != [] && (n.digits[0] == 0x30 ==> |n.digits| == 1)
    && (n.fraction.Some? ==> n.fraction.value != [] && OnlyDigits(n.fraction.value))
    && (n.exponent.Some? ==> GoodExponent(n.exponent.value))
  }

  lemma StandardIsGood(n: Number)
    requires StandardNumber(n)
    ensures GoodNumber(n)
  {
  }

  function SignText(n: Number): seq<byte> { if n.minus then [0x2D] else [] }

  function FractionText(n: Number): seq<byte> { if n.fraction.Some? then [0x2E] + n.fraction.value else [] }

  function ExponentText(n: Number): seq<byte>
  {
    if n.exponent.Some? then [n.exponent.value.mark] + (n.exponent.value.sign + n.exponent.value.digits) else []
  }

  function NumberText(n: Number): seq<byte>
  {
    SignText(n) + (n.digits + (FractionText(n) + ExponentText(n)))
  }

  // ----- the number denoted, without rounding -----

  function Tally(t: seq<byte>): nat
    requires OnlyDigits(t)
  {
    if t == [] then 0
    else
      assert 0x30 <= t[|t| - 1];
      Tally(t[..|t| - 1]) * 10 + (t[|t| - 1] - 0x30)
  }

  function TenTo(e: int): real
    decreases if e < 0 then -e else e
  {
    if e == 0 then 1.0 else if e > 0 then 10.0 * TenTo(e - 1) else TenTo(e + 1) / 10.0
  }

  // All digits as one integer, and the power of ten it is scaled by.
  function Mantissa(n: Number): int
    requires GoodNumber(n)
  {
    var m: int := Tally(n.digits + FractionDigits(n));
    if n.minus then -m else m
  }

  function Scaling(n: Number): int
    requires GoodNumber(n)
  {
    var size: int := if n.exponent.Some? then Tally(n.exponent.value.digits) else 0;
    (if n.exponent.Some? && n.exponent.value.sign == [0x2D] then -size else size) - |FractionDigits(n)|
  }

  function NumberValue(n: Number): real
    requires GoodNumber(n)
  {
    Mantissa(n) as real * TenTo(Scaling(n))
  }

  lemma {:induction false} TallyIs(t: seq<byte>)
    requires OnlyDigits(t)
    ensures AllDigits(t) && DigitsValue(t) == Tally(t)
  {
    if t != [] { TallyIs(t[..|t| - 1]); }
  }

  lemma {:induction false} TenToIs(e: int)
    requires e >= 0
    ensures TenTo(e) == Power10(e) as real && TenTo(-e) * Power10(e) as real == 1.0
  {
    if e > 0 { TenToIs(e - 1); }
  }

  lemma ScaleIs(m: real, e: int)
    ensures Scale(m, e) == m * TenTo(e)
  {
    if e >= 0 {
      TenToIs(e);
    } else {
      ScaledDown(m, e);
    }
  }

  lemma ScaledDown(m: real, e: int)
    requires e < 0
    ensures m / Power10(-e) as real == m * TenTo(e)
  {
    TenToIs(-e);
    assert -(-e) == e;
    hide TenTo, Power10;
    Inverse(m, TenTo(e), Power10(-e) as real);
  }

  lemma Inverse(m: real, x: real, y: real)
    requires x * y == 1.0
    ensures y != 0.0 && m / y == m * x
  {
    assert m * x * y == m * (x * y);
  }

  // The `valueint` of a number: its integral part, clamped to 32 bits.
  lemma SaturatedIs(d: real, n: int)
    ensures SaturatedInt(d) == n <==>
            if d >= 2147483647.0 then n == 2147483647
            else if d <= -2147483648.0 then n == -2147483648
            else if d >= 0.0 then 0.0 <= n as real <= d < n as real + 1.0
            else n as real - 1.0 < d <= n as real <= 0.0
  {
  }

  // ----- reading -----

  lemma DigitsAre(t: seq<byte>)
    ensures OnlyDigits(t) <==> AllDigits(t)
  {
    if OnlyDigits(t) { assert forall i :: 0 <= i < |t| ==> IsDigit(t[i]); }
    if AllDigits(t) { assert forall i :: 0 <= i < |t| ==> IsDigit(t[i]); }
  }

  // A run of digits reaches at least as far as digits do, and no further than
  // a byte that is none.
  lemma {:induction false} DigitRunIs(s: seq<byte>, i: nat, t: seq<byte>)
    requires At(s, i, t) && OnlyDigits(t)
    ensures i + |t| <= DigitRun(s, i)
    ensures i + |t| == |s| || !IsDigit(s[i + |t|]) ==> DigitRun(s, i) == i + |t|
    decreases |t|
  {
    if t != [] {
      AtByte(s, i, t, 0);
      assert t == [t[0]] + t[1..];
      AtConcat(s, i, [t[0]], t[1..]);
      DigitRunIs(s, i + 1, t[1..]);
    }
  }

  lemma NumberStart(n: Number)
    requires GoodNumber(n)
    ensures var t := NumberText(n);
            |t| >= 1 && if n.minus then t[0] == 0x2D else 0x30 <= t[0] <= 0x39
  {
    hide FractionText, ExponentText;
  }

  lemma FourParts(a: seq<byte>, b: seq<byte>, c: seq<byte>, d: seq<byte>, s: seq<byte>)
    requires At(s, 0, a + (b + (c + d)))
    ensures At(s, |a|, b) && At(s, |a| + |b|, c) && At(s, |a| + |b| + |c|, d)
    ensures |a + (b + (c + d))| == |a| + |b| + |c| + |d|
  {
    hide At;
    AtConcat(s, 0, a, b + (c + d));
    AtConcat(s, |a|, b, c + d);
    AtConcat(s, |a| + |b|, c, d);
  }

  // Where the parts of a number stand at the front of s.
  lemma NumberShape(n: Number, s: seq<byte>)
    requires GoodNumber(n) && At(s, 0, NumberText(n))
    ensures var start := |SignText(n)|;
            var dot := start + |n.digits|;
            var stop := dot + |FractionText(n)|;
            && At(s, start, n.digits) && At(s, dot, FractionText(n)) && At(s, stop, ExponentText(n))
            && |NumberText(n)| == stop + |ExponentText(n)| >= 1
            && s != [] && (s[0] == MINUS <==> n.minus) && (IsSign(s, 0) <==> n.minus)
  {
    hide *;
    NumberStart(n);
    FirstIs(n, s);
    NumberTextIs(n);
    FourParts(SignText(n), n.digits, FractionText(n), ExponentText(n), s);
  }

  lemma NumberTextIs(n: Number)
    ensures NumberText(n) == SignText(n) + (n.digits + (FractionText(n) + ExponentText(n)))
  {
  }

  lemma FirstIs(n: Number, s: seq<byte>)
    requires GoodNumber(n) && At(s, 0, NumberText(n))
    ensures s != [] && (s[0] == MINUS <==> n.minus) && (IsSign(s, 0) <==> n.minus)
  {
    NumberStart(n);
    hide At, NumberText, GoodNumber;
    AtByte(s, 0, NumberText(n), 0);
  }

  // The end of the digits in front of the point.
  lemma DigitsEnd(n: Number, s: seq<byte>, dot: nat)
    requires GoodNumber(n) && At(s, dot, FractionText(n)) && At(s, dot + |FractionText(n)|, ExponentText(n))
    ensures n.fraction.Some? || n.exponent.Some? ==> dot < |s| && !IsDigit(s[dot])
    ensures n.fraction.Some? ==> dot < |s| && s[dot] == DOT
    ensures n.fraction.None? && n.exponent.Some? ==> s[dot] != DOT
  {
    hide At;
    if n.fraction.Some? {
      AtByte(s, dot, FractionText(n), 0);
    } else if n.exponent.Some? {
      AtByte(s, dot, ExponentText(n), 0);
    }
  }

  // The end of the digits behind it.
  lemma FractionFound(n: Number, s: seq<byte>, dot: nat)
    requires GoodNumber(n) && n.fraction.Some?
    requires At(s, dot, FractionText(n)) && At(s, dot + |FractionText(n)|, ExponentText(n))
    ensures dot + |FractionText(n)| <= DigitRun(s, dot + 1)
    ensures n.exponent.Some? || |s| == dot + |FractionText(n)| ==> DigitRun(s, dot + 1) == dot + |FractionText(n)|
    ensures dot + |FractionText(n)| <= |s| && s[dot + 1..dot + |FractionText(n)|] == n.fraction.value
  {
    var t := n.fraction.value;
    FractionIs(n);
    hide *;
    AtConcat(s, dot, [0x2E], t);
    if n.exponent.Some? { AtByte(s, dot + 1 + |t|, ExponentText(n), 0); }
    DigitRunIs(s, dot + 1, t);
    AtIs(s, dot + 1, t);
  }

  lemma FractionIs(n: Number)
    requires GoodNumber(n) && n.fraction.Some?
    ensures FractionText(n) == [0x2E] + n.fraction.value && OnlyDigits(n.fraction.value)
    ensures n.exponent.Some? ==> ExponentText(n) != [] && !IsDigit(ExponentText(n)[0])
  {
  }

  lemma AtIs(s: seq<byte>, o: nat, t: seq<byte>)
    requires At(s, o, t)
    ensures o + |t| <= |s| && s[o..o + |t|] == t
  {
  }

  // An exponent with another byte, or nothing, behind its digits, or not.
  lemma ExponentParts(x: Exponent, s: seq<byte>, stop: nat)
    requires GoodExponent(x) && At(s, stop, [x.mark] + (x.sign + x.digits))
    ensures var end := stop + 1 + |x.sign| + |x.digits|;
            && stop <= end <= ReadExponent(s, stop).1
            && (end == |s| ==> ReadExponent(s, stop) ==
                                 (if x.sign == [0x2D] then -(Tally(x.digits) as int) else Tally(x.digits), end))
  {
    hide At, DigitRun, OnlyDigits, IsSign, DigitsValue, Tally;
    AtConcat(s, stop, [x.mark], x.sign + x.digits);
    AtByte(s, stop, [x.mark], 0);
    AtConcat(s, stop + 1, x.sign, x.digits);
    ExponentSign(x.sign, x.digits, s, stop + 1);
    DigitRunIs(s, stop + 1 + |x.sign|, x.digits);
    AtIs(s, stop + 1 + |x.sign|, x.digits);
    TallyIs(x.digits);
  }

  lemma ExponentSign(sign: seq<byte>, digits: seq<byte>, s: seq<byte>, p: nat)
    requires sign in {[], [0x2B], [0x2D]} && digits != [] && OnlyDigits(digits)
    requires At(s, p, sign) && At(s, p + |sign|, digits)
    ensures |sign| <= 1 && p < |s| && p + |sign| < |s|
    ensures (IsSign(s, p) <==> |sign| == 1) && (s[p] == MINUS <==> sign == [0x2D])
  {
    AtByte(s, p + |sign|, digits, 0);
    if sign != [] { AtByte(s, p, sign, 0); }
  }

  // The ends strtod finds, on a number in front of other bytes and on its own.
  lemma EndsFound(n: Number, s: seq<byte>)
    requires GoodNumber(n) && At(s, 0, NumberText(n))
    ensures |NumberText(n)| >= 1 && s != [] && SignEnd(s) == |SignText(n)| && (s[0] == MINUS <==> n.minus)
    ensures var dot := SignEnd(s) + |n.digits|;
            && dot <= DotAt(s) && s[SignEnd(s)..dot] == n.digits
            && (n.fraction.Some? || n.exponent.Some? || |s| == |NumberText(n)| ==> DotAt(s) == dot)
    ensures var stop := SignEnd(s) + |n.digits| + |FractionText(n)|;
            && stop <= FractionEnd(s) && At(s, stop, ExponentText(n))
            && (n.exponent.Some? || |s| == |NumberText(n)| ==> FractionEnd(s) == stop)
            && (n.fraction.Some? && FractionEnd(s) == stop ==> FractionAt(s) == n.fraction.value)
            && |NumberText(n)| == stop + |ExponentText(n)|
    ensures n.fraction.Some? ==> |FractionAt(s)| >= |n.fraction.value|
  {
    hide FractionText, ExponentText, NumberText, At, DigitRun, IsSign, GoodNumber;
    NumberShape(n, s);
    var start := |SignText(n)|;
    var dot := start + |n.digits|;
    GoodDigits(n);
    DigitRunIs(s, start, n.digits);
    AtIs(s, start, n.digits);
    DigitsEnd(n, s, dot);
    if n.fraction.Some? { FractionFound(n, s, dot); }
    NoParts(n);
  }

  lemma WhereItEnds(s: seq<byte>)
    ensures s[SignEnd(s)..DotAt(s)] + FractionAt(s) != [] ==>
              ReadDouble(s).length == ReadExponent(s, FractionEnd(s)).1
  {
    hide SignEnd, DotAt, FractionAt, FractionEnd, ReadExponent, DigitsValue, Scale;
  }

  // strtod reads at least a number that stands in front.
  lemma NumberInFront(n: Number, s: seq<byte>)
    requires GoodNumber(n) && At(s, 0, NumberText(n))
    ensures ReadDouble(s).length >= |NumberText(n)| >= 1
  {
    hide *;
    EndsFound(n, s);
    GoodDigits(n);
    NoParts(n);
    WhereItEnds(s);
    var dot := SignEnd(s) + |n.digits|;
    assert |s[SignEnd(s)..DotAt(s)]| >= |n.digits|;
    if n.exponent.Some? { ExponentInFront(n, s); }
  }

  lemma ExponentInFront(n: Number, s: seq<byte>)
    requires GoodNumber(n) && n.exponent.Some? && At(s, FractionEnd(s), ExponentText(n))
    ensures FractionEnd(s) + |ExponentText(n)| <= ReadExponent(s, FractionEnd(s)).1
  {
    hide At, FractionEnd, ReadExponent, GoodExponent;
    ExponentParts(n.exponent.value, s, FractionEnd(s));
  }

  lemma GoodDigits(n: Number)
    requires GoodNumber(n)
    ensures OnlyDigits(n.digits) && OnlyDigits(FractionDigits(n)) && n.digits + FractionDigits(n) != []
    ensures n.digits != [] || FractionDigits(n) != []
  {
    assert [] + FractionDigits(n) == FractionDigits(n);
  }

  lemma NoParts(n: Number)
    ensures n.fraction.None? ==> FractionText(n) == [] && FractionDigits(n) == []
    ensures n.exponent.None? ==> ExponentText(n) == []
    ensures n.fraction.Some? ==> |FractionText(n)| == 1 + |n.fraction.value| && FractionDigits(n) == n.fraction.value
  {
  }

  // And of the text of a number, all, yielding what it denotes.
  lemma NumberReads(n: Number)
    requires GoodNumber(n)
    ensures ReadDouble(NumberText(n)) == Strtod(NumberValue(n), |NumberText(n)|)
  {
    hide At, NumberText, SignEnd, DotAt, FractionEnd, ReadExponent, ReadDouble, NumberValue, Tally, FractionText;
    var s := NumberText(n);
    AtWhole(s);
    EndsFound(n, s);
    NoParts(n);
    assert FractionAt(s) == FractionDigits(n);
    assert ReadExponent(s, FractionEnd(s)) == (Scaling(n) + |FractionDigits(n)|, |s|) by { ExponentFound(n, s); }
    GoodDigits(n);
    hide GoodNumber, FractionAt, FractionDigits, Scaling;
    ReadsAs(n, s, |s|);
  }

  lemma ExponentFound(n: Number, s: seq<byte>)
    requires GoodNumber(n) && FractionEnd(s) + |ExponentText(n)| == |s| && At(s, FractionEnd(s), ExponentText(n))
    ensures ReadExponent(s, FractionEnd(s)) == (Scaling(n) + |FractionDigits(n)|, |s|)
  {
    hide At, FractionEnd, Tally;
    if n.exponent.Some? { ExponentParts(n.exponent.value, s, FractionEnd(s)); }
  }

  // What strtod makes of the parts it finds.
  lemma ReadsAs(n: Number, s: seq<byte>, end: nat)
    requires GoodNumber(n) && s != [] && (s[0] == MINUS <==> n.minus) && n.digits + FractionDigits(n) != []
    requires s[SignEnd(s)..DotAt(s)] == n.digits && FractionAt(s) == FractionDigits(n)
    requires ReadExponent(s, FractionEnd(s)) == (Scaling(n) + |FractionDigits(n)|, end)
    ensures ReadDouble(s) == Strtod(NumberValue(n), end)
  {
    hide SignEnd, DotAt, FractionEnd, FractionAt, ReadExponent, Scale, DigitsValue, GoodNumber, FractionDigits, Scaling,
      Mantissa, NumberValue;
    ValueIs(n);
  }

  lemma AtWhole(s: seq<byte>)
    ensures At(s, 0, s)
  {
    assert s[0..|s|] == s;
  }

  // The value in the terms of strtod.
  lemma ValueIs(n: Number)
    requires GoodNumber(n)
    ensures AllDigits(n.digits + FractionDigits(n))
    ensures var m: int := DigitsValue(n.digits + FractionDigits(n)); Mantissa(n) == if n.minus then -m else m
    ensures NumberValue(n) == Scale(Mantissa(n) as real, Scaling(n))
  {
    hide Scale, TenTo, FractionDigits;
    ScaleIs(Mantissa(n) as real, Scaling(n));
    TallyIs(n.digits + FractionDigits(n));
  }

  // The number strtod has read in front of s.
  lemma NumberRead(s: seq<byte>) returns (n: Number)
    requires ReadDouble(s).length > 0 && s != [] && (s[0] == 0x2D || 0x30 <= s[0] <= 0x39)
    ensures GoodNumber(n) && At(s, 0, NumberText(n)) && |NumberText(n)| == ReadDouble(s).length
    ensures NumberValue(n) == ReadDouble(s).value
  {
    hide At, NumberText, SignEnd, DotAt, FractionEnd, FractionAt, ReadExponent, NumberValue, GoodNumber, GoodExponent;
    assert s[SignEnd(s)..DotAt(s)] + FractionAt(s) != [];
    hide ReadDouble;
    var x := ExponentRead(s, FractionEnd(s));
    n := PartsRead(s, x);
    ReadsAs(n, s, ReadExponent(s, FractionEnd(s)).1);
  }

  lemma PartsRead(s: seq<byte>, x: Option<Exponent>) returns (n: Number)
    requires s != [] && (s[0] == 0x2D || 0x30 <= s[0] <= 0x39)
    requires s[SignEnd(s)..DotAt(s)] + FractionAt(s) != []
    requires x.Some? ==> GoodExponent(x.value)
    requires var stop, end := FractionEnd(s), ReadExponent(s, FractionEnd(s)).1;
             s[stop..end] == if x.Some? then [x.value.mark] + (x.value.sign + x.value.digits) else []
    ensures GoodNumber(n) && n.exponent == x && FractionDigits(n) == FractionAt(s)
    ensures n.minus == (s[0] == MINUS) && n.digits == s[SignEnd(s)..DotAt(s)]
    ensures At(s, 0, NumberText(n)) && |NumberText(n)| == ReadExponent(s, FractionEnd(s)).1
  {
    hide ReadExponent, GoodExponent, At, NumberText, OnlyDigits, AllDigits, SignEnd, DotAt, FractionEnd, FractionAt;
    var start, dot, stop := SignEnd(s), DotAt(s), FractionEnd(s);
    var fraction := FractionRead(s);
    n := Number(s[0] == 0x2D, s[start..dot], fraction, x);
    DigitsAre(s[start..dot]);
    DigitsAre(FractionAt(s));
    FirstDigit(s);
    StandsInFront(s, n, start, dot, stop);
  }

  lemma FractionRead(s: seq<byte>) returns (fraction: Option<seq<byte>>)
    ensures (if fraction.Some? then fraction.value else []) == FractionAt(s)
    ensures (if fraction.Some? then [0x2E] + fraction.value else []) == s[DotAt(s)..FractionEnd(s)]
  {
    hide DotAt, DigitRun;
    var dot, stop := DotAt(s), FractionEnd(s);
    fraction := if stop > dot then Some(s[dot + 1..stop]) else None;
    assert stop > dot ==> s[dot..stop] == [s[dot]] + s[dot + 1..stop];
  }

  lemma FirstDigit(s: seq<byte>)
    ensures s != [] && 0x30 <= s[0] <= 0x39 ==> DotAt(s) > SignEnd(s) == 0
    ensures s != [] && (s[0] == 0x2D || 0x30 <= s[0] <= 0x39) ==>
              s[..SignEnd(s)] == if s[0] == 0x2D then [0x2D] else []
  {
  }

  // The exponent, unless the mark has no digits behind it.
  lemma ExponentRead(s: seq<byte>, stop: nat) returns (x: Option<Exponent>)
    requires stop <= |s|
    ensures x.Some? ==> GoodExponent(x.value)
    ensures var (e, end) := ReadExponent(s, stop);
            && s[stop..end] == (if x.Some? then [x.value.mark] + (x.value.sign + x.value.digits) else [])
            && e == if x.None? then 0
                    else if x.value.sign == [0x2D] then -(Tally(x.value.digits) as int) else Tally(x.value.digits)
  {
    hide DigitRun, Tally, DigitsValue;
    x := None;
    if IsExponentMark(s, stop) {
      var digits := if IsSign(s, stop + 1) then stop + 2 else stop + 1;
      var end := DigitRun(s, digits);
      if end > digits {
        var sign, t := if IsSign(s, stop + 1) then [s[stop + 1]] else [], s[digits..end];
        DigitsAre(t);
        TallyIs(t);
        x := Some(Exponent(s[stop], sign, t));
        assert s[stop + 1] == MINUS <==> sign == [0x2D] by { assert IsDigit(t[0]) && t[0] == s[digits]; }
        assert s[stop..end] == [s[stop]] + (sign + t);
      }
    }
  }

  lemma StandsInFront(s: seq<byte>, n: Number, start: nat, dot: nat, stop: nat)
    requires start <= dot <= stop <= |s| && SignText(n) == s[..start] && n.digits == s[start..dot]
    requires FractionText(n) == s[dot..stop]
    requires stop + |ExponentText(n)| <= |s| && ExponentText(n) == s[stop..stop + |ExponentText(n)|]
    ensures At(s, 0, NumberText(n)) && |NumberText(n)| == stop + |ExponentText(n)|
  {
    hide SignText, FractionText, ExponentText;
    var end := stop + |ExponentText(n)|;
    assert s[..end] == s[..start] + (s[start..dot] + (s[dot..stop] + s[stop..end]));
  }

  // ----- parse_number -----

  // No number within the buffer's 63 bytes is longer.
  ghost predicate Longest(s: seq<byte>, o: nat, length: nat)
  {
    forall n :: GoodNumber(n) && At(s, o, NumberText(n)) && |NumberText(n)| <= 63 ==> |NumberText(n)| <= length
  }

  predicate NumberBytesOnly(t: seq<byte>) { forall i :: 0 <= i < |t| ==> IsNumberByte(t[i]) }

  // Every byte of a number's text is one parse_number copies.
  lemma NumberBytes(n: Number)
    requires GoodNumber(n)
    ensures NumberBytesOnly(NumberText(n))
  {
    assert NumberBytesOnly(FractionText(n)) && NumberBytesOnly(ExponentText(n));
    assert NumberBytesOnly(SignText(n)) && NumberBytesOnly(n.digits);
    hide FractionText, ExponentText, SignText;
  }

  // The copied bytes hold every number that fits.
  lemma RunHolds(n: Number, s: seq<byte>, o: nat)
    requires GoodNumber(n) && At(s, o, NumberText(n)) && |NumberText(n)| <= NUMBER_ROOM
    ensures At(NumberRun(s, o, NUMBER_ROOM), 0, NumberText(n))
  {
    hide NumberText, NumberRun;
    var t, run := NumberText(n), NumberRun(s, o, NUMBER_ROOM);
    NumberBytes(n);
    if |run| < |t| { AtByte(s, o, t, |run|); }
    assert run[0..|t|] == s[o..o + |t|];
  }

  // What parse_number takes is the longest number there.
  lemma NumberAt(s: seq<byte>, o: nat) returns (n: Number)
    requires o < |s| && (s[o] == 0x2D || 0x30 <= s[o] <= 0x39) && ParseNumber(s, o).Done?
    ensures GoodNumber(n) && At(s, o, NumberText(n)) && |NumberText(n)| <= 63
    ensures Longest(s, o, |NumberText(n)|)
    ensures ParseNumber(s, o) == Done(JNumber(SaturatedInt(NumberValue(n)), NumberValue(n)), o + |NumberText(n)|)
  {
    hide ReadDouble, NumberText, NumberValue, GoodNumber, SaturatedInt, NumberRun, At, Longest;
    var run := NumberRun(s, o, NUMBER_ROOM);
    n := NumberRead(run);
    InRun(s, o, NumberText(n));
    NoneIsLonger(s, o);
  }

  lemma InRun(s: seq<byte>, o: nat, t: seq<byte>)
    requires o <= |s| && At(NumberRun(s, o, NUMBER_ROOM), 0, t)
    ensures At(s, o, t) && |t| <= 63
  {
    hide NumberRun;
    var run := NumberRun(s, o, NUMBER_ROOM);
    assert s[o..o + |t|] == run[..|t|];
  }

  lemma NoneIsLonger(s: seq<byte>, o: nat)
    requires o <= |s|
    ensures Longest(s, o, ReadDouble(NumberRun(s, o, NUMBER_ROOM)).length)
  {
    hide ReadDouble, NumberText, GoodNumber, NumberRun, At;
    var run := NumberRun(s, o, NUMBER_ROOM);
    forall m | GoodNumber(m) && At(s, o, NumberText(m)) && |NumberText(m)| <= 63
      ensures |NumberText(m)| <= ReadDouble(run).length
    {
      RunHolds(m, s, o);
      NumberInFront(m, run);
    }
  }

  // And the longest number there is taken.
  lemma LongestIsTaken(n: Number, s: seq<byte>, o: nat)
    requires GoodNumber(n) && At(s, o, NumberText(n)) && |NumberText(n)| <= 63 && Longest(s, o, |NumberText(n)|)
    ensures ParseNumber(s, o) == Done(JNumber(SaturatedInt(NumberValue(n)), NumberValue(n)), o + |NumberText(n)|)
  {
    hide ReadDouble, NumberText, NumberValue, GoodNumber, SaturatedInt, NumberRun;
    RunHolds(n, s, o);
    NumberInFront(n, NumberRun(s, o, NUMBER_ROOM));
    NumberStart(n);
    AtByte(s, o, NumberText(n), 0);
    var m := NumberAt(s, o);
    assert |NumberText(m)| == |NumberText(n)| && NumberText(m) == NumberText(n);
    NumberReads(n);
    NumberReads(m);
  }

  // A number with another byte, or nothing, behind it is the longest one.
  lemma EndedIsLongest(n: Number, s: seq<byte>, o: nat)
    requires GoodNumber(n) && At(s, o, NumberText(n))
    requires var e := o + |NumberText(n)|; e == |s| || !IsNumberByte(s[e])
    ensures Longest(s, o, |NumberText(n)|)
  {
    hide NumberText, GoodNumber;
    forall m | GoodNumber(m) && At(s, o, NumberText(m)) && |NumberText(m)| <= 63
      ensures |NumberText(m)| <= |NumberText(n)|
    {
      NumberBytes(m);
      if |NumberText(m)| > |NumberText(n)| { AtByte(s, o, NumberText(m), |NumberText(n)|); }
    }
  }
}
