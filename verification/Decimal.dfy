// Decimal integers as the C library writes them with `%d` and reads them with `strtod`.
module Decimal {
  import opened Bytes

  // `%u`: the digits of n, most significant first.
  function Digits(n: nat): (t: seq<byte>)
    ensures |t| >= 1
    ensures forall i :: 0 <= i < |t| ==> IsDigit(t[i])
  {
    if n < 10 then [ZERO + n] else Digits(n / 10) + [ZERO + n % 10]
  }

  // `%d`.
  function IntText(n: int): (t: seq<byte>)
    ensures |t| >= 1
    ensures forall i :: 0 <= i < |t| ==> IsDigit(t[i]) || (i == 0 && t[i] == MINUS)
  {
    if n < 0 then [MINUS] + Digits(-n) else Digits(n)
  }

  predicate AllDigits(t: seq<byte>) { forall i :: 0 <= i < |t| ==> IsDigit(t[i]) }

  // The value of a run of digits.
  function DigitsValue(t: seq<byte>): nat
    requires AllDigits(t)
  {
    if t == [] then 0
    else
      assert IsDigit(t[|t| - 1]);
      DigitsValue(t[..|t| - 1]) * 10 + (t[|t| - 1] - ZERO)
  }

  lemma {:induction false} DigitsRoundTrip(n: nat)
    ensures DigitsValue(Digits(n)) == n && (Digits(n)[0] == ZERO <==> n == 0)
  {
    if n >= 10 {
      DigitsRoundTrip(n / 10);
      assert Digits(n)[..|Digits(n)| - 1] == Digits(n / 10);
    } else {
      assert Digits(n)[..0] == [];
    }
  }

  function Power10(e: nat): (p: nat)
    ensures p >= 1
  {
    if e == 0 then 1 else 10 * Power10(e - 1)
  }

  // n takes at most e digits when it is below 10^e.
  lemma {:induction false} DigitsLength(n: nat, e: nat)
    requires e >= 1 && n < Power10(e)
    ensures |Digits(n)| <= e
  {
    if n >= 10 {
      assert e >= 2;
      DigitsLength(n / 10, e - 1);
    }
  }

  lemma IntTextLength(n: int)
    requires INT_MIN <= n <= INT_MAX
    ensures 1 <= |IntText(n)| <= 11
    ensures forall i :: 0 <= i < |IntText(n)| ==> IsDigit(IntText(n)[i]) || (i == 0 && n < 0 && IntText(n)[i] == MINUS)
  {
    var m: nat := if n < 0 then -n else n;
    assert Power10(10) == 10_000_000_000 by {
      assert Power10(5) == 100_000;
      assert Power10(6) == 1_000_000;
      assert Power10(7) == 10_000_000;
      assert Power10(8) == 100_000_000;
    }
    DigitsLength(m, 10);
  }

  // First index at or after i that holds no digit.
  function DigitRun(s: seq<byte>, i: nat): (j: nat)
    requires i <= |s|
    ensures i <= j <= |s|
    ensures AllDigits(s[i..j])
    ensures j < |s| ==> !IsDigit(s[j])
    decreases |s| - i
  {
    if i < |s| && IsDigit(s[i]) then DigitRun(s, i + 1) else i
  }

  predicate IsSign(s: seq<byte>, i: nat) { i < |s| && (s[i] == PLUS || s[i] == MINUS) }

  predicate IsExponentMark(s: seq<byte>, i: nat) { i < |s| && (s[i] == LOWER_E || s[i] == UPPER_E) }

  // strtod on text made of digits, signs, '.', 'e' and 'E' only: the exact value
  // of the longest number in front, and how many bytes it takes (0: no number).
  datatype Strtod = Strtod(value: real, length: nat)

  function Scale(m: real, e: int): real
  {
    if e >= 0 then m * Power10(e) as real else m / Power10(-e) as real
  }

  // A decimal number at the front of s: integer digits s[SignEnd..DotAt],
  // fraction digits up to FractionEnd, and an exponent part.
  function SignEnd(s: seq<byte>): nat { if IsSign(s, 0) then 1 else 0 }

  function DotAt(s: seq<byte>): (dot: nat)
    ensures SignEnd(s) <= dot <= |s| && AllDigits(s[SignEnd(s)..dot])
  {
    DigitRun(s, SignEnd(s))
  }

  function FractionEnd(s: seq<byte>): (stop: nat)
    ensures DotAt(s) <= stop <= |s| && (stop > DotAt(s) ==> s[DotAt(s)] == DOT && AllDigits(s[DotAt(s) + 1..stop]))
  {
    if DotAt(s) < |s| && s[DotAt(s)] == DOT then DigitRun(s, DotAt(s) + 1) else DotAt(s)
  }

  function FractionAt(s: seq<byte>): (t: seq<byte>)
    ensures AllDigits(t)
  {
    if FractionEnd(s) > DotAt(s) then s[DotAt(s) + 1..FractionEnd(s)] else []
  }

  // The exponent at `stop` and its end; without digits there is none.
  function ReadExponent(s: seq<byte>, stop: nat): (r: (int, nat))
    requires stop <= |s|
    ensures stop <= r.1 <= |s|
  {
    if !IsExponentMark(s, stop) then (0, stop)
    else
      var digits := if IsSign(s, stop + 1) then stop + 2 else stop + 1;
      var end := DigitRun(s, digits);
      if end == digits then (0, stop)
      else
        var size: int := DigitsValue(s[digits..end]);
        (if s[stop + 1] == MINUS then -size else size, end)
  }

  function ReadDouble(s: seq<byte>): (r: Strtod)
    ensures r.length <= |s|
  {
    var digits := s[SignEnd(s)..DotAt(s)] + FractionAt(s);
    if digits == [] then Strtod(0.0, 0)
    else
      assert AllDigits(digits);
      var m: int := DigitsValue(digits);
      var (e, end) := ReadExponent(s, FractionEnd(s));
      Strtod(Scale((if s[0] == MINUS then -m else m) as real, e - |FractionAt(s)|), end)
  }

  // What `%d` prints, strtod reads back exactly and in full.
  lemma IntTextRoundTrip(n: int)
    ensures ReadDouble(IntText(n)) == Strtod(n as real, |IntText(n)|)
  {
    var s := IntText(n);
    var m: nat := if n < 0 then -n else n;
    var start := if n < 0 then 1 else 0;
    assert IsSign(s, 0) <==> n < 0;
    assert s[start..|s|] == Digits(m);
    assert DigitRun(s, start) == |s|;
    assert s[start..|s|] + [] == Digits(m);
    DigitsRoundTrip(m);
    assert Power10(0) == 1;
  }
}
