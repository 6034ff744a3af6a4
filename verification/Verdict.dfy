// Result strings: how `grade` writes them and how they are read back, by
// parse_verdict, by subtask_case_marker and by the scan for a case number.
module Verdict {
  import opened Bytes

  // ----- decimal numbers in result strings -----

  predicate IsDecimal(c: char) { '0' <= c <= '9' }

  function DigitChar(d: nat): (c: char)
    requires d < 10
    ensures IsDecimal(c) && CharValue(c) == d
  {
    ('0' as int + d) as char
  }

  function CharValue(c: char): nat
    requires IsDecimal(c)
  {
    c as int - '0' as int
  }

  // `%u`
  function UnsignedText(n: nat): (t: string)
    ensures |t| >= 1 && AllDecimal(t)
  {
    if n < 10 then [DigitChar(n)] else UnsignedText(n / 10) + [DigitChar(n % 10)]
  }

  // `%d`
  function SignedText(n: int): (t: string)
    ensures |t| >= 1 && '#' !in t && (t[0] == '-' <==> n < 0)
  {
    if n < 0 then "-" + UnsignedText(-n) else UnsignedText(n)
  }

  predicate AllDecimal(t: string) { forall i :: 0 <= i < |t| ==> IsDecimal(t[i]) }

  function DecimalRun(s: string): (n: nat)
    ensures n <= |s| && AllDecimal(s[..n]) && (n < |s| ==> !IsDecimal(s[n]))
  {
    if s == "" || !IsDecimal(s[0]) then 0 else
      var n := DecimalRun(s[1..]);
      assert s[..n + 1] == [s[0]] + s[1..][..n];
      n + 1
  }

  function DecimalValue(t: string): nat
    requires AllDecimal(t)
  {
    if t == "" then 0 else DecimalValue(t[..|t| - 1]) * 10 + CharValue(t[|t| - 1])
  }

  lemma {:induction false} UnsignedReadsBack(n: nat)
    ensures DecimalValue(UnsignedText(n)) == n
  {
    if n >= 10 {
      UnsignedReadsBack(n / 10);
      assert UnsignedText(n)[..|UnsignedText(n)| - 1] == UnsignedText(n / 10);
    } else {
      assert UnsignedText(n)[..0] == "";
    }
  }

  predicate IsSpace(c: char) { c == ' ' || '\t' <= c <= '\r' }

  function AfterSpaces(s: string): string
  {
    if s != "" && IsSpace(s[0]) then AfterSpaces(s[1..]) else s
  }

  // `%d` and `%u` of sscanf: blanks, a sign, digits.
  function ScanInt(s: string): Option<int>
  {
    var t := AfterSpaces(s);
    var negative := t != "" && t[0] == '-';
    var u := if t != "" && (t[0] == '-' || t[0] == '+') then t[1..] else t;
    var n := DecimalRun(u);
    if n == 0 then None
    else
      var value: int := DecimalValue(u[..n]);
      Some(if negative then -value else value)
  }

  lemma {:induction false} AllDecimalRun(t: string)
    requires AllDecimal(t)
    ensures DecimalRun(t) == |t|
  {
    if t != "" { AllDecimalRun(t[1..]); }
  }

  lemma ScanReadsBack(n: nat)
    ensures ScanInt(UnsignedText(n)) == Some(n)
  {
    var t := UnsignedText(n);
    assert IsDecimal(t[0]);
    AllDecimalRun(t);
    UnsignedReadsBack(n);
    assert t[..|t|] == t;
  }

  // sscanf with a format of literal characters, blanks and one number at the end.
  function Scan(format: string, s: string): Option<int>
    decreases |format|
  {
    if format == "" then ScanInt(s)
    else if IsSpace(format[0]) then Scan(format[1..], AfterSpaces(s))
    else if s == "" || s[0] != format[0] then None
    else Scan(format[1..], s[1..])
  }

  // "%*[^#]#%u": at least one character up to a '#', and the number behind it.
  function HashAt(s: string): (n: nat)
    ensures n <= |s| && '#' !in s[..n] && (n < |s| ==> s[n] == '#')
  {
    if s == "" || s[0] == '#' then 0 else
      var n := HashAt(s[1..]);
      assert s[..n + 1] == [s[0]] + s[1..][..n];
      n + 1
  }

  function ScanCase(s: string): Option<int>
  {
    var n := HashAt(s);
    if n == 0 || n == |s| then None else ScanInt(s[n + 1..])
  }

  lemma {:induction false} HashBehind(head: string, tail: string)
    requires '#' !in head
    ensures HashAt(head + "#" + tail) == |head|
  {
    if head != "" {
      assert (head + "#" + tail)[1..] == head[1..] + "#" + tail;
      HashBehind(head[1..], tail);
    } else {
      assert head + "#" + tail == "#" + tail;
    }
  }

  lemma ScanCaseReadsBack(head: string, n: nat)
    requires head != "" && '#' !in head
    ensures ScanCase(head + "#" + UnsignedText(n)) == Some(n)
  {
    var s := head + "#" + UnsignedText(n);
    HashBehind(head, UnsignedText(n));
    assert s[|head| + 1..] == UnsignedText(n);
    ScanReadsBack(n);
  }

  // ----- prefixes -----

  predicate StartsWith(s: string, prefix: string) { prefix <= s }

  // subtask_case_marker; None is the null pointer.
  function Marker(result: Option<string>): char
  {
    if result.None? || result.value == "" || result.value == "accepted!" then 'A'
    else
      var s := result.value;
      if StartsWith(s, "wa#") then 'W'
      else if StartsWith(s, "time limit exceeded") then 'T'
      else if StartsWith(s, "memory limit exceeded") then 'M'
      else if StartsWith(s, "signal(") || StartsWith(s, "exitcode(") then 'R'
      else 'E'
  }

  datatype Class = Accepted | CompilationError | WrongAnswer | TimeLimit | MemoryLimit | RuntimeError | InternalError

  // parse_verdict: the class and the case it names, -1 for none.
  function ParseVerdict(s: string): (Class, int)
  {
    if s == "accepted!" then (Accepted, -1)
    else if s == "compilation error" then (CompilationError, -1)
    else if Scan("wa#", s).Some? then (WrongAnswer, Scan("wa#", s).value)
    else if Scan("time limit exceeded#", s).Some? then (TimeLimit, Scan("time limit exceeded#", s).value)
    else if Scan("memory limit exceeded#", s).Some? then (MemoryLimit, Scan("memory limit exceeded#", s).value)
    else if StartsWith(s, "signal(") || StartsWith(s, "exitcode(") then (RuntimeError, -1)
    else (InternalError, -1)
  }

  // ----- how a test case fails -----

  datatype Failure =
    | NoStat
    | Crashed
    | TimeExceeded(c: nat)
    | Signalled(sig: int, c: nat)
    | Exited(code: int, c: nat)
    | MemoryExceeded(c: nat)
    | Wrong(c: nat)
    | JuryMissing
    | JuryUncompilable
    | JuryFailed
    | JuryOdd(v0: char, v1: char)

  const NUL_CHAR: char := 0 as char

  // What a C string function sees of two characters.
  function TwoChars(v0: char, v1: char): string
  {
    if v0 == NUL_CHAR then "" else if v1 == NUL_CHAR then [v0] else [v0, v1]
  }

  const ODD := "internal error:unsupported verdict "

  function FailureText(f: Failure): string
  {
    match f
    case NoStat => "internalerror: failed opening stat"
    case Crashed => "internal error:isolate crashed"
    case TimeExceeded(c) => "time limit exceeded" + "#" + UnsignedText(c)
    case Signalled(sig, c) => ("signal(" + (SignedText(sig) + ")")) + "#" + UnsignedText(c)
    case Exited(code, c) => ("exitcode(" + (SignedText(code) + ")")) + "#" + UnsignedText(c)
    case MemoryExceeded(c) => "memory limit exceeded" + "#" + UnsignedText(c)
    case Wrong(c) => "wa" + "#" + UnsignedText(c)
    case JuryMissing => "internal error:jury not present"
    case JuryUncompilable => "internal error:failed compiling jury"
    case JuryFailed => "internal error:jury failed"
    case JuryOdd(v0, v1) => ODD + TwoChars(v0, v1)
  }

  function Letter(f: Failure): char
  {
    match f
    case TimeExceeded(_) => 'T'
    case Signalled(_, _) => 'R'
    case Exited(_, _) => 'R'
    case MemoryExceeded(_) => 'M'
    case Wrong(_) => 'W'
    case _ => 'E'
  }

  function ClassOf(letter: char): Class
  {
    if letter == 'A' then Accepted
    else if letter == 'W' then WrongAnswer
    else if letter == 'T' then TimeLimit
    else if letter == 'M' then MemoryLimit
    else if letter == 'R' then RuntimeError
    else InternalError
  }

  // The case the stored verdict names.
  function VerdictCase(f: Failure): int
  {
    match f
    case TimeExceeded(c) => c
    case MemoryExceeded(c) => c
    case Wrong(c) => c
    case _ => -1
  }

  // The case the group bookkeeping reads out of the text, if any: normally the
  // one that failed, but a jury that answers '#' and a digit names one itself.
  function ReportedCase(f: Failure): Option<int>
  {
    match f
    case TimeExceeded(c) => Some(c)
    case Signalled(_, c) => Some(c)
    case Exited(_, c) => Some(c)
    case MemoryExceeded(c) => Some(c)
    case Wrong(c) => Some(c)
    case JuryOdd(v0, v1) => if v0 == '#' && IsDecimal(v1) then Some(CharValue(v1)) else None
    case _ => None
  }

  // A format without doubled blanks reads its own text back.
  predicate Spaced(format: string)
  {
    forall i :: 0 <= i < |format| && IsSpace(format[i]) ==> i + 1 < |format| && !IsSpace(format[i + 1])
  }

  lemma {:induction false} ScanExact(format: string, rest: string)
    requires Spaced(format)
    ensures Scan(format, format + rest) == ScanInt(rest)
    decreases |format|
  {
    var s := format + rest;
    if format == "" {
      assert s == rest;
    } else {
      assert s[1..] == format[1..] + rest;
      assert Spaced(format[1..]) by {
        assert forall i :: 0 <= i < |format| - 1 ==> format[1..][i] == format[i + 1];
      }
      ScanExact(format[1..], rest);
      if IsSpace(format[0]) {
        assert !IsSpace(s[1..][0]);
        assert AfterSpaces(s) == AfterSpaces(s[1..]) == s[1..];
      }
    }
  }

  lemma Numbered(head: string, c: nat)
    requires Spaced(head + "#")
    ensures Scan(head + "#", head + "#" + UnsignedText(c)) == Some(c)
  {
    ScanExact(head + "#", UnsignedText(c));
    ScanReadsBack(c);
  }

  lemma TextStarts(f: Failure)
    ensures |FailureText(f)| >= 2
    ensures FailureText(f)[0] ==
            match f
            case TimeExceeded(_) => 't'
            case Signalled(_, _) => 's'
            case Exited(_, _) => 'e'
            case MemoryExceeded(_) => 'm'
            case Wrong(_) => 'w'
            case _ => 'i'
  {
  }

  // Digits and what follows them.
  lemma {:induction false} DigitsThen(t: string, rest: string)
    requires AllDecimal(t) && (rest == "" || !IsDecimal(rest[0]))
    ensures DecimalRun(t + rest) == |t|
  {
    if t != "" {
      assert (t + rest)[1..] == t[1..] + rest;
      DigitsThen(t[1..], rest);
    } else {
      assert t + rest == rest;
    }
  }

  lemma DigitsRead(t: string, rest: string)
    requires AllDecimal(t) && t != "" && rest != "" && !IsDecimal(rest[0])
    ensures ScanInt(t + rest) == Some(DecimalValue(t))
  {
    DigitsThen(t, rest);
    hide DecimalValue, DecimalRun;
    var s := t + rest;
    assert s[..|t|] == t && IsDecimal(s[0]) && AfterSpaces(s) == s;
  }

  lemma MinusReads(u: string)
    requires u != "" && IsDecimal(u[0]) && ScanInt(u).Some?
    ensures ScanInt("-" + u) == Some(-ScanInt(u).value)
  {
    hide DecimalValue, DecimalRun;
    var s := "-" + u;
    assert s[1..] == u && AfterSpaces(s) == s && AfterSpaces(u) == u;
  }

  lemma SignedReads(n: int, rest: string)
    requires rest != "" && !IsDecimal(rest[0])
    ensures ScanInt(SignedText(n) + rest) == Some(n)
  {
    hide UnsignedText, DecimalValue, ScanInt;
    var m: nat := if n < 0 then -n else n;
    var t := UnsignedText(m);
    UnsignedReadsBack(m);
    DigitsRead(t, rest);
    if n < 0 {
      assert (t + rest)[0] == t[0];
      MinusReads(t + rest);
      assert SignedText(n) + rest == "-" + (t + rest);
    }
  }

  lemma Regroup(head: string, code: string, number: string)
    ensures (head + (code + ")")) + "#" + number == head + (code + (")" + "#" + number))
  {
  }

  lemma CodeReads(head: string, n: int, number: string)
    requires Spaced(head)
    ensures Scan(head, (head + (SignedText(n) + ")")) + "#" + number) == Some(n)
  {
    hide ScanInt, SignedText, Scan;
    var rest := ")" + "#" + number;
    SignedReads(n, rest);
    ScanExact(head, SignedText(n) + rest);
    Regroup(head, SignedText(n), number);
  }

  // The signal and the exit code are those of the run.
  lemma CodesRead(n: int, c: nat)
    ensures Scan("signal(", FailureText(Signalled(n, c))) == Some(n)
    ensures Scan("exitcode(", FailureText(Exited(n, c))) == Some(n)
  {
    hide Scan, SignedText, UnsignedText;
    CodeReads("signal(", n, UnsignedText(c));
    CodeReads("exitcode(", n, UnsignedText(c));
  }

  // The stored text never reads as a pass, and its marker letter is that of the failure.
  lemma MarkerReads(f: Failure)
    ensures Marker(Some(FailureText(f))) == Letter(f)
  {
    hide UnsignedText, SignedText;
    TextStarts(f);
    var s := FailureText(f);
    assert s != "accepted!" by { assert s[0] != "accepted!"[0]; }
    match f
    case Signalled(sig, c) =>
      assert s == "signal(" + ((SignedText(sig) + ")") + "#" + UnsignedText(c));
    case Exited(code, c) =>
      assert s == "exitcode(" + ((SignedText(code) + ")") + "#" + UnsignedText(c));
    case Wrong(c) =>
      assert s == "wa#" + UnsignedText(c);
    case TimeExceeded(c) =>
      assert s == "time limit exceeded" + ("#" + UnsignedText(c));
    case MemoryExceeded(c) =>
      assert s == "memory limit exceeded" + ("#" + UnsignedText(c));
    case _ =>
  }

  lemma ScanMismatch(format: string, s: string)
    requires format != "" && s != "" && format[0] != s[0] && !IsSpace(format[0])
    ensures Scan(format, s) == None
  {
  }

  // No other pattern of parse_verdict gets in the way.
  lemma OnlyOnePattern(f: Failure)
    ensures var s := FailureText(f);
            && s != "accepted!" && s != "compilation error"
            && (!f.Wrong? ==> Scan("wa#", s) == None)
            && (!f.TimeExceeded? ==> Scan("time limit exceeded#", s) == None)
            && (!f.MemoryExceeded? ==> Scan("memory limit exceeded#", s) == None)
  {
    TextStarts(f);
    hide Scan, FailureText;
    var s := FailureText(f);
    assert s != "accepted!" by { assert s[0] != "accepted!"[0]; }
    assert s != "compilation error" by { assert s[0] != "compilation error"[0]; }
    if !f.Wrong? { ScanMismatch("wa#", s); }
    if !f.TimeExceeded? { ScanMismatch("time limit exceeded#", s); }
    if !f.MemoryExceeded? { ScanMismatch("memory limit exceeded#", s); }
  }

  lemma WrongReads(c: nat)
    ensures Scan("wa#", FailureText(Wrong(c))) == Some(c)
  {
    hide Scan, UnsignedText;
    assert "wa" + "#" == "wa#";
    Numbered("wa", c);
  }

  lemma TimeReads(c: nat)
    ensures Scan("time limit exceeded#", FailureText(TimeExceeded(c))) == Some(c)
  {
    hide Scan, UnsignedText;
    assert "time limit exceeded" + "#" == "time limit exceeded#";
    Numbered("time limit exceeded", c);
  }

  lemma MemoryReads(c: nat)
    ensures Scan("memory limit exceeded#", FailureText(MemoryExceeded(c))) == Some(c)
  {
    hide Scan, UnsignedText;
    assert "memory limit exceeded" + "#" == "memory limit exceeded#";
    Numbered("memory limit exceeded", c);
  }

  // parse_verdict agrees with the marker, and names the right case for a wrong
  // answer and for both limits.
  lemma VerdictReads(f: Failure)
    ensures ParseVerdict(FailureText(f)) == (ClassOf(Letter(f)), VerdictCase(f))
  {
    hide Scan, FailureText, UnsignedText;
    OnlyOnePattern(f);
    RuntimePrefix(f);
    match f
    case Wrong(c) => WrongReads(c);
    case TimeExceeded(c) => TimeReads(c);
    case MemoryExceeded(c) => MemoryReads(c);
    case _ =>
  }

  lemma RuntimePrefix(f: Failure)
    ensures var s := FailureText(f);
            StartsWith(s, "signal(") || StartsWith(s, "exitcode(") <==> f.Signalled? || f.Exited?
  {
    hide UnsignedText, SignedText;
    TextStarts(f);
    var s := FailureText(f);
    match f
    case Signalled(sig, c) =>
      assert s == "signal(" + ((SignedText(sig) + ")") + "#" + UnsignedText(c));
    case Exited(code, c) =>
      assert s == "exitcode(" + ((SignedText(code) + ")") + "#" + UnsignedText(c));
    case _ =>
  }

  lemma {:induction false} NoHash(s: string)
    requires '#' !in s
    ensures HashAt(s) == |s|
  {
    if s != "" { NoHash(s[1..]); }
  }

  lemma ScanNothing(s: string)
    requires '#' !in s
    ensures ScanCase(s) == None
  {
    NoHash(s);
  }

  // What the group bookkeeping reads, for every failure there is.
  lemma CaseReads(f: Failure)
    ensures ScanCase(FailureText(f)) == ReportedCase(f)
  {
    hide UnsignedText, SignedText, ScanCase, TwoChars;
    match f
    case TimeExceeded(c) => ScanCaseReadsBack("time limit exceeded", c);
    case MemoryExceeded(c) => ScanCaseReadsBack("memory limit exceeded", c);
    case Wrong(c) => ScanCaseReadsBack("wa", c);
    case Signalled(sig, c) => ScanCaseReadsBack("signal(" + (SignedText(sig) + ")"), c);
    case Exited(code, c) => ScanCaseReadsBack("exitcode(" + (SignedText(code) + ")"), c);
    case JuryOdd(v0, v1) => OddReads(v0, v1);
    case _ => ScanNothing(FailureText(f));
  }

  lemma OddReads(v0: char, v1: char)
    ensures ScanCase(ODD + TwoChars(v0, v1)) == ReportedCase(JuryOdd(v0, v1))
  {
    hide HashAt, ScanInt;
    var s := ODD + TwoChars(v0, v1);
    if v0 == '#' {
      var tail := if v1 == NUL_CHAR then "" else [v1];
      assert s == ODD + "#" + tail;
      HashBehind(ODD, tail);
      assert s[|ODD| + 1..] == tail;
      OneChar(tail);
    } else if v0 != NUL_CHAR && v1 == '#' {
      assert s == (ODD + [v0]) + "#" + "";
      HashBehind(ODD + [v0], "");
      assert s[|ODD| + 2..] == "";
      OneChar("");
    } else {
      ScanNothing(s);
    }
  }

  lemma OneChar(t: string)
    requires |t| <= 1
    ensures ScanInt(t) == if t != "" && IsDecimal(t[0]) then Some(CharValue(t[0])) else None
  {
    assert AfterSpaces("") == "" && DecimalRun("") == 0;
    if t != "" {
      assert t[1..] == "";
      assert AfterSpaces(t) == if IsSpace(t[0]) then "" else t;
      if IsDecimal(t[0]) {
        assert DecimalRun(t) == 1 && t[..1] == t && t[..0] == "";
        assert t[0] as int - 48 < 10 && !IsSpace(t[0]);
        assert DecimalValue(t[..1]) == DecimalValue(t[..0]) * 10 + CharValue(t[0]);
      }
    }
  }
}
