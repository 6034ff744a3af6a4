// sdscatrepr and sdssplitargs: the tokenizer reads back what the quoting
// printer writes, whatever the bytes.
module SdsArgs {
  import opened Bytes
  import opened SdsString

  // ----- the quoting printer -----

  // isprint in the C locale
  predicate IsPrint(b: byte) { 0x20 <= b <= 0x7E }

  function ReprByte(b: byte): (t: seq<byte>)
    ensures 1 <= |t| <= 4
  {
    if b == BACKSLASH || b == QUOTE then [BACKSLASH, b]
    else if b == NEWLINE then [BACKSLASH, LOWER_N]
    else if b == RETURN then [BACKSLASH, LOWER_R]
    else if b == TAB then [BACKSLASH, LOWER_T]
    else if b == BELL then [BACKSLASH, LOWER_A]
    else if b == BACKSPACE then [BACKSLASH, LOWER_B]
    else if IsPrint(b) then [b]
    else [BACKSLASH, LOWER_X, HexDigit(b / 16), HexDigit(b % 16)]
  }

  // The representation behind its opening quote.
  function ReprTail(p: seq<byte>): (t: seq<byte>)
    ensures |t| >= 1
  {
    if p == [] then [QUOTE] else ReprByte(p[0]) + ReprTail(p[1..])
  }

  function Repr(p: seq<byte>): seq<byte> { [QUOTE] + ReprTail(p) }

  // sdscatrepr, for strings whose growth stays addressable.
  method CatRepr(s: Sds, p: seq<byte>)
    requires s.Valid() && Addressable(s.Len() + 4 * |p| + 2)
    modifies s, s.buf
    ensures s.Valid() && s.Contents() == old(s.Contents()) + Repr(p)
  {
    hide ReprByte, Addressable;
    ghost var goal := s.Contents() + Repr(p);
    ghost var most := s.Len() + 4 * |p| + 2;
    LessIsAddressable(s.Len() + 1, most);
    s.CatLen([QUOTE]);
    var i := 0;
    assert p[0..] == p;
    while i < |p|
      invariant 0 <= i <= |p| && s.Valid() && (s.buf == old(s.buf) || fresh(s.buf))
      invariant s.Len() + 4 * (|p| - i) + 1 <= most
      invariant s.Contents() + ReprTail(p[i..]) == goal
    {
      CatReprByte(s, p[i..], goal, most);
      assert p[i..][1..] == p[i + 1..];
      i := i + 1;
    }
    assert p[i..] == [];
    LessIsAddressable(s.Len() + 1, most);
    s.CatLen([QUOTE]);
  }

  // One round of the loop: the first byte of what is left is written.
  method CatReprByte(s: Sds, left: seq<byte>, ghost goal: seq<byte>, ghost most: nat)
    requires s.Valid() && left != [] && s.Contents() + ReprTail(left) == goal
    requires s.Len() + 4 * |left| + 1 <= most && Addressable(most)
    modifies s, s.buf
    ensures s.Valid() && (s.buf == old(s.buf) || fresh(s.buf))
    ensures s.Len() + 4 * |left[1..]| + 1 <= most
    ensures s.Contents() + ReprTail(left[1..]) == goal
  {
    ghost var before := s.Contents();
    TailIs(left);
    hide ReprByte, Addressable, ReprTail;
    LessIsAddressable(s.Len() + |ReprByte(left[0])|, most);
    s.CatLen(ReprByte(left[0]));
    Assoc(before, ReprByte(left[0]), ReprTail(left[1..]));
  }

  lemma TailIs(left: seq<byte>)
    requires left != []
    ensures ReprTail(left) == ReprByte(left[0]) + ReprTail(left[1..])
  {
  }

  lemma LessIsAddressable(m: nat, n: nat)
    requires m <= n && Addressable(n)
    ensures Addressable(m)
  {
  }

  // ----- the tokenizer -----

  // isspace in the C locale
  predicate IsSpace(b: byte) { b == SPACE || TAB <= b <= RETURN }

  // The line is a C string: behind its last byte stands a NUL.
  function Peek(s: seq<byte>, i: nat): byte { if i < |s| then s[i] else NUL }

  datatype Mode = Bare | Double | Single

  // Where the scan of a token stands, what it has collected, or how it ended.
  datatype Scan = Going(p: nat, mode: Mode, current: seq<byte>) | Ended(p: nat, token: seq<byte>) | Bad

  // hex_digit_to_int of two digits
  function HexByte(high: byte, low: byte): byte
    requires IsHex(high) && IsHex(low)
  {
    HexValue(high) * 16 + HexValue(low)
  }

  function Unescaped(c: byte): byte
  {
    if c == LOWER_N then NEWLINE
    else if c == LOWER_R then RETURN
    else if c == LOWER_T then TAB
    else if c == LOWER_B then BACKSPACE
    else if c == LOWER_A then BELL
    else c
  }

  // `if (*p) p++`
  function Advance(s: seq<byte>, p: nat): nat { if p < |s| then p + 1 else p }

  predicate IsHexEscape(s: seq<byte>, p: nat)
  {
    Peek(s, p) == BACKSLASH && Peek(s, p + 1) == LOWER_X && IsHex(Peek(s, p + 2)) && IsHex(Peek(s, p + 3))
  }

  function ClosedBy(s: seq<byte>, p: nat, current: seq<byte>): Scan
  {
    if p + 1 < |s| && !IsSpace(s[p + 1]) then Bad else Ended(Advance(s, p), current)
  }

  // One round of the inner loop.
  function ScanOne(s: seq<byte>, p: nat, mode: Mode, current: seq<byte>): (r: Scan)
    requires p <= |s| && NulFree(s)
    ensures r.Going? ==> p < r.p <= |s|
    ensures r.Ended? ==> p <= r.p <= |s|
  {
    match mode
    case Double =>
      if IsHexEscape(s, p) then Going(p + 4, Double, current + [HexByte(s[p + 2], s[p + 3])])
      else if Peek(s, p) == BACKSLASH && p + 1 < |s| then Going(p + 2, Double, current + [Unescaped(s[p + 1])])
      else if Peek(s, p) == QUOTE then ClosedBy(s, p, current)
      else if p == |s| then Bad
      else Going(p + 1, Double, current + [s[p]])
    case Single =>
      if Peek(s, p) == BACKSLASH && Peek(s, p + 1) == APOSTROPHE then Going(p + 2, Single, current + [APOSTROPHE])
      else if Peek(s, p) == APOSTROPHE then ClosedBy(s, p, current)
      else if p == |s| then Bad
      else Going(p + 1, Single, current + [s[p]])
    case Bare =>
      if p == |s| || s[p] == SPACE || s[p] == NEWLINE || s[p] == RETURN || s[p] == TAB then
        Ended(Advance(s, p), current)
      else if s[p] == QUOTE then Going(p + 1, Double, current)
      else if s[p] == APOSTROPHE then Going(p + 1, Single, current)
      else Going(p + 1, Bare, current + [s[p]])
  }

  // The inner loop.
  function ScanToken(s: seq<byte>, p: nat, mode: Mode, current: seq<byte>): (r: Scan)
    requires p <= |s| && NulFree(s)
    ensures r.Ended? ==> p <= r.p <= |s|
    ensures !r.Going?
    decreases |s| - p
  {
    match ScanOne(s, p, mode, current)
    case Going(p', mode', current') => ScanToken(s, p', mode', current')
    case r => r
  }

  function SkipSpaces(s: seq<byte>, p: nat): (q: nat)
    requires p <= |s|
    ensures p <= q <= |s| && (q < |s| ==> !IsSpace(s[q]))
    decreases |s| - p
  {
    if p < |s| && IsSpace(s[p]) then SkipSpaces(s, p + 1) else p
  }

  // A token takes at least one byte.
  lemma {:induction false} TokenAdvances(s: seq<byte>, p: nat)
    requires p < |s| && NulFree(s) && !IsSpace(s[p])
    ensures var r := ScanToken(s, p, Bare, []); r.Ended? ==> p < r.p
  {
  }

  // sdssplitargs from p on: the arguments, or None for unbalanced quotes or a
  // closing quote with something right behind it.
  function SplitFrom(s: seq<byte>, p: nat): Option<seq<seq<byte>>>
    requires p <= |s| && NulFree(s)
    decreases |s| - p
  {
    var q := SkipSpaces(s, p);
    if q == |s| then Some([])
    else
      TokenAdvances(s, q);
      match ScanToken(s, q, Bare, [])
      case Ended(next, token) =>
        (match SplitFrom(s, next)
         case None => None
         case Some(rest) => Some([token] + rest))
      case _ => None
  }

  method SplitArgs(line: seq<byte>) returns (r: Option<seq<seq<byte>>>)
    requires NulFree(line)
    ensures r == SplitFrom(line, 0)
  {
    hide ScanOne, NulFree;
    var vector: seq<seq<byte>> := [];
    var p := 0;
    WithFrontNothing(SplitFrom(line, 0));
    while true
      invariant 0 <= p <= |line|
      invariant SplitFrom(line, 0) == WithFront(vector, SplitFrom(line, p))
      decreases |line| - p
    {
      ghost var start := p;
      while p < |line| && IsSpace(line[p])
        invariant start <= p <= |line| && SkipSpaces(line, p) == SkipSpaces(line, start)
      {
        p := p + 1;
      }
      if p == |line| {
        assert vector + [] == vector;
        return Some(vector);
      }
      TokenAdvances(line, p);
      var token;
      token, p := Token(line, p);
      if token.None? { return None; }
      WithFrontOne(vector, token.value, SplitFrom(line, p));
      vector := vector + [token.value];
    }
  }

  // The inner loop of sdssplitargs.
  method Token(line: seq<byte>, start: nat) returns (token: Option<seq<byte>>, p: nat)
    requires start <= |line| && NulFree(line)
    ensures start <= p <= |line|
    ensures match ScanToken(line, start, Bare, [])
            case Ended(next, t) => token == Some(t) && p == next
            case _ => token == None
  {
    var current: seq<byte> := [];
    var mode := Bare;
    var done := false;
    p := start;
    while !done
      invariant start <= p <= |line|
      invariant !done ==> ScanToken(line, start, Bare, []) == ScanToken(line, p, mode, current)
      invariant done ==> ScanToken(line, start, Bare, []) == Ended(p, current)
      decreases |line| - p, !done
    {
      var bad;
      done, bad, p, mode, current := Round(line, p, mode, current);
      if bad { return None, p; }
    }
    token := Some(current);
  }

  // The body of the inner loop.
  method Round(s: seq<byte>, p: nat, mode: Mode, current: seq<byte>)
      returns (done: bool, bad: bool, p': nat, mode': Mode, current': seq<byte>)
    requires p <= |s| && NulFree(s)
    ensures p <= p' <= |s|
    ensures ScanOne(s, p, mode, current) ==
            if bad then Bad else if done then Ended(p', current') else Going(p', mode', current')
  {
    done, bad, p', mode', current' := false, false, p, mode, current;
    if mode == Double {
      if IsHexEscape(s, p) {
        current' := current + [HexByte(s[p + 2], s[p + 3])];
        p' := p + 3;
      } else if Peek(s, p) == BACKSLASH && Peek(s, p + 1) != NUL {
        p' := p + 1;
        current' := current + [Unescaped(s[p'])];
      } else if Peek(s, p) == QUOTE {
        if Peek(s, p + 1) != NUL && !IsSpace(Peek(s, p + 1)) { bad := true; return; }
        done := true;
      } else if p == |s| {
        bad := true;
        return;
      } else {
        current' := current + [s[p]];
      }
    } else if mode == Single {
      if Peek(s, p) == BACKSLASH && Peek(s, p + 1) == APOSTROPHE {
        p' := p + 1;
        current' := current + [APOSTROPHE];
      } else if Peek(s, p) == APOSTROPHE {
        if Peek(s, p + 1) != NUL && !IsSpace(Peek(s, p + 1)) { bad := true; return; }
        done := true;
      } else if p == |s| {
        bad := true;
        return;
      } else {
        current' := current + [s[p]];
      }
    } else {
      if p == |s| || s[p] == SPACE || s[p] == NEWLINE || s[p] == RETURN || s[p] == TAB {
        done := true;
      } else if s[p] == QUOTE {
        mode' := Double;
      } else if s[p] == APOSTROPHE {
        mode' := Single;
      } else {
        current' := current + [s[p]];
      }
    }
    if p' < |s| { p' := p' + 1; }
  }

  // ----- reading back -----

  // The line made of the representations with a space in front of all but the first.
  function Joined(args: seq<seq<byte>>): seq<byte>
  {
    if args == [] then []
    else if |args| == 1 then Repr(args[0])
    else Repr(args[0]) + ([SPACE] + Joined(args[1..]))
  }

  lemma ReprByteReads(b: byte, s: seq<byte>, p: nat, current: seq<byte>)
    requires NulFree(s) && At(s, p, ReprByte(b))
    requires p + |ReprByte(b)| < |s|
    ensures ScanOne(s, p, Double, current) == Going(p + |ReprByte(b)|, Double, current + [b])
  {
    var t := ReprByte(b);
    forall k | 0 <= k < |t| ensures s[p + k] == t[k] { AtByte(s, p, t, k); }
    if |t| == 4 {
      assert s[p] == t[0] && s[p + 1] == t[1] && s[p + 2] == t[2] && s[p + 3] == t[3];
      assert HexByte(s[p + 2], s[p + 3]) == b;
    } else if |t| == 2 {
      assert s[p] == BACKSLASH && s[p + 1] == t[1];
    } else {
      assert s[p] == b;
    }
  }

  // The closing quote of a representation at p ends the token.
  predicate EndsArg(s: seq<byte>, p: nat) { p == |s| || (p < |s| && s[p] == SPACE) }

  lemma ScanGoesOn(s: seq<byte>, p: nat, mode: Mode, current: seq<byte>)
    requires p <= |s| && NulFree(s)
    ensures match ScanOne(s, p, mode, current)
            case Going(p', mode', current') => ScanToken(s, p, mode, current) == ScanToken(s, p', mode', current')
            case r => ScanToken(s, p, mode, current) == r
  {
    hide ScanOne;
  }

  lemma ClosingQuote(s: seq<byte>, p: nat, current: seq<byte>)
    requires p < |s| && NulFree(s) && s[p] == QUOTE && EndsArg(s, p + 1)
    ensures ScanToken(s, p, Double, current) == Ended(p + 1, current)
  {
    assert ScanOne(s, p, Double, current) == Ended(p + 1, current);
    ScanGoesOn(s, p, Double, current);
  }

  lemma {:induction false} TailReads(arg: seq<byte>, s: seq<byte>, p: nat, current: seq<byte>)
    requires NulFree(s) && At(s, p, ReprTail(arg)) && EndsArg(s, p + |ReprTail(arg)|)
    ensures p + |ReprTail(arg)| <= |s|
    ensures ScanToken(s, p, Double, current) == Ended(p + |ReprTail(arg)|, current + arg)
    decreases |arg|
  {
    hide At, ReprByte, ScanOne, ScanToken, NulFree;
    if arg == [] {
      AtByte(s, p, ReprTail(arg), 0);
      ClosingQuote(s, p, current);
      assert current + [] == current;
    } else {
      AtConcat(s, p, ReprByte(arg[0]), ReprTail(arg[1..]));
      ReprByteReads(arg[0], s, p, current);
      ScanGoesOn(s, p, Double, current);
      TailReads(arg[1..], s, p + |ReprByte(arg[0])|, current + [arg[0]]);
      assert (current + [arg[0]]) + arg[1..] == current + arg;
    }
  }

  lemma OpeningQuote(s: seq<byte>, p: nat)
    requires p < |s| && NulFree(s) && s[p] == QUOTE
    ensures ScanToken(s, p, Bare, []) == ScanToken(s, p + 1, Double, [])
  {
    assert ScanOne(s, p, Bare, []) == Going(p + 1, Double, []);
    ScanGoesOn(s, p, Bare, []);
  }

  lemma ReprReads(arg: seq<byte>, s: seq<byte>, p: nat)
    requires NulFree(s) && At(s, p, Repr(arg)) && EndsArg(s, p + |Repr(arg)|)
    ensures p < |s| && s[p] == QUOTE && p + |Repr(arg)| <= |s|
    ensures ScanToken(s, p, Bare, []) == Ended(p + |Repr(arg)|, arg)
  {
    hide At, ReprTail, ScanToken, NulFree;
    AtConcat(s, p, [QUOTE], ReprTail(arg));
    AtByte(s, p, [QUOTE], 0);
    OpeningQuote(s, p);
    TailReads(arg, s, p + 1, []);
    assert [] + arg == arg;
  }

  // One argument of a line, and what comes of the rest.
  lemma SplitGoesOn(s: seq<byte>, p: nat, q: nat, next: nat, token: seq<byte>)
    requires p <= q < |s| && NulFree(s) && !IsSpace(s[q]) && (q == p || (q == p + 1 && s[p] == SPACE))
    requires ScanToken(s, q, Bare, []) == Ended(next, token)
    ensures next <= |s|
    ensures SplitFrom(s, p) == WithFront([token], SplitFrom(s, next))
  {
    hide ScanToken;
    assert SkipSpaces(s, p) == q;
  }

  lemma LineEnds(s: seq<byte>)
    requires NulFree(s)
    ensures SplitFrom(s, |s|) == Some([])
  {
  }

  lemma {:induction false} SplitReads(args: seq<seq<byte>>, s: seq<byte>, p: nat, q: nat)
    requires p <= q && NulFree(s) && q + |Joined(args)| == |s| && At(s, q, Joined(args)) && args != []
    requires q == p || (q == p + 1 && s[p] == SPACE)
    ensures SplitFrom(s, p) == Some(args)
    decreases |args|
  {
    hide At, Repr, ScanToken, NulFree, SplitFrom;
    var next := q + |Repr(args[0])|;
    if |args| == 1 {
      ReprReads(args[0], s, q);
      SplitGoesOn(s, p, q, next, args[0]);
      LineEnds(s);
      assert args == [args[0]] + [];
    } else {
      AtConcat(s, q, Repr(args[0]), [SPACE] + Joined(args[1..]));
      AtConcat(s, next, [SPACE], Joined(args[1..]));
      AtByte(s, next, [SPACE], 0);
      ReprReads(args[0], s, q);
      SplitGoesOn(s, p, q, next, args[0]);
      SplitReads(args[1..], s, next, next + 1);
      assert args == [args[0]] + args[1..];
    }
  }

  lemma {:induction false} ReprHasNoNul(arg: seq<byte>)
    ensures NulFree(ReprTail(arg))
  {
    if arg != [] {
      assert NulFree(ReprByte(arg[0]));
      ReprHasNoNul(arg[1..]);
    }
  }

  lemma {:induction false} JoinedHasNoNul(args: seq<seq<byte>>)
    ensures NulFree(Joined(args))
  {
    if args != [] {
      ReprHasNoNul(args[0]);
      JoinedHasNoNul(args[1..]);
    }
  }

  // Splitting the space-joined representations gives the list back: empty
  // strings, NULs, quotes, backslashes and look-alikes of escapes included.
  lemma SplitUndoesRepr(args: seq<seq<byte>>)
    ensures NulFree(Joined(args)) && SplitFrom(Joined(args), 0) == Some(args)
  {
    JoinedHasNoNul(args);
    var s := Joined(args);
    assert s[0..|s|] == s;
    if args == [] {
      LineEnds(s);
    } else {
      SplitReads(args, s, 0, 0);
    }
  }
}
