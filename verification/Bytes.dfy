// Bytes, C text constants and the vocabulary shared by the text codecs.
module Bytes {

  type byte = b: int | 0 <= b < 256

  datatype Option<+T> = None | Some(value: T)

  const NUL: byte := 0x00
  const BELL: byte := 0x07          // '\a'
  const BACKSPACE: byte := 0x08     // '\b'
  const TAB: byte := 0x09           // '\t'
  const NEWLINE: byte := 0x0A       // '\n'
  const FORMFEED: byte := 0x0C      // '\f'
  const RETURN: byte := 0x0D        // '\r'
  const SPACE: byte := 0x20
  const QUOTE: byte := 0x22         // '"'
  const APOSTROPHE: byte := 0x27    // '\''
  const PLUS: byte := 0x2B
  const COMMA: byte := 0x2C
  const MINUS: byte := 0x2D
  const DOT: byte := 0x2E
  const SLASH: byte := 0x2F
  const ZERO: byte := 0x30          // '0'
  const NINE: byte := 0x39          // '9'
  const COLON: byte := 0x3A
  const UPPER_A: byte := 0x41
  const UPPER_E: byte := 0x45
  const UPPER_F: byte := 0x46
  const LBRACKET: byte := 0x5B
  const BACKSLASH: byte := 0x5C
  const RBRACKET: byte := 0x5D
  const LOWER_A: byte := 0x61
  const LOWER_B: byte := 0x62
  const LOWER_E: byte := 0x65
  const LOWER_F: byte := 0x66
  const LOWER_N: byte := 0x6E
  const LOWER_R: byte := 0x72
  const LOWER_T: byte := 0x74
  const LOWER_U: byte := 0x75
  const LOWER_X: byte := 0x78
  const LBRACE: byte := 0x7B
  const RBRACE: byte := 0x7D

  const NULL_TEXT: seq<byte> := [0x6E, 0x75, 0x6C, 0x6C]
  const TRUE_TEXT: seq<byte> := [0x74, 0x72, 0x75, 0x65]
  const FALSE_TEXT: seq<byte> := [0x66, 0x61, 0x6C, 0x73, 0x65]

  const INT_MAX: int := 0x7FFF_FFFF
  const INT_MIN: int := -0x8000_0000

  predicate IsDigit(b: byte) { ZERO <= b <= NINE }

  predicate IsHex(b: byte)
  {
    IsDigit(b) || UPPER_A <= b <= UPPER_F || LOWER_A <= b <= LOWER_F
  }

  function HexValue(b: byte): (v: nat)
    requires IsHex(b)
    ensures v < 16
  {
    if IsDigit(b) then b - ZERO
    else if UPPER_A <= b <= UPPER_F then 10 + b - UPPER_A
    else 10 + b - LOWER_A
  }

  // The digit `%x` prints for v.
  function HexDigit(v: nat): (b: byte)
    requires v < 16
    ensures IsHex(b) && HexValue(b) == v && b > 32 && b != QUOTE && b != BACKSLASH
  {
    if v < 10 then ZERO + v else LOWER_A + (v - 10)
  }

  // A C string: no NUL before its terminator.
  predicate NulFree(s: seq<byte>) { forall i :: 0 <= i < |s| ==> s[i] != NUL }

  // What the C string functions see of the bytes at an address: all before the
  // first NUL.
  function CText(s: seq<byte>): (t: seq<byte>)
    ensures t <= s && NulFree(t) && (|t| < |s| ==> s[|t|] == 0x00)
    ensures NulFree(s) ==> t == s
  {
    if s == [] || s[0] == NUL then []
    else
      assert NulFree(s) ==> NulFree(s[1..]);
      [s[0]] + CText(s[1..])
  }

  // The text t stands in s at offset o.
  predicate At(s: seq<byte>, o: int, t: seq<byte>)
  {
    0 <= o && o + |t| <= |s| && s[o..o + |t|] == t
  }

  lemma AtConcat(s: seq<byte>, o: int, t: seq<byte>, u: seq<byte>)
    requires At(s, o, t + u)
    ensures At(s, o, t) && At(s, o + |t|, u) && 0 <= o && o + |t| + |u| <= |s|
  {
    var w := s[o..o + |t + u|];
    assert s[o..o + |t|] == w[..|t|] == t;
    assert s[o + |t|..o + |t| + |u|] == w[|t|..] == u;
  }

  lemma AtJoin(s: seq<byte>, o: int, t: seq<byte>, u: seq<byte>)
    requires At(s, o, t) && At(s, o + |t|, u)
    ensures At(s, o, t + u)
  {
    assert s[o..o + |t + u|] == s[o..o + |t|] + s[o + |t|..o + |t| + |u|];
  }

  lemma AtByte(s: seq<byte>, o: int, t: seq<byte>, k: nat)
    requires At(s, o, t) && k < |t|
    ensures 0 <= o && o + |t| <= |s| && s[o + k] == t[k]
  {
    assert s[o..o + |t|][k] == t[k];
  }

  // memcpy and strcpy into the middle of an array.
  method CopyInto(a: array<byte>, at: nat, t: seq<byte>)
    requires at + |t| <= a.Length
    modifies a
    ensures a[..at + |t|] == old(a[..at]) + t
  {
    var i := 0;
    while i < |t|
      invariant 0 <= i <= |t| && a[..at + i] == old(a[..at]) + t[..i]
    {
      a[at + i] := t[i];
      i := i + 1;
      assert a[..at + i] == a[..at + i - 1] + [t[i - 1]];
    }
    assert t[..i] == t;
  }

  // ----- lists collected so far, in front of what is still to come -----

  function WithFront<T>(front: seq<T>, rest: Option<seq<T>>): Option<seq<T>>
  {
    match rest
    case None => None
    case Some(xs) => Some(front + xs)
  }

  lemma WithFrontNothing<T>(rest: Option<seq<T>>)
    ensures WithFront([], rest) == rest
  {
    if rest.Some? { assert [] + rest.value == rest.value; }
  }

  lemma WithFrontOne<T>(front: seq<T>, x: T, rest: Option<seq<T>>)
    ensures WithFront(front, WithFront([x], rest)) == WithFront(front + [x], rest)
  {
    if rest.Some? { assert front + ([x] + rest.value) == (front + [x]) + rest.value; }
  }

  lemma Assoc(a: seq<byte>, b: seq<byte>, c: seq<byte>)
    ensures (a + b) + c == a + (b + c)
  {
  }
}
