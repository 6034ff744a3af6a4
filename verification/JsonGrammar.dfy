// What the cJSON parser accepts and what it builds, as functions of the input
// bytes, the cursor and the nesting depth.
module JsonGrammar {
  import opened Bytes
  import opened Decimal
  import opened JsonText

  const NESTING_LIMIT := 1000

  // A parsed thing and the cursor right behind it.
  datatype Parsed<+T> = Fail | Done(value: T, next: nat)

  // ----- white space -----

  function BlankRun(s: seq<byte>, o: nat): (e: nat)
    requires o <= |s|
    ensures o <= e <= |s|
    ensures forall k :: o <= k < e ==> s[k] <= 32
    ensures e < |s| ==> s[e] > 32
    decreases |s| - o
  {
    if o < |s| && s[o] <= 32 then BlankRun(s, o + 1) else o
  }

  // Skips blanks, but steps back onto the last byte when only blanks are left.
  function SkipBlanks(s: seq<byte>, o: nat): (e: nat)
    requires o <= |s|
    ensures o <= e <= |s|
    ensures o < |s| ==> e < |s|
  {
    if o >= |s| then o
    else
      var e := BlankRun(s, o);
      if e == |s| then e - 1 else e
  }

  // ----- strings -----

  // First pass: the closing quote of the literal whose content starts at i.
  function FindClose(s: seq<byte>, i: nat): (r: Option<nat>)
    requires i <= |s|
    ensures r.Some? ==> i <= r.value < |s| && s[r.value] == QUOTE
    decreases |s| - i
  {
    if i >= |s| then None
    else if s[i] == QUOTE then Some(i)
    else if s[i] == BACKSLASH then
      if i + 1 >= |s| then None else FindClose(s, i + 2)
    else FindClose(s, i + 1)
  }

  // First pass: the backslashes it skipped between i and the closing quote.
  function Escapes(s: seq<byte>, i: nat, close: nat): nat
    requires close <= |s|
    decreases close - i
  {
    if i >= close then 0
    else if s[i] == BACKSLASH then 1 + Escapes(s, i + 2, close)
    else Escapes(s, i + 1, close)
  }

  // Four hex digits, or 0 when one of them is not a hex digit.
  function Hex4(s: seq<byte>, p: nat): (h: nat)
    requires p + 4 <= |s|
    ensures h < 0x10000
    ensures h != 0 ==> IsHex(s[p]) && IsHex(s[p + 1]) && IsHex(s[p + 2]) && IsHex(s[p + 3])
  {
    if IsHex(s[p]) && IsHex(s[p + 1]) && IsHex(s[p + 2]) && IsHex(s[p + 3]) then
      0x1000 * HexValue(s[p]) + 0x100 * HexValue(s[p + 1]) + 0x10 * HexValue(s[p + 2]) + HexValue(s[p + 3])
    else 0
  }

  predicate IsHighSurrogate(u: nat) { 0xD800 <= u <= 0xDBFF }
  predicate IsLowSurrogate(u: nat) { 0xDC00 <= u <= 0xDFFF }

  function SurrogatePair(high: nat, low: nat): (c: nat)
    requires IsHighSurrogate(high) && IsLowSurrogate(low)
    ensures 0x10000 <= c <= 0x10FFFF
  {
    0x10000 + (high - 0xD800) * 0x400 + (low - 0xDC00)
  }

  // The code point of the \uXXXX literal (or pair of them) at p, and its length.
  function Utf16Literal(s: seq<byte>, p: nat, close: nat): (r: Parsed<nat>)
    requires p <= close <= |s|
    ensures r.Done? ==> r.value <= 0x10FFFF && p + 6 <= r.next <= close
  {
    if close - p < 6 then Fail
    else
      var first := Hex4(s, p + 2);
      if IsLowSurrogate(first) then Fail
      else if IsHighSurrogate(first) then
        if close - (p + 6) < 6 || s[p + 6] != BACKSLASH || s[p + 7] != LOWER_U then Fail
        else
          var second := Hex4(s, p + 8);
          if !IsLowSurrogate(second) then Fail
          else Done(SurrogatePair(first, second), p + 12)
      else Done(first, p + 6)
  }

  // Section 3 of RFC 3629, the bit fields written as quotients and remainders.
  function Utf8(c: nat): (t: seq<byte>)
    requires c <= 0x10FFFF
    ensures 1 <= |t| <= 4
  {
    if c < 0x80 then [c]
    else if c < 0x800 then [0xC0 + c / 0x40, 0x80 + c % 0x40]
    else if c < 0x10000 then [0xE0 + c / 0x1000, 0x80 + c / 0x40 % 0x40, 0x80 + c % 0x40]
    else [0xF0 + c / 0x40000, 0x80 + c / 0x1000 % 0x40, 0x80 + c / 0x40 % 0x40, 0x80 + c % 0x40]
  }

  // The byte a two-character escape stands for.
  function SimpleEscape(b: byte): Option<byte>
  {
    if b == LOWER_B then Some(BACKSPACE)
    else if b == LOWER_F then Some(FORMFEED)
    else if b == LOWER_N then Some(NEWLINE)
    else if b == LOWER_R then Some(RETURN)
    else if b == LOWER_T then Some(TAB)
    else if b == QUOTE || b == BACKSLASH || b == SLASH then Some(b)
    else None
  }

  // One round of the second pass at p: the bytes it writes and where it goes on.
  function UnescapeOne(s: seq<byte>, p: nat, close: nat): (r: Parsed<seq<byte>>)
    requires p < close < |s|
    ensures r.Done? ==> p < r.next <= close + 1 && 1 <= |r.value| <= 4
  {
    if s[p] != BACKSLASH then Done([s[p]], p + 1)
    else if s[p + 1] == LOWER_U then
      match Utf16Literal(s, p, close)
      case Fail => Fail
      case Done(c, next) => Done(Utf8(c), next)
    else
      match SimpleEscape(s[p + 1])
      case None => Fail
      case Some(b) => Done([b], p + 2)
  }

  // Second pass: the bytes written from p up to the closing quote.
  function Unescape(s: seq<byte>, p: nat, close: nat): Option<seq<byte>>
    requires close < |s|
    decreases close - p
  {
    if p >= close then Some([])
    else
      match UnescapeOne(s, p, close)
      case Fail => None
      case Done(t, next) =>
        match Unescape(s, next, close)
        case None => None
        case Some(u) => Some(t + u)
  }

  // Where the second pass stops: behind the last escape, or at the one it rejects.
  function EscapeStop(s: seq<byte>, p: nat, close: nat): (e: nat)
    requires close < |s|
    ensures p <= e && (p <= close + 1 ==> e <= close + 1)
    decreases close - p
  {
    if p >= close || UnescapeOne(s, p, close).Fail? then p else EscapeStop(s, UnescapeOne(s, p, close).next, close)
  }

  // Where parse_string leaves the cursor when it fails.
  function StringStop(s: seq<byte>, o: nat): nat
    requires o < |s|
  {
    if s[o] == QUOTE && FindClose(s, o + 1).Some? then EscapeStop(s, o + 1, FindClose(s, o + 1).value) else o + 1
  }

  // parse_string with the cursor at o.
  function ParseString(s: seq<byte>, o: nat): (r: Parsed<seq<byte>>)
    requires o < |s|
    ensures r.Done? ==> o + 2 <= r.next <= |s|
  {
    if s[o] != QUOTE then Fail
    else
      match FindClose(s, o + 1)
      case None => Fail
      case Some(close) =>
        match Unescape(s, o + 1, close)
        case None => Fail
        case Some(t) => Done(t, close + 1)
  }

  // ----- numbers -----

  predicate IsNumberByte(b: byte)
  {
    IsDigit(b) || b == PLUS || b == MINUS || b == LOWER_E || b == UPPER_E || b == DOT
  }

  // The number bytes at o that parse_number copies into its 64-byte buffer.
  function NumberRun(s: seq<byte>, o: nat, room: nat): (t: seq<byte>)
    requires o <= |s|
    ensures |t| <= room && o + |t| <= |s| && t == s[o..o + |t|]
    ensures forall i :: 0 <= i < |t| ==> IsNumberByte(t[i])
    ensures |t| < room && o + |t| < |s| ==> !IsNumberByte(s[o + |t|])
    decreases room
  {
    if room == 0 || o >= |s| || !IsNumberByte(s[o]) then []
    else [s[o]] + NumberRun(s, o + 1, room - 1)
  }

  // Number bytes up to the room's end, the input's end or another byte are the run.
  lemma {:induction false} NumberRunIs(s: seq<byte>, o: nat, t: seq<byte>, room: nat)
    requires At(s, o, t) && |t| <= room
    requires forall i :: 0 <= i < |t| ==> IsNumberByte(t[i])
    requires |t| == room || o + |t| == |s| || !IsNumberByte(s[o + |t|])
    ensures NumberRun(s, o, room) == t
    decreases room
  {
    if t != [] {
      AtByte(s, o, t, 0);
      assert t == [t[0]] + t[1..];
      AtConcat(s, o, [t[0]], t[1..]);
      NumberRunIs(s, o + 1, t[1..], room - 1);
    }
  }

  const NUMBER_ROOM := 63

  // (int)number, after clamping to the int range.
  function SaturatedInt(d: real): (n: int)
    ensures INT_MIN <= n <= INT_MAX
  {
    if d >= INT_MAX as real then INT_MAX
    else if d <= INT_MIN as real then INT_MIN
    else if d >= 0.0 then d.Floor
    else -(-d).Floor
  }

  function ParseNumber(s: seq<byte>, o: nat): (r: Parsed<Json>)
    requires o <= |s|
    ensures r.Done? ==> o < r.next <= |s| && r.value.JNumber?
  {
    var d := ReadDouble(NumberRun(s, o, NUMBER_ROOM));
    if d.length == 0 then Fail else Done(JNumber(SaturatedInt(d.value), d.value), o + d.length)
  }

  // ----- values -----

  predicate StartsNumber(b: byte) { b == MINUS || IsDigit(b) }

  function ParseValue(s: seq<byte>, o: nat, depth: nat): (r: Parsed<Json>)
    requires o <= |s|
    ensures r.Done? ==> o < r.next <= |s|
    decreases |s| - o, 2
  {
    if At(s, o, NULL_TEXT) then Done(JNull, o + 4)
    else if At(s, o, FALSE_TEXT) then Done(JFalse, o + 5)
    else if At(s, o, TRUE_TEXT) then Done(JTrue, o + 4)
    else if o >= |s| then Fail
    else if s[o] == QUOTE then
      match ParseString(s, o)
      case Fail => Fail
      case Done(t, next) => Done(JString(t), next)
    else if StartsNumber(s[o]) then ParseNumber(s, o)
    else if s[o] == LBRACKET then ParseArray(s, o, depth)
    else if s[o] == LBRACE then ParseObject(s, o, depth)
    else Fail
  }

  function ParseArray(s: seq<byte>, o: nat, depth: nat): (r: Parsed<Json>)
    requires o < |s| && s[o] == LBRACKET
    ensures r.Done? ==> o < r.next <= |s|
    decreases |s| - o, 1
  {
    if depth >= NESTING_LIMIT then Fail
    else
      var first := SkipBlanks(s, o + 1);
      if first >= |s| then Fail
      else if s[first] == RBRACKET then Done(JArray([]), first + 1)
      else
        match ParseItems(s, first - 1, depth + 1)
        case Fail => Fail
        case Done(items, next) =>
          if next < |s| && s[next] == RBRACKET then Done(JArray(items), next + 1) else Fail
  }

  // The loop of parse_array; the cursor is right before the next element.
  function ParseItems(s: seq<byte>, o: nat, depth: nat): (r: Parsed<seq<Json>>)
    requires o < |s|
    ensures r.Done? ==> o < r.next <= |s|
    decreases |s| - o, 0
  {
    match ParseValue(s, SkipBlanks(s, o + 1), depth)
    case Fail => Fail
    case Done(v, behind) =>
      var next := SkipBlanks(s, behind);
      if next < |s| && s[next] == COMMA then
        match ParseItems(s, next, depth)
        case Fail => Fail
        case Done(rest, end) => Done([v] + rest, end)
      else Done([v], next)
  }

  function ParseObject(s: seq<byte>, o: nat, depth: nat): (r: Parsed<Json>)
    requires o < |s| && s[o] == LBRACE
    ensures r.Done? ==> o < r.next <= |s|
    decreases |s| - o, 1
  {
    if depth >= NESTING_LIMIT then Fail
    else
      var first := SkipBlanks(s, o + 1);
      if first >= |s| then Fail
      else if s[first] == RBRACE then Done(JObject([]), first + 1)
      else
        match ParseMembers(s, first - 1, depth + 1)
        case Fail => Fail
        case Done(members, next) =>
          if next < |s| && s[next] == RBRACE then Done(JObject(members), next + 1) else Fail
  }

  // The loop of parse_object; the cursor is right before the next member.
  function ParseMembers(s: seq<byte>, o: nat, depth: nat): (r: Parsed<seq<Member>>)
    requires o < |s|
    ensures r.Done? ==> o < r.next <= |s|
    decreases |s| - o, 0
  {
    match ParseMember(s, o, depth)
    case Fail => Fail
    case Done(m, behind) =>
      var next := SkipBlanks(s, behind);
      if next < |s| && s[next] == COMMA then
        match ParseMembers(s, next, depth)
        case Fail => Fail
        case Done(rest, end) => Done([m] + rest, end)
      else Done([m], next)
  }

  // Where the value of the member at o starts, and the member's key.
  function ParseKey(s: seq<byte>, o: nat): (r: Parsed<seq<byte>>)
    requires o < |s|
    ensures r.Done? ==> o < r.next <= |s|
  {
    if o + 1 >= |s| then Fail
    else
      match ParseString(s, SkipBlanks(s, o + 1))
      case Fail => Fail
      case Done(key, behind) =>
        var colon := SkipBlanks(s, behind);
        if colon >= |s| || s[colon] != COLON then Fail
        else Done(key, SkipBlanks(s, colon + 1))
  }

  function ParseMember(s: seq<byte>, o: nat, depth: nat): (r: Parsed<Member>)
    requires o < |s|
    ensures r.Done? ==> o < r.next <= |s|
    decreases |s| - o, 0, 0
  {
    match ParseKey(s, o)
    case Fail => Fail
    case Done(key, start) =>
      match ParseValue(s, start, depth)
      case Fail => Fail
      case Done(v, next) => Done(Member(key, v), next)
  }

  // ----- whole texts -----

  const BOM: seq<byte> := [0xEF, 0xBB, 0xBF]

  // skip_utf8_bom at the start of the buffer.
  function AfterBom(s: seq<byte>): (o: nat)
    ensures o <= |s|
  {
    if |s| > 4 && At(s, 0, BOM) then 3 else 0
  }

  // cJSON_ParseWithLengthOpts; `next` is what it reports through return_parse_end.
  function ParseText(s: seq<byte>, requireNul: bool): Parsed<Json>
  {
    if s == [] then Fail
    else
      match ParseValue(s, SkipBlanks(s, AfterBom(s)), 0)
      case Fail => Fail
      case Done(v, next) =>
        if !requireNul then Done(v, next)
        else
          var end := SkipBlanks(s, next);
          if end < |s| && s[end] == NUL then Done(v, end) else Fail
  }
}
