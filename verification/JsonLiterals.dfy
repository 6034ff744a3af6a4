// String literals: exactly which bytes between quotes parse_string takes, and
// what it makes of them.
module JsonLiterals {
  import opened Bytes
  import opened JsonGrammar
  import opened JsonStrings

  // ----- the parts of a literal -----

  // A byte other than a backslash; a backslash and a letter; \uXXXX, where the
  // four bytes need not be hex digits; and two of those, the UTF-16 halves of c.
  datatype Part =
    | Raw(b: byte)
    | Short(letter: byte)
    | Unit(digits: seq<byte>)
    | Pair(c: nat, high: seq<byte>, low: seq<byte>)

  // What a hex digit stands for.
  function Nibble(b: byte): Option<nat>
  {
    if 0x30 <= b <= 0x39 then Some(b - 0x30)           // 0 to 9
    else if 0x41 <= b <= 0x46 then Some(b - 0x41 + 10) // A to F
    else if 0x61 <= b <= 0x66 then Some(b - 0x61 + 10) // a to f
    else None
  }

  predicate AllHex(d: seq<byte>) { |d| == 4 && forall k :: 0 <= k < 4 ==> Nibble(d[k]).Some? }

  // Four hex digits; anything else counts as 0.
  function Quad(d: seq<byte>): (q: nat)
    requires |d| == 4
  {
    if AllHex(d) then
      Nibble(d[0]).value * 0x1000 + Nibble(d[1]).value * 0x100 + Nibble(d[2]).value * 0x10 + Nibble(d[3]).value
    else 0
  }

  // The table of section 7 of RFC 8259.
  function Meant(letter: byte): Option<byte>
  {
    if letter == 0x22 then Some(0x22)          // \"
    else if letter == 0x5C then Some(0x5C)     // \\
    else if letter == 0x2F then Some(0x2F)     // \/
    else if letter == 0x62 then Some(0x08)     // \b
    else if letter == 0x66 then Some(0x0C)     // \f
    else if letter == 0x6E then Some(0x0A)     // \n
    else if letter == 0x72 then Some(0x0D)     // \r
    else if letter == 0x74 then Some(0x09)     // \t
    else None
  }

  predicate Taken(part: Part)
  {
    match part
    case Raw(b) => b != 0x5C
    case Short(letter) => Meant(letter).Some?
    case Unit(d) => |d| == 4 && !(0xD800 <= Quad(d) <= 0xDFFF)
    case Pair(c, h, l) =>
      && 0x10000 <= c <= 0x10FFFF && |h| == |l| == 4
      && Quad(h) == 0xD800 + (c - 0x10000) / 0x400 && Quad(l) == 0xDC00 + (c - 0x10000) % 0x400
  }

  function PartText(part: Part): (t: seq<byte>)
    ensures |t| >= 1
  {
    match part
    case Raw(b) => [b]
    case Short(letter) => [0x5C, letter]
    case Unit(d) => [0x5C, 0x75] + d
    case Pair(_, h, l) => ([0x5C, 0x75] + h) + ([0x5C, 0x75] + l)
  }

  function Meaning(part: Part): seq<byte>
    requires Taken(part)
  {
    match part
    case Raw(b) => [b]
    case Short(letter) => [Meant(letter).value]
    case Unit(d) => QuadFits(d); Utf8(Quad(d))
    case Pair(c, _, _) => Utf8(c)
  }

  lemma QuadFits(d: seq<byte>)
    requires |d| == 4
    ensures Quad(d) <= 0xFFFF
  {
  }

  predicate AllTaken(parts: seq<Part>) { forall k :: 0 <= k < |parts| ==> Taken(parts[k]) }

  function PartsText(parts: seq<Part>): seq<byte>
  {
    if parts == [] then [] else PartText(parts[0]) + PartsText(parts[1..])
  }

  function MeaningAll(parts: seq<Part>): seq<byte>
    requires AllTaken(parts)
  {
    if parts == [] then [] else Meaning(parts[0]) + MeaningAll(parts[1..])
  }

  // ----- literals -----

  // What the first pass goes by: no quote but behind a backslash, and no
  // backslash without a byte behind it.
  predicate Guarded(t: seq<byte>)
  {
    if t == [] then true
    else if t[0] == 0x5C then |t| >= 2 && Guarded(t[2..])
    else t[0] != 0x22 && Guarded(t[1..])
  }

  // The second pass may take the closing quote for the letter of an escape: the
  // passes disagree about escapes behind a \u whose four bytes hold a backslash.
  datatype Literal = Literal(parts: seq<Part>, over: bool)

  predicate RunsOver(parts: seq<Part>) { parts != [] && parts[|parts| - 1] == Short(0x22) }

  // Between the quotes.
  function Inner(l: Literal): seq<byte>
    requires l.over ==> RunsOver(l.parts)
  {
    var t := PartsText(l.parts);
    if l.over then SomeText(l.parts); t[..|t| - 1] else t
  }

  lemma SomeText(parts: seq<Part>)
    ensures parts != [] ==> |PartsText(parts)| >= 1
  {
  }

  predicate TakenLiteral(l: Literal)
  {
    (l.over ==> RunsOver(l.parts)) && AllTaken(l.parts) && Guarded(Inner(l))
  }

  function LiteralText(l: Literal): seq<byte>
    requires TakenLiteral(l)
  {
    [0x22] + (Inner(l) + [0x22])
  }

  function LiteralMeaning(l: Literal): seq<byte>
    requires TakenLiteral(l)
  {
    MeaningAll(l.parts)
  }

  // ----- the first pass -----

  lemma {:induction false} GuardedCloses(t: seq<byte>, s: seq<byte>, i: nat)
    requires Guarded(t) && At(s, i, t + [0x22])
    ensures i + |t| < |s| && FindClose(s, i) == Some(i + |t|)
    decreases |t|
  {
    hide At;
    var u := t + [0x22];
    AtByte(s, i, u, 0);
    if t != [] {
      var n := if t[0] == 0x5C then 2 else 1;
      assert u == t[..n] + (t[n..] + [0x22]);
      AtConcat(s, i, t[..n], t[n..] + [0x22]);
      GuardedCloses(t[n..], s, i + n);
    }
  }

  lemma {:induction false} ClosedIsGuarded(s: seq<byte>, i: nat)
    requires i <= |s| && FindClose(s, i).Some?
    ensures var close := FindClose(s, i).value;
            i <= close < |s| && s[close] == 0x22 && Guarded(s[i..close])
    decreases |s| - i
  {
    var close := FindClose(s, i).value;
    var t := s[i..close];
    if s[i] != QUOTE {
      var n := if s[i] == BACKSLASH then 2 else 1;
      ClosedIsGuarded(s, i + n);
      assert t[n..] == s[i + n..close];
    }
  }

  // ----- the second pass -----

  lemma HexIs(b: byte)
    ensures IsHex(b) <==> Nibble(b).Some?
    ensures IsHex(b) ==> HexValue(b) == Nibble(b).value
  {
  }

  lemma QuadIs(s: seq<byte>, p: nat, d: seq<byte>)
    requires At(s, p, d) && |d| == 4
    ensures p + 4 <= |s| && Hex4(s, p) == Quad(d)
  {
    forall k | 0 <= k < 4 ensures s[p + k] == d[k] { AtByte(s, p, d, k); }
    assert s[p] == d[0] && s[p + 1] == d[1] && s[p + 2] == d[2] && s[p + 3] == d[3];
    HexIs(d[0]);
    HexIs(d[1]);
    HexIs(d[2]);
    HexIs(d[3]);
    hide HexValue, IsHex, Nibble;
    assert AllHex(d) <==> IsHex(d[0]) && IsHex(d[1]) && IsHex(d[2]) && IsHex(d[3]);
  }

  // The pair of halves is the one inverse of splitting.
  lemma HalvesJoin(c: nat, high: nat, low: nat)
    requires IsHighSurrogate(high) && IsLowSurrogate(low)
    ensures 0x10000 <= c && high == 0xD800 + (c - 0x10000) / 0x400 && low == 0xDC00 + (c - 0x10000) % 0x400 <==>
            c == SurrogatePair(high, low)
  {
  }

  lemma UnitShape(d: seq<byte>, s: seq<byte>, p: nat)
    requires |d| == 4 && At(s, p, [0x5C, 0x75] + d)
    ensures p + 6 <= |s| && s[p] == 0x5C && s[p + 1] == 0x75 && Hex4(s, p + 2) == Quad(d)
  {
    hide At, Hex4, Quad;
    AtConcat(s, p, [0x5C, 0x75], d);
    AtByte(s, p, [0x5C, 0x75], 0);
    AtByte(s, p, [0x5C, 0x75], 1);
    QuadIs(s, p + 2, d);
  }

  lemma ShortIs(letter: byte)
    ensures SimpleEscape(letter) == Meant(letter)
  {
  }

  lemma ShortRound(letter: byte, s: seq<byte>, p: nat, close: nat)
    requires p < close < |s| && s[p] == 0x5C && s[p + 1] == letter && Taken(Short(letter))
    ensures UnescapeOne(s, p, close) == Done(Meaning(Short(letter)), p + 2)
  {
    ShortIs(letter);
    assert letter != 0x75;
    hide Utf16Literal, SimpleEscape, Meant;
  }

  lemma UnitRound(d: seq<byte>, s: seq<byte>, p: nat, close: nat)
    requires Taken(Unit(d)) && p + 6 <= close < |s| && s[p] == 0x5C && s[p + 1] == 0x75 && Hex4(s, p + 2) == Quad(d)
    ensures UnescapeOne(s, p, close) == Done(Meaning(Unit(d)), p + 6)
  {
    hide Hex4, Quad, Utf8;
  }

  lemma PairRound(c: nat, h: seq<byte>, l: seq<byte>, s: seq<byte>, p: nat, close: nat)
    requires Taken(Pair(c, h, l)) && p + 12 <= close < |s|
    requires s[p] == 0x5C && s[p + 1] == 0x75 && Hex4(s, p + 2) == Quad(h)
    requires s[p + 6] == 0x5C && s[p + 7] == 0x75 && Hex4(s, p + 8) == Quad(l)
    ensures UnescapeOne(s, p, close) == Done(Meaning(Pair(c, h, l)), p + 12)
  {
    HalvesJoin(c, Quad(h), Quad(l));
    hide Hex4, Quad, Utf8, SurrogatePair;
  }

  // One round on one part.
  lemma PartReads(part: Part, s: seq<byte>, p: nat, close: nat)
    requires Taken(part) && At(s, p, PartText(part)) && p < close < |s|
    requires p + |PartText(part)| <= close || (part.Short? && p + 1 == close)
    ensures UnescapeOne(s, p, close) == Done(Meaning(part), p + |PartText(part)|)
  {
    hide Hex4, Quad, Utf8, At, Meant, SimpleEscape, Utf16Literal;
    match part
    case Raw(b) => AtByte(s, p, [b], 0);
    case Short(letter) =>
      AtByte(s, p, [0x5C, letter], 0);
      AtByte(s, p, [0x5C, letter], 1);
      hide UnescapeOne, Taken, Meaning;
      ShortRound(letter, s, p, close);
    case Unit(d) =>
      hide UnescapeOne, Meaning;
      UnitShape(d, s, p);
      UnitRound(d, s, p, close);
    case Pair(c, h, l) =>
      hide UnescapeOne, Meaning;
      AtConcat(s, p, [0x5C, 0x75] + h, [0x5C, 0x75] + l);
      UnitShape(h, s, p);
      UnitShape(l, s, p + 6);
      PairRound(c, h, l, s, p, close);
  }

  lemma {:induction false} PartsRead(parts: seq<Part>, over: bool, s: seq<byte>, p: nat, close: nat)
    requires AllTaken(parts) && (over ==> RunsOver(parts)) && At(s, p, PartsText(parts))
    requires p + |PartsText(parts)| == close + (if over then 1 else 0) && close < |s|
    ensures Unescape(s, p, close) == Some(MeaningAll(parts))
    decreases |parts|
  {
    hide At, PartText, Meaning, Taken, UnescapeOne;
    if parts == [] { return; }
    var part, rest := parts[0], parts[1..];
    AtConcat(s, p, PartText(part), PartsText(rest));
    if rest == [] {
      if over { ShortLength(part); }
      assert PartsText(rest) == [] && MeaningAll(rest) == [];
      PartReads(part, s, p, close);
      assert Unescape(s, p + |PartText(part)|, close) == Some([]);
    } else {
      assert over ==> RunsOver(rest);
      RestIsLong(rest, over);
      PartReads(part, s, p, close);
      PartsRead(rest, over, s, p + |PartText(part)|, close);
    }
  }

  lemma ShortLength(part: Part)
    requires part.Short?
    ensures |PartText(part)| == 2
  {
  }

  lemma {:induction false} RestIsLong(parts: seq<Part>, over: bool)
    requires parts != [] && (over ==> RunsOver(parts))
    ensures |PartsText(parts)| >= if over then 2 else 1
    decreases |parts|
  {
    if |parts| > 1 { RestIsLong(parts[1..], over); }
  }

  lemma QuadAt(s: seq<byte>, p: nat)
    requires p + 6 <= |s| && s[p] == 0x5C && s[p + 1] == 0x75
    ensures var d := s[p + 2..p + 6]; At(s, p, [0x5C, 0x75] + d) && Hex4(s, p + 2) == Quad(d)
  {
    var d := s[p + 2..p + 6];
    assert s[p..p + 6] == [0x5C, 0x75] + d;
    UnitShape(d, s, p);
  }

  lemma UnitAt(s: seq<byte>, p: nat, close: nat) returns (part: Part)
    requires p < close < |s| && s[p] == BACKSLASH && s[p + 1] == LOWER_U && UnescapeOne(s, p, close).Done?
    ensures Taken(part) && At(s, p, PartText(part)) && p + |PartText(part)| <= close
    ensures UnescapeOne(s, p, close) == Done(Meaning(part), p + |PartText(part)|)
  {
    hide At, Hex4, Quad, Utf8;
    QuadAt(s, p);
    var first := s[p + 2..p + 6];
    if IsHighSurrogate(Quad(first)) {
      QuadAt(s, p + 6);
      var second := s[p + 8..p + 12];
      var c := SurrogatePair(Quad(first), Quad(second));
      HalvesJoin(c, Quad(first), Quad(second));
      part := Pair(c, first, second);
      AtJoin(s, p, [0x5C, 0x75] + first, [0x5C, 0x75] + second);
    } else {
      part := Unit(first);
    }
  }

  lemma BytesAt(s: seq<byte>, p: nat, t: seq<byte>)
    requires p + |t| <= |s| && forall k :: 0 <= k < |t| ==> s[p + k] == t[k]
    ensures At(s, p, t)
  {
  }

  // The part one round has read.
  lemma PartAt(s: seq<byte>, p: nat, close: nat) returns (part: Part)
    requires p < close < |s| && UnescapeOne(s, p, close).Done?
    ensures Taken(part) && At(s, p, PartText(part))
    ensures UnescapeOne(s, p, close) == Done(Meaning(part), p + |PartText(part)|)
    ensures p + |PartText(part)| > close ==> p + 1 == close && part == Short(s[close])
  {
    hide Hex4, Quad, Utf8;
    if s[p] != BACKSLASH {
      part := Raw(s[p]);
      BytesAt(s, p, [s[p]]);
    } else if s[p + 1] != LOWER_U {
      part := Short(s[p + 1]);
      ShortIs(s[p + 1]);
      BytesAt(s, p, [0x5C, s[p + 1]]);
    } else {
      hide At, UnescapeOne;
      part := UnitAt(s, p, close);
    }
  }

  // The parts the second pass has read.
  lemma {:induction false} PartsAt(s: seq<byte>, p: nat, close: nat) returns (l: Literal)
    requires p <= close < |s| && s[close] == QUOTE && Unescape(s, p, close).Some?
    ensures (l.over ==> RunsOver(l.parts)) && AllTaken(l.parts) && At(s, p, PartsText(l.parts))
    ensures p + |PartsText(l.parts)| == close + if l.over then 1 else 0
    ensures Unescape(s, p, close) == Some(MeaningAll(l.parts))
    decreases close - p
  {
    hide UnescapeOne, PartText, Meaning, Taken, At;
    if p == close {
      l := Literal([], false);
      NothingAt(s, p);
      return;
    }
    var part := PartAt(s, p, close);
    var next := p + |PartText(part)|;
    if next > close {
      l := Literal([part], true);
      assert l.parts[1..] == [];
      assert Unescape(s, next, close) == Some([]);
      assert PartsText(l.parts) == PartText(part) && MeaningAll(l.parts) == Meaning(part);
    } else {
      var rest := PartsAt(s, next, close);
      l := Literal([part] + rest.parts, rest.over);
      assert l.parts[1..] == rest.parts;
      AtJoin(s, p, PartText(part), PartsText(rest.parts));
    }
  }

  lemma NothingAt(s: seq<byte>, p: nat)
    requires p <= |s|
    ensures At(s, p, [])
  {
  }

  // ----- parse_string -----

  // A literal is taken wherever it stands.
  lemma LiteralReads(l: Literal, s: seq<byte>, o: nat)
    requires TakenLiteral(l) && At(s, o, LiteralText(l))
    ensures ParseString(s, o) == Done(LiteralMeaning(l), o + |LiteralText(l)|)
  {
    hide At, PartsText, FindClose, Unescape, MeaningAll, Guarded;
    var t := Inner(l);
    AtConcat(s, o, [0x22], t + [0x22]);
    AtByte(s, o, [0x22], 0);
    GuardedCloses(t, s, o + 1);
    var close := o + 1 + |t|;
    assert At(s, o + 1, PartsText(l.parts)) by {
      if l.over {
        LastIsQuote(l.parts);
        assert t + [0x22] == PartsText(l.parts);
      } else {
        AtConcat(s, o + 1, t, [0x22]);
      }
    }
    SomeText(l.parts);
    PartsRead(l.parts, l.over, s, o + 1, close);
  }

  lemma {:induction false} LastIsQuote(parts: seq<Part>)
    requires RunsOver(parts)
    ensures var t := PartsText(parts); |t| >= 1 && t[|t| - 1] == 0x22
    decreases |parts|
  {
    if |parts| > 1 { LastIsQuote(parts[1..]); }
  }

  // And what is taken is a literal.
  lemma LiteralAt(s: seq<byte>, o: nat) returns (l: Literal)
    requires o < |s| && ParseString(s, o).Done?
    ensures TakenLiteral(l) && At(s, o, LiteralText(l))
    ensures ParseString(s, o) == Done(LiteralMeaning(l), o + |LiteralText(l)|)
  {
    hide At, FindClose, Unescape, MeaningAll, Guarded, PartsText;
    ClosedIsGuarded(s, o + 1);
    var close := FindClose(s, o + 1).value;
    l := PartsAt(s, o + 1, close);
    InnerIs(l, s, o + 1, close);
    assert s[o] == QUOTE;
    LiteralStands(s, o, close);
  }

  lemma InnerIs(l: Literal, s: seq<byte>, p: nat, close: nat)
    requires p <= close < |s| && (l.over ==> RunsOver(l.parts)) && At(s, p, PartsText(l.parts))
    requires p + |PartsText(l.parts)| == close + if l.over then 1 else 0
    ensures Inner(l) == s[p..close]
  {
    hide PartsText;
    assert PartsText(l.parts) == s[p..p + |PartsText(l.parts)|];
  }

  lemma LiteralStands(s: seq<byte>, o: nat, close: nat)
    requires o + 1 <= close < |s| && s[o] == s[close] == 0x22
    ensures At(s, o, [0x22] + (s[o + 1..close] + [0x22]))
  {
    assert s[o..close + 1] == [0x22] + (s[o + 1..close] + [0x22]);
  }

  // Exactly these literals are taken.
  lemma ExactlyLiterals(s: seq<byte>, o: nat, t: seq<byte>, next: nat)
    requires o < |s|
    ensures ParseString(s, o) == Done(t, next) <==>
            exists l: Literal :: TakenLiteral(l) && At(s, o, LiteralText(l)) &&
                                 LiteralMeaning(l) == t && next == o + |LiteralText(l)|
  {
    hide ParseString, At, LiteralText, LiteralMeaning, TakenLiteral;
    if ParseString(s, o) == Done(t, next) { var l := LiteralAt(s, o); }
    forall l: Literal | TakenLiteral(l) && At(s, o, LiteralText(l)) && LiteralMeaning(l) == t &&
                        next == o + |LiteralText(l)|
      ensures ParseString(s, o) == Done(t, next)
    {
      LiteralReads(l, s, o);
    }
  }

  // The nine bytes "\u000\\": the four behind \u hold a backslash and count as 0,
  // the next backslash takes the closing quote along, and all is accepted.
  lemma RunOverIsTaken()
    ensures ParseString([0x22, 0x5C, 0x75, 0x30, 0x30, 0x30, 0x5C, 0x5C, 0x22], 0) == Done([0x00, 0x22], 9)
  {
    hide *;
    var s: seq<byte> := [0x22, 0x5C, 0x75, 0x30, 0x30, 0x30, 0x5C, 0x5C, 0x22];
    var l := RunOverLiteral();
    BytesAt(s, 0, s);
    LiteralReads(l, s, 0);
  }

  lemma RunOverLiteral() returns (l: Literal)
    ensures TakenLiteral(l) && LiteralMeaning(l) == [0x00, 0x22]
    ensures LiteralText(l) == [0x22, 0x5C, 0x75, 0x30, 0x30, 0x30, 0x5C, 0x5C, 0x22]
  {
    hide PartsText, MeaningAll, Guarded;
    var four: seq<byte> := [0x30, 0x30, 0x30, 0x5C];
    l := Literal([Unit(four), Short(0x22)], true);
    InnerIsGuarded();
    assert Nibble(four[3]).None? && Quad(four) == 0;
    TwoParts(Unit(four), Short(0x22));
    AsciiUtf8(0);
    assert PartsText(l.parts) == [0x5C, 0x75, 0x30, 0x30, 0x30, 0x5C, 0x5C] + [0x22];
    assert Inner(l) == [0x5C, 0x75, 0x30, 0x30, 0x30, 0x5C, 0x5C];
  }

  lemma TwoParts(a: Part, b: Part)
    requires Taken(a) && Taken(b)
    ensures PartsText([a, b]) == PartText(a) + PartText(b)
    ensures AllTaken([a, b]) && MeaningAll([a, b]) == Meaning(a) + Meaning(b)
  {
    hide PartText, Meaning, Taken;
    var parts := [a, b];
    assert parts[1..] == [b] && [b][1..] == [];
    assert PartsText([b]) == PartText(b) + [] && MeaningAll([b]) == Meaning(b) + [];
  }

  lemma InnerIsGuarded()
    ensures Guarded([0x5C, 0x75, 0x30, 0x30, 0x30, 0x5C, 0x5C])
  {
    var t: seq<byte> := [0x5C, 0x75, 0x30, 0x30, 0x30, 0x5C, 0x5C];
    assert t[2..] == [0x30, 0x30, 0x30, 0x5C, 0x5C];
    assert t[2..][1..] == [0x30, 0x30, 0x5C, 0x5C];
    assert t[2..][1..][1..] == [0x30, 0x5C, 0x5C];
    assert t[2..][1..][1..][1..] == [0x5C, 0x5C];
    assert t[2..][1..][1..][1..][2..] == [];
  }

  // ----- section 7 of RFC 8259 -----

  predicate StandardPart(part: Part)
  {
    match part
    case Raw(b) => b >= 0x20 && b != 0x22 && b != 0x5C
    case Short(letter) => Meant(letter).Some?
    case Unit(d) => AllHex(d) && !(0xD800 <= Quad(d) <= 0xDFFF)
    case Pair(_, h, l) => AllHex(h) && AllHex(l) && Taken(part)
  }

  predicate StandardLiteral(l: Literal)
  {
    !l.over && forall k :: 0 <= k < |l.parts| ==> StandardPart(l.parts[k])
  }

  lemma HexIsPlain(d: seq<byte>, t: seq<byte>)
    requires AllHex(d)
    ensures Guarded(d + t) <==> Guarded(t)
  {
    var u := d + t;
    assert u[0] == d[0] && u[1..][0] == d[1] && u[1..][1..][0] == d[2] && u[1..][1..][1..][0] == d[3];
    assert u[1..][1..][1..][1..] == t;
    assert Guarded(u) <==> Guarded(u[1..]);
    assert Guarded(u[1..]) <==> Guarded(u[1..][1..]);
    assert Guarded(u[1..][1..]) <==> Guarded(u[1..][1..][1..]);
    assert Guarded(u[1..][1..][1..]) <==> Guarded(u[1..][1..][1..][1..]);
  }

  lemma EscapeIsGuarded(b: byte, t: seq<byte>)
    ensures Guarded([0x5C, b] + t) <==> Guarded(t)
  {
    assert ([0x5C, b] + t)[2..] == t;
  }

  lemma UnitIsGuarded(d: seq<byte>, t: seq<byte>)
    requires AllHex(d)
    ensures Guarded(([0x5C, 0x75] + d) + t) <==> Guarded(t)
  {
    hide Guarded, AllHex;
    assert ([0x5C, 0x75] + d) + t == [0x5C, 0x75] + (d + t);
    EscapeIsGuarded(0x75, d + t);
    HexIsPlain(d, t);
  }

  lemma PartIsGuarded(part: Part, t: seq<byte>)
    requires StandardPart(part)
    ensures Guarded(PartText(part) + t) <==> Guarded(t)
  {
    match part
    case Raw(b) => assert ([b] + t)[1..] == t;
    case Short(letter) => EscapeIsGuarded(letter, t);
    case Unit(d) => UnitIsGuarded(d, t);
    case Pair(_, h, l) =>
      hide Guarded;
      assert PartText(part) + t == ([0x5C, 0x75] + h) + (([0x5C, 0x75] + l) + t);
      UnitIsGuarded(h, ([0x5C, 0x75] + l) + t);
      UnitIsGuarded(l, t);
  }

  lemma {:induction false} StandardPartsTaken(parts: seq<Part>)
    requires forall k :: 0 <= k < |parts| ==> StandardPart(parts[k])
    ensures AllTaken(parts) && Guarded(PartsText(parts))
  {
    hide Guarded, PartText;
    if parts == [] {
      EmptyIsGuarded();
    } else {
      StandardPartsTaken(parts[1..]);
      PartIsGuarded(parts[0], PartsText(parts[1..]));
      assert forall k :: 0 < k < |parts| ==> parts[k] == parts[1..][k - 1];
    }
  }

  lemma EmptyIsGuarded()
    ensures Guarded([])
  {
  }

  lemma StandardLiteralTaken(l: Literal)
    requires StandardLiteral(l)
    ensures TakenLiteral(l)
  {
    StandardPartsTaken(l.parts);
  }

  // The characters of a literal: unescaped ones in UTF-8, and escapes.
  datatype Char = Plain(c: nat) | Escaped(part: Part)

  predicate GoodChar(ch: Char)
  {
    match ch
    case Plain(c) => IsScalar(c) && c >= 0x20 && c != 0x22 && c != 0x5C
    case Escaped(part) => StandardPart(part) && !part.Raw?
  }

  predicate GoodChars(chars: seq<Char>) { forall k :: 0 <= k < |chars| ==> GoodChar(chars[k]) }

  function CodePoint(ch: Char): (c: nat)
    requires GoodChar(ch)
    ensures IsScalar(c)
  {
    match ch
    case Plain(c) => c
    case Escaped(part) =>
      match part
      case Short(letter) => Meant(letter).value
      case Unit(d) => QuadFits(d); Quad(d)
      case Pair(c, _, _) => c
  }

  function CharsText(chars: seq<Char>): seq<byte>
    requires GoodChars(chars)
  {
    if chars == [] then []
    else
      (match chars[0]
       case Plain(c) => Utf8(c)
       case Escaped(part) => PartText(part)) + CharsText(chars[1..])
  }

  // The UTF-8 encoding of the code points.
  function Encoded(chars: seq<Char>): seq<byte>
    requires GoodChars(chars)
  {
    if chars == [] then [] else Utf8(CodePoint(chars[0])) + Encoded(chars[1..])
  }

  function RawParts(t: seq<byte>): (parts: seq<Part>)
    ensures |parts| == |t| && forall k :: 0 <= k < |t| ==> parts[k] == Raw(t[k])
  {
    if t == [] then [] else [Raw(t[0])] + RawParts(t[1..])
  }

  function CharParts(ch: Char): seq<Part>
    requires GoodChar(ch)
  {
    match ch
    case Plain(c) => RawParts(Utf8(c))
    case Escaped(part) => [part]
  }

  function AllParts(chars: seq<Char>): seq<Part>
    requires GoodChars(chars)
  {
    if chars == [] then [] else CharParts(chars[0]) + AllParts(chars[1..])
  }

  lemma RawStandard(t: seq<byte>)
    requires forall k :: 0 <= k < |t| ==> t[k] >= 0x20 && t[k] != 0x22 && t[k] != 0x5C
    ensures AllTaken(RawParts(t)) && forall k :: 0 <= k < |t| ==> StandardPart(RawParts(t)[k])
  {
    hide RawParts;
  }

  lemma {:induction false} RawMeaning(t: seq<byte>)
    requires AllTaken(RawParts(t))
    ensures PartsText(RawParts(t)) == MeaningAll(RawParts(t)) == t
  {
    hide *;
    if t == [] {
      NoRawParts(t);
    } else {
      RawSplit(t);
      OneAndRest(Raw(t[0]), RawParts(t[1..]));
      RawMeaning(t[1..]);
      RawIs(t[0]);
      assert t == [t[0]] + t[1..];
    }
  }

  lemma NoRawParts(t: seq<byte>)
    requires t == []
    ensures AllTaken(RawParts(t)) && PartsText(RawParts(t)) == [] && MeaningAll(RawParts(t)) == []
  {
  }

  lemma RawSplit(t: seq<byte>)
    requires t != []
    ensures RawParts(t) == [Raw(t[0])] + RawParts(t[1..])
  {
  }

  lemma OneAndRest(part: Part, rest: seq<Part>)
    requires AllTaken([part] + rest)
    ensures Taken(part) && AllTaken(rest)
    ensures PartsText([part] + rest) == PartText(part) + PartsText(rest)
    ensures MeaningAll([part] + rest) == Meaning(part) + MeaningAll(rest)
  {
    hide Taken, PartText, Meaning;
    var parts := [part] + rest;
    assert parts[0] == part && parts[1..] == rest;
    assert forall k :: 0 <= k < |rest| ==> rest[k] == parts[k + 1];
  }

  lemma RawIs(b: byte)
    requires Taken(Raw(b))
    ensures PartText(Raw(b)) == Meaning(Raw(b)) == [b]
  {
  }

  lemma PlainUtf8(c: nat)
    requires GoodChar(Plain(c))
    ensures forall k :: 0 <= k < |Utf8(c)| ==> Utf8(c)[k] >= 0x20 && Utf8(c)[k] != 0x22 && Utf8(c)[k] != 0x5C
  {
  }

  lemma {:induction false} PartsConcat(a: seq<Part>, b: seq<Part>)
    requires AllTaken(a) && AllTaken(b)
    ensures AllTaken(a + b) && PartsText(a + b) == PartsText(a) + PartsText(b)
    ensures MeaningAll(a + b) == MeaningAll(a) + MeaningAll(b)
  {
    hide PartText, Meaning, Taken;
    if a == [] {
      assert a + b == b;
    } else {
      PartsConcat(a[1..], b);
      assert (a + b)[0] == a[0] && (a + b)[1..] == a[1..] + b;
    }
  }

  lemma CharMeans(ch: Char)
    requires GoodChar(ch)
    ensures var parts := CharParts(ch);
            && AllTaken(parts) && (forall k :: 0 <= k < |parts| ==> StandardPart(parts[k]))
            && MeaningAll(parts) == Utf8(CodePoint(ch))
            && PartsText(parts) == if ch.Plain? then Utf8(ch.c) else PartText(ch.part)
  {
    if ch.Plain? {
      hide Utf8;
      PlainUtf8(ch.c);
      RawStandard(Utf8(ch.c));
      RawMeaning(Utf8(ch.c));
    } else {
      assert [ch.part][1..] == [];
      if ch.part.Short? { AsciiUtf8(Meant(ch.part.letter).value); }
      hide Utf8, PartText, Nibble, Meant;
      assert PartsText([ch.part]) == PartText(ch.part) + [] == PartText(ch.part);
      assert MeaningAll([ch.part]) == Meaning(ch.part) + [];
    }
  }

  lemma AsciiUtf8(c: nat)
    requires c < 0x80
    ensures Utf8(c) == [c]
  {
  }

  lemma {:induction false} CharsMean(chars: seq<Char>)
    requires GoodChars(chars)
    ensures var parts := AllParts(chars);
            && AllTaken(parts) && (forall k :: 0 <= k < |parts| ==> StandardPart(parts[k]))
            && PartsText(parts) == CharsText(chars) && MeaningAll(parts) == Encoded(chars)
  {
    if chars != [] {
      hide PartText, Meaning, Taken, StandardPart, CharParts, Utf8, PartsText, MeaningAll;
      CharMeans(chars[0]);
      CharsMean(chars[1..]);
      PartsConcat(CharParts(chars[0]), AllParts(chars[1..]));
    }
  }

  // For every literal of section 7 of RFC 8259 with its surrogates paired,
  // parse_string yields the UTF-8 encoding of the code points it denotes.
  lemma LiteralDenotes(chars: seq<Char>, s: seq<byte>, o: nat)
    requires GoodChars(chars) && At(s, o, [0x22] + (CharsText(chars) + [0x22]))
    ensures ParseString(s, o) == Done(Encoded(chars), o + |CharsText(chars)| + 2)
  {
    hide At, PartsText, MeaningAll, ParseString, Guarded, CharsText, Encoded, GoodChar;
    CharsMean(chars);
    var l := Literal(AllParts(chars), false);
    StandardLiteralTaken(l);
    LiteralReads(l, s, o);
  }
}
