// What sdssplitargs takes for a line of arguments, and what the arguments are:
// the grammar is written down without the scanner and met exactly.
module SdsLine {
  import opened Bytes
  import opened SdsArgs

  // ----- the grammar -----

  // Between quotes: a byte as it is, one behind a backslash, or two hexadecimal
  // digits behind \x.
  datatype Part = Plain(b: byte) | Escaped(b: byte) | Code(high: byte, low: byte)

  // An argument, and one that goes over into quotes, which then end it.
  datatype Word = Unquoted(bare: seq<byte>) | Quoted(bare: seq<byte>, mark: byte, parts: seq<Part>)

  // An argument with the blanks in front of it.
  datatype Spaced = Spaced(blanks: seq<byte>, word: Word)

  // blank, or tab to carriage return
  predicate Space(b: byte) { b == 32 || 9 <= b <= 13 }

  predicate AllSpace(t: seq<byte>) { forall k :: 0 <= k < |t| ==> Space(t[k]) }

  predicate HexDigitByte(b: byte) { 48 <= b <= 57 || 65 <= b <= 70 || 97 <= b <= 102 }

  function Digit(b: byte): nat
    requires HexDigitByte(b)
  {
    if b <= 57 then b - 48 else if b <= 70 then b - 55 else b - 87
  }

  function PartText(part: Part): seq<byte>
  {
    match part
    case Plain(b) => [b]
    case Escaped(b) => [92, b]
    case Code(high, low) => [92, 120, high, low]
  }

  // In double quotes \x is an x unless two digits follow; in single quotes only
  // a single quote is escaped. `behind` is what follows in the line.
  predicate GoodPart(mark: byte, part: Part, behind: seq<byte>)
  {
    match part
    case Plain(b) => b != mark && (b == 92 ==> mark == 39 && behind != [] && behind[0] != 39)
    case Escaped(b) =>
      if mark == 39 then b == 39
      else !(b == 120 && |behind| > 1 && HexDigitByte(behind[0]) && HexDigitByte(behind[1]))
    case Code(high, low) => mark == 34 && HexDigitByte(high) && HexDigitByte(low)
  }

  function PartMeans(part: Part): byte
  {
    match part
    case Plain(b) => b
    case Escaped(110) => 10
    case Escaped(114) => 13
    case Escaped(116) => 9
    case Escaped(98) => 8
    case Escaped(97) => 7
    case Escaped(b) => b
    case Code(high, low) => if HexDigitByte(high) && HexDigitByte(low) then 16 * Digit(high) + Digit(low) else 0
  }

  function PartsText(parts: seq<Part>): seq<byte>
  {
    if parts == [] then [] else PartText(parts[0]) + PartsText(parts[1..])
  }

  predicate GoodParts(mark: byte, parts: seq<Part>, behind: seq<byte>)
  {
    parts != [] ==>
      GoodPart(mark, parts[0], PartsText(parts[1..]) + behind) && GoodParts(mark, parts[1..], behind)
  }

  function PartsMean(parts: seq<Part>): seq<byte>
  {
    if parts == [] then [] else [PartMeans(parts[0])] + PartsMean(parts[1..])
  }

  function WordText(w: Word): seq<byte>
  {
    match w
    case Unquoted(bare) => bare
    case Quoted(bare, mark, parts) => bare + ([mark] + (PartsText(parts) + [mark]))
  }

  // Outside quotes stand neither quotes nor the blanks that end an argument;
  // vertical tab and form feed may stand behind the first byte.
  predicate GoodBare(bare: seq<byte>)
  {
    && (forall k :: 0 <= k < |bare| ==> bare[k] !in {9, 10, 13, 32, 34, 39})
    && (bare != [] ==> !Space(bare[0]))
  }

  predicate GoodWord(w: Word, behind: seq<byte>)
  {
    match w
    case Unquoted(bare) => bare != [] && GoodBare(bare) && (behind != [] ==> behind[0] in {9, 10, 13, 32})
    case Quoted(bare, mark, parts) =>
      && GoodBare(bare) && mark in {34, 39} && GoodParts(mark, parts, [mark] + behind)
      && (behind != [] ==> Space(behind[0]))
  }

  function WordMeans(w: Word): seq<byte>
  {
    match w
    case Unquoted(bare) => bare
    case Quoted(bare, _, parts) => bare + PartsMean(parts)
  }

  function LineText(words: seq<Spaced>, end: seq<byte>): seq<byte>
  {
    if words == [] then end else words[0].blanks + (WordText(words[0].word) + LineText(words[1..], end))
  }

  predicate GoodLine(words: seq<Spaced>, end: seq<byte>)
  {
    if words == [] then AllSpace(end)
    else
      && AllSpace(words[0].blanks) && GoodWord(words[0].word, LineText(words[1..], end))
      && GoodLine(words[1..], end)
  }

  function Arguments(words: seq<Spaced>): seq<seq<byte>>
  {
    if words == [] then [] else [WordMeans(words[0].word)] + Arguments(words[1..])
  }

  // ----- inside quotes -----

  function ModeOf(mark: byte): Mode { if mark == 34 then Double else Single }

  lemma InFront(t: seq<byte>, behind: seq<byte>, s: seq<byte>, p: nat)
    requires p <= |s| && s[p..] == t + behind
    ensures |s| == p + |t| + |behind| && s[p + |t|..] == behind
    ensures |t| > 0 ==> s[p] == t[0]
    ensures |t| > 1 ==> s[p + 1] == t[1]
    ensures |t| > 3 ==> s[p + 2] == t[2] && s[p + 3] == t[3]
    ensures |behind| > 0 ==> s[p + |t|] == behind[0]
    ensures |behind| > 1 ==> s[p + |t| + 1] == behind[1]
  {
    assert |s[p..]| == |t| + |behind|;
    assert s[p + |t|..] == s[p..][|t|..];
  }

  lemma PlainReads(mark: byte, b: byte, behind: seq<byte>, s: seq<byte>, p: nat, current: seq<byte>)
    requires mark in {34, 39} && p < |s| - 1 && NulFree(s) && s[p] == b && behind != [] && s[p + 1] == behind[0]
    requires GoodPart(mark, Plain(b), behind)
    ensures ScanOne(s, p, ModeOf(mark), current) == Going(p + 1, ModeOf(mark), current + [PartMeans(Plain(b))])
  {
  }

  lemma EscapedReads(mark: byte, b: byte, behind: seq<byte>, s: seq<byte>, p: nat, current: seq<byte>)
    requires mark in {34, 39} && p < |s| - 2 && NulFree(s) && s[p] == 92 && s[p + 1] == b
    requires behind != [] && s[p + 2] == behind[0] && |s| == p + 2 + |behind|
    requires |behind| > 1 ==> s[p + 3] == behind[1]
    requires GoodPart(mark, Escaped(b), behind)
    ensures ScanOne(s, p, ModeOf(mark), current) == Going(p + 2, ModeOf(mark), current + [PartMeans(Escaped(b))])
  {
    assert IsHexEscape(s, p) ==> b == 120 && |behind| > 1 && IsHex(behind[0]) && IsHex(behind[1]);
  }

  lemma CodeReads(high: byte, low: byte, s: seq<byte>, p: nat, current: seq<byte>)
    requires p < |s| - 4 && NulFree(s) && s[p] == 92 && s[p + 1] == 120 && s[p + 2] == high && s[p + 3] == low
    requires HexDigitByte(high) && HexDigitByte(low)
    ensures ScanOne(s, p, Double, current) == Going(p + 4, Double, current + [PartMeans(Code(high, low))])
  {
  }

  lemma PartReads(mark: byte, part: Part, behind: seq<byte>, s: seq<byte>, p: nat, current: seq<byte>)
    requires mark in {34, 39} && p <= |s| && NulFree(s) && s[p..] == PartText(part) + behind && behind != []
    requires GoodPart(mark, part, behind)
    ensures p + |PartText(part)| <= |s| && s[p + |PartText(part)|..] == behind
    ensures ScanOne(s, p, ModeOf(mark), current) ==
            Going(p + |PartText(part)|, ModeOf(mark), current + [PartMeans(part)])
  {
    InFront(PartText(part), behind, s, p);
    hide ScanOne, NulFree;
    match part
    case Plain(b) => PlainReads(mark, b, behind, s, p, current);
    case Escaped(b) => EscapedReads(mark, b, behind, s, p, current);
    case Code(high, low) => CodeReads(high, low, s, p, current);
  }

  lemma PartAt(mark: byte, s: seq<byte>, p: nat, current: seq<byte>) returns (part: Part)
    requires mark in {34, 39} && p <= |s| && NulFree(s)
    requires var r := ScanOne(s, p, ModeOf(mark), current); r.Going? && r.p < |s|
    ensures var r := ScanOne(s, p, ModeOf(mark), current);
            && s[p..] == PartText(part) + s[r.p..] && GoodPart(mark, part, s[r.p..])
            && r == Going(r.p, ModeOf(mark), current + [PartMeans(part)])
  {
    var r := ScanOne(s, p, ModeOf(mark), current);
    part := if r.p == p + 4 then Code(s[p + 2], s[p + 3]) else if r.p == p + 2 then Escaped(s[p + 1]) else Plain(s[p]);
    assert s[p..] == s[p..r.p] + s[r.p..];
    assert s[r.p..][0] == s[r.p];
    if |s| > r.p + 1 { assert s[r.p..][1] == s[r.p + 1]; }
  }

  lemma MarkEnds(mark: byte, behind: seq<byte>, s: seq<byte>, p: nat, current: seq<byte>)
    requires mark in {34, 39} && p <= |s| && NulFree(s) && s[p..] == [mark] + behind
    requires behind != [] ==> Space(behind[0])
    ensures p < |s| && s[p + 1..] == behind
    ensures ScanToken(s, p, ModeOf(mark), current) == Ended(p + 1, current)
  {
    InFront([mark], behind, s, p);
    ScanGoesOn(s, p, ModeOf(mark), current);
    hide ScanToken;
  }

  lemma {:induction false} QuotesRead(mark: byte, parts: seq<Part>, behind: seq<byte>, s: seq<byte>, p: nat,
                                      current: seq<byte>)
    requires mark in {34, 39} && p <= |s| && NulFree(s)
    requires s[p..] == PartsText(parts) + ([mark] + behind) && GoodParts(mark, parts, [mark] + behind)
    requires behind != [] ==> Space(behind[0])
    ensures var e := p + |PartsText(parts)| + 1;
            && e <= |s| && s[e..] == behind
            && ScanToken(s, p, ModeOf(mark), current) == Ended(e, current + PartsMean(parts))
    decreases |parts|
  {
    hide ScanOne, ScanToken, NulFree, GoodPart, PartText, PartMeans, Space;
    if parts == [] {
      assert [] + ([mark] + behind) == [mark] + behind;
      MarkEnds(mark, behind, s, p, current);
      assert current + [] == current;
    } else {
      var more := PartsText(parts[1..]);
      Assoc(PartText(parts[0]), more, [mark] + behind);
      PartReads(mark, parts[0], more + ([mark] + behind), s, p, current);
      ScanGoesOn(s, p, ModeOf(mark), current);
      QuotesRead(mark, parts[1..], behind, s, p + |PartText(parts[0])|, current + [PartMeans(parts[0])]);
      Assoc(current, [PartMeans(parts[0])], PartsMean(parts[1..]));
    }
  }

  // How the scanner leaves quotes.
  lemma QuoteEnds(mark: byte, s: seq<byte>, p: nat, current: seq<byte>)
    requires mark in {34, 39} && p <= |s| && NulFree(s) && ScanOne(s, p, ModeOf(mark), current).Ended?
    ensures ScanOne(s, p, ModeOf(mark), current) == Ended(p + 1, current) && p < |s|
    ensures s[p..] == [mark] + s[p + 1..] && (s[p + 1..] != [] ==> Space(s[p + 1..][0]))
  {
  }

  lemma NothingLeft(mark: byte, s: seq<byte>, current: seq<byte>)
    requires mark in {34, 39} && NulFree(s)
    ensures ScanToken(s, |s|, ModeOf(mark), current) == Bad
  {
    ScanGoesOn(s, |s|, ModeOf(mark), current);
  }

  lemma PartsAre(part: Part, more: seq<Part>, mark: byte, behind: seq<byte>)
    ensures var parts := [part] + more;
            && PartsText(parts) == PartText(part) + PartsText(more)
            && PartsMean(parts) == [PartMeans(part)] + PartsMean(more)
            && (GoodParts(mark, parts, behind) <==>
                GoodPart(mark, part, PartsText(more) + behind) && GoodParts(mark, more, behind))
  {
    assert ([part] + more)[1..] == more;
  }

  lemma NoParts(mark: byte, s: seq<byte>, p: nat, current: seq<byte>)
    requires p < |s| && s[p..] == [mark] + s[p + 1..]
    ensures PartsText([]) == [] && PartsMean([]) == [] && GoodParts(mark, [], [mark] + s[p + 1..])
    ensures s[p..] == PartsText([]) + ([mark] + s[p + 1..]) && current + PartsMean([]) == current
  {
  }

  // One part more in front.
  lemma PartInFront(part: Part, more: seq<Part>, mark: byte, s: seq<byte>, p: nat, q: nat, e: nat)
    requires p <= q <= e <= |s| && s[p..] == PartText(part) + s[q..] && GoodPart(mark, part, s[q..])
    requires s[q..] == PartsText(more) + ([mark] + s[e..]) && GoodParts(mark, more, [mark] + s[e..])
    ensures s[p..] == PartsText([part] + more) + ([mark] + s[e..]) && GoodParts(mark, [part] + more, [mark] + s[e..])
    ensures PartsMean([part] + more) == [PartMeans(part)] + PartsMean(more)
    ensures e == q + |PartsText(more)| + 1 ==> e == p + |PartsText([part] + more)| + 1
  {
    hide *;
    PartsAre(part, more, mark, [mark] + s[e..]);
    Assoc(PartText(part), PartsText(more), [mark] + s[e..]);
    InFront(PartText(part), s[q..], s, p);
  }

  lemma {:induction false} QuotesAt(mark: byte, s: seq<byte>, p: nat, current: seq<byte>) returns (parts: seq<Part>)
    requires mark in {34, 39} && p <= |s| && NulFree(s) && ScanToken(s, p, ModeOf(mark), current).Ended?
    ensures var e := p + |PartsText(parts)| + 1;
            && e <= |s| && s[p..] == PartsText(parts) + ([mark] + s[e..])
            && GoodParts(mark, parts, [mark] + s[e..]) && (s[e..] != [] ==> Space(s[e..][0]))
            && ScanToken(s, p, ModeOf(mark), current) == Ended(e, current + PartsMean(parts))
    decreases |s| - p
  {
    hide *;
    var r := ScanOne(s, p, ModeOf(mark), current);
    ScanGoesOn(s, p, ModeOf(mark), current);
    if r.Going? {
      if r.p == |s| { KeepsQuote(mark, s, p, current); NothingLeft(mark, s, r.current); }
      var part := PartAt(mark, s, p, current);
      var more := QuotesAt(mark, s, r.p, r.current);
      parts := [part] + more;
      PartInFront(part, more, mark, s, p, r.p, r.p + |PartsText(more)| + 1);
      Assoc(current, [PartMeans(part)], PartsMean(more));
    } else {
      QuoteEnds(mark, s, p, current);
      parts := [];
      NoParts(mark, s, p, current);
    }
  }

  lemma KeepsQuote(mark: byte, s: seq<byte>, p: nat, current: seq<byte>)
    requires mark in {34, 39} && p <= |s| && NulFree(s) && ScanOne(s, p, ModeOf(mark), current).Going?
    ensures ScanOne(s, p, ModeOf(mark), current).mode == ModeOf(mark)
  {
  }

  // ----- outside quotes -----

  predicate Free(bare: seq<byte>) { forall k :: 0 <= k < |bare| ==> bare[k] !in {9, 10, 13, 32, 34, 39} }

  lemma {:induction false} BareReads(bare: seq<byte>, behind: seq<byte>, s: seq<byte>, p: nat, current: seq<byte>)
    requires p <= |s| && NulFree(s) && s[p..] == bare + behind && Free(bare)
    ensures p + |bare| <= |s| && s[p + |bare|..] == behind
    ensures ScanToken(s, p, Bare, current) == ScanToken(s, p + |bare|, Bare, current + bare)
    decreases |bare|
  {
    hide ScanToken, NulFree;
    if bare == [] {
      assert [] + behind == behind && current + [] == current;
    } else {
      assert bare == [bare[0]] + bare[1..];
      Assoc([bare[0]], bare[1..], behind);
      FirstOf(s, p, bare[0], bare[1..] + behind);
      ScanGoesOn(s, p, Bare, current);
      BareReads(bare[1..], behind, s, p + 1, current + [bare[0]]);
      Assoc(current, [bare[0]], bare[1..]);
    }
  }

  lemma FirstOf(s: seq<byte>, p: nat, b: byte, behind: seq<byte>)
    requires p <= |s| && s[p..] == [b] + behind
    ensures p < |s| && s[p] == b && s[p + 1..] == behind
  {
    assert |s[p..]| == 1 + |behind| && s[p..][0] == b;
    assert s[p + 1..] == s[p..][1..];
  }

  lemma {:induction false} BareAt(s: seq<byte>, p: nat, current: seq<byte>) returns (bare: seq<byte>)
    requires p <= |s| && NulFree(s)
    ensures var e := p + |bare|;
            && e <= |s| && s[p..] == bare + s[e..] && Free(bare)
            && (e < |s| ==> s[e] in {9, 10, 13, 32, 34, 39})
            && ScanToken(s, p, Bare, current) == ScanToken(s, e, Bare, current + bare)
    decreases |s| - p
  {
    hide ScanToken, NulFree;
    if p == |s| || s[p] in {9, 10, 13, 32, 34, 39} {
      bare := [];
      assert [] + s[p..] == s[p..] && current + [] == current;
    } else {
      ScanGoesOn(s, p, Bare, current);
      var more := BareAt(s, p + 1, current + [s[p]]);
      bare := [s[p]] + more;
      assert s[p..] == [s[p]] + s[p + 1..];
      Assoc([s[p]], more, s[p + 1 + |more|..]);
      Assoc(current, [s[p]], more);
    }
  }

  // ----- arguments -----

  // A blank or the end ends an argument, a quote begins its quoted part.
  lemma BareEnds(s: seq<byte>, e: nat, current: seq<byte>)
    requires e <= |s| && NulFree(s) && (e < |s| ==> s[e] in {9, 10, 13, 32, 34, 39})
    ensures if e < |s| && s[e] in {34, 39}
            then ScanToken(s, e, Bare, current) == ScanToken(s, e + 1, ModeOf(s[e]), current)
            else ScanToken(s, e, Bare, current) == Ended(Advance(s, e), current)
                 && SplitFrom(s, Advance(s, e)) == SplitFrom(s, e)
  {
    ScanGoesOn(s, e, Bare, current);
    hide ScanToken;
    if e < |s| && s[e] in {9, 10, 13, 32} { assert SkipSpaces(s, e) == SkipSpaces(s, e + 1); }
  }

  // The scanner at q reads an argument that ends at e.
  predicate Takes(s: seq<byte>, q: nat, e: nat, argument: seq<byte>)
    requires q <= |s| && NulFree(s)
  {
    var r := ScanToken(s, q, Bare, []);
    q < e <= |s| && !IsSpace(s[q]) && r.Ended? && r.token == argument && SplitFrom(s, r.p) == SplitFrom(s, e)
  }

  // Bytes that may begin an argument, read up to where they end.
  lemma BareIs(bare: seq<byte>, behind: seq<byte>, s: seq<byte>, q: nat)
    requires q <= |s| && NulFree(s) && s[q..] == bare + behind && GoodBare(bare)
    ensures q + |bare| <= |s| && s[q + |bare|..] == behind
    ensures ScanToken(s, q, Bare, []) == ScanToken(s, q + |bare|, Bare, bare)
    ensures bare != [] ==> !IsSpace(s[q])
  {
    hide ScanToken, NulFree;
    InFront(bare, behind, s, q);
    BareReads(bare, behind, s, q, []);
    assert [] + bare == bare;
  }

  lemma UnquotedReads(bare: seq<byte>, behind: seq<byte>, s: seq<byte>, q: nat)
    requires q <= |s| && NulFree(s) && s[q..] == bare + behind && GoodWord(Unquoted(bare), behind)
    ensures q + |bare| <= |s| && s[q + |bare|..] == behind && Takes(s, q, q + |bare|, bare)
  {
    hide ScanToken, SplitFrom, NulFree, GoodBare, Space, IsSpace;
    InFront(bare, behind, s, q);
    BareIs(bare, behind, s, q);
    BareEnds(s, q + |bare|, bare);
  }

  lemma QuotedIs(w: Word, behind: seq<byte>)
    requires w.Quoted?
    ensures WordText(w) + behind == w.bare + ([w.mark] + (PartsText(w.parts) + ([w.mark] + behind)))
    ensures |WordText(w)| == |w.bare| + 1 + |PartsText(w.parts)| + 1
    ensures WordMeans(w) == w.bare + PartsMean(w.parts)
    ensures GoodWord(w, behind) <==>
            && GoodBare(w.bare) && w.mark in {34, 39} && GoodParts(w.mark, w.parts, [w.mark] + behind)
            && (behind != [] ==> Space(behind[0]))
  {
    WordTextIs(w, behind);
  }

  lemma TakesIf(s: seq<byte>, q: nat, e: nat, argument: seq<byte>)
    requires q < e <= |s| && NulFree(s) && !IsSpace(s[q]) && ScanToken(s, q, Bare, []).Ended?
    requires ScanToken(s, q, Bare, []).token == argument
    requires SplitFrom(s, ScanToken(s, q, Bare, []).p) == SplitFrom(s, e)
    ensures Takes(s, q, e, argument)
  {
  }

  lemma QuotedReads(w: Word, behind: seq<byte>, s: seq<byte>, q: nat)
    requires w.Quoted? && q <= |s| && NulFree(s) && s[q..] == WordText(w) + behind && GoodWord(w, behind)
    ensures q + |WordText(w)| <= |s| && s[q + |WordText(w)|..] == behind
    ensures Takes(s, q, q + |WordText(w)|, WordMeans(w))
  {
    hide *;
    var Quoted(bare, mark, parts) := w;
    QuotedIs(w, behind);
    var more := PartsText(parts) + ([mark] + behind);
    BareIs(bare, [mark] + more, s, q);
    FirstOf(s, q + |bare|, mark, more);
    MarkIsNoSpace(mark);
    BareEnds(s, q + |bare|, bare);
    QuotesRead(mark, parts, behind, s, q + |bare| + 1, bare);
    TakesIf(s, q, q + |WordText(w)|, WordMeans(w));
  }

  lemma MarkIsNoSpace(mark: byte)
    requires mark in {34, 39}
    ensures !IsSpace(mark)
  {
  }

  lemma WordReads(w: Word, behind: seq<byte>, s: seq<byte>, q: nat)
    requires q <= |s| && NulFree(s) && s[q..] == WordText(w) + behind && GoodWord(w, behind)
    ensures q + |WordText(w)| <= |s| && s[q + |WordText(w)|..] == behind
    ensures Takes(s, q, q + |WordText(w)|, WordMeans(w))
  {
    hide GoodWord, NulFree, Takes;
    if w.Unquoted? { UnquotedReads(w.bare, behind, s, q); } else { QuotedReads(w, behind, s, q); }
  }

  lemma WordTextIs(w: Word, behind: seq<byte>)
    ensures WordText(w) + behind ==
            w.bare + if w.Unquoted? then behind else [w.mark] + (PartsText(w.parts) + ([w.mark] + behind))
  {
    if w.Quoted? {
      Assoc(w.bare, [w.mark] + (PartsText(w.parts) + [w.mark]), behind);
      Assoc([w.mark], PartsText(w.parts) + [w.mark], behind);
      Assoc(PartsText(w.parts), [w.mark], behind);
    }
  }

  // What stands in front of the first blank or quote.
  lemma BareHere(s: seq<byte>, q: nat) returns (bare: seq<byte>)
    requires q < |s| && NulFree(s) && !IsSpace(s[q])
    ensures var e := q + |bare|;
            && e <= |s| && s[q..] == bare + s[e..] && GoodBare(bare)
            && (e < |s| ==> s[e] in {9, 10, 13, 32, 34, 39} && s[e..][0] == s[e] && s[e..] == [s[e]] + s[e + 1..])
            && ScanToken(s, q, Bare, []) == ScanToken(s, e, Bare, bare)
            && (bare == [] ==> s[e] in {34, 39})
  {
    hide ScanToken, NulFree;
    bare := BareAt(s, q, []);
    InFront(bare, s[q + |bare|..], s, q);
    assert [] + bare == bare;
  }

  lemma UnquotedIs(bare: seq<byte>, behind: seq<byte>)
    requires bare != [] && GoodBare(bare) && (behind != [] ==> behind[0] in {9, 10, 13, 32})
    ensures GoodWord(Unquoted(bare), behind)
    ensures WordText(Unquoted(bare)) == bare && WordMeans(Unquoted(bare)) == bare
  {
  }

  lemma QuotedAt(s: seq<byte>, q: nat, bare: seq<byte>) returns (w: Word)
    requires q + |bare| < |s| && NulFree(s) && !IsSpace(s[q]) && GoodBare(bare) && s[q + |bare|] in {34, 39}
    requires ScanToken(s, q, Bare, []) == ScanToken(s, q + |bare| + 1, ModeOf(s[q + |bare|]), bare)
    requires ScanToken(s, q, Bare, []).Ended?
    requires s[q..] == bare + ([s[q + |bare|]] + s[q + |bare| + 1..])
    ensures var e := q + |WordText(w)|;
            e <= |s| && s[q..] == WordText(w) + s[e..] && GoodWord(w, s[e..]) && Takes(s, q, e, WordMeans(w))
  {
    hide *;
    var mark, next := s[q + |bare|], q + |bare| + 1;
    var parts := QuotesAt(mark, s, next, bare);
    w := Quoted(bare, mark, parts);
    QuotedIs(w, s[next + |PartsText(parts)| + 1..]);
    TakesIf(s, q, q + |WordText(w)|, WordMeans(w));
  }

  lemma WordAt(s: seq<byte>, q: nat) returns (w: Word)
    requires q < |s| && NulFree(s) && !IsSpace(s[q]) && ScanToken(s, q, Bare, []).Ended?
    ensures var e := q + |WordText(w)|;
            e <= |s| && s[q..] == WordText(w) + s[e..] && GoodWord(w, s[e..]) && Takes(s, q, e, WordMeans(w))
  {
    hide *;
    var bare := BareHere(s, q);
    var e := q + |bare|;
    BareEnds(s, e, bare);
    if e < |s| && s[e] in {34, 39} {
      w := QuotedAt(s, q, bare);
    } else {
      w := Unquoted(bare);
      UnquotedIs(bare, s[e..]);
      TakesIf(s, q, e, bare);
    }
  }

  // ----- whole lines -----

  lemma BlankSkipped(s: seq<byte>, p: nat)
    requires p < |s| && NulFree(s) && Space(s[p])
    ensures SplitFrom(s, p) == SplitFrom(s, p + 1)
  {
    hide ScanToken, NulFree;
    assert SkipSpaces(s, p) == SkipSpaces(s, p + 1);
  }

  lemma {:induction false} BlanksSkipped(blanks: seq<byte>, behind: seq<byte>, s: seq<byte>, p: nat)
    requires p <= |s| && s[p..] == blanks + behind && AllSpace(blanks) && NulFree(s)
    ensures p + |blanks| <= |s| && s[p + |blanks|..] == behind
    ensures SplitFrom(s, p) == SplitFrom(s, p + |blanks|)
    decreases |blanks|
  {
    hide SplitFrom, NulFree, Space;
    if blanks == [] {
      assert [] + behind == behind;
    } else {
      assert blanks == [blanks[0]] + blanks[1..];
      Assoc([blanks[0]], blanks[1..], behind);
      FirstOf(s, p, blanks[0], blanks[1..] + behind);
      BlankSkipped(s, p);
      BlanksSkipped(blanks[1..], behind, s, p + 1);
    }
  }

  lemma {:induction false} BlanksAt(s: seq<byte>, p: nat)
    requires p <= |s|
    ensures var q := SkipSpaces(s, p); s[p..] == s[p..q] + s[q..] && AllSpace(s[p..q])
    decreases |s| - p
  {
    if p < |s| && IsSpace(s[p]) {
      BlanksAt(s, p + 1);
      var q := SkipSpaces(s, p + 1);
      hide SkipSpaces;
      assert s[p..q][0] == s[p] && s[p..q][1..] == s[p + 1..q];
      assert s[p..q] == [s[p]] + s[p + 1..q];
    } else {
      assert s[p..p] == [] && [] + s[p..] == s[p..];
    }
  }

  lemma OneWord(s: seq<byte>, q: nat)
    requires q < |s| && NulFree(s) && !IsSpace(s[q])
    ensures var r := ScanToken(s, q, Bare, []);
            SplitFrom(s, q) ==
            if r.Ended? then TokenAdvances(s, q); WithFront([r.token], SplitFrom(s, r.p)) else None
  {
    hide ScanToken;
    TokenAdvances(s, q);
    assert SkipSpaces(s, q) == q;
  }

  lemma {:induction false} LineReads(words: seq<Spaced>, end: seq<byte>, s: seq<byte>, p: nat)
    requires p <= |s| && NulFree(s) && s[p..] == LineText(words, end) && GoodLine(words, end)
    ensures SplitFrom(s, p) == Some(Arguments(words))
    decreases |words|
  {
    hide ScanToken, SplitFrom, NulFree, GoodWord, WordText, WordMeans, AllSpace;
    if words == [] {
      assert end + [] == end;
      BlanksSkipped(end, [], s, p);
      LineEnds(s);
    } else {
      var w, more := words[0].word, LineText(words[1..], end);
      BlanksSkipped(words[0].blanks, WordText(w) + more, s, p);
      var q := p + |words[0].blanks|;
      WordReads(w, more, s, q);
      OneWord(s, q);
      LineReads(words[1..], end, s, q + |WordText(w)|);
    }
  }

  lemma {:induction false} LineAt(s: seq<byte>, p: nat) returns (words: seq<Spaced>, end: seq<byte>)
    requires p <= |s| && NulFree(s) && SplitFrom(s, p).Some?
    ensures s[p..] == LineText(words, end) && GoodLine(words, end) && SplitFrom(s, p) == Some(Arguments(words))
    decreases |s| - p
  {
    hide ScanToken, SplitFrom, NulFree, GoodWord, WordText, WordMeans, AllSpace, SkipSpaces;
    hide LineText, GoodLine, Arguments;
    var q := SkipSpaces(s, p);
    BlanksAt(s, p);
    BlanksSkipped(s[p..q], s[q..], s, p);
    if q == |s| {
      LineEnds(s);
      words, end := [], s[p..q];
      assert s[p..q] + s[q..] == s[p..q];
      NoWords(end);
    } else {
      OneWord(s, q);
      var w := WordAt(s, q);
      var more;
      more, end := LineAt(s, q + |WordText(w)|);
      words := [Spaced(s[p..q], w)] + more;
      FirstWord(Spaced(s[p..q], w), more, end);
    }
  }

  lemma NoWords(end: seq<byte>)
    ensures LineText([], end) == end && (GoodLine([], end) <==> AllSpace(end)) && Arguments([]) == []
  {
  }

  lemma FirstWord(w: Spaced, more: seq<Spaced>, end: seq<byte>)
    ensures var words := [w] + more;
            && LineText(words, end) == w.blanks + (WordText(w.word) + LineText(more, end))
            && (GoodLine(words, end) <==>
                AllSpace(w.blanks) && GoodWord(w.word, LineText(more, end)) && GoodLine(more, end))
            && Arguments(words) == [WordMeans(w.word)] + Arguments(more)
  {
    assert ([w] + more)[1..] == more;
  }

  // sdssplitargs takes exactly the lines of the grammar, and returns what they
  // stand for.
  lemma ExactlyLines(line: seq<byte>, args: seq<seq<byte>>)
    requires NulFree(line)
    ensures SplitFrom(line, 0) == Some(args) <==>
            exists words, end :: LineText(words, end) == line && GoodLine(words, end) && Arguments(words) == args
  {
    hide SplitFrom, LineText, GoodLine, Arguments, NulFree;
    assert line[0..] == line;
    if SplitFrom(line, 0) == Some(args) {
      var words, end := LineAt(line, 0);
    }
    forall words, end | LineText(words, end) == line && GoodLine(words, end) && Arguments(words) == args
      ensures SplitFrom(line, 0) == Some(args)
    {
      LineReads(words, end, line, 0);
    }
  }

  // ----- the quoting printer -----

  predicate Printable(t: seq<byte>) { forall k :: 0 <= k < |t| ==> 32 <= t[k] <= 126 }

  // A code without capital letters among its digits.
  predicate Low(part: Part) { part.Code? ==> !(65 <= part.high <= 70) && !(65 <= part.low <= 70) }

  // What sdscatrepr writes is the shortest printable text between double quotes
  // that is read as the bytes, and the only one of its length without capitals
  // in its codes.
  lemma {:induction false} ReprIsShortest(p: seq<byte>, parts: seq<Part>, behind: seq<byte>)
    requires GoodParts(34, parts, behind) && PartsMean(parts) == p && Printable(PartsText(parts))
    ensures |ReprTail(p)| <= |PartsText(parts)| + 1
    ensures |ReprTail(p)| == |PartsText(parts)| + 1 && (forall k :: 0 <= k < |parts| ==> Low(parts[k])) ==>
              ReprTail(p) == PartsText(parts) + [34]
  {
    hide PartText, PartMeans, GoodPart, ReprByte, Low;
    if parts != [] {
      var text, more := PartText(parts[0]), PartsText(parts[1..]);
      assert forall k :: 0 <= k < |text| ==> text[k] == PartsText(parts)[k];
      assert forall k :: 0 <= k < |more| ==> more[k] == PartsText(parts)[|text| + k];
      assert p[0] == PartMeans(parts[0]) && p[1..] == PartsMean(parts[1..]);
      OneIsShortest(parts[0], more + behind);
      ReprIsShortest(p[1..], parts[1..], behind);
      Assoc(text, more, [34]);
    }
  }

  lemma OneIsShortest(part: Part, behind: seq<byte>)
    requires GoodPart(34, part, behind) && Printable(PartText(part))
    ensures var t := ReprByte(PartMeans(part));
            |t| <= |PartText(part)| && (|t| == |PartText(part)| && Low(part) ==> t == PartText(part))
  {
    assert PartText(part)[|PartText(part)| - 1] <= 126;
  }

  lemma PrintableTogether(t: seq<byte>, u: seq<byte>)
    requires Printable(t) && Printable(u)
    ensures Printable(t + u)
  {
  }

  lemma ByteIsPrintable(b: byte)
    ensures Printable(ReprByte(b))
  {
  }

  lemma {:induction false} TailIsPrintable(p: seq<byte>)
    ensures Printable(ReprTail(p))
  {
    hide Printable, ReprByte;
    if p == [] {
      QuoteIsPrintable();
    } else {
      TailIsPrintable(p[1..]);
      ByteIsPrintable(p[0]);
      PrintableTogether(ReprByte(p[0]), ReprTail(p[1..]));
    }
  }

  lemma QuoteIsPrintable()
    ensures Printable([QUOTE])
  {
  }

  lemma ReprIsPrintable(p: seq<byte>)
    ensures Printable(Repr(p))
  {
    hide Printable, ReprTail;
    QuoteIsPrintable();
    TailIsPrintable(p);
    PrintableTogether([QUOTE], ReprTail(p));
  }
}
