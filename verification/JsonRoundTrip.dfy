// Parsing undoes printing: the printer's text is a text of RFC 8259 with a
// layout of its own, and what it denotes is the tree that was printed.
module JsonRoundTrip {
  import opened Bytes
  import opened Decimal
  import opened JsonText
  import opened JsonGrammar
  import opened JsonStrings
  import opened JsonLiterals
  import opened JsonNumbers
  import opened JsonLanguage

  // ----- strings -----

  function LowHex(v: nat): byte
    requires v < 16
  {
    if v < 10 then 0x30 + v else 0x61 + (v - 10)
  }

  // How a byte of a string is printed: by a letter where there is one, as \u00XX
  // below the blank, and as it is otherwise.
  function PrintedPart(b: byte): Part
  {
    if b == 0x22 || b == 0x5C then Short(b)
    else if b == 0x08 then Short(0x62)
    else if b == 0x0C then Short(0x66)
    else if b == 0x0A then Short(0x6E)
    else if b == 0x0D then Short(0x72)
    else if b == 0x09 then Short(0x74)
    else if b < 0x20 then Unit([0x30, 0x30, LowHex(b / 16), LowHex(b % 16)])
    else Raw(b)
  }

  function PrintedParts(t: seq<byte>): (parts: seq<Part>)
    ensures |parts| == |t| && forall k :: 0 <= k < |t| ==> parts[k] == PrintedPart(t[k])
  {
    if t == [] then [] else [PrintedPart(t[0])] + PrintedParts(t[1..])
  }

  function PrintedLiteral(t: seq<byte>): Literal { Literal(PrintedParts(t), false) }

  lemma LowHexIs(v: nat)
    requires v < 16
    ensures LowHex(v) == HexDigit(v) && Nibble(LowHex(v)) == Some(v)
  {
  }

  lemma PrintedPartIs(b: byte)
    ensures StandardPart(PrintedPart(b)) && Taken(PrintedPart(b))
    ensures PartText(PrintedPart(b)) == EscapedByte(b) && Meaning(PrintedPart(b)) == [b]
  {
    LowHexIs(b / 16);
    LowHexIs(b % 16);
    AsciiUtf8(if b < 0x80 then b else 0);
    hide LowHex, HexDigit, Nibble;
    assert Nibble(0x30) == Some(0) by { LowHexIs(0); }
  }

  lemma {:induction false} PrintedPartsAre(t: seq<byte>)
    ensures AllTaken(PrintedParts(t)) && forall k :: 0 <= k < |t| ==> StandardPart(PrintedParts(t)[k])
    ensures PartsText(PrintedParts(t)) + [0x22] == LiteralTail(t) && MeaningAll(PrintedParts(t)) == t
  {
    if t != [] {
      hide PrintedPart, PartText, EscapedByte, Meaning, Taken, StandardPart;
      PrintedPartIs(t[0]);
      PrintedPartsAre(t[1..]);
      assert t == [t[0]] + t[1..];
    }
  }

  lemma PrintedLiteralIs(t: seq<byte>)
    ensures StandardLiteral(PrintedLiteral(t)) && TakenLiteral(PrintedLiteral(t))
    ensures LiteralText(PrintedLiteral(t)) == StringText(t) && LiteralMeaning(PrintedLiteral(t)) == t
  {
    hide PartsText, MeaningAll, LiteralTail, PrintedParts;
    PrintedPartsAre(t);
    StandardLiteralTaken(PrintedLiteral(t));
  }

  // ----- numbers -----

  function PrintedNumber(n: int): Number { Number(n < 0, Digits(if n < 0 then -n else n), None, None) }

  lemma {:induction false} TallyDigits(n: nat)
    ensures OnlyDigits(Digits(n)) && Tally(Digits(n)) == n
  {
    DigitsRoundTrip(n);
    DigitsAre(Digits(n));
    TallyIs(Digits(n));
  }

  lemma PrintedNumberIs(n: int)
    requires INT_MIN <= n <= INT_MAX
    ensures StandardNumber(PrintedNumber(n)) && GoodNumber(PrintedNumber(n))
    ensures NumberText(PrintedNumber(n)) == IntText(n) && |IntText(n)| <= 63
    ensures NumberValue(PrintedNumber(n)) == n as real && SaturatedInt(n as real) == n
  {
    var m: nat := if n < 0 then -n else n;
    TallyDigits(m);
    DigitsRoundTrip(m);
    LoneZero(m);
    IntTextLength(n);
    hide Digits, Tally;
    assert Digits(m) + [] == Digits(m);
    assert TenTo(0) == 1.0;
  }

  lemma LoneZero(m: nat)
    ensures m == 0 ==> |Digits(m)| == 1
  {
  }

  // ----- the layout -----

  // The line break and the tabs in front of a member or a closing brace.
  function NewLine(format: bool, depth: nat): seq<byte> { if format then [0x0A] + Tabs(depth) else [] }

  function Blank(format: bool, b: byte): seq<byte> { if format then [b] else [] }

  // The text of a printed tree: no white space at all, or a blank behind the
  // comma of an array, members on lines of their own and a tab behind the colon.
  function Laid(v: Json, format: bool, depth: nat): Doc
    decreases v, 1
  {
    match v
    case JNull => NullDoc
    case JFalse => FalseDoc
    case JTrue => TrueDoc
    case JNumber(n, _) => NumberDoc(PrintedNumber(n))
    case JString(t) => StringDoc(PrintedLiteral(t))
    case JArray(items) => ArrayDoc([], LaidItems(items, format, depth + 1, true))
    case JObject(members) =>
      ObjectDoc(if members == [] then NewLine(format, depth) else [], LaidMembers(members, format, depth + 1))
  }

  function LaidItems(items: seq<Json>, format: bool, depth: nat, first: bool): (es: seq<Element>)
    ensures |es| == |items|
    decreases items, 0
  {
    if items == [] then []
    else
      [Element(if first then [] else Blank(format, 0x20), Laid(items[0], format, depth), [])] +
      LaidItems(items[1..], format, depth, false)
  }

  function LaidMembers(members: seq<Member>, format: bool, depth: nat): (fs: seq<Field>)
    requires depth > 0
    ensures |fs| == |members|
    decreases members, 0
  {
    if members == [] then []
    else
      var after := if |members| > 1 then [] else NewLine(format, depth - 1);
      [Field(NewLine(format, depth), PrintedLiteral(members[0].key), [],
             Element(Blank(format, 0x09), Laid(members[0].value, format, depth), after))] +
      LaidMembers(members[1..], format, depth)
  }

  lemma LayoutIsSpace(format: bool, depth: nat, b: byte)
    requires b == 0x20 || b == 0x09
    ensures StandardSpace(NewLine(format, depth)) && StandardSpace(Blank(format, b)) && StandardSpace([])
  {
  }

  // It is a text of RFC 8259.
  lemma {:induction false} LaidIsStandard(v: Json, format: bool, depth: nat)
    requires Printable(v)
    ensures Standard(Laid(v, format, depth))
    decreases v, 1
  {
    LayoutIsSpace(format, depth, 0x20);
    hide StandardNumber, StandardLiteral, StandardSpace, NewLine, Blank;
    match v
    case JNumber(n, _) => PrintedNumberIs(n);
    case JString(t) => PrintedLiteralIs(t);
    case JArray(items) => LaidItemsStandard(items, format, depth + 1, true);
    case JObject(members) => LaidMembersStandard(members, format, depth + 1);
    case _ =>
  }

  lemma {:induction false} LaidItemsStandard(items: seq<Json>, format: bool, depth: nat, first: bool)
    requires PrintableItems(items)
    ensures StandardElements(LaidItems(items, format, depth, first))
    decreases items, 0
  {
    if items != [] {
      LayoutIsSpace(format, depth, 0x20);
      hide StandardSpace, NewLine, Blank, Standard, Laid;
      LaidIsStandard(items[0], format, depth);
      LaidItemsStandard(items[1..], format, depth, false);
    }
  }

  lemma {:induction false} LaidMembersStandard(members: seq<Member>, format: bool, depth: nat)
    requires PrintableMembers(members) && depth > 0
    ensures StandardFields(LaidMembers(members, format, depth))
    decreases members, 0
  {
    if members != [] {
      LayoutIsSpace(format, depth, 0x09);
      LayoutIsSpace(format, depth - 1, 0x09);
      PrintedLiteralIs(members[0].key);
      hide StandardSpace, StandardLiteral, NewLine, Blank, Standard, Laid;
      LaidIsStandard(members[0].value, format, depth);
      LaidMembersStandard(members[1..], format, depth);
      assert StandardElement(LaidMembers(members, format, depth)[0].value);
    }
  }

  // It denotes the tree.
  lemma {:induction false} LaidDenotes(v: Json, format: bool, depth: nat)
    requires Printable(v)
    ensures Good(Laid(v, format, depth)) && Denoted(Laid(v, format, depth)) == v && ShortNumbers(Laid(v, format, depth))
    decreases v, 1
  {
    LaidIsStandard(v, format, depth);
    StandardIsTaken(Laid(v, format, depth));
    hide GoodNumber, TakenLiteral, NumberText, LiteralMeaning, NumberValue;
    match v
    case JNumber(n, _) => PrintedNumberIs(n);
    case JString(t) => PrintedLiteralIs(t);
    case JArray(items) => LaidItemsDenote(items, format, depth + 1, true);
    case JObject(members) => LaidMembersDenote(members, format, depth + 1);
    case _ =>
  }

  lemma {:induction false} LaidItemsDenote(items: seq<Json>, format: bool, depth: nat, first: bool)
    requires PrintableItems(items) && GoodElements(LaidItems(items, format, depth, first))
    ensures DenotedItems(LaidItems(items, format, depth, first)) == items
    ensures ShortInElements(LaidItems(items, format, depth, first))
    decreases items, 0
  {
    if items != [] {
      hide Laid, Denoted, Good, Blank, IsSpace, ShortNumbers;
      var es := LaidItems(items, format, depth, first);
      assert es[1..] == LaidItems(items[1..], format, depth, false);
      LaidDenotes(items[0], format, depth);
      LaidItemsDenote(items[1..], format, depth, false);
      assert items == [items[0]] + items[1..];
    }
  }

  lemma {:induction false} LaidMembersDenote(members: seq<Member>, format: bool, depth: nat)
    requires PrintableMembers(members) && depth > 0 && GoodFields(LaidMembers(members, format, depth))
    ensures DenotedMembers(LaidMembers(members, format, depth)) == members
    ensures ShortInFields(LaidMembers(members, format, depth))
    decreases members, 0
  {
    if members != [] {
      hide Laid, Denoted, Good, Blank, NewLine, IsSpace, TakenLiteral, LiteralMeaning, ShortNumbers;
      var fs := LaidMembers(members, format, depth);
      assert fs[1..] == LaidMembers(members[1..], format, depth);
      PrintedLiteralIs(members[0].key);
      LaidDenotes(members[0].value, format, depth);
      LaidMembersDenote(members[1..], format, depth);
      assert members == [members[0]] + members[1..];
    }
  }

  // And it is what the printer writes.
  lemma {:induction false} PrintedIsLaid(v: Json, format: bool, depth: nat)
    requires Printable(v)
    ensures Good(Laid(v, format, depth)) && DocText(Laid(v, format, depth)) == ValueText(v, format, depth)
    decreases v, 1
  {
    LaidIsStandard(v, format, depth);
    StandardIsTaken(Laid(v, format, depth));
    hide GoodNumber, TakenLiteral, NumberText, LiteralText, IntText, StringText, ItemsText, MembersText, ElementsText,
      FieldsText;
    match v
    case JNumber(n, _) => PrintedNumberIs(n);
    case JString(t) => PrintedLiteralIs(t);
    case JArray(items) => LaidItemsText(items, format, depth + 1, true);
    case JObject(members) => ObjectIsLaid(members, format, depth);
    case _ =>
  }

  lemma {:induction false} LaidItemsText(items: seq<Json>, format: bool, depth: nat, first: bool)
    requires PrintableItems(items) && GoodElements(LaidItems(items, format, depth, first))
    ensures ElementsText(LaidItems(items, format, depth, first)) ==
            (if first || items == [] then [] else Blank(format, 0x20)) + ItemsText(items, format, depth)
    decreases items, 0
  {
    hide *;
    var es := LaidItems(items, format, depth, first);
    if items == [] {
      NoItemsText(items, format, depth, first);
    } else {
      var rest := items[1..];
      FirstItem(items, format, depth, first);
      ElementsTextIs(es);
      PrintedIsLaid(items[0], format, depth);
      LaidItemsText(rest, format, depth, false);
      var space, val := if first then [] else Blank(format, 0x20), ValueText(items[0], format, depth);
      var end := Comma(|items| > 1) + ElementsText(es[1..]);
      Assoc(space, val, end);
      Assoc(Comma(|items| > 1), Blank(format, 0x20), ItemsText(rest, format, depth));
      if rest == [] { NoItemsText(rest, format, depth, false); }
    }
  }

  lemma NoItemsText(items: seq<Json>, format: bool, depth: nat, first: bool)
    requires items == []
    ensures ItemsText(items, format, depth) == [] && LaidItems(items, format, depth, first) == []
    ensures ElementsText([]) == [] && Comma(false) == [] && forall t: seq<byte> :: [] + t == t && t + [] == t
  {
  }

  // The first item in both.
  lemma FirstPrinted(items: seq<Json>, format: bool, depth: nat)
    requires items != []
    ensures ItemsText(items, format, depth) ==
            ValueText(items[0], format, depth) +
            ((if |items| > 1 then Comma(true) + Blank(format, 0x20) else []) + ItemsText(items[1..], format, depth))
  {
    hide ValueText;
  }

  lemma FirstItem(items: seq<Json>, format: bool, depth: nat, first: bool)
    requires items != [] && PrintableItems(items) && GoodElements(LaidItems(items, format, depth, first))
    ensures Printable(items[0]) && PrintableItems(items[1..])
    ensures var es := LaidItems(items, format, depth, first);
            && |es| == |items| && es[1..] == LaidItems(items[1..], format, depth, false)
            && GoodElement(es[0]) && Good(Laid(items[0], format, depth))
            && ElementText(es[0]) ==
                 (if first then [] else Blank(format, 0x20)) + DocText(Laid(items[0], format, depth))
    ensures ItemsText(items, format, depth) ==
            ValueText(items[0], format, depth) +
            ((if |items| > 1 then Comma(true) + Blank(format, 0x20) else []) + ItemsText(items[1..], format, depth))
  {
    FirstPrinted(items, format, depth);
    hide Laid, DocText, ValueText, IsSpace, Good, ItemsText, Blank;
    var t := DocText(Laid(items[0], format, depth));
    assert t + [] == t;
  }

  // The printer's layout in the same pieces.
  lemma LayoutParts(format: bool, depth: nat, more: bool)
    ensures NewLine(format, depth) == Blank(format, 0x0A) + Indent(format, depth)
    ensures KeySeparator(format) == [0x3A] + Blank(format, 0x09)
    ensures MemberEnd(format, more) == Comma(more) + Blank(format, 0x0A)
    ensures ObjectOpen(format) == [0x7B] + Blank(format, 0x0A)
    ensures ObjectClose(format, depth) == Indent(format, depth) + [0x7D]
  {
  }

  lemma {:induction false} ObjectIsLaid(members: seq<Member>, format: bool, depth: nat)
    requires PrintableMembers(members) && Good(Laid(JObject(members), format, depth))
    ensures DocText(Laid(JObject(members), format, depth)) == ValueText(JObject(members), format, depth)
    decreases members, 2
  {
    hide *;
    ObjectUnfolds(members, format, depth);
    var br, tabs, body := Blank(format, 0x0A), Indent(format, depth), MembersText(members, format, depth + 1);
    LayoutParts(format, depth, false);
    Assoc([0x7B], br, body + (tabs + [0x7D]));
    if members == [] {
      NoFields(LaidMembers(members, format, depth + 1));
      NoMembersText(members, format, depth + 1);
      Assoc(br, tabs, [0x7D]);
    } else {
      NoMembersText([], format, depth + 1);
      LaidMembersText(members, format, depth + 1);
      Assoc(br, body + tabs, [0x7D]);
      Assoc(body, tabs, [0x7D]);
    }
  }

  lemma ObjectUnfolds(members: seq<Member>, format: bool, depth: nat)
    requires PrintableMembers(members) && Good(Laid(JObject(members), format, depth))
    ensures var fs := LaidMembers(members, format, depth + 1);
            && GoodFields(fs) && |fs| == |members|
            && DocText(Laid(JObject(members), format, depth)) ==
                 [0x7B] + ((if members == [] then NewLine(format, depth) else []) + (FieldsText(fs) + [0x7D]))
    ensures ValueText(JObject(members), format, depth) ==
            ObjectOpen(format) + (MembersText(members, format, depth + 1) + ObjectClose(format, depth))
    ensures [0x7D] + [] == [0x7D] && depth + 1 - 1 == depth
  {
    hide FieldsText, MembersText, NewLine, ObjectOpen, ObjectClose, LaidMembers, GoodFields;
  }

  lemma NoMembersText(members: seq<Member>, format: bool, depth: nat)
    requires members == []
    ensures MembersText(members, format, depth) == [] && Comma(false) == []
    ensures forall t: seq<byte> :: [] + t == t && t + [] == t
  {
  }

  lemma {:induction false} LaidMembersText(members: seq<Member>, format: bool, depth: nat)
    requires members != [] && PrintableMembers(members) && depth > 0 && GoodFields(LaidMembers(members, format, depth))
    ensures FieldsText(LaidMembers(members, format, depth)) ==
            Blank(format, 0x0A) + (MembersText(members, format, depth) + Indent(format, depth - 1))
    decreases members, 0, 1
  {
    hide *;
    var m := members[0];
    var fs := LaidMembers(members, format, depth);
    OtherMembers(members, format, depth);
    FieldsTextIs(fs);
    FirstMember(members, format, depth);
    PrintedIsLaid(m.value, format, depth);
    LayoutParts(format, depth, false);
    var after, more, end := BehindMember(members, format, depth);
    MemberPieces(Blank(format, 0x0A), Indent(format, depth), StringText(m.key), Blank(format, 0x09),
                 ValueText(m.value, format, depth), after, more, end, Indent(format, depth - 1));
  }

  // What stands behind the first value in both.
  lemma {:induction false} BehindMember(members: seq<Member>, format: bool, depth: nat)
      returns (after: seq<byte>, more: seq<byte>, end: seq<byte>)
    requires members != [] && PrintableMembers(members) && depth > 0 && GoodFields(LaidMembers(members, format, depth))
    ensures after == if |members| > 1 then [] else NewLine(format, depth - 1)
    ensures var fs := LaidMembers(members, format, depth);
            |fs| == |members| && GoodFields(fs[1..]) && more == Comma(|members| > 1) + FieldsText(fs[1..])
    ensures end == MemberEnd(format, |members| > 1) + MembersText(members[1..], format, depth)
    ensures after + more == end + Indent(format, depth - 1)
    decreases members, 0, 0
  {
    hide *;
    var fs, rest := LaidMembers(members, format, depth), members[1..];
    var br, outer, text := Blank(format, 0x0A), Indent(format, depth - 1), MembersText(rest, format, depth);
    OtherMembers(members, format, depth);
    FieldsTextIs(fs);
    LayoutParts(format, depth - 1, |members| > 1);
    NoMembersText([], format, depth);
    after := if |members| > 1 then [] else NewLine(format, depth - 1);
    more := Comma(|members| > 1) + FieldsText(fs[1..]);
    end := MemberEnd(format, |members| > 1) + text;
    if rest == [] {
      NoMembersText(rest, format, depth);
    } else {
      LaidMembersText(rest, format, depth);
      Assoc(Comma(true), br, text);
      Assoc(Comma(true), br + text, outer);
      Assoc(br, text, outer);
    }
  }

  lemma OtherMembers(members: seq<Member>, format: bool, depth: nat)
    requires members != [] && PrintableMembers(members) && depth > 0
    ensures var fs := LaidMembers(members, format, depth);
            |fs| == |members| && fs[1..] == LaidMembers(members[1..], format, depth)
    ensures PrintableMembers(members[1..]) && Printable(members[0].value)
  {
    hide Laid;
  }

  // The first member in both.
  lemma FirstMember(members: seq<Member>, format: bool, depth: nat)
    requires members != [] && PrintableMembers(members) && depth > 0 && GoodFields(LaidMembers(members, format, depth))
    ensures var m, f := members[0], LaidMembers(members, format, depth)[0];
            && GoodField(f) && GoodElement(f.value) && f.value.value == Laid(m.value, format, depth)
            && NameText(f) == NewLine(format, depth) + (StringText(m.key) + ([] + [0x3A]))
            && ElementText(f.value) ==
                 Blank(format, 0x09) +
                 (DocText(Laid(m.value, format, depth)) + if |members| > 1 then [] else NewLine(format, depth - 1))
            && MembersText(members, format, depth) ==
                 (Indent(format, depth) + (StringText(m.key) + KeySeparator(format))) +
                 (ValueText(m.value, format, depth) +
                  (MemberEnd(format, |members| > 1) + MembersText(members[1..], format, depth)))
  {
    hide Laid, NewLine, Blank, DocText, ValueText, StringText, LiteralText, Indent, KeySeparator;
    hide MemberEnd, TakenLiteral, PrintedLiteral;
    PrintedLiteralIs(members[0].key);
  }

  // The pieces of a member, nested as the language and as the printer nests them.
  lemma MemberPieces(br: seq<byte>, tabs: seq<byte>, key: seq<byte>, tab: seq<byte>, val: seq<byte>, after: seq<byte>,
                     more: seq<byte>, end: seq<byte>, outer: seq<byte>)
    requires after + more == end + outer
    ensures ((br + tabs) + (key + ([] + [0x3A]))) + ((tab + (val + after)) + more) ==
            br + (((tabs + (key + ([0x3A] + tab))) + (val + end)) + outer)
  {
    var x := (tab + (val + after)) + more;
    assert [] + [0x3A] == [0x3A];
    Assoc(br + tabs, key + [0x3A], x);
    Assoc(key, [0x3A], x);
    Assoc(br, tabs, key + ([0x3A] + x));
    Assoc(tab, val + after, more);
    Assoc(val, after, more);
    var y := val + end;
    Assoc(tabs, key + ([0x3A] + tab), y);
    Assoc(key, [0x3A] + tab, y);
    Assoc([0x3A], tab, y);
    Assoc(tabs, key + ([0x3A] + (tab + y)), outer);
    Assoc(key, [0x3A] + (tab + y), outer);
    Assoc([0x3A], tab + y, outer);
    Assoc(tab, y, outer);
    Assoc(val, end, outer);
  }

  // ----- reading back -----

  // The text of a printable tree, wherever it stands, at any indentation, and at
  // a depth that leaves room for its nesting.
  lemma ValueReadsBack(v: Json, format: bool, indent: nat, s: seq<byte>, o: nat, depth: nat)
    requires Printable(v) && depth + Nesting(v) <= 1000 && At(s, o, ValueText(v, format, indent))
    requires EndsValue(s, o + |ValueText(v, format, indent)|)
    ensures ParseValue(s, o, depth) == Done(v, o + |ValueText(v, format, indent)|)
  {
    hide *;
    var d := Laid(v, format, indent);
    LaidDenotes(v, format, indent);
    PrintedIsLaid(v, format, indent);
    FitsMeans(d, depth);
    DocReads(d, s, o, depth);
  }

  // What cJSON_Print writes is read back if it nests at most 1000 deep, and
  // refused otherwise: with and without a NUL behind it.
  lemma PrintedTextParses(v: Json, format: bool, nul: bool)
    requires Printable(v)
    ensures var t := ValueText(v, format, 0);
            ParseText(if nul then t + [NUL] else t, false) == if Nesting(v) <= 1000 then Done(v, |t|) else Fail
  {
    hide *;
    var e := PrintedElement(v, format);
    var tail: seq<byte> := if nul then [NUL] else [];
    var t := ValueText(v, format, 0);
    var s := t + tail;
    assert [] + (t + tail) == s && t + [] == t;
    NoMark(e, tail);
    TextTail(e, [], tail);
    ValueParses(e, s);
  }

  lemma PrintedElement(v: Json, format: bool) returns (e: Element)
    requires Printable(v)
    ensures GoodElement(e) && ElementText(e) == ValueText(v, format, 0) && Denoted(e.value) == v
    ensures |e.before| == 0 && |DocText(e.value)| == |ValueText(v, format, 0)|
    ensures Fits(e.value, 0) <==> Nesting(v) <= 1000
    ensures e.value.NumberDoc? ==> Nesting(v) == 0
  {
    hide DocText, Denoted, Good, Fits, ShortNumbers;
    var d := Laid(v, format, 0);
    LaidDenotes(v, format, 0);
    PrintedIsLaid(v, format, 0);
    FitsMeans(d, 0);
    e := Element([], d, []);
    assert [] + (DocText(d) + []) == DocText(d);
  }

  // The same when a NUL is demanded behind the value.
  lemma TerminatedTextParses(v: Json, format: bool)
    requires Printable(v)
    ensures var t := ValueText(v, format, 0);
            ParseText(t + [NUL], true) == if Nesting(v) <= 1000 then Done(v, |t|) else Fail
  {
    hide *;
    var t := ValueText(v, format, 0);
    PrintedTextParses(v, format, true);
    NulDemanded(t + [NUL]);
    var e := PrintedElement(v, format);
    TextTail(e, [], [NUL]);
    assert [] + (t + [NUL]) == t + [NUL];
  }

  // n arrays, one inside the other.
  function Deep(n: nat): Json { if n == 0 then JNull else JArray([Deep(n - 1)]) }

  lemma {:induction false} DeepNests(n: nat)
    ensures Printable(Deep(n)) && Nesting(Deep(n)) == n
  {
    if n > 0 {
      DeepNests(n - 1);
      var items := [Deep(n - 1)];
      assert items[0] == Deep(n - 1) && items[1..] == [];
    }
  }

  // A thousand levels are read back, one more is not.
  lemma DeepTextFails(format: bool)
    ensures ParseText(ValueText(Deep(1000), format, 0), false) ==
            Done(Deep(1000), |ValueText(Deep(1000), format, 0)|)
    ensures ParseText(ValueText(Deep(1001), format, 0), false) == Fail
  {
    hide *;
    DeepNests(1000);
    DeepNests(1001);
    PrintedTextParses(Deep(1000), format, false);
    PrintedTextParses(Deep(1001), format, false);
  }
}
