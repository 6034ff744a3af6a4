// The language cJSON_Parse takes: every text with any layout, the tree it denotes,
// and that nothing else is taken.
module JsonLanguage {
  import opened Bytes
  import opened JsonText
  import opened JsonGrammar
  import opened JsonLiterals
  import opened JsonNumbers

  // ----- values -----

  // A value with the layout inside it. `blank` stands behind an opening bracket.
  datatype Doc =
    | NullDoc
    | FalseDoc
    | TrueDoc
    | NumberDoc(number: Number)
    | StringDoc(literal: Literal)
    | ArrayDoc(blank: seq<byte>, elements: seq<Element>)
    | ObjectDoc(blank: seq<byte>, fields: seq<Field>)

  // A value between white space.
  datatype Element = Element(before: seq<byte>, value: Doc, after: seq<byte>)

  // A name between white space, a colon, and a value between white space.
  datatype Field = Field(before: seq<byte>, name: Literal, behind: seq<byte>, value: Element)

  // What is skipped between tokens: every byte up to the blank.
  predicate IsSpace(t: seq<byte>) { forall i :: 0 <= i < |t| ==> t[i] <= 0x20 }

  predicate Good(d: Doc)
    decreases d, 1
  {
    match d
    case NumberDoc(n) => GoodNumber(n)
    case StringDoc(l) => TakenLiteral(l)
    case ArrayDoc(blank, elements) => IsSpace(blank) && GoodElements(elements)
    case ObjectDoc(blank, fields) => IsSpace(blank) && GoodFields(fields)
    case _ => true
  }

  predicate GoodElement(e: Element)
    decreases e, 2
  {
    IsSpace(e.before) && Good(e.value) && IsSpace(e.after)
  }

  predicate GoodElements(es: seq<Element>)
    decreases es, 0
  {
    es == [] || (GoodElement(es[0]) && GoodElements(es[1..]))
  }

  predicate GoodField(f: Field)
    decreases f, 2
  {
    IsSpace(f.before) && TakenLiteral(f.name) && IsSpace(f.behind) && GoodElement(f.value)
  }

  predicate GoodFields(fs: seq<Field>)
    decreases fs, 0
  {
    fs == [] || (GoodField(fs[0]) && GoodFields(fs[1..]))
  }

  function DocText(d: Doc): seq<byte>
    requires Good(d)
    decreases d, 1
  {
    match d
    case NullDoc => [0x6E, 0x75, 0x6C, 0x6C]         // null
    case FalseDoc => [0x66, 0x61, 0x6C, 0x73, 0x65]  // false
    case TrueDoc => [0x74, 0x72, 0x75, 0x65]         // true
    case NumberDoc(n) => NumberText(n)
    case StringDoc(l) => LiteralText(l)
    case ArrayDoc(blank, elements) => [0x5B] + (blank + (ElementsText(elements) + [0x5D]))   // [ ]
    case ObjectDoc(blank, fields) => [0x7B] + (blank + (FieldsText(fields) + [0x7D]))        // { }
  }

  function ElementText(e: Element): seq<byte>
    requires GoodElement(e)
    decreases e, 2
  {
    e.before + (DocText(e.value) + e.after)
  }

  function Comma(more: bool): seq<byte> { if more then [0x2C] else [] }

  function ElementsText(es: seq<Element>): seq<byte>
    requires GoodElements(es)
    decreases es, 0
  {
    if es == [] then [] else ElementText(es[0]) + (Comma(|es| > 1) + ElementsText(es[1..]))
  }

  function NameText(f: Field): seq<byte>
    requires GoodField(f)
  {
    f.before + (LiteralText(f.name) + (f.behind + [0x3A]))
  }

  function FieldsText(fs: seq<Field>): seq<byte>
    requires GoodFields(fs)
    decreases fs, 0
  {
    if fs == [] then []
    else NameText(fs[0]) + (ElementText(fs[0].value) + (Comma(|fs| > 1) + FieldsText(fs[1..])))
  }

  // ----- what a text denotes -----

  function Denoted(d: Doc): Json
    requires Good(d)
    decreases d, 1
  {
    match d
    case NullDoc => JNull
    case FalseDoc => JFalse
    case TrueDoc => JTrue
    case NumberDoc(n) => JNumber(SaturatedInt(NumberValue(n)), NumberValue(n))
    case StringDoc(l) => JString(LiteralMeaning(l))
    case ArrayDoc(_, elements) => JArray(DenotedItems(elements))
    case ObjectDoc(_, fields) => JObject(DenotedMembers(fields))
  }

  function DenotedItems(es: seq<Element>): seq<Json>
    requires GoodElements(es)
    decreases es, 0
  {
    if es == [] then []
    else
      assert GoodElement(es[0]);
      [Denoted(es[0].value)] + DenotedItems(es[1..])
  }

  function DenotedMembers(fs: seq<Field>): seq<Member>
    requires GoodFields(fs)
    decreases fs, 0
  {
    if fs == [] then []
    else
      assert GoodField(fs[0]) && GoodElement(fs[0].value);
      [Member(LiteralMeaning(fs[0].name), Denoted(fs[0].value.value))] + DenotedMembers(fs[1..])
  }

  // What the parser has room for at a depth.
  predicate Fits(d: Doc, depth: nat)
    decreases d, 1
  {
    match d
    case NumberDoc(n) => |NumberText(n)| <= 63
    case ArrayDoc(_, elements) => depth < 1000 && FitElements(elements, depth + 1)
    case ObjectDoc(_, fields) => depth < 1000 && FitFields(fields, depth + 1)
    case _ => true
  }

  predicate FitElements(es: seq<Element>, depth: nat)
    decreases es, 0
  {
    es == [] || (Fits(es[0].value, depth) && FitElements(es[1..], depth))
  }

  predicate FitFields(fs: seq<Field>, depth: nat)
    decreases fs, 0
  {
    fs == [] || (Fits(fs[0].value.value, depth) && FitFields(fs[1..], depth))
  }

  // ----- reading -----

  lemma {:induction false} SkipsTo(s: seq<byte>, o: nat, k: nat)
    requires o <= k < |s| && s[k] > 32
    requires forall i :: o <= i < k ==> s[i] <= 32
    ensures SkipBlanks(s, o) == k
    decreases k - o
  {
    if o < k {
      SkipsTo(s, o + 1, k);
    }
  }

  predicate OpensValue(b: byte) { b > 32 && b != RBRACKET && b != RBRACE && b != COMMA }

  // The byte behind a value ends a number.
  predicate EndsValue(s: seq<byte>, e: nat) { e <= |s| && (e == |s| || !IsNumberByte(s[e])) }

  lemma KeywordStart(s: seq<byte>, o: nat, word: seq<byte>)
    requires word != []
    ensures At(s, o, word) ==> o < |s| && s[o] == word[0]
  {
    if At(s, o, word) {
      AtByte(s, o, word, 0);
    }
  }

  lemma NoKeywords(s: seq<byte>, o: nat)
    requires o < |s| && s[o] !in {NULL_TEXT[0], FALSE_TEXT[0], TRUE_TEXT[0]}
    ensures !At(s, o, NULL_TEXT) && !At(s, o, FALSE_TEXT) && !At(s, o, TRUE_TEXT)
  {
    KeywordStart(s, o, NULL_TEXT);
    KeywordStart(s, o, FALSE_TEXT);
    KeywordStart(s, o, TRUE_TEXT);
  }

  // A parse that fails, or stops at a byte of a number.
  predicate Stuck<T>(s: seq<byte>, r: Parsed<T>)
  {
    r.Done? ==> r.next < |s| && IsNumberByte(s[r.next])
  }

  // White space, up to a byte that is none.
  lemma SpaceSkipped(s: seq<byte>, o: nat, t: seq<byte>)
    requires At(s, o, t) && IsSpace(t) && o + |t| < |s| && s[o + |t|] > 32
    ensures SkipBlanks(s, o) == o + |t|
  {
    forall i | o <= i < o + |t| ensures s[i] <= 32 { AtByte(s, o, t, i - o); }
    SkipsTo(s, o, o + |t|);
  }

  lemma DocStart(d: Doc, s: seq<byte>, o: nat)
    requires Good(d) && At(s, o, DocText(d))
    ensures |DocText(d)| >= 1 && o < |s| && s[o] == DocText(d)[0] && OpensValue(s[o]) && s[o] < 0x80
    ensures d.NumberDoc? ==> StartsNumber(s[o])
  {
    hide At;
    if d.NumberDoc? { NumberStart(d.number); }
    AtByte(s, o, DocText(d), 0);
  }

  lemma NumberDocReads(n: Number, s: seq<byte>, o: nat)
    requires GoodNumber(n) && At(s, o, NumberText(n)) && EndsValue(s, o + |NumberText(n)|)
    ensures if |NumberText(n)| <= 63
            then ParseNumber(s, o) == Done(Denoted(NumberDoc(n)), o + |NumberText(n)|)
            else Stuck(s, ParseNumber(s, o))
  {
    hide NumberText, At, GoodNumber, NumberValue, ParseNumber;
    var t := NumberText(n);
    if |t| <= 63 {
      EndedIsLongest(n, s, o);
      LongestIsTaken(n, s, o);
    } else {
      var r := ParseNumber(s, o);
      if r.Done? {
        NumberEndsSoon(s, o);
        NumberBytes(n);
        AtByte(s, o, t, r.next - o);
      }
    }
  }

  lemma NumberEndsSoon(s: seq<byte>, o: nat)
    requires o <= |s|
    ensures ParseNumber(s, o).Done? ==> o < ParseNumber(s, o).next <= o + 63
  {
  }

  // Where the parts of the text of a list of elements stand.
  lemma ElementsShape(es: seq<Element>, s: seq<byte>, b: nat)
    requires es != [] && GoodElements(es) && At(s, b, ElementsText(es))
    ensures GoodElement(es[0]) && GoodElements(es[1..]) && At(s, b, ElementText(es[0]))
    ensures var sep := b + |ElementText(es[0])|;
            if |es| > 1
            then sep < |s| && s[sep] == 0x2C && At(s, sep + 1, ElementsText(es[1..]))
                 && b + |ElementsText(es)| == sep + 1 + |ElementsText(es[1..])|
            else b + |ElementsText(es)| == sep
  {
    hide *;
    ElementsTextIs(es);
    CommaParts(s, b, ElementText(es[0]), |es| > 1, ElementsText(es[1..]));
  }

  // A text, and behind it a comma and the rest of a list, or nothing.
  lemma CommaParts(s: seq<byte>, b: nat, t: seq<byte>, more: bool, rest: seq<byte>)
    requires At(s, b, t + (Comma(more) + rest)) && (!more ==> rest == [])
    ensures At(s, b, t) && b + |t + (Comma(more) + rest)| == b + |t| + (if more then 1 + |rest| else 0)
    ensures more ==> b + |t| < |s| && s[b + |t|] == 0x2C && At(s, b + |t| + 1, rest)
  {
    AtConcat(s, b, t, Comma(more) + rest);
    AtConcat(s, b + |t|, Comma(more), rest);
    if more { AtByte(s, b + |t|, Comma(true), 0); }
  }

  lemma ElementsTextIs(es: seq<Element>)
    requires es != [] && GoodElements(es)
    ensures GoodElement(es[0]) && GoodElements(es[1..])
    ensures ElementsText(es) == ElementText(es[0]) + (Comma(|es| > 1) + ElementsText(es[1..]))
    ensures |es| == 1 ==> ElementsText(es[1..]) == []
  {
    hide ElementText;
  }

  lemma ElementShape(e: Element, s: seq<byte>, b: nat)
    requires GoodElement(e) && At(s, b, ElementText(e))
    ensures At(s, b, e.before) && At(s, b + |e.before|, DocText(e.value))
    ensures At(s, b + |e.before| + |DocText(e.value)|, e.after)
    ensures |ElementText(e)| == |e.before| + |DocText(e.value)| + |e.after|
  {
    hide At, DocText;
    AtConcat(s, b, e.before, DocText(e.value) + e.after);
    AtConcat(s, b + |e.before|, DocText(e.value), e.after);
  }

  // Behind a value: white space, then a byte that is neither blank nor part of
  // a number.
  lemma AfterValue(s: seq<byte>, behind: nat, after: seq<byte>)
    requires At(s, behind, after) && IsSpace(after)
    requires behind + |after| < |s| && s[behind + |after|] in {COMMA, RBRACKET, RBRACE}
    ensures SkipBlanks(s, behind) == behind + |after| && EndsValue(s, behind)
  {
    SpaceSkipped(s, behind, after);
    if after != [] { AtByte(s, behind, after, 0); }
  }

  // A stuck cursor does not move over blanks.
  lemma StaysStuck(s: seq<byte>, o: nat)
    requires o < |s| && IsNumberByte(s[o])
    ensures SkipBlanks(s, o) == o
  {
    SkipsTo(s, o, o);
  }

  lemma {:induction false} DocReads(d: Doc, s: seq<byte>, o: nat, depth: nat)
    requires Good(d) && At(s, o, DocText(d)) && (d.NumberDoc? ==> EndsValue(s, o + |DocText(d)|))
    ensures if Fits(d, depth) then ParseValue(s, o, depth) == Done(Denoted(d), o + |DocText(d)|)
            else Stuck(s, ParseValue(s, o, depth)) && (!d.NumberDoc? ==> ParseValue(s, o, depth) == Fail)
    decreases d, 2
  {
    hide NumberText, Inner, LiteralMeaning, NumberValue, ElementsText, FieldsText, DenotedItems, DenotedMembers,
      FitElements, FitFields, ParseString, ParseNumber, ParseArray, ParseObject, GoodElements, GoodFields,
      TakenLiteral, GoodNumber;
    DocStart(d, s, o);
    match d
    case NullDoc =>
    case FalseDoc => KeywordStart(s, o, NULL_TEXT);
    case TrueDoc =>
      KeywordStart(s, o, NULL_TEXT);
      KeywordStart(s, o, FALSE_TEXT);
    case NumberDoc(n) =>
      NoKeywords(s, o);
      NumberDocReads(n, s, o);
    case StringDoc(l) =>
      NoKeywords(s, o);
      LiteralReads(l, s, o);
    case ArrayDoc(blank, elements) =>
      NoKeywords(s, o);
      ArrayDocReads(blank, elements, s, o, depth);
    case ObjectDoc(blank, fields) =>
      NoKeywords(s, o);
      ObjectDocReads(blank, fields, s, o, depth);
  }

  // Where the parts of an array or an object stand.
  lemma BracketShape(open: byte, blank: seq<byte>, body: seq<byte>, close: byte, s: seq<byte>, o: nat)
    requires At(s, o, [open] + (blank + (body + [close])))
    ensures At(s, o + 1, blank) && At(s, o + 1 + |blank|, body)
    ensures var e := o + 1 + |blank| + |body|; e < |s| && s[e] == close && s[o] == open
  {
    hide At;
    AtConcat(s, o, [open], blank + (body + [close]));
    AtConcat(s, o + 1, blank, body + [close]);
    AtConcat(s, o + 1 + |blank|, body, [close]);
    AtByte(s, o, [open], 0);
    AtByte(s, o + 1 + |blank| + |body|, [close], 0);
  }

  // The first value, behind two stretches of white space.
  lemma FirstSkipped(s: seq<byte>, o: nat, blank: seq<byte>, before: seq<byte>)
    requires At(s, o, blank) && IsSpace(blank) && At(s, o + |blank|, before) && IsSpace(before)
    requires o + |blank| + |before| < |s| && s[o + |blank| + |before|] > 32
    ensures SkipBlanks(s, o) == o + |blank| + |before|
    ensures SkipBlanks(s, SkipBlanks(s, o)) == SkipBlanks(s, o)
  {
    var k := o + |blank| + |before|;
    forall i | o <= i < k ensures s[i] <= 32 {
      if i < o + |blank| { AtByte(s, o, blank, i - o); } else { AtByte(s, o + |blank|, before, i - o - |blank|); }
    }
    SkipsTo(s, o, k);
    SkipsTo(s, k, k);
  }

  lemma {:induction false} ArrayDocReads(blank: seq<byte>, es: seq<Element>, s: seq<byte>, o: nat, depth: nat)
    requires Good(ArrayDoc(blank, es)) && At(s, o, DocText(ArrayDoc(blank, es))) && s[o] == LBRACKET
    ensures var d := ArrayDoc(blank, es);
            ParseArray(s, o, depth) == if Fits(d, depth) then Done(Denoted(d), o + |DocText(d)|) else Fail
    decreases es, 1
  {
    hide At, ElementsText, SkipBlanks, ParseItems, ParseArray, GoodElements, IsSpace;
    var b := o + 1 + |blank|;
    BracketShape(LBRACKET, blank, ElementsText(es), RBRACKET, s, o);
    ArrayStep(s, o, depth);
    if depth >= NESTING_LIMIT { return; }
    if es == [] {
      NoElements(es);
      SpaceSkipped(s, o + 1, blank);
    } else {
      ElementsShape(es, s, b);
      ElementShape(es[0], s, b);
      DocStart(es[0].value, s, b + |es[0].before|);
      FirstSkipped(s, o + 1, blank, es[0].before);
      ElementsRead(es, s, SkipBlanks(s, o + 1) - 1, b, depth + 1);
    }
  }

  // parse_array in front of, and behind, its loop.
  lemma ArrayStep(s: seq<byte>, o: nat, depth: nat)
    requires o < |s| && s[o] == LBRACKET
    ensures depth >= NESTING_LIMIT ==> ParseArray(s, o, depth) == Fail
    ensures var first := SkipBlanks(s, o + 1);
            depth < NESTING_LIMIT && first < |s| ==>
              if s[first] == RBRACKET then ParseArray(s, o, depth) == Done(JArray([]), first + 1)
              else
                match ParseItems(s, first - 1, depth + 1)
                case Fail => ParseArray(s, o, depth) == Fail
                case Done(items, next) =>
                  ParseArray(s, o, depth) ==
                    if next < |s| && s[next] == RBRACKET then Done(JArray(items), next + 1) else Fail
  {
    hide SkipBlanks, ParseItems;
  }

  lemma NoElements(es: seq<Element>)
    requires es == []
    ensures GoodElements(es) && ElementsText(es) == [] && DenotedItems(es) == []
  {
  }

  lemma {:induction false} ElementsRead(es: seq<Element>, s: seq<byte>, o: nat, b: nat, depth: nat)
    requires es != [] && GoodElements(es) && At(s, b, ElementsText(es))
    requires o < |s| && SkipBlanks(s, o + 1) == b + |es[0].before|
    requires var e := b + |ElementsText(es)|; e < |s| && s[e] == RBRACKET
    ensures if FitElements(es, depth)
            then ParseItems(s, o, depth) == Done(DenotedItems(es), b + |ElementsText(es)|)
            else Stuck(s, ParseItems(s, o, depth))
    decreases es, 0
  {
    hide At, DocText, ElementsText, ParseValue, ParseItems, SkipBlanks, IsSpace, EndsValue, Fits, Denoted,
      FitElements, DenotedItems;
    ElementsShape(es, s, b);
    ElementShape(es[0], s, b);
    ElementsSplit(es, depth);
    var v := b + |es[0].before|;
    var behind := v + |DocText(es[0].value)|;
    var sep := behind + |es[0].after|;
    AfterValue(s, behind, es[0].after);
    DocReads(es[0].value, s, v, depth);
    if Fits(es[0].value, depth) {
      ItemsStep(s, o, depth, sep);
      if |es| > 1 {
        NextElement(es[1..], s, sep + 1);
        ElementsRead(es[1..], s, sep, sep + 1, depth);
      }
    } else {
      ItemsStuck(s, o, depth);
    }
  }

  lemma ElementsSplit(es: seq<Element>, depth: nat)
    requires es != [] && GoodElements(es) && GoodElement(es[0]) && GoodElements(es[1..])
    ensures FitElements(es, depth) <==> Fits(es[0].value, depth) && FitElements(es[1..], depth)
    ensures DenotedItems(es) == [Denoted(es[0].value)] + DenotedItems(es[1..])
    ensures |es| == 1 ==> DenotedItems(es) == [Denoted(es[0].value)] && FitElements(es[1..], depth)
  {
  }

  lemma NextElement(es: seq<Element>, s: seq<byte>, b: nat)
    requires es != [] && GoodElements(es) && At(s, b, ElementsText(es))
    ensures SkipBlanks(s, b) == b + |es[0].before|
  {
    hide At, ElementsText, SkipBlanks;
    ElementsShape(es, s, b);
    ElementShape(es[0], s, b);
    DocStart(es[0].value, s, b + |es[0].before|);
    SpaceSkipped(s, b, es[0].before);
  }

  // One round of the loop of parse_array.
  lemma ItemsStep(s: seq<byte>, o: nat, depth: nat, sep: nat)
    requires o < |s| && ParseValue(s, SkipBlanks(s, o + 1), depth).Done? && sep < |s|
    requires SkipBlanks(s, ParseValue(s, SkipBlanks(s, o + 1), depth).next) == sep
    ensures var v := ParseValue(s, SkipBlanks(s, o + 1), depth).value;
            s[sep] == COMMA ==>
              match ParseItems(s, sep, depth)
              case Fail => ParseItems(s, o, depth) == Fail
              case Done(rest, end) => ParseItems(s, o, depth) == Done([v] + rest, end)
    ensures s[sep] != COMMA ==>
              ParseItems(s, o, depth) == Done([ParseValue(s, SkipBlanks(s, o + 1), depth).value], sep)
  {
  }

  lemma ItemsStuck(s: seq<byte>, o: nat, depth: nat)
    requires o < |s| && Stuck(s, ParseValue(s, SkipBlanks(s, o + 1), depth))
    ensures Stuck(s, ParseItems(s, o, depth))
  {
    hide SkipBlanks;
    var r := ParseValue(s, SkipBlanks(s, o + 1), depth);
    if r.Done? { StaysStuck(s, r.next); }
  }

  // Where the parts of a name stand.
  lemma NameShape(f: Field, s: seq<byte>, b: nat)
    requires GoodField(f) && At(s, b, NameText(f))
    ensures var q := b + |f.before|;
            var behind := q + |LiteralText(f.name)|;
            var colon := behind + |f.behind|;
            && At(s, b, f.before) && At(s, q, LiteralText(f.name)) && At(s, behind, f.behind)
            && s[q] == QUOTE && colon < |s| && s[colon] == COLON && b + |NameText(f)| == colon + 1
  {
    hide At, PartsText;
    var literal := LiteralText(f.name);
    AtConcat(s, b, f.before, literal + (f.behind + [COLON]));
    AtConcat(s, b + |f.before|, literal, f.behind + [COLON]);
    AtConcat(s, b + |f.before| + |literal|, f.behind, [COLON]);
    AtByte(s, b + |f.before|, literal, 0);
    AtByte(s, b + |f.before| + |literal| + |f.behind|, [COLON], 0);
  }

  // Where the parts of the text of a list of fields stand.
  lemma FieldsShape(fs: seq<Field>, s: seq<byte>, b: nat)
    requires fs != [] && GoodFields(fs) && At(s, b, FieldsText(fs))
    ensures GoodField(fs[0]) && GoodElement(fs[0].value) && GoodFields(fs[1..]) && At(s, b, NameText(fs[0]))
    ensures At(s, b + |NameText(fs[0])|, ElementText(fs[0].value))
    ensures var sep := b + |NameText(fs[0])| + |ElementText(fs[0].value)|;
            if |fs| > 1
            then sep < |s| && s[sep] == 0x2C && At(s, sep + 1, FieldsText(fs[1..]))
                 && b + |FieldsText(fs)| == sep + 1 + |FieldsText(fs[1..])|
            else b + |FieldsText(fs)| == sep
  {
    hide *;
    FieldsTextIs(fs);
    FieldParts(s, b, NameText(fs[0]), ElementText(fs[0].value), |fs| > 1, FieldsText(fs[1..]));
  }

  lemma FieldParts(s: seq<byte>, b: nat, name: seq<byte>, t: seq<byte>, more: bool, rest: seq<byte>)
    requires At(s, b, name + (t + (Comma(more) + rest))) && (!more ==> rest == [])
    ensures At(s, b, name) && At(s, b + |name|, t)
    ensures var sep := b + |name| + |t|;
            && b + |name + (t + (Comma(more) + rest))| == sep + (if more then 1 + |rest| else 0)
            && (more ==> sep < |s| && s[sep] == 0x2C && At(s, sep + 1, rest))
  {
    AtConcat(s, b, name, t + (Comma(more) + rest));
    CommaParts(s, b + |name|, t, more, rest);
  }

  lemma FieldsTextIs(fs: seq<Field>)
    requires fs != [] && GoodFields(fs)
    ensures GoodField(fs[0]) && GoodElement(fs[0].value) && GoodFields(fs[1..])
    ensures FieldsText(fs) ==
            NameText(fs[0]) + (ElementText(fs[0].value) + (Comma(|fs| > 1) + FieldsText(fs[1..])))
    ensures |fs| == 1 ==> FieldsText(fs[1..]) == []
  {
    hide NameText, ElementText;
  }

  // Name and colon of a field.
  lemma NameReads(f: Field, s: seq<byte>, o: nat, b: nat)
    requires GoodField(f) && At(s, b, NameText(f)) && o < |s| && SkipBlanks(s, o + 1) == b + |f.before|
    requires var v := b + |NameText(f)| + |f.value.before|;
             At(s, b + |NameText(f)|, f.value.before) && v < |s| && s[v] > 32
    ensures ParseKey(s, o) == Done(LiteralMeaning(f.name), b + |NameText(f)| + |f.value.before|)
  {
    hide At, NameText, LiteralText, LiteralMeaning, SkipBlanks, ParseString, IsSpace;
    NameShape(f, s, b);
    var q := b + |f.before|;
    var behind := q + |LiteralText(f.name)|;
    NameDenotes(f.name, s, q);
    SpaceSkipped(s, behind, f.behind);
    SpaceSkipped(s, behind + |f.behind| + 1, f.value.before);
  }

  lemma NameDenotes(name: Literal, s: seq<byte>, o: nat)
    requires TakenLiteral(name) && At(s, o, LiteralText(name))
    ensures ParseString(s, o) == Done(LiteralMeaning(name), o + |LiteralText(name)|)
  {
    LiteralReads(name, s, o);
  }

  lemma {:induction false} ObjectDocReads(blank: seq<byte>, fs: seq<Field>, s: seq<byte>, o: nat, depth: nat)
    requires Good(ObjectDoc(blank, fs)) && At(s, o, DocText(ObjectDoc(blank, fs))) && s[o] == LBRACE
    ensures var d := ObjectDoc(blank, fs);
            ParseObject(s, o, depth) == if Fits(d, depth) then Done(Denoted(d), o + |DocText(d)|) else Fail
    decreases fs, 1
  {
    hide At, FieldsText, SkipBlanks, ParseMembers, ParseObject, GoodFields, IsSpace, NameText, LiteralText;
    var b := o + 1 + |blank|;
    BracketShape(LBRACE, blank, FieldsText(fs), RBRACE, s, o);
    ObjectStep(s, o, depth);
    if depth >= NESTING_LIMIT { return; }
    if fs == [] {
      NoFields(fs);
      SpaceSkipped(s, o + 1, blank);
    } else {
      FirstName(fs, s, b);
      FirstSkipped(s, o + 1, blank, fs[0].before);
      FieldsRead(fs, s, SkipBlanks(s, o + 1) - 1, b, depth + 1);
    }
  }

  // parse_object in front of, and behind, its loop.
  lemma ObjectStep(s: seq<byte>, o: nat, depth: nat)
    requires o < |s| && s[o] == LBRACE
    ensures depth >= NESTING_LIMIT ==> ParseObject(s, o, depth) == Fail
    ensures var first := SkipBlanks(s, o + 1);
            depth < NESTING_LIMIT && first < |s| ==>
              if s[first] == RBRACE then ParseObject(s, o, depth) == Done(JObject([]), first + 1)
              else
                match ParseMembers(s, first - 1, depth + 1)
                case Fail => ParseObject(s, o, depth) == Fail
                case Done(members, next) =>
                  ParseObject(s, o, depth) ==
                    if next < |s| && s[next] == RBRACE then Done(JObject(members), next + 1) else Fail
  {
    hide SkipBlanks, ParseMembers;
  }

  lemma NoFields(fs: seq<Field>)
    requires fs == []
    ensures GoodFields(fs) && FieldsText(fs) == [] && DenotedMembers(fs) == []
  {
  }

  lemma {:induction false} FieldsRead(fs: seq<Field>, s: seq<byte>, o: nat, b: nat, depth: nat)
    requires fs != [] && GoodFields(fs) && At(s, b, FieldsText(fs))
    requires o < |s| && SkipBlanks(s, o + 1) == b + |fs[0].before|
    requires var e := b + |FieldsText(fs)|; e < |s| && s[e] == RBRACE
    ensures if FitFields(fs, depth)
            then ParseMembers(s, o, depth) == Done(DenotedMembers(fs), b + |FieldsText(fs)|)
            else Stuck(s, ParseMembers(s, o, depth))
    decreases fs, 0
  {
    hide At, DocText, ElementText, FieldsText, ParseMember, ParseMembers, SkipBlanks, IsSpace, EndsValue, NameText,
      LiteralMeaning, TakenLiteral, Fits, Denoted, FitFields, DenotedMembers, GoodFields, Good, IsNumberByte;
    FieldsShape(fs, s, b);
    ElementShape(fs[0].value, s, b + |NameText(fs[0])|);
    FieldsSplit(fs, depth);
    var e := fs[0].value;
    var v := b + |NameText(fs[0])| + |e.before|;
    var behind := v + |DocText(e.value)|;
    var sep := behind + |e.after|;
    FieldReads(fs[0], s, o, b, depth);
    AfterValue(s, behind, e.after);
    if Fits(e.value, depth) {
      MembersStep(s, o, depth, sep);
      if |fs| > 1 {
        NextField(fs[1..], s, sep + 1);
        FieldsRead(fs[1..], s, sep, sep + 1, depth);
      }
    } else {
      MembersStuck(s, o, depth);
    }
  }

  lemma FieldsSplit(fs: seq<Field>, depth: nat)
    requires fs != [] && GoodFields(fs) && GoodField(fs[0]) && GoodElement(fs[0].value) && GoodFields(fs[1..])
    ensures FitFields(fs, depth) <==> Fits(fs[0].value.value, depth) && FitFields(fs[1..], depth)
    ensures var m := Member(LiteralMeaning(fs[0].name), Denoted(fs[0].value.value));
            && DenotedMembers(fs) == [m] + DenotedMembers(fs[1..])
            && (|fs| == 1 ==> DenotedMembers(fs) == [m] && FitFields(fs[1..], depth))
  {
  }

  lemma FirstName(fs: seq<Field>, s: seq<byte>, b: nat)
    requires fs != [] && GoodFields(fs) && At(s, b, FieldsText(fs))
    ensures At(s, b, fs[0].before) && IsSpace(fs[0].before)
    ensures b + |fs[0].before| < |s| && s[b + |fs[0].before|] == QUOTE
  {
    hide At, FieldsText, NameText;
    FieldsShape(fs, s, b);
    NameShape(fs[0], s, b);
  }

  lemma NextField(fs: seq<Field>, s: seq<byte>, b: nat)
    requires fs != [] && GoodFields(fs) && At(s, b, FieldsText(fs))
    ensures SkipBlanks(s, b) == b + |fs[0].before|
  {
    hide At, FieldsText, SkipBlanks;
    FirstName(fs, s, b);
    SpaceSkipped(s, b, fs[0].before);
  }

  lemma {:induction false} FieldReads(f: Field, s: seq<byte>, o: nat, b: nat, depth: nat)
    requires GoodField(f) && GoodElement(f.value) && At(s, b, NameText(f)) && o < |s|
    requires SkipBlanks(s, o + 1) == b + |f.before|
    requires At(s, b + |NameText(f)|, f.value.before)
    requires var v := b + |NameText(f)| + |f.value.before|;
             var behind := v + |DocText(f.value.value)|;
             && At(s, v, DocText(f.value.value)) && At(s, behind, f.value.after) && behind + |f.value.after| < |s|
             && s[behind + |f.value.after|] in {COMMA, RBRACKET, RBRACE}
    ensures if Fits(f.value.value, depth)
            then ParseMember(s, o, depth) ==
                 Done(Member(LiteralMeaning(f.name), Denoted(f.value.value)),
                      b + |NameText(f)| + |f.value.before| + |DocText(f.value.value)|)
            else Stuck(s, ParseMember(s, o, depth))
    decreases f, 3
  {
    hide At, DocText, ParseValue, ParseKey, SkipBlanks, IsSpace, EndsValue, NameText, LiteralMeaning, Fits,
      Denoted;
    var v := b + |NameText(f)| + |f.value.before|;
    DocStart(f.value.value, s, v);
    NameReads(f, s, o, b);
    AfterValue(s, v + |DocText(f.value.value)|, f.value.after);
    DocReads(f.value.value, s, v, depth);
  }

  // One round of the loop of parse_object.
  lemma MembersStep(s: seq<byte>, o: nat, depth: nat, sep: nat)
    requires o < |s| && ParseMember(s, o, depth).Done? && sep < |s|
    requires SkipBlanks(s, ParseMember(s, o, depth).next) == sep
    ensures var m := ParseMember(s, o, depth).value;
            s[sep] == COMMA ==>
              match ParseMembers(s, sep, depth)
              case Fail => ParseMembers(s, o, depth) == Fail
              case Done(rest, end) => ParseMembers(s, o, depth) == Done([m] + rest, end)
    ensures s[sep] != COMMA ==> ParseMembers(s, o, depth) == Done([ParseMember(s, o, depth).value], sep)
  {
  }

  lemma MembersStuck(s: seq<byte>, o: nat, depth: nat)
    requires o < |s| && Stuck(s, ParseMember(s, o, depth))
    ensures Stuck(s, ParseMembers(s, o, depth))
  {
    hide SkipBlanks;
    var r := ParseMember(s, o, depth);
    if r.Done? { StaysStuck(s, r.next); }
  }

  // ----- nothing else is taken -----

  lemma SkippedSpace(s: seq<byte>, o: nat)
    requires o <= |s|
    ensures var e := SkipBlanks(s, o); IsSpace(s[o..e]) && At(s, o, s[o..e]) && At(s, e, [])
  {
  }

  lemma Single(s: seq<byte>, o: nat)
    requires o < |s|
    ensures At(s, o, [s[o]])
  {
  }

  // What parse_value has read.
  lemma {:induction false} DocAt(s: seq<byte>, o: nat, depth: nat) returns (d: Doc)
    requires o <= |s| && ParseValue(s, o, depth).Done?
    ensures Good(d) && At(s, o, DocText(d)) && Fits(d, depth)
    ensures ParseValue(s, o, depth) == Done(Denoted(d), o + |DocText(d)|)
    ensures d.NumberDoc? ==> Longest(s, o, |NumberText(d.number)|)
    decreases |s| - o, 2
  {
    hide At, ParseString, ParseNumber, ParseArray, ParseObject, Longest;
    if At(s, o, NULL_TEXT) {
      d := NullDoc;
    } else if At(s, o, FALSE_TEXT) {
      d := FalseDoc;
    } else if At(s, o, TRUE_TEXT) {
      d := TrueDoc;
    } else if s[o] == 0x22 {
      var l := LiteralAt(s, o);
      d := StringDoc(l);
    } else if s[o] == 0x5B {
      d := ArrayAt(s, o, depth);
    } else if s[o] == 0x7B {
      d := ObjectAt(s, o, depth);
    } else {
      var n := NumberAt(s, o);
      d := NumberDoc(n);
    }
  }

  lemma {:induction false} ArrayAt(s: seq<byte>, o: nat, depth: nat) returns (d: Doc)
    requires o < |s| && s[o] == 0x5B && ParseArray(s, o, depth).Done?
    ensures d.ArrayDoc? && Good(d) && At(s, o, DocText(d)) && Fits(d, depth)
    ensures ParseArray(s, o, depth) == Done(Denoted(d), o + |DocText(d)|)
    decreases |s| - o, 1
  {
    hide At, ParseItems, SkipBlanks, IsSpace, ElementsText, DenotedItems, GoodElements, FitElements;
    var first := SkipBlanks(s, o + 1);
    var blank := s[o + 1..first];
    SkippedSpace(s, o + 1);
    Single(s, o);
    if s[first] == 0x5D {
      d := ArrayDoc(blank, []);
      NoElements([]);
      FitNothing();
      Single(s, first);
      Bracketed(s, o, 0x5B, blank, [], 0x5D);
    } else {
      var es := ElementsAt(s, first - 1, depth + 1);
      var end := first + |ElementsText(es)|;
      d := ArrayDoc(blank, es);
      Single(s, end);
      Bracketed(s, o, 0x5B, blank, ElementsText(es), 0x5D);
    }
  }

  lemma FitNothing()
    ensures forall depth: nat :: FitElements([], depth) && FitFields([], depth)
  {
  }

  lemma Bracketed(s: seq<byte>, o: nat, open: byte, blank: seq<byte>, body: seq<byte>, close: byte)
    requires At(s, o, [open]) && At(s, o + 1, blank) && At(s, o + 1 + |blank|, body)
    requires At(s, o + 1 + |blank| + |body|, [close])
    ensures At(s, o, [open] + (blank + (body + [close])))
    ensures |[open] + (blank + (body + [close]))| == |blank| + |body| + 2
  {
    hide At;
    AtJoin(s, o + 1 + |blank|, body, [close]);
    AtJoin(s, o + 1, blank, body + [close]);
    AtJoin(s, o, [open], blank + (body + [close]));
  }

  // The elements the loop of parse_array has read.
  lemma {:induction false} ElementsAt(s: seq<byte>, o: nat, depth: nat) returns (es: seq<Element>)
    requires o < |s| && ParseItems(s, o, depth).Done?
    ensures es != [] && GoodElements(es) && At(s, o + 1, ElementsText(es)) && FitElements(es, depth)
    ensures ParseItems(s, o, depth) == Done(DenotedItems(es), o + 1 + |ElementsText(es)|)
    decreases |s| - o, 0
  {
    hide At, SkipBlanks, IsSpace, ParseValue, ElementText, ElementsText, DenotedItems, GoodElements, FitElements,
      Denoted, Fits;
    var e := ElementAt(s, o, depth);
    var sep := o + 1 + |ElementText(e)|;
    if sep < |s| && s[sep] == COMMA {
      var rest := ElementsAt(s, sep, depth);
      es := [e] + rest;
      Single(s, sep);
      OneMoreElement(e, rest, depth);
      ListStands(s, o + 1, ElementText(e), [0x2C], ElementsText(rest));
    } else {
      es := [e];
      OneElement(e, depth);
    }
  }

  // A value with the white space around it.
  lemma {:induction false} ElementAt(s: seq<byte>, o: nat, depth: nat) returns (e: Element)
    requires o < |s| && ParseValue(s, SkipBlanks(s, o + 1), depth).Done?
    ensures GoodElement(e) && Fits(e.value, depth) && At(s, o + 1, ElementText(e))
    ensures var r := ParseValue(s, SkipBlanks(s, o + 1), depth);
            r.value == Denoted(e.value) && SkipBlanks(s, r.next) == o + 1 + |ElementText(e)|
    decreases |s| - o, 0, 0
  {
    hide At, SkipBlanks, IsSpace, ParseValue, DocText, Denoted, Fits, ElementText;
    var v := SkipBlanks(s, o + 1);
    var d := DocAt(s, v, depth);
    var behind := v + |DocText(d)|;
    e := Element(s[o + 1..v], d, s[behind..SkipBlanks(s, behind)]);
    SkippedSpace(s, o + 1);
    SkippedSpace(s, behind);
    ElementStands(e, s, o + 1);
  }

  lemma ElementStands(e: Element, s: seq<byte>, o: nat)
    requires GoodElement(e) && At(s, o, e.before) && At(s, o + |e.before|, DocText(e.value))
    requires At(s, o + |e.before| + |DocText(e.value)|, e.after)
    ensures At(s, o, ElementText(e)) && |ElementText(e)| == |e.before| + |DocText(e.value)| + |e.after|
  {
    hide At, DocText;
    AtJoin(s, o + |e.before|, DocText(e.value), e.after);
    AtJoin(s, o, e.before, DocText(e.value) + e.after);
  }

  lemma ListStands(s: seq<byte>, o: nat, t: seq<byte>, comma: seq<byte>, rest: seq<byte>)
    requires At(s, o, t) && At(s, o + |t|, comma) && At(s, o + |t| + |comma|, rest)
    ensures At(s, o, t + (comma + rest)) && |t + (comma + rest)| == |t| + |comma| + |rest|
  {
    hide At;
    AtJoin(s, o + |t|, comma, rest);
    AtJoin(s, o, t, comma + rest);
  }

  lemma OneMoreElement(e: Element, rest: seq<Element>, depth: nat)
    requires rest != [] && GoodElement(e) && GoodElements(rest)
    ensures var es := [e] + rest;
            && GoodElements(es) && ElementsText(es) == ElementText(e) + ([0x2C] + ElementsText(rest))
            && DenotedItems(es) == [Denoted(e.value)] + DenotedItems(rest)
            && (FitElements(es, depth) <==> Fits(e.value, depth) && FitElements(rest, depth))
  {
    var es := [e] + rest;
    assert es[0] == e && es[1..] == rest;
  }

  lemma OneElement(e: Element, depth: nat)
    requires GoodElement(e)
    ensures var es := [e];
            && GoodElements(es) && ElementsText(es) == ElementText(e)
            && DenotedItems(es) == [Denoted(e.value)] && (FitElements(es, depth) <==> Fits(e.value, depth))
  {
    var es := [e];
    assert es[0] == e && es[1..] == [];
  }

  lemma {:induction false} ObjectAt(s: seq<byte>, o: nat, depth: nat) returns (d: Doc)
    requires o < |s| && s[o] == 0x7B && ParseObject(s, o, depth).Done?
    ensures d.ObjectDoc? && Good(d) && At(s, o, DocText(d)) && Fits(d, depth)
    ensures ParseObject(s, o, depth) == Done(Denoted(d), o + |DocText(d)|)
    decreases |s| - o, 1
  {
    hide At, ParseMembers, SkipBlanks, IsSpace, FieldsText, DenotedMembers, GoodFields, FitFields;
    var first := SkipBlanks(s, o + 1);
    var blank := s[o + 1..first];
    SkippedSpace(s, o + 1);
    Single(s, o);
    if s[first] == 0x7D {
      d := ObjectDoc(blank, []);
      NoFields([]);
      FitNothing();
      Single(s, first);
      Bracketed(s, o, 0x7B, blank, [], 0x7D);
    } else {
      var fs := FieldsAt(s, first - 1, depth + 1);
      var end := first + |FieldsText(fs)|;
      d := ObjectDoc(blank, fs);
      Single(s, end);
      Bracketed(s, o, 0x7B, blank, FieldsText(fs), 0x7D);
    }
  }

  // The fields the loop of parse_object has read.
  lemma {:induction false} FieldsAt(s: seq<byte>, o: nat, depth: nat) returns (fs: seq<Field>)
    requires o < |s| && ParseMembers(s, o, depth).Done?
    ensures fs != [] && GoodFields(fs) && At(s, o + 1, FieldsText(fs)) && FitFields(fs, depth)
    ensures ParseMembers(s, o, depth) == Done(DenotedMembers(fs), o + 1 + |FieldsText(fs)|)
    decreases |s| - o, 0
  {
    hide At, SkipBlanks, IsSpace, ParseMember, FieldsText, DenotedMembers, GoodFields, FitFields, Denoted, Fits,
      LiteralMeaning, NameText, ElementText;
    var f := FieldAt(s, o, depth);
    var sep := o + 1 + |NameText(f)| + |ElementText(f.value)|;
    if sep < |s| && s[sep] == COMMA {
      var rest := FieldsAt(s, sep, depth);
      fs := [f] + rest;
      Single(s, sep);
      OneMoreField(f, rest, depth);
      AtJoin(s, sep, [0x2C], FieldsText(rest));
      ListStands(s, o + 1, NameText(f), ElementText(f.value), [0x2C] + FieldsText(rest));
    } else {
      fs := [f];
      OneField(f, depth);
      AtJoin(s, o + 1, NameText(f), ElementText(f.value));
    }
  }

  lemma OneMoreField(f: Field, rest: seq<Field>, depth: nat)
    requires rest != [] && GoodField(f) && GoodElement(f.value) && GoodFields(rest)
    ensures var fs := [f] + rest;
            && GoodFields(fs)
            && FieldsText(fs) == NameText(f) + (ElementText(f.value) + ([0x2C] + FieldsText(rest)))
            && DenotedMembers(fs) ==
                 [Member(LiteralMeaning(f.name), Denoted(f.value.value))] + DenotedMembers(rest)
            && (FitFields(fs, depth) <==> Fits(f.value.value, depth) && FitFields(rest, depth))
  {
    var fs := [f] + rest;
    assert fs[0] == f && fs[1..] == rest;
  }

  lemma OneField(f: Field, depth: nat)
    requires GoodField(f) && GoodElement(f.value)
    ensures var fs := [f];
            && GoodFields(fs) && FieldsText(fs) == NameText(f) + ElementText(f.value)
            && DenotedMembers(fs) == [Member(LiteralMeaning(f.name), Denoted(f.value.value))]
            && (FitFields(fs, depth) <==> Fits(f.value.value, depth))
  {
    var fs := [f];
    assert fs[0] == f && fs[1..] == [];
  }

  // A member, and the white space behind it.
  lemma {:induction false} FieldAt(s: seq<byte>, o: nat, depth: nat) returns (f: Field)
    requires o < |s| && ParseMember(s, o, depth).Done?
    ensures GoodField(f) && GoodElement(f.value) && Fits(f.value.value, depth)
    ensures At(s, o + 1, NameText(f)) && At(s, o + 1 + |NameText(f)|, ElementText(f.value))
    ensures var r := ParseMember(s, o, depth);
            && r.value == Member(LiteralMeaning(f.name), Denoted(f.value.value))
            && SkipBlanks(s, r.next) == o + 1 + |NameText(f)| + |ElementText(f.value)|
    decreases |s| - o, 0, 0
  {
    hide At, SkipBlanks, IsSpace, ParseKey, ParseValue, DocText, Denoted, Fits, LiteralMeaning, NameText, ElementText;
    var start := ParseKey(s, o).next;
    var d := DocAt(s, start, depth);
    var behind := start + |DocText(d)|;
    var sep := SkipBlanks(s, behind);
    SkippedSpace(s, behind);
    f := NameAt(s, o, d, s[behind..sep]);
    ElementStands(f.value, s, o + 1 + |NameText(f)|);
  }

  // The name of a member in front of its value.
  lemma NameAt(s: seq<byte>, o: nat, d: Doc, after: seq<byte>) returns (f: Field)
    requires o < |s| && ParseKey(s, o).Done? && Good(d) && IsSpace(after)
    ensures GoodField(f) && f.value.value == d && f.value.after == after
    ensures ParseKey(s, o).value == LiteralMeaning(f.name)
    ensures At(s, o + 1, NameText(f)) && At(s, o + 1 + |NameText(f)|, f.value.before)
    ensures ParseKey(s, o).next == o + 1 + |NameText(f)| + |f.value.before|
  {
    hide At, SkipBlanks, IsSpace, ParseString, DocText, LiteralText, LiteralMeaning, Good;
    var q := SkipBlanks(s, o + 1);
    var l := LiteralAt(s, q);
    var behind := q + |LiteralText(l)|;
    var colon := SkipBlanks(s, behind);
    var start := SkipBlanks(s, colon + 1);
    f := Field(s[o + 1..q], l, s[behind..colon], Element(s[colon + 1..start], d, after));
    SkippedSpace(s, o + 1);
    SkippedSpace(s, behind);
    SkippedSpace(s, colon + 1);
    Single(s, colon);
    NameStands(f, s, o + 1);
  }

  lemma NameStands(f: Field, s: seq<byte>, o: nat)
    requires GoodField(f) && At(s, o, f.before)
    requires var q := o + |f.before|;
             var behind := q + |LiteralText(f.name)|;
             At(s, q, LiteralText(f.name)) && At(s, behind, f.behind) && At(s, behind + |f.behind|, [0x3A])
    ensures At(s, o, NameText(f)) && |NameText(f)| == |f.before| + |LiteralText(f.name)| + |f.behind| + 1
  {
    hide At, LiteralText;
    var q := o + |f.before|;
    ListStands(s, q, LiteralText(f.name), f.behind, [0x3A]);
    AtJoin(s, o, f.before, LiteralText(f.name) + (f.behind + [0x3A]));
  }

  // ----- whole texts -----

  // A value that stands in s behind the byte order mark, or without one.
  lemma ValueParses(e: Element, s: seq<byte>)
    requires GoodElement(e) && At(s, AfterBom(s), ElementText(e))
    requires e.value.NumberDoc? ==> EndsValue(s, AfterBom(s) + |e.before| + |DocText(e.value)|)
    ensures s != [] && if Fits(e.value, 0)
            then ParseText(s, false) == Done(Denoted(e.value), AfterBom(s) + |e.before| + |DocText(e.value)|)
            else Stuck(s, ParseText(s, false)) && (!e.value.NumberDoc? ==> ParseText(s, false) == Fail)
  {
    hide At, AfterBom, SkipBlanks, ParseValue, EndsValue, IsSpace, DocText, ElementText, Fits, Denoted;
    var o := AfterBom(s);
    ElementShape(e, s, o);
    DocStart(e.value, s, o + |e.before|);
    SpaceSkipped(s, o, e.before);
    DocReads(e.value, s, o + |e.before|, 0);
  }

  // Behind the value: white space, and perhaps a NUL.
  lemma TextTail(e: Element, front: seq<byte>, tail: seq<byte>)
    requires GoodElement(e) && tail in {[], [NUL]}
    ensures var s := front + (ElementText(e) + tail);
            var end := |front| + |e.before| + |DocText(e.value)|;
            && At(s, |front|, ElementText(e)) && EndsValue(s, end)
            && (tail == [NUL] ==> SkipBlanks(s, end) == |s| - 1 && s[|s| - 1] == NUL)
  {
    hide At, ElementText, SkipBlanks, EndsValue, DocText;
    var t := ElementText(e);
    var s := front + (t + tail);
    AtWhole(s);
    AtConcat(s, 0, front, t + tail);
    AtConcat(s, |front|, t, tail);
    ElementShape(e, s, |front|);
    SpaceEnds(s, |front| + |e.before| + |DocText(e.value)|, e.after, tail);
  }

  lemma SpaceEnds(s: seq<byte>, o: nat, after: seq<byte>, tail: seq<byte>)
    requires At(s, o, after) && At(s, o + |after|, tail) && |s| == o + |after| + |tail|
    requires IsSpace(after) && tail in {[], [NUL]}
    ensures EndsValue(s, o)
    ensures tail == [NUL] ==> SkipBlanks(s, o) == |s| - 1 && s[|s| - 1] == NUL
  {
    hide At, SkipBlanks;
    forall k | o <= k < |s| ensures s[k] <= 32 && !IsNumberByte(s[k]) {
      if k < o + |after| { AtByte(s, o, after, k - o); } else { AtByte(s, o + |after|, tail, k - o - |after|); }
    }
    if tail == [NUL] {
      AtByte(s, o + |after|, tail, 0);
      AllBlank(s, o);
    }
  }

  lemma {:induction false} AllBlank(s: seq<byte>, o: nat)
    requires o < |s| && forall k :: o <= k < |s| ==> s[k] <= 32
    ensures BlankRun(s, o) == |s| && SkipBlanks(s, o) == |s| - 1
    decreases |s| - o
  {
    if o + 1 < |s| { AllBlank(s, o + 1); } else { assert BlankRun(s, o + 1) == |s|; }
  }

  // What cJSON_ParseWithLengthOpts makes of a text that begins where the byte
  // order mark ends, if there is one.
  lemma TextParses(e: Element, front: seq<byte>, tail: seq<byte>, s: seq<byte>)
    requires GoodElement(e) && tail in {[], [NUL]}
    requires s == front + (ElementText(e) + tail) && |front| == AfterBom(s)
    ensures ParseText(s, false) == Done(Denoted(e.value), |front| + |e.before| + |DocText(e.value)|) <==>
            Fits(e.value, 0)
    ensures tail == [NUL] ==> (ParseText(s, true) == Done(Denoted(e.value), |s| - 1) <==> Fits(e.value, 0))
  {
    hide At, AfterBom, SkipBlanks, ParseText, DocText, ElementText, Fits, Denoted, BOM, Stuck, EndsValue;
    var end := |front| + |e.before| + |DocText(e.value)|;
    TextTail(e, front, tail);
    ValueParses(e, s);
    NulDemanded(s);
    if !Fits(e.value, 0) { StuckElsewhere(s, ParseText(s, false), end); }
  }

  lemma StuckElsewhere<T>(s: seq<byte>, r: Parsed<T>, end: nat)
    requires Stuck(s, r) && EndsValue(s, end)
    ensures r.Done? ==> r.next != end && r.next < |s| && SkipBlanks(s, r.next) == r.next && s[r.next] != NUL
  {
    if r.Done? { StaysStuck(s, r.next); }
  }

  // With a NUL demanded, the cursor moves on to it.
  lemma NulDemanded(s: seq<byte>)
    ensures match ParseText(s, false)
            case Fail => ParseText(s, true) == Fail
            case Done(v, next) =>
              next <= |s| && var end := SkipBlanks(s, next);
              ParseText(s, true) == if end < |s| && s[end] == NUL then Done(v, end) else Fail
  {
    hide At, AfterBom, SkipBlanks, ParseValue;
  }

  lemma NoMark(e: Element, tail: seq<byte>)
    requires GoodElement(e)
    ensures AfterBom(ElementText(e) + tail) == 0
  {
    var t := ElementText(e);
    AtWhole(t);
    ElementShape(e, t, 0);
    DocStart(e.value, t, |e.before|);
    hide DocText, ElementText;
    if e.before != [] { AtByte(t, 0, e.before, 0); }
    KeywordStart(t + tail, 0, BOM);
  }

  // A JSON text is parsed to the tree it denotes, and the cursor stops behind
  // the value, exactly when the parser has room for it.
  lemma TextDenotes(e: Element)
    requires GoodElement(e)
    ensures var t := ElementText(e);
            && (ParseText(t, false) == Done(Denoted(e.value), |e.before| + |DocText(e.value)|) <==> Fits(e.value, 0))
            && (ParseText(t + [NUL], true) == Done(Denoted(e.value), |t|) <==> Fits(e.value, 0))
  {
    hide ElementText, DocText, Denoted, Fits, ParseText, AfterBom;
    var t := ElementText(e);
    assert [] + (t + []) == t && [] + (t + [NUL]) == t + [NUL] && t + [] == t;
    NoMark(e, []);
    NoMark(e, [NUL]);
    TextParses(e, [], [], t);
    TextParses(e, [], [NUL], t + [NUL]);
  }

  // So is one behind a byte order mark, unless it has but one byte and no NUL.
  lemma MarkedTextDenotes(e: Element)
    requires GoodElement(e)
    ensures var t := ElementText(e);
            var end := 3 + |e.before| + |DocText(e.value)|;
            && (ParseText([0xEF, 0xBB, 0xBF] + t, false) == Done(Denoted(e.value), end) <==>
                Fits(e.value, 0) && |t| >= 2)
            && (ParseText([0xEF, 0xBB, 0xBF] + (t + [NUL]), true) == Done(Denoted(e.value), 3 + |t|) <==>
                Fits(e.value, 0))
  {
    assert BOM == [0xEF, 0xBB, 0xBF];
    hide *;
    MarkedPlain(e);
    MarkedNul(e);
  }

  lemma MarkedPlain(e: Element)
    requires GoodElement(e)
    ensures var t := ElementText(e);
            ParseText(BOM + t, false) == Done(Denoted(e.value), 3 + |e.before| + |DocText(e.value)|) <==>
            Fits(e.value, 0) && |t| >= 2
  {
    assert |BOM| == 3;
    hide *;
    var t := ElementText(e);
    MarkSkipped(t);
    if |t| >= 2 {
      assert BOM + t == BOM + (t + []);
      TextParses(e, BOM, [], BOM + t);
    } else {
      MarkFails(t);
    }
  }

  lemma MarkedNul(e: Element)
    requires GoodElement(e)
    ensures var t := ElementText(e);
            ParseText(BOM + (t + [NUL]), true) == Done(Denoted(e.value), 3 + |t|) <==> Fits(e.value, 0)
  {
    assert |BOM| == 3;
    hide *;
    var t := ElementText(e);
    SomeText(e);
    MarkSkipped(t + [NUL]);
    TextParses(e, BOM, [NUL], BOM + (t + [NUL]));
  }

  lemma SomeText(e: Element)
    requires GoodElement(e)
    ensures |ElementText(e)| >= 1
  {
    AtWhole(ElementText(e));
    ElementShape(e, ElementText(e), 0);
    DocStart(e.value, ElementText(e), |e.before|);
  }

  lemma MarkSkipped(t: seq<byte>)
    ensures AfterBom(BOM + t) == if |t| >= 2 then 3 else 0
  {
    assert (BOM + t)[0..3] == BOM;
  }

  // Too short for the mark to be skipped: it is taken for a value.
  lemma MarkFails(t: seq<byte>)
    requires |t| <= 1
    ensures ParseText(BOM + t, false) == Fail
  {
    var s := BOM + t;
    MarkSkipped(t);
    SkipsTo(s, 0, 0);
    NoKeywords(s, 0);
  }

  // ----- what the parser has room for -----

  // No number is longer than the buffer it is copied to.
  predicate ShortNumbers(d: Doc)
    decreases d, 1
  {
    match d
    case NumberDoc(n) => |NumberText(n)| <= 63
    case ArrayDoc(_, elements) => ShortInElements(elements)
    case ObjectDoc(_, fields) => ShortInFields(fields)
    case _ => true
  }

  predicate ShortInElements(es: seq<Element>)
    decreases es, 0
  {
    es == [] || (ShortNumbers(es[0].value) && ShortInElements(es[1..]))
  }

  predicate ShortInFields(fs: seq<Field>)
    decreases fs, 0
  {
    fs == [] || (ShortNumbers(fs[0].value.value) && ShortInFields(fs[1..]))
  }

  lemma {:induction false} FitsMeans(d: Doc, depth: nat)
    requires Good(d) && depth <= 1000
    ensures Fits(d, depth) <==> depth + Nesting(Denoted(d)) <= 1000 && ShortNumbers(d)
    decreases d, 1
  {
    match d
    case ArrayDoc(_, elements) => if depth < 1000 { FitElementsMeans(elements, depth + 1); }
    case ObjectDoc(_, fields) => if depth < 1000 { FitFieldsMeans(fields, depth + 1); }
    case _ =>
  }

  lemma {:induction false} FitElementsMeans(es: seq<Element>, depth: nat)
    requires GoodElements(es) && depth <= 1000
    ensures FitElements(es, depth) <==>
            depth + NestingItems(DenotedItems(es)) <= 1000 && ShortInElements(es)
    decreases es, 0
  {
    if es != [] {
      assert GoodElement(es[0]);
      FitsMeans(es[0].value, depth);
      FitElementsMeans(es[1..], depth);
      assert DenotedItems(es)[1..] == DenotedItems(es[1..]);
    }
  }

  lemma {:induction false} FitFieldsMeans(fs: seq<Field>, depth: nat)
    requires GoodFields(fs) && depth <= 1000
    ensures FitFields(fs, depth) <==>
            depth + NestingMembers(DenotedMembers(fs)) <= 1000 && ShortInFields(fs)
    decreases fs, 0
  {
    if fs != [] {
      assert GoodField(fs[0]) && GoodElement(fs[0].value);
      FitsMeans(fs[0].value.value, depth);
      FitFieldsMeans(fs[1..], depth);
      assert DenotedMembers(fs)[1..] == DenotedMembers(fs[1..]);
    }
  }

  // One digit more than the buffer holds: the number is not read.
  lemma LongNumberIsCut()
    ensures var n := Number(false, [0x31] + seq(63, _ => 0x30), None, None);
            && StandardNumber(n) && GoodNumber(n)
            && ParseText(NumberText(n), false) != Done(Denoted(NumberDoc(n)), |NumberText(n)|)
  {
    hide ParseText, NumberValue;
    var digits := [0x31] + seq(63, _ => 0x30);
    var n := Number(false, digits, None, None);
    var e := Element([], NumberDoc(n), []);
    assert OnlyDigits(digits) && digits + [] == digits;
    assert ElementText(e) == NumberText(n) == digits;
    TextDenotes(e);
  }

  // ----- exactly these texts -----

  // Where the value is looked for: behind the byte order mark of a text of at
  // least five bytes.
  function Front(s: seq<byte>): nat
  {
    if |s| > 4 && s[0] == 0xEF && s[1] == 0xBB && s[2] == 0xBF then 3 else 0
  }

  // d stands in s behind white space, and the parser has room for it; a number
  // is the longest one there; where a NUL is demanded, nothing but bytes up to
  // the blank follows, and the last of them is the NUL.
  ghost predicate Reading(s: seq<byte>, requireNul: bool, before: seq<byte>, d: Doc, end: nat)
  {
    var o := Front(s) + |before|;
    && IsSpace(before) && Good(d) && Fits(d, 0) && At(s, Front(s), before) && At(s, o, DocText(d))
    && (d.NumberDoc? ==> Longest(s, o, |DocText(d)|))
    && if requireNul then o + |DocText(d)| < |s| && IsSpace(s[o + |DocText(d)|..]) && end == |s| - 1 && s[end] == 0x00
       else end == o + |DocText(d)|
  }

  lemma FrontIs(s: seq<byte>)
    ensures AfterBom(s) == Front(s)
  {
    if |s| > 4 { assert s[0..3] == [s[0], s[1], s[2]]; }
  }

  lemma DocIsTaken(d: Doc, s: seq<byte>, o: nat, depth: nat)
    requires Good(d) && Fits(d, depth) && At(s, o, DocText(d))
    requires d.NumberDoc? ==> Longest(s, o, |DocText(d)|)
    ensures ParseValue(s, o, depth) == Done(Denoted(d), o + |DocText(d)|)
  {
    if d.NumberDoc? {
      hide At, NumberText, GoodNumber, NumberValue, ParseNumber;
      DocStart(d, s, o);
      NoKeywords(s, o);
      LongestIsTaken(d.number, s, o);
    } else {
      hide At, DocText, Denoted, Fits, ParseValue;
      DocReads(d, s, o, depth);
    }
  }

  // White space up to the end of the text: the cursor stops on its last byte.
  lemma SpaceToTheEnd(s: seq<byte>, o: nat)
    requires o < |s|
    ensures SkipBlanks(s, o) < |s| && (s[SkipBlanks(s, o)] <= 0x20 ==> SkipBlanks(s, o) == |s| - 1)
    ensures SkipBlanks(s, o) == |s| - 1 && s[|s| - 1] <= 0x20 <==> IsSpace(s[o..])
  {
    var e := BlankRun(s, o);
    if e == |s| {
      assert forall k :: 0 <= k < |s[o..]| ==> s[o..][k] == s[o + k];
    } else {
      assert s[o..][e - o] == s[e];
    }
  }

  lemma ReadingIsTaken(s: seq<byte>, requireNul: bool, before: seq<byte>, d: Doc, end: nat)
    requires Reading(s, requireNul, before, d, end)
    ensures ParseText(s, requireNul) == Done(Denoted(d), end)
  {
    hide At, IsSpace, SkipBlanks, ParseValue, DocText, Denoted, Fits, Longest;
    FrontIs(s);
    var o := Front(s) + |before|;
    DocStart(d, s, o);
    SpaceSkipped(s, Front(s), before);
    DocIsTaken(d, s, o, 0);
    if requireNul { SpaceToTheEnd(s, o + |DocText(d)|); }
  }

  lemma ReadingAt(s: seq<byte>, requireNul: bool) returns (before: seq<byte>, d: Doc)
    requires ParseText(s, requireNul).Done?
    ensures Reading(s, requireNul, before, d, ParseText(s, requireNul).next)
  {
    hide At, SkipBlanks, ParseValue, Denoted, Fits, Longest, AfterBom, ElementsText, FieldsText;
    hide NumberText, LiteralText;
    FrontIs(s);
    before := s[Front(s)..SkipBlanks(s, Front(s))];
    SkippedSpace(s, Front(s));
    d := DocAt(s, SkipBlanks(s, Front(s)), 0);
    var e := Front(s) + |before| + |DocText(d)|;
    if requireNul && e < |s| { SpaceToTheEnd(s, e); }
  }

  // The parser takes a text, yields v and reports `end` if and only if a value
  // of the language stands there that denotes v.
  lemma ExactlyThese(s: seq<byte>, requireNul: bool, v: Json, end: nat)
    ensures ParseText(s, requireNul) == Done(v, end) <==>
            exists before: seq<byte>, d: Doc :: Reading(s, requireNul, before, d, end) && Denoted(d) == v
  {
    hide ParseText, Denoted;
    if ParseText(s, requireNul) == Done(v, end) {
      var before, d := ReadingAt(s, requireNul);
      ReadingIsTaken(s, requireNul, before, d, end);
    }
    forall before: seq<byte>, d: Doc | Reading(s, requireNul, before, d, end) && Denoted(d) == v
      ensures ParseText(s, requireNul) == Done(v, end)
    {
      ReadingIsTaken(s, requireNul, before, d, end);
    }
  }

  // ----- RFC 8259 -----

  predicate StandardSpace(t: seq<byte>) { forall i :: 0 <= i < |t| ==> t[i] in {0x20, 0x09, 0x0A, 0x0D} }

  predicate Standard(d: Doc)
    decreases d, 1
  {
    match d
    case NumberDoc(n) => StandardNumber(n)
    case StringDoc(l) => StandardLiteral(l)
    case ArrayDoc(blank, elements) => StandardSpace(blank) && StandardElements(elements)
    case ObjectDoc(blank, fields) => StandardSpace(blank) && StandardFields(fields)
    case _ => true
  }

  predicate StandardElement(e: Element)
    decreases e, 2
  {
    StandardSpace(e.before) && Standard(e.value) && StandardSpace(e.after)
  }

  predicate StandardElements(es: seq<Element>)
    decreases es, 0
  {
    es == [] || (StandardElement(es[0]) && StandardElements(es[1..]))
  }

  predicate StandardField(f: Field)
    decreases f, 2
  {
    StandardSpace(f.before) && StandardLiteral(f.name) && StandardSpace(f.behind) && StandardElement(f.value)
  }

  predicate StandardFields(fs: seq<Field>)
    decreases fs, 0
  {
    fs == [] || (StandardField(fs[0]) && StandardFields(fs[1..]))
  }

  lemma {:induction false} StandardIsTaken(d: Doc)
    requires Standard(d)
    ensures Good(d)
    decreases d, 1
  {
    match d
    case NumberDoc(n) => StandardIsGood(n);
    case StringDoc(l) => StandardLiteralTaken(l);
    case ArrayDoc(_, elements) => StandardElementsTaken(elements);
    case ObjectDoc(_, fields) => StandardFieldsTaken(fields);
    case _ =>
  }

  lemma {:induction false} StandardElementTaken(e: Element)
    requires StandardElement(e)
    ensures GoodElement(e)
    decreases e, 2
  {
    StandardIsTaken(e.value);
  }

  lemma {:induction false} StandardElementsTaken(es: seq<Element>)
    requires StandardElements(es)
    ensures GoodElements(es)
    decreases es, 0
  {
    if es != [] {
      hide StandardElement, GoodElement;
      StandardElementTaken(es[0]);
      StandardElementsTaken(es[1..]);
    }
  }

  lemma {:induction false} StandardFieldsTaken(fs: seq<Field>)
    requires StandardFields(fs)
    ensures GoodFields(fs)
    decreases fs, 0
  {
    if fs != [] {
      assert StandardField(fs[0]);
      StandardLiteralTaken(fs[0].name);
      hide StandardElement, GoodElement, TakenLiteral;
      StandardElementTaken(fs[0].value);
      StandardFieldsTaken(fs[1..]);
    }
  }

  // Every text of RFC 8259 is parsed to the tree it denotes, exactly when it
  // nests at most 1000 deep and has no number longer than 63 bytes.
  lemma StandardTextDenotes(e: Element)
    requires StandardElement(e)
    ensures GoodElement(e)
    ensures var t := ElementText(e);
            var fits := Nesting(Denoted(e.value)) <= 1000 && ShortNumbers(e.value);
            && (ParseText(t, false) == Done(Denoted(e.value), |e.before| + |DocText(e.value)|) <==> fits)
            && (ParseText(t + [NUL], true) == Done(Denoted(e.value), |t|) <==> fits)
  {
    StandardElementTaken(e);
    TextDenotes(e);
    FitsMeans(e.value, 0);
  }
}
