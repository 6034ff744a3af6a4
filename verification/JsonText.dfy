// The cJSON value tree and the text `cJSON_Print` and `cJSON_PrintUnformatted` give it.
module JsonText {
  import opened Bytes
  import opened Decimal

  datatype Json =
    | JNull
    | JFalse
    | JTrue
    | JNumber(valueint: int, valuedouble: real)
    | JString(valuestring: seq<byte>)
    | JArray(items: seq<Json>)
    | JObject(members: seq<Member>)

  // A child of an object: a node whose `string` field is set.
  datatype Member = Member(key: seq<byte>, value: Json)

  function Integer(n: int): Json { JNumber(n, n as real) }

  // Trees whose text is modelled: C strings, and numbers on the `%d` path.
  predicate Printable(v: Json)
    decreases v, 1
  {
    match v
    case JNumber(n, d) => INT_MIN <= n <= INT_MAX && d == n as real
    case JString(t) => NulFree(t)
    case JArray(items) => PrintableItems(items)
    case JObject(members) => PrintableMembers(members)
    case _ => true
  }

  predicate PrintableItems(items: seq<Json>)
    decreases items, 0
  {
    items == [] || (Printable(items[0]) && PrintableItems(items[1..]))
  }

  predicate PrintableMembers(members: seq<Member>)
    decreases members, 0
  {
    members == [] ||
    (NulFree(members[0].key) && Printable(members[0].value) && PrintableMembers(members[1..]))
  }

  // Trees whose numbers are 32-bit integers.
  predicate Integral(v: Json)
    decreases v, 1
  {
    match v
    case JNumber(n, d) => INT_MIN <= n <= INT_MAX && d == n as real
    case JArray(items) => IntegralItems(items)
    case JObject(members) => IntegralMembers(members)
    case _ => true
  }

  predicate IntegralItems(items: seq<Json>)
    decreases items, 0
  {
    items == [] || (Integral(items[0]) && IntegralItems(items[1..]))
  }

  predicate IntegralMembers(members: seq<Member>)
    decreases members, 0
  {
    members == [] || (Integral(members[0].value) && IntegralMembers(members[1..]))
  }

  function Max(a: nat, b: nat): nat { if a < b then b else a }

  // How many arrays and objects enclose the deepest value, the tree itself included.
  function Nesting(v: Json): nat
    decreases v, 1
  {
    match v
    case JArray(items) => 1 + NestingItems(items)
    case JObject(members) => 1 + NestingMembers(members)
    case _ => 0
  }

  function NestingItems(items: seq<Json>): nat
    decreases items, 0
  {
    if items == [] then 0 else Max(Nesting(items[0]), NestingItems(items[1..]))
  }

  function NestingMembers(members: seq<Member>): nat
    decreases members, 0
  {
    if members == [] then 0 else Max(Nesting(members[0].value), NestingMembers(members[1..]))
  }

  // The tree with every text cut at its first NUL.
  function Cut(v: Json): Json
    decreases v, 1
  {
    match v
    case JString(t) => JString(CText(t))
    case JArray(items) => JArray(CutItems(items))
    case JObject(members) => JObject(CutMembers(members))
    case _ => v
  }

  function CutItems(items: seq<Json>): (r: seq<Json>)
    ensures |r| == |items| && forall k :: 0 <= k < |r| ==> r[k] == Cut(items[k])
    decreases items, 0
  {
    if items == [] then [] else [Cut(items[0])] + CutItems(items[1..])
  }

  function CutMembers(members: seq<Member>): (r: seq<Member>)
    ensures |r| == |members|
    ensures forall k :: 0 <= k < |r| ==> r[k] == Member(CText(members[k].key), Cut(members[k].value))
    decreases members, 0
  {
    if members == [] then []
    else [Member(CText(members[0].key), Cut(members[0].value))] + CutMembers(members[1..])
  }

  // Trees without a NUL in any text or name.
  predicate AllCStrings(v: Json)
    decreases v, 1
  {
    match v
    case JString(t) => NulFree(t)
    case JArray(items) => AllCStringsIn(items)
    case JObject(members) => AllCStringsOf(members)
    case _ => true
  }

  predicate AllCStringsIn(items: seq<Json>)
    decreases items, 0
  {
    items == [] || (AllCStrings(items[0]) && AllCStringsIn(items[1..]))
  }

  predicate AllCStringsOf(members: seq<Member>)
    decreases members, 0
  {
    members == [] ||
    (NulFree(members[0].key) && AllCStrings(members[0].value) && AllCStringsOf(members[1..]))
  }

  // They are those that cutting leaves as they are.
  lemma {:induction false} CutKeeps(v: Json)
    ensures Cut(v) == v <==> AllCStrings(v)
    decreases v, 1
  {
    match v
    case JArray(items) => CutKeepsItems(items);
    case JObject(members) => CutKeepsMembers(members);
    case _ =>
  }

  lemma {:induction false} CutKeepsItems(items: seq<Json>)
    ensures CutItems(items) == items <==> AllCStringsIn(items)
    decreases items, 0
  {
    if items != [] {
      CutKeeps(items[0]);
      CutKeepsItems(items[1..]);
      SameFront(Cut(items[0]), CutItems(items[1..]), items);
    }
  }

  lemma SameFront<T>(x: T, xs: seq<T>, ys: seq<T>)
    requires ys != []
    ensures [x] + xs == ys <==> x == ys[0] && xs == ys[1..]
  {
    assert ys == [ys[0]] + ys[1..];
    assert ([x] + xs)[0] == x && ([x] + xs)[1..] == xs;
  }

  lemma {:induction false} CutKeepsMembers(members: seq<Member>)
    ensures CutMembers(members) == members <==> AllCStringsOf(members)
    decreases members, 0
  {
    if members != [] {
      CutKeeps(members[0].value);
      CutKeepsMembers(members[1..]);
      hide Cut, CText, AllCStrings;
      SameFront(Member(CText(members[0].key), Cut(members[0].value)), CutMembers(members[1..]), members);
      CTextKeeps(members[0].key);
    }
  }

  lemma CTextKeeps(t: seq<byte>)
    ensures CText(t) == t <==> NulFree(t)
  {
  }

  // The string `\u0000` is cut to nothing.
  lemma NulIsCut()
    ensures Cut(JString([NUL])) == JString([])
  {
  }

  // A cut tree is as deep as the tree, and printable if its numbers are.
  lemma {:induction false} CutShape(v: Json)
    ensures Nesting(Cut(v)) == Nesting(v) && (Integral(v) ==> Printable(Cut(v)))
    decreases v, 1
  {
    match v
    case JArray(items) => CutShapeItems(items);
    case JObject(members) => CutShapeMembers(members);
    case _ =>
  }

  lemma {:induction false} CutShapeItems(items: seq<Json>)
    ensures NestingItems(CutItems(items)) == NestingItems(items)
    ensures IntegralItems(items) ==> PrintableItems(CutItems(items))
    decreases items, 0
  {
    if items != [] {
      CutShape(items[0]);
      CutShapeItems(items[1..]);
      assert CutItems(items)[1..] == CutItems(items[1..]);
    }
  }

  lemma {:induction false} CutShapeMembers(members: seq<Member>)
    ensures NestingMembers(CutMembers(members)) == NestingMembers(members)
    ensures IntegralMembers(members) ==> PrintableMembers(CutMembers(members))
    decreases members, 0
  {
    if members != [] {
      CutShape(members[0].value);
      CutShapeMembers(members[1..]);
      assert CutMembers(members)[1..] == CutMembers(members[1..]);
    }
  }

  // One byte of a string literal, escaped where section 7 of RFC 8259 requires it.
  function EscapedByte(b: byte): (t: seq<byte>)
    ensures |t| >= 1
  {
    if b > 31 && b != QUOTE && b != BACKSLASH then [b]
    else if b == BACKSLASH || b == QUOTE then [BACKSLASH, b]
    else if b == BACKSPACE then [BACKSLASH, LOWER_B]
    else if b == FORMFEED then [BACKSLASH, LOWER_F]
    else if b == NEWLINE then [BACKSLASH, LOWER_N]
    else if b == RETURN then [BACKSLASH, LOWER_R]
    else if b == TAB then [BACKSLASH, LOWER_T]
    else [BACKSLASH, LOWER_U, ZERO, ZERO, HexDigit(b / 16), HexDigit(b % 16)]
  }

  // A string literal behind its opening quote.
  function LiteralTail(t: seq<byte>): (r: seq<byte>)
    ensures |r| >= 1
  {
    if t == [] then [QUOTE] else EscapedByte(t[0]) + LiteralTail(t[1..])
  }

  function StringText(t: seq<byte>): seq<byte> { [QUOTE] + LiteralTail(t) }

  function Tabs(n: nat): (t: seq<byte>)
    ensures |t| == n && forall i :: 0 <= i < n ==> t[i] == TAB
  {
    seq(n, _ => TAB)
  }

  function ValueText(v: Json, format: bool, depth: nat): seq<byte>
    decreases v, 1
  {
    match v
    case JNull => NULL_TEXT
    case JFalse => FALSE_TEXT
    case JTrue => TRUE_TEXT
    case JNumber(n, _) => IntText(n)
    case JString(t) => StringText(t)
    case JArray(items) => [LBRACKET] + (ItemsText(items, format, depth + 1) + [RBRACKET])
    case JObject(members) =>
      ObjectOpen(format) + (MembersText(members, format, depth + 1) + ObjectClose(format, depth))
  }

  function ItemsText(items: seq<Json>, format: bool, depth: nat): seq<byte>
    decreases items, 0
  {
    if items == [] then []
    else
      ValueText(items[0], format, depth) +
      (ItemSeparator(format, |items| > 1) + ItemsText(items[1..], format, depth))
  }

  function MembersText(members: seq<Member>, format: bool, depth: nat): seq<byte>
    decreases members, 0
  {
    if members == [] then []
    else
      KeyText(members[0].key, format, depth) +
      (ValueText(members[0].value, format, depth) +
       (MemberEnd(format, |members| > 1) + MembersText(members[1..], format, depth)))
  }

  function ObjectOpen(format: bool): seq<byte> { if format then [LBRACE, NEWLINE] else [LBRACE] }

  function ObjectClose(format: bool, depth: nat): seq<byte> { Indent(format, depth) + [RBRACE] }

  function Indent(format: bool, depth: nat): seq<byte> { if format then Tabs(depth) else [] }

  function ItemSeparator(format: bool, more: bool): seq<byte>
  {
    if !more then [] else if format then [COMMA, SPACE] else [COMMA]
  }

  function KeyText(key: seq<byte>, format: bool, depth: nat): seq<byte>
  {
    Indent(format, depth) + (StringText(key) + KeySeparator(format))
  }

  function KeySeparator(format: bool): seq<byte> { if format then [COLON, TAB] else [COLON] }

  function MemberEnd(format: bool, more: bool): seq<byte>
  {
    (if more then [COMMA] else []) + (if format then [NEWLINE] else [])
  }
}
