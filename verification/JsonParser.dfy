// The parser as it runs: a cursor over the input, loops and mutual recursion,
// each routine proved against its function in JsonGrammar.
module JsonParser {
  import opened Bytes
  import opened Decimal
  import opened JsonText
  import opened JsonGrammar
  import opened JsonStrings
  import opened ChildList
  import opened JsonNodes

  // The four hex digits at p, folded left to right; 0 when one is not a digit.
  method Hex4Literal(s: seq<byte>, p: nat) returns (h: nat)
    requires p + 4 <= |s|
    ensures h == Hex4(s, p)
  {
    h := 0;
    var i := 0;
    while i < 4
      invariant 0 <= i <= 4 && forall k :: p <= k < p + i ==> IsHex(s[k])
      invariant h == HexPrefix(s, p, i)
    {
      if !IsHex(s[p + i]) { return 0; }
      h := h + HexValue(s[p + i]);
      if i < 3 { h := h * 16; }
      i := i + 1;
    }
    HexPrefixIsHex4(s, p);
  }

  lemma HexPrefixIsHex4(s: seq<byte>, p: nat)
    requires p + 4 <= |s| && forall k :: p <= k < p + 4 ==> IsHex(s[k])
    ensures HexPrefix(s, p, 4) == Hex4(s, p)
  {
    assert HexPrefix(s, p, 1) == HexValue(s[p]) * 16;
    assert HexPrefix(s, p, 2) == (HexPrefix(s, p, 1) + HexValue(s[p + 1])) * 16;
    assert HexPrefix(s, p, 3) == (HexPrefix(s, p, 2) + HexValue(s[p + 2])) * 16;
    assert HexPrefix(s, p, 4) == HexPrefix(s, p, 3) + HexValue(s[p + 3]);
  }

  // The accumulator after i digits, shifted for the next one up to the third.
  function HexPrefix(s: seq<byte>, p: nat, i: nat): nat
    requires i <= 4 && p + 4 <= |s| && forall k :: p <= k < p + i ==> IsHex(s[k])
  {
    if i == 0 then 0
    else (HexPrefix(s, p, i - 1) + HexValue(s[p + i - 1])) * (if i < 4 then 16 else 1)
  }

  // Writes the encoding of c at output[n..], last byte first. A tail byte
  // (c | 0x80) & 0xBF is 0x80 plus the low six bits.
  method EncodeUtf8(c: nat, output: array<byte>, n: nat)
    requires c <= 0x10FFFF && n + |Utf8(c)| <= output.Length
    modifies output
    ensures output[n..n + |Utf8(c)|] == Utf8(c)
    ensures forall k :: 0 <= k < output.Length && !(n <= k < n + |Utf8(c)|) ==> output[k] == old(output[k])
  {
    var length := EncodedLength(c);
    hide Shifted, Utf8, TailByte, EncodedLength, LeadMark;
    ShiftedStep(c, 0);
    var rest := c;
    var position := length - 1;
    while position > 0
      invariant 0 <= position < length
      invariant rest == Shifted(c, length - 1 - position)
      invariant forall j :: n + position < j < n + length ==> output[j] == TailByte(Shifted(c, n + length - 1 - j))
      invariant forall k :: 0 <= k < output.Length && !(n <= k < n + length) ==> output[k] == old(output[k])
    {
      output[n + position] := TailByte(rest);
      ShiftedStep(c, length - 1 - position);
      rest := rest / 0x40;
      position := position - 1;
    }
    LeadByte(c, length);
    output[n] := LeadMark(length) + rest;
    EncodedBytes(c, output[n..n + length]);
  }

  function EncodedLength(c: nat): (length: nat)
    requires c <= 0x10FFFF
    ensures length == |Utf8(c)|
  {
    if c < 0x80 then 1 else if c < 0x800 then 2 else if c < 0x10000 then 3 else 4
  }

  // The marker bits of the first byte.
  function LeadMark(length: nat): byte
  {
    if length <= 1 then 0 else if length == 2 then 0xC0 else if length == 3 then 0xE0 else 0xF0
  }

  function TailByte(v: nat): byte { 0x80 + v % 0x40 }

  // c after k six-bit shifts.
  function Shifted(c: nat, k: nat): nat { if k == 0 then c else Shifted(c, k - 1) / 0x40 }

  lemma ShiftedStep(c: nat, k: nat)
    ensures Shifted(c, 0) == c
    ensures Shifted(c, k + 1) == Shifted(c, k) / 0x40
  {
  }

  lemma ShiftedValues(c: nat)
    ensures Shifted(c, 0) == c && Shifted(c, 1) == c / 0x40
    ensures Shifted(c, 2) == c / 0x1000 && Shifted(c, 3) == c / 0x40000
  {
    assert Shifted(c, 1) == c / 0x40;
    assert Shifted(c, 2) == c / 0x40 / 0x40 == c / 0x1000;
    assert Shifted(c, 3) == c / 0x1000 / 0x40 == c / 0x40000;
  }

  // What is left for the first byte fits under its marker.
  lemma LeadByte(c: nat, length: nat)
    requires c <= 0x10FFFF && length == |Utf8(c)|
    ensures LeadMark(length) + Shifted(c, length - 1) <= 0xFF
  {
    ShiftedValues(c);
  }

  lemma EncodedBytes(c: nat, t: seq<byte>)
    requires c <= 0x10FFFF && |t| == |Utf8(c)|
    requires forall k :: 1 <= k < |t| ==> t[k] == TailByte(Shifted(c, |t| - 1 - k))
    requires t[0] == LeadMark(|t|) + Shifted(c, |t| - 1)
    ensures t == Utf8(c)
  {
    ShiftedValues(c);
  }

  // utf16_literal_to_utf8: converts the literal at p into output[n..] and says
  // how many input bytes it took, 0 on failure.
  method Utf16LiteralToUtf8(s: seq<byte>, p: nat, close: nat, output: array<byte>, n: nat)
      returns (length: nat, n': nat)
    requires p <= close <= |s|
    requires var r := Utf16Literal(s, p, close); r.Done? ==> n + |Utf8(r.value)| <= output.Length
    requires n <= output.Length
    modifies output
    ensures var r := Utf16Literal(s, p, close);
            match r
            case Fail => length == 0 && n' == n
            case Done(c, next) => length == next - p && n' == n + |Utf8(c)| && output[n..n'] == Utf8(c)
    ensures output[..n] == old(output[..n])
  {
    hide Hex4, Utf8;
    length, n' := 0, n;
    if close - p < 6 { return; }
    var first := Hex4Literal(s, p + 2);
    if IsLowSurrogate(first) { return; }
    var c := first;
    if IsHighSurrogate(first) {
      if close - (p + 6) < 6 || s[p + 6] != BACKSLASH || s[p + 7] != LOWER_U { return; }
      var second := Hex4Literal(s, p + 8);
      if !IsLowSurrogate(second) { return; }
      c := SurrogatePair(first, second);
      length := 12;
    } else {
      length := 6;
    }
    EncodeUtf8(c, output, n);
    n' := n + EncodedLength(c);
  }

  // Both views of the second pass after one round at p.
  lemma RoundStep(s: seq<byte>, p: nat, close: nat)
    requires p < close < |s|
    ensures match UnescapeOne(s, p, close)
            case Fail => Unescape(s, p, close).None?
            case Done(t, next) =>
              && Written(s, p, close) == t + Written(s, next, close)
              && (Unescape(s, p, close).Some? <==> Unescape(s, next, close).Some?)
  {
  }

  lemma NothingWritten(s: seq<byte>, p: nat, close: nat)
    requires close <= p && close < |s|
    ensures Written(s, p, close) == [] && Unescape(s, p, close).Some?
  {
  }

  class ParseBuffer {
    const content: seq<byte>
    var offset: nat
    var depth: nat

    predicate Valid()
      reads this
    {
      offset <= |content|
    }

    constructor (content: seq<byte>)
      ensures Valid() && this.content == content && offset == 0 && depth == 0
    {
      this.content := content;
      offset := 0;
      depth := 0;
    }

    method SkipWhitespace()
      requires Valid()
      modifies this`offset
      ensures Valid() && offset == SkipBlanks(content, old(offset))
    {
      if offset >= |content| { return; }
      while offset < |content| && content[offset] <= 32
        invariant old(offset) <= offset <= |content|
        invariant BlankRun(content, offset) == BlankRun(content, old(offset))
        decreases |content| - offset
      {
        offset := offset + 1;
      }
      if offset == |content| {
        offset := offset - 1;
      }
    }

    // First pass of parse_string: the closing quote and the backslashes skipped.
    method MeasureString() returns (ok: bool, close: nat, skipped: nat)
      requires offset < |content|
      ensures ok <==> FindClose(content, offset + 1).Some?
      ensures ok ==> FindClose(content, offset + 1) == Some(close) && skipped == Escapes(content, offset + 1, close)
    {
      var end := offset + 1;
      skipped := 0;
      while end < |content| && content[end] != QUOTE
        invariant offset + 1 <= end <= |content|
        invariant FindClose(content, end) == FindClose(content, offset + 1)
        invariant forall c: nat :: FindClose(content, end) == Some(c) ==>
                    skipped + Escapes(content, end, c) == Escapes(content, offset + 1, c)
      {
        if content[end] == BACKSLASH {
          if end + 1 >= |content| { return false, 0, 0; }
          skipped := skipped + 1;
          end := end + 1;
        }
        end := end + 1;
      }
      if end >= |content| { return false, 0, 0; }
      ok, close := true, end;
    }

    // One round of the second pass: reads at p, writes at output[n..].
    method UnescapeRound(p: nat, close: nat, output: array<byte>, n: nat)
        returns (ok: bool, p': nat, n': nat)
      requires p < close < |content| && n <= output.Length
      requires var o := UnescapeOne(content, p, close); o.Done? ==> n + |o.value| <= output.Length
      modifies output
      ensures ok <==> UnescapeOne(content, p, close).Done?
      ensures !ok ==> p' == p
      ensures ok ==> var o := UnescapeOne(content, p, close);
                     && p' == o.next && n' == n + |o.value|
                     && output[..n'] == old(output[..n]) + o.value
    {
      hide Utf16Literal, Utf8;
      ok, p', n' := true, p, n;
      if content[p] != BACKSLASH {
        output[n] := content[p];
        p', n' := p + 1, n + 1;
      } else if content[p + 1] == LOWER_U {
        var length;
        length, n' := Utf16LiteralToUtf8(content, p, close, output, n);
        ok, p' := length > 0, p + length;
      } else {
        var plain := SimpleEscape(content[p + 1]);
        if plain.None? { return false, p, n; }
        output[n] := plain.value;
        p', n' := p + 2, n + 1;
      }
    }

    // Second pass of parse_string. The array allocated from what the first pass
    // counted takes every byte written to it; p is where reading stopped.
    method UnescapeString(start: nat, close: nat, skipped: nat) returns (r: Option<seq<byte>>, p: nat)
      requires Boundary(content, start, close) && skipped == Escapes(content, start, close)
      requires 0 < start
      ensures r == Unescape(content, start, close) && p == EscapeStop(content, start, close) <= |content|
    {
      hide Written, Unescape, UnescapeOne, FindClose, Escapes;
      SecondPassFits(content, start, close);
      var output := new byte[close - (start - 1) - skipped + 1];
      var n := 0;
      p := start;
      while p < close
        invariant start <= p <= close + 1 <= |content| && 0 <= n <= output.Length
        invariant Written(content, start, close) == output[..n] + Written(content, p, close)
        invariant Unescape(content, p, close).Some? <==> Unescape(content, start, close).Some?
        invariant EscapeStop(content, p, close) == EscapeStop(content, start, close)
        decreases close - p
      {
        RoundStep(content, p, close);
        var ok;
        ok, p, n := UnescapeRound(p, close, output, n);
        if !ok { return None, p; }
      }
      NothingWritten(content, p, close);
      ghost var text := output[..n];
      assert Written(content, start, close) == text + [] == text;
      output[n] := NUL;
      UnescapeIsWritten(content, start, close);
      r := Some(output[..n]);
      assert r.value == text;
    }

    method ParseString(item: Node) returns (ok: bool)
      requires Valid() && offset < |content|
      modifies this`offset, item`kind, item`valuestring
      ensures Valid() && (ok <==> JsonGrammar.ParseString(content, old(offset)).Done?)
      ensures ok ==> var r := JsonGrammar.ParseString(content, old(offset));
                     offset == r.next && item.kind == StringKind && item.valuestring == r.value
      ensures !ok ==> offset == StringStop(content, old(offset))
    {
      hide FindClose, Unescape, Escapes;
      var p := offset + 1;
      ok := false;
      if content[offset] == QUOTE {
        var closed, close, skipped := MeasureString();
        if closed {
          var text;
          text, p := UnescapeString(offset + 1, close, skipped);
          if text.Some? {
            item.kind := StringKind;
            item.valuestring := text.value;
            ok, p := true, close + 1;
          }
        }
      }
      offset := p;
    }

    // Copies the number's bytes, at most 63 of them, into a buffer for strtod.
    method NumberText() returns (text: seq<byte>)
      requires Valid()
      ensures text == NumberRun(content, offset, NUMBER_ROOM)
    {
      hide NumberRun;
      var buffer := new byte[64];
      var i := 0;
      while i < buffer.Length - 1 && offset + i < |content| && IsNumberByte(content[offset + i])
        invariant 0 <= i <= NUMBER_ROOM && offset + i <= |content|
        invariant buffer[..i] == content[offset..offset + i]
        invariant forall k :: offset <= k < offset + i ==> IsNumberByte(content[k])
      {
        buffer[i] := content[offset + i];
        i := i + 1;
        assert buffer[..i] == buffer[..i - 1] + [content[offset + i - 1]];
      }
      text := buffer[..i];
      buffer[i] := NUL;
      NumberRunIs(content, offset, text, NUMBER_ROOM);
    }

    method ParseNumber(item: Node) returns (ok: bool)
      requires Valid()
      modifies this`offset, item`kind, item`valueint, item`valuedouble
      ensures Valid() && (ok <==> JsonGrammar.ParseNumber(content, old(offset)).Done?)
      ensures ok ==> var r := JsonGrammar.ParseNumber(content, old(offset));
                     && offset == r.next && item.kind == NumberKind
                     && r.value == JNumber(item.valueint, item.valuedouble)
    {
      hide ReadDouble, NumberRun, SaturatedInt;
      var text := NumberText();
      var d := ReadDouble(text);
      if d.length == 0 { return false; }
      item.valuedouble := d.value;
      item.valueint := SaturatedInt(d.value);
      item.kind := NumberKind;
      offset := offset + d.length;
      ok := true;
    }

    // parse_value fills the new item it is given; the item's own links and name
    // stay as they are, and its children are new nodes.
    method ParseValue(item: Node) returns (ok: bool)
      requires Valid() && Blank(item)
      modifies this`offset, this`depth, item
      ensures Valid() && (ok <==> JsonGrammar.ParseValue(content, old(offset), old(depth)).Done?)
      ensures ok ==> var r := JsonGrammar.ParseValue(content, old(offset), old(depth));
                     && offset == r.next && depth == old(depth) && Tree(item) && Value(item) == r.value
      ensures ok ==> fresh(item.repr - {item})
      ensures item.next == old(item.next) && item.prev == old(item.prev) && item.name == old(item.name)
      decreases |content| - offset, 2
    {
      hide At, JsonGrammar.ParseArray, JsonGrammar.ParseObject, JsonGrammar.ParseString, JsonGrammar.ParseNumber;
      if At(content, offset, NULL_TEXT) {
        KeywordFits(content, offset, NULL_TEXT);
        item.kind := NullKind;
        offset := offset + 4;
        return true;
      }
      if At(content, offset, FALSE_TEXT) {
        KeywordFits(content, offset, FALSE_TEXT);
        item.kind := FalseKind;
        offset := offset + 5;
        return true;
      }
      if At(content, offset, TRUE_TEXT) {
        KeywordFits(content, offset, TRUE_TEXT);
        item.kind := TrueKind;
        item.valueint := 1;
        offset := offset + 4;
        return true;
      }
      if offset >= |content| { return false; }
      if content[offset] == QUOTE {
        ok := ParseString(item);
      } else if StartsNumber(content[offset]) {
        ok := ParseNumber(item);
      } else if content[offset] == LBRACKET {
        ok := ParseArray(item);
      } else if content[offset] == LBRACE {
        ok := ParseObject(item);
      } else {
        ok := false;
      }
    }

    method ParseArray(item: Node) returns (ok: bool)
      requires Valid() && offset < |content| && content[offset] == LBRACKET && Blank(item)
      modifies this`offset, this`depth, item
      ensures Valid() && (ok <==> JsonGrammar.ParseArray(content, old(offset), old(depth)).Done?)
      ensures ok ==> var r := JsonGrammar.ParseArray(content, old(offset), old(depth));
                     && offset == r.next && depth == old(depth) && Tree(item) && Value(item) == r.value
      ensures ok ==> fresh(item.repr - {item})
      ensures item.next == old(item.next) && item.prev == old(item.prev) && item.name == old(item.name)
      decreases |content| - offset, 1
    {
      hide ParseItems, SkipBlanks, Tree, Value, Strung;
      if depth >= NESTING_LIMIT { return false; }
      depth := depth + 1;
      offset := offset + 1;
      SkipWhitespace();
      var head: Node?, current: Node? := null, null;
      ghost var b := NOTHING;
      NothingStrung();
      if offset < |content| && content[offset] == RBRACKET {
        assert b.vs == [];
      } else {
        if offset >= |content| {
          offset := offset - 1;
          return false;
        }
        offset := offset - 1;
        ok, head, current, b := ParseElements();
        if !ok || offset >= |content| || content[offset] != RBRACKET { return false; }
      }
      depth := depth - 1;
      Adopt(item, ArrayKind, head, current, b);
      offset := offset + 1;
      ok := true;
    }

    // The do-while loop of parse_array, each round hanging a new node into the list.
    method ParseElements() returns (ok: bool, head: Node?, current: Node?, ghost b: Batch)
      requires Valid() && offset < |content|
      modifies this`offset, this`depth
      ensures Valid() && (ok <==> ParseItems(content, old(offset), old(depth)).Done?)
      ensures ok ==> depth == old(depth) && ParseItems(content, old(offset), old(depth)) == Done(b.vs, offset)
      ensures ok ==> Strung(head, current, b) && fresh(b.nodes)
      decreases |content| - offset, 0
    {
      hide SkipBlanks, JsonGrammar.ParseValue, Strung;
      head, current, b := null, null, NOTHING;
      NothingStrung();
      var more := true;
      PrependNothing(ParseItems(content, offset, depth));
      while more
        invariant old(offset) <= offset <= |content| && depth == old(depth)
        invariant more ==> offset < |content|
        invariant more ==> ParseItems(content, old(offset), old(depth)) ==
                           Prepend(b.vs, ParseItems(content, offset, depth))
        invariant !more ==> ParseItems(content, old(offset), old(depth)) == Done(b.vs, offset)
        invariant Strung(head, current, b) && fresh(b.nodes)
        decreases |content| - offset, more
      {
        ghost var start, before := offset, b.vs;
        ok, head, current, b := ParseElement(head, current, b);
        if !ok { return; }
        if offset < |content| { PrependOne(before, b.vs[|before|], ParseItems(content, offset, depth)); }
        more := offset < |content| && content[offset] == COMMA;
      }
      ok := true;
    }

    // One round of the loop: a new node is attached, then filled.
    method ParseElement(head: Node?, current: Node?, ghost b: Batch)
      returns (ok: bool, head': Node?, n: Node?, ghost more: Batch)
      requires Valid() && offset < |content| && Strung(head, current, b)
      modifies this`offset, this`depth, b.nodes
      ensures Valid()
      ensures var r := JsonGrammar.ParseValue(content, SkipBlanks(content, old(offset) + 1), old(depth));
              && (ok <==> r.Done?)
              && (ok ==> offset == SkipBlanks(content, r.next) && depth == old(depth) && more.vs == b.vs + [r.value])
      ensures ok ==> Strung(head', n, more) && fresh(more.nodes - b.nodes)
      decreases |content| - offset, 0, 1
    {
      hide SkipBlanks, JsonGrammar.ParseValue, Strung, Chained, Grove;
      head', n := NewItem(head, current, b);
      ok, more := FillElement(head', n, b);
    }

    method FillElement(head: Node, n: Node, ghost b: Batch) returns (ok: bool, ghost more: Batch)
      requires Valid() && offset < |content| && Blank(n) && n !in b.nodes && Grove(b) && Chained(head, b.xs + [n])
      modifies this`offset, this`depth, n
      ensures Valid()
      ensures var r := JsonGrammar.ParseValue(content, SkipBlanks(content, old(offset) + 1), old(depth));
              && (ok <==> r.Done?)
              && (ok ==> offset == SkipBlanks(content, r.next) && depth == old(depth) && more.vs == b.vs + [r.value])
      ensures ok ==> Strung(head, n, more) && fresh(more.nodes - b.nodes - {n})
      decreases |content| - offset, 0, 0
    {
      hide SkipBlanks, JsonGrammar.ParseValue, Strung, Tree, Value, Chained;
      RootsWithin(b.xs, b.nodes);
      hide Grove;
      more := b;
      offset := offset + 1;
      SkipWhitespace();
      ok := ParseValue(n);
      if !ok { return; }
      SkipWhitespace();
      ChainStays(Chain(head, b.xs + [n]));
      StrungGrows(head, b, n);
      more := Plus(b, n, n.repr, Value(n), n.name);
    }

    method ParseObject(item: Node) returns (ok: bool)
      requires Valid() && offset < |content| && content[offset] == LBRACE && Blank(item)
      modifies this`offset, this`depth, item
      ensures Valid() && (ok <==> JsonGrammar.ParseObject(content, old(offset), old(depth)).Done?)
      ensures ok ==> var r := JsonGrammar.ParseObject(content, old(offset), old(depth));
                     && offset == r.next && depth == old(depth) && Tree(item) && Value(item) == r.value
      ensures ok ==> fresh(item.repr - {item})
      ensures item.next == old(item.next) && item.prev == old(item.prev) && item.name == old(item.name)
      decreases |content| - offset, 1
    {
      hide JsonGrammar.ParseMembers, SkipBlanks, Tree, Value, Strung;
      if depth >= NESTING_LIMIT { return false; }
      depth := depth + 1;
      offset := offset + 1;
      SkipWhitespace();
      var head: Node?, current: Node? := null, null;
      ghost var b := NOTHING;
      NothingStrung();
      if offset < |content| && content[offset] == RBRACE {
        assert b.vs == [];
      } else {
        if offset >= |content| {
          offset := offset - 1;
          return false;
        }
        offset := offset - 1;
        ok, head, current, b := ParseMembers();
        if !ok || offset >= |content| || content[offset] != RBRACE { return false; }
      }
      depth := depth - 1;
      Adopt(item, ObjectKind, head, current, b);
      offset := offset + 1;
      ok := true;
    }

    // The do-while loop of parse_object.
    method ParseMembers() returns (ok: bool, head: Node?, current: Node?, ghost b: Batch)
      requires Valid() && offset < |content|
      modifies this`offset, this`depth
      ensures Valid() && (ok <==> JsonGrammar.ParseMembers(content, old(offset), old(depth)).Done?)
      ensures ok ==> Strung(head, current, b) && fresh(b.nodes) && |b.names| == |b.vs|
      ensures ok ==> depth == old(depth) &&
                     JsonGrammar.ParseMembers(content, old(offset), old(depth)) == Done(Named(b.names, b.vs), offset)
      decreases |content| - offset, 0
    {
      hide SkipBlanks, ParseMember, Strung;
      head, current, b := null, null, NOTHING;
      NothingStrung();
      var more := true;
      PrependNothing(JsonGrammar.ParseMembers(content, offset, depth));
      while more
        invariant old(offset) <= offset <= |content| && depth == old(depth) && |b.names| == |b.vs|
        invariant more ==> offset < |content|
        invariant more ==> JsonGrammar.ParseMembers(content, old(offset), old(depth)) ==
                           Prepend(Named(b.names, b.vs), JsonGrammar.ParseMembers(content, offset, depth))
        invariant !more ==>
                    JsonGrammar.ParseMembers(content, old(offset), old(depth)) == Done(Named(b.names, b.vs), offset)
        invariant Strung(head, current, b) && fresh(b.nodes)
        decreases |content| - offset, more
      {
        ghost var members := Named(b.names, b.vs);
        ghost var m;
        ok, head, current, b, m := ParseMemberRound(head, current, b);
        if !ok { return; }
        if offset < |content| { PrependOne(members, m, JsonGrammar.ParseMembers(content, offset, depth)); }
        more := offset < |content| && content[offset] == COMMA;
      }
      ok := true;
    }

    // One round of the loop: a new node is attached, then named and filled.
    method ParseMemberRound(head: Node?, current: Node?, ghost b: Batch)
      returns (ok: bool, head': Node?, n: Node?, ghost more: Batch, ghost m: Member)
      requires Valid() && offset < |content| && Strung(head, current, b) && |b.names| == |b.vs|
      modifies this`offset, this`depth, b.nodes
      ensures Valid() && (ok <==> ParseMember(content, old(offset), old(depth)).Done?)
      ensures ok ==> var r := ParseMember(content, old(offset), old(depth));
                     && offset == SkipBlanks(content, r.next) && depth == old(depth) && m == r.value
      ensures ok ==> Strung(head', n, more) && fresh(more.nodes - b.nodes) && |more.names| == |more.vs|
      ensures ok ==> Named(more.names, more.vs) == Named(b.names, b.vs) + [m]
      decreases |content| - offset, 0, 2
    {
      hide SkipBlanks, ParseMember, Strung, Chained, Grove, Named;
      head', n := NewItem(head, current, b);
      ok, more, m := FillMember(head', n, b);
    }

    method FillMember(head: Node, n: Node, ghost b: Batch) returns (ok: bool, ghost more: Batch, ghost m: Member)
      requires Valid() && offset < |content| && Blank(n) && n !in b.nodes && Grove(b) && Chained(head, b.xs + [n])
      requires |b.names| == |b.vs|
      modifies this`offset, this`depth, n
      ensures Valid() && (ok <==> ParseMember(content, old(offset), old(depth)).Done?)
      ensures ok ==> var r := ParseMember(content, old(offset), old(depth));
                     && offset == SkipBlanks(content, r.next) && depth == old(depth) && m == r.value
      ensures ok ==> Strung(head, n, more) && fresh(more.nodes - b.nodes - {n}) && |more.names| == |more.vs|
      ensures ok ==> Named(more.names, more.vs) == Named(b.names, b.vs) + [m]
      decreases |content| - offset, 0, 1
    {
      hide SkipBlanks, ParseMember, Strung, Tree, Value, Chained, Named;
      RootsWithin(b.xs, b.nodes);
      hide Grove;
      more, m := b, Member([], JNull);
      ok := ParseOneMember(n);
      if !ok { return; }
      SkipWhitespace();
      ChainStays(Chain(head, b.xs + [n]));
      StrungGrows(head, b, n);
      m := Member(n.name, Value(n));
      more := Plus(b, n, n.repr, Value(n), n.name);
      NamedPlus(b.names, b.vs, n.name, Value(n));
    }

    // Name, colon and value of a member, read into its node. The name is parsed
    // as the node's text and then moved.
    method ParseOneMember(n: Node) returns (ok: bool)
      requires Valid() && offset < |content| && Blank(n)
      modifies this`offset, this`depth, n
      ensures Valid() && (ok <==> ParseMember(content, old(offset), old(depth)).Done?)
      ensures ok ==> var r := ParseMember(content, old(offset), old(depth));
                     && offset == r.next && depth == old(depth) && Tree(n) && r.value == Member(n.name, Value(n))
      ensures ok ==> fresh(n.repr - {n})
      ensures n.next == old(n.next) && n.prev == old(n.prev)
      decreases |content| - offset, 0, 0
    {
      hide SkipBlanks, JsonGrammar.ParseValue, JsonGrammar.ParseString, Tree, Value;
      if offset + 1 >= |content| { return false; }
      offset := offset + 1;
      SkipWhitespace();
      ok := ParseString(n);
      if !ok { return; }
      SkipWhitespace();
      n.name := n.valuestring;
      n.valuestring := [];
      if offset >= |content| || content[offset] != COLON { return false; }
      offset := offset + 1;
      SkipWhitespace();
      ok := ParseValue(n);
    }
  }

  // ----- nodes -----

  // A new node attached to the list.
  method NewItem(head: Node?, current: Node?, ghost b: Batch) returns (head': Node, n: Node)
    requires Strung(head, current, b)
    modifies b.nodes
    ensures fresh(n) && Blank(n) && n.next == null && n !in b.nodes
    ensures Grove(b) && Chained(head', b.xs + [n])
  {
    hide Grove;
    n := new Node();
    if head == null {
      head' := n;
      FirstChained(n);
    } else {
      head' := head;
      HangBehind(current, n, head, b);
    }
  }

  datatype Chain = Chain(head: Node?, xs: seq<Node>)

  twostate lemma ChainStays(c: Chain)
    requires old(Chained(c.head, c.xs))
    requires forall i :: 0 <= i < |c.xs| ==> c.xs[i].next == old(c.xs[i].next) && c.xs[i].prev == old(c.xs[i].prev)
    ensures Chained(c.head, c.xs)
  {
  }

  // The list is closed and becomes the item's children.
  method Adopt(item: Node, kind: Kind, head: Node?, last: Node?, ghost b: Batch)
    requires Strung(head, last, b) && item !in b.nodes && item.repr == {item} && HasChildren(kind)
    modifies item`kind, item`child, item`children, item`repr, b.nodes
    ensures |b.names| == |b.vs| && Tree(item) && item.repr == b.nodes + {item}
    ensures Value(item) == if kind.ArrayKind? then JArray(b.vs) else JObject(Named(b.names, b.vs))
  {
    assert |b.names| == |b.vs|;
    hide Grove, Tree, Value, Strung, Named;
    item.kind := kind;
    item.child := head;
    Close(item, last, b);
  }

  lemma {:induction false} NamedPlus(names: seq<seq<byte>>, vs: seq<Json>, name: seq<byte>, v: Json)
    requires |names| == |vs|
    ensures Named(names + [name], vs + [v]) == Named(names, vs) + [Member(name, v)]
  {
    if vs != [] {
      NamedPlus(names[1..], vs[1..], name, v);
      assert (names + [name])[1..] == names[1..] + [name] && (vs + [v])[1..] == vs[1..] + [v];
    }
  }

  // Results of a loop that has collected xs already.
  function Prepend<T>(xs: seq<T>, p: Parsed<seq<T>>): Parsed<seq<T>>
  {
    match p
    case Fail => Fail
    case Done(ys, next) => Done(xs + ys, next)
  }

  lemma PrependNothing<T>(p: Parsed<seq<T>>)
    ensures Prepend([], p) == p
  {
    if p.Done? {
      assert [] + p.value == p.value;
    }
  }

  lemma PrependOne<T>(xs: seq<T>, x: T, p: Parsed<seq<T>>)
    ensures Prepend(xs, Prepend([x], p)) == Prepend(xs + [x], p)
  {
    if p.Done? {
      assert xs + ([x] + p.value) == (xs + [x]) + p.value;
    }
  }

  lemma KeywordFits(s: seq<byte>, o: nat, word: seq<byte>)
    requires At(s, o, word)
    ensures o + |word| <= |s|
  {
  }

  // cJSON_ParseWithLengthOpts: a new tree of nodes, well formed at every level.
  method ParseWithLengthOpts(value: seq<byte>, requireNul: bool) returns (item: Node?, end: nat)
    ensures item != null <==> ParseText(value, requireNul).Done?
    ensures item != null ==> fresh(item) && fresh(item.repr) && Tree(item)
    ensures item != null ==> ParseText(value, requireNul) == Done(Value(item), end)
  {
    hide SkipBlanks, JsonGrammar.ParseValue, At, Tree, Value;
    item, end := null, 0;
    if |value| == 0 { return; }
    var buffer := new ParseBuffer(value);
    var root := new Node();
    if 4 < |value| && At(value, 0, BOM) {
      buffer.offset := 3;
    }
    buffer.SkipWhitespace();
    var ok := buffer.ParseValue(root);
    if !ok { return; }
    if requireNul {
      buffer.SkipWhitespace();
      if buffer.offset >= |value| || value[buffer.offset] != NUL { return; }
    }
    item, end := root, buffer.offset;
  }
}
