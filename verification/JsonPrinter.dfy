// The printer as it runs: text goes into a buffer that is grown on demand, and
// each routine is proved to leave the text of JsonText there.
module JsonPrinter {
  import opened Bytes
  import opened Decimal
  import opened JsonText
  import opened ChildList
  import opened JsonNodes

  class PrintBuffer {
    var buffer: array<byte>
    var offset: nat
    var depth: nat
    const noalloc: bool
    const format: bool

    // `length` is the size of the array.
    predicate Valid()
      reads this
    {
      buffer.Length <= INT_MAX && (offset < buffer.Length || offset == buffer.Length == 0)
    }

    // The most bytes the buffer can ever hold.
    function Limit(): int
      reads this
    {
      if noalloc then buffer.Length else INT_MAX
    }

    // The buffer holds `before` and `text`, a NUL behind them and a byte to
    // spare; the offset is somewhere in `text`.
    predicate Holds(before: seq<byte>, text: seq<byte>)
      reads this, buffer
    {
      var end := |before| + |text|;
      && |before| <= offset <= end && end + 1 < buffer.Length
      && buffer[..end] == before + text && buffer[end] == NUL
    }

    // The buffer holds `text` up to the offset.
    predicate Wrote(text: seq<byte>)
      reads this, buffer
    {
      |text| == offset < buffer.Length && buffer[..offset] == text
    }

    constructor (buffer: array<byte>, noalloc: bool, format: bool)
      requires buffer.Length <= INT_MAX
      ensures Valid() && offset == 0 && depth == 0
      ensures this.buffer == buffer && this.noalloc == noalloc && this.format == format
    {
      this.buffer := buffer;
      this.noalloc := noalloc;
      this.format := format;
      offset := 0;
      depth := 0;
    }

    // ensure: room for `needed` more bytes and one to spare behind the offset.
    method Ensure(needed: nat) returns (ok: bool)
      requires Valid()
      modifies this`buffer
      ensures Valid() && Limit() == old(Limit())
      ensures ok <==> offset + needed + 1 <= Limit()
      ensures ok ==> offset + needed + 1 <= buffer.Length
      ensures buffer == old(buffer) || (fresh(buffer) && !noalloc)
      ensures buffer == old(buffer) <==> !ok || offset + needed + 1 <= old(buffer.Length)
      ensures buffer != old(buffer) ==> buffer.Length == Grown(offset + needed + 1)
      ensures offset <= buffer.Length && buffer[..offset] == old(buffer[..offset])
    {
      if needed > INT_MAX { return false; }
      var size := offset + needed + 1;
      if size <= buffer.Length { return true; }
      if noalloc { return false; }
      var newsize := 2 * size;
      if size > INT_MAX / 2 {
        if size > INT_MAX { return false; }
        newsize := INT_MAX;
      }
      var newbuffer := new byte[newsize];
      var i := 0;
      while i < offset
        invariant 0 <= i <= offset && buffer == old(buffer)
        invariant newbuffer[..i] == buffer[..i]
      {
        newbuffer[i] := buffer[i];
        i := i + 1;
      }
      buffer := newbuffer;
      ok := true;
    }

    // update_offset: moves on to the NUL behind the offset.
    method UpdateOffset(ghost before: seq<byte>, ghost text: seq<byte>)
      requires Valid() && Holds(before, text) && NulFree(text)
      modifies this`offset
      ensures Valid() && Wrote(before + text)
    {
      ghost var end := |before| + |text|;
      HeldBytes(before, text);
      while buffer[offset] != NUL
        invariant |before| <= offset <= end && buffer == old(buffer) && Holds(before, text)
        invariant forall k :: |before| <= k < end ==> buffer[k] != NUL
        decreases end - offset
      {
        offset := offset + 1;
      }
    }

    lemma HeldBytes(before: seq<byte>, text: seq<byte>)
      requires Holds(before, text) && NulFree(text)
      ensures forall k :: |before| <= k < |before| + |text| ==> buffer[k] != NUL
    {
      forall k | |before| <= k < |before| + |text| ensures buffer[k] != NUL {
        assert buffer[..|before| + |text|][k] == text[k - |before|];
      }
    }

    // ensure and a copy of `text` behind the offset, which does not move.
    method Emit(text: seq<byte>, needed: nat) returns (ok: bool)
      requires Valid() && |text| <= needed + 1
      modifies this`buffer, buffer
      ensures Valid() && Limit() == old(Limit())
      ensures buffer == old(buffer) || (fresh(buffer) && !noalloc)
      ensures ok <==> offset + needed + 1 <= Limit()
      ensures ok ==> offset + needed + 1 <= buffer.Length && buffer[..offset + |text|] == old(buffer[..offset]) + text
    {
      ok := Ensure(needed);
      if ok { CopyInto(buffer, offset, text); }
    }

    // Text that the offset moves past at once.
    method Append(text: seq<byte>, needed: nat) returns (ok: bool)
      requires Valid() && |text| <= needed
      modifies this`buffer, this`offset, buffer
      ensures Valid() && Limit() == old(Limit())
      ensures buffer == old(buffer) || (fresh(buffer) && !noalloc)
      ensures ok <==> old(offset) + needed + 1 <= Limit()
      ensures ok ==> Wrote(old(buffer[..offset]) + text)
    {
      ok := Emit(text, needed);
      if ok { offset := offset + |text|; }
    }

    // Text and its NUL, onto which the offset moves at once.
    method AppendEnded(text: seq<byte>) returns (ok: bool)
      requires Valid()
      modifies this`buffer, this`offset, buffer
      ensures Valid() && Limit() == old(Limit())
      ensures buffer == old(buffer) || (fresh(buffer) && !noalloc)
      ensures ok <==> old(offset) + |text| + 2 <= Limit()
      ensures ok ==> Wrote(old(buffer[..offset]) + text)
    {
      ghost var start := buffer[..offset];
      ok := Emit(text + [NUL], |text| + 1);
      if !ok { return; }
      offset := offset + |text|;
      assert start + (text + [NUL]) == (start + text) + [NUL];
      assert buffer[..offset] == buffer[..offset + 1][..offset];
    }

    // Text and its NUL; the offset does not move.
    method PutText(text: seq<byte>) returns (ok: bool)
      requires Valid()
      modifies this`buffer, buffer
      ensures Valid() && Limit() == old(Limit())
      ensures buffer == old(buffer) || (fresh(buffer) && !noalloc)
      ensures ok <==> offset + |text| + 2 <= Limit()
      ensures ok ==> Holds(old(buffer[..offset]), text)
    {
      ok := Emit(text + [NUL], |text| + 1);
      if ok {
        HeldText(old(buffer[..offset]), text);
      }
    }

    lemma HeldText(before: seq<byte>, text: seq<byte>)
      requires |before| == offset && |before| + |text| + 1 < buffer.Length
      requires buffer[..|before| + |text| + 1] == before + (text + [NUL])
      ensures Holds(before, text)
    {
      var end := |before| + |text|;
      assert before + (text + [NUL]) == (before + text) + [NUL];
      assert buffer[..end] == buffer[..end + 1][..end];
      assert buffer[end] == buffer[..end + 1][end];
    }

    // The `%d` path of print_number.
    method PrintNumber(n: int) returns (ok: bool)
      requires Valid() && INT_MIN <= n <= INT_MAX
      modifies this`buffer, this`offset, buffer
      ensures Valid() && Limit() == old(Limit())
      ensures buffer == old(buffer) || (fresh(buffer) && !noalloc)
      ensures ok <==> old(offset) + |IntText(n)| + 2 <= Limit()
      ensures ok ==> Holds(old(buffer[..offset]), IntText(n))
    {
      hide IntText;
      ok := PutText(IntText(n));
      if ok { offset := offset + |IntText(n)|; }
    }

    // First loop of print_string_ptr: the bytes escaping adds.
    method CountEscapes(t: seq<byte>) returns (extra: nat)
      ensures |t| + extra + 2 == |StringText(t)|
    {
      extra := 0;
      var i := 0;
      while i < |t|
        invariant 0 <= i <= |t| && extra + i + |LiteralTail(t[i..])| == |LiteralTail(t)|
      {
        if t[i] == QUOTE || t[i] == BACKSLASH || t[i] == BACKSPACE || t[i] == FORMFEED ||
           t[i] == NEWLINE || t[i] == RETURN || t[i] == TAB {
          extra := extra + 1;
        } else if t[i] < 32 {
          extra := extra + 5;
        }
        assert t[i..][1..] == t[i + 1..];
        i := i + 1;
      }
    }

    // Writes the escape of b at `at`, as the second loop does.
    method StoreEscaped(at: nat, b: byte) returns (next: nat)
      requires at + |EscapedByte(b)| <= buffer.Length
      modifies buffer
      ensures next == at + |EscapedByte(b)| && buffer[..next] == old(buffer[..at]) + EscapedByte(b)
    {
      var escape: seq<byte>;
      if b > 31 && b != QUOTE && b != BACKSLASH {
        escape := [b];
      } else if b == BACKSLASH {
        escape := [BACKSLASH, BACKSLASH];
      } else if b == QUOTE {
        escape := [BACKSLASH, QUOTE];
      } else if b == BACKSPACE {
        escape := [BACKSLASH, LOWER_B];
      } else if b == FORMFEED {
        escape := [BACKSLASH, LOWER_F];
      } else if b == NEWLINE {
        escape := [BACKSLASH, LOWER_N];
      } else if b == RETURN {
        escape := [BACKSLASH, LOWER_R];
      } else if b == TAB {
        escape := [BACKSLASH, LOWER_T];
      } else {
        escape := [BACKSLASH, LOWER_U, ZERO, ZERO, HexDigit(b / 16), HexDigit(b % 16)];
      }
      CopyInto(buffer, at, escape);
      next := at + |escape|;
    }

    // Second loop of print_string_ptr, between the quotes.
    method StoreLiteral(t: seq<byte>)
      requires Valid() && offset + |StringText(t)| + 2 <= buffer.Length
      modifies buffer
      ensures Holds(old(buffer[..offset]), StringText(t))
    {
      hide EscapedByte;
      ghost var goal := old(buffer[..offset]) + StringText(t);
      CopyInto(buffer, offset, [QUOTE]);
      var at: nat := offset + 1;
      var i := 0;
      while i < |t|
        invariant 0 <= i <= |t| && at + |LiteralTail(t[i..])| == |goal| && at <= buffer.Length
        invariant buffer[..at] + LiteralTail(t[i..]) == goal
      {
        ghost var start := buffer[..at];
        assert t[i..][1..] == t[i + 1..];
        at := StoreEscaped(at, t[i]);
        assert start + (EscapedByte(t[i]) + LiteralTail(t[i + 1..])) ==
               (start + EscapedByte(t[i])) + LiteralTail(t[i + 1..]);
        i := i + 1;
      }
      assert t[i..] == [] && LiteralTail(t[i..]) == [QUOTE];
      ghost var start := buffer[..at];
      CopyInto(buffer, at, [QUOTE, NUL]);
      assert start + [QUOTE, NUL] == goal + [NUL] == old(buffer[..offset]) + (StringText(t) + [NUL]);
      HeldText(old(buffer[..offset]), StringText(t));
    }

    method PrintString(t: seq<byte>) returns (ok: bool)
      requires Valid()
      modifies this`buffer, buffer
      ensures Valid() && Limit() == old(Limit())
      ensures buffer == old(buffer) || (fresh(buffer) && !noalloc)
      ensures ok <==> offset + |StringText(t)| + 2 <= Limit()
      ensures ok ==> Holds(old(buffer[..offset]), StringText(t))
    {
      var extra := CountEscapes(t);
      hide LiteralTail;
      ok := Ensure(|t| + extra + 3);
      if !ok { return; }
      if extra == 0 {
        NothingEscaped(t);
        CopyInto(buffer, offset, [QUOTE] + t + [QUOTE, NUL]);
        assert [QUOTE] + t + [QUOTE, NUL] == StringText(t) + [NUL];
        HeldText(old(buffer[..offset]), StringText(t));
      } else {
        StoreLiteral(t);
      }
    }

    // print_value of a tree that stands for v, its texts cut at their first NUL.
    method PrintValue(item: Node?, ghost v: Json) returns (ok: bool)
      requires Valid() && Printable(v) && (item != null ==> Tree(item) && Cut(Value(item)) == v)
      modifies this, buffer
      ensures Valid() && Limit() == old(Limit())
      ensures buffer == old(buffer) || (fresh(buffer) && !noalloc)
      ensures ok <==> item != null && old(offset) + |ValueText(v, format, old(depth))| + 2 <= Limit()
      ensures ok ==> depth == old(depth) && Holds(old(buffer[..offset]), ValueText(v, format, old(depth)))
      decreases if item == null then {} else item.repr, 3
    {
      if item == null { return false; }
      ghost var o := Brood(item);
      WhatToPrint(item, o, v);
      hide Tree, Value, JsonNodes.Holds, Brood, Printable, Cut, Named, Holds, PrintableItems, PrintableMembers;
      match item.kind {
        case NullKind => ok := PutText(NULL_TEXT);
        case FalseKind => ok := PutText(FALSE_TEXT);
        case TrueKind => ok := PutText(TRUE_TEXT);
        case NumberKind => ok := PrintNumber(item.valueint);
        case StringKind => ok := PrintString(CText(item.valuestring));
        case ArrayKind => ok := PrintArray(item, o);
        case ObjectKind => ok := PrintObject(item, o);
      }
    }

    // print_value and update_offset.
    method PrintThrough(item: Node?, ghost v: Json) returns (ok: bool)
      requires Valid() && Printable(v) && (item != null ==> Tree(item) && Cut(Value(item)) == v)
      modifies this, buffer
      ensures Valid() && Limit() == old(Limit())
      ensures buffer == old(buffer) || (fresh(buffer) && !noalloc)
      ensures ok <==> item != null && old(offset) + |ValueText(v, format, old(depth))| + 2 <= Limit()
      ensures ok ==> depth == old(depth) && Wrote(old(buffer[..offset]) + ValueText(v, format, old(depth)))
      decreases if item == null then {} else item.repr, 4
    {
      hide ValueText, Printable, NulFree, Tree, Value;
      ghost var start := buffer[..offset];
      ok := PrintValue(item, v);
      if ok {
        ValueHasNoNul(v, format, depth);
        UpdateOffset(start, ValueText(v, format, depth));
      }
    }

    method PrintArray(item: Node, ghost o: Batch) returns (ok: bool)
      requires Valid() && JsonNodes.Holds(item, o) && item.kind.ArrayKind? && PrintableItems(CutItems(o.vs))
      modifies this, buffer
      ensures Valid() && Limit() == old(Limit())
      ensures buffer == old(buffer) || (fresh(buffer) && !noalloc)
      ensures ok <==> old(offset) + |ValueText(JArray(CutItems(o.vs)), format, old(depth))| + 2 <= Limit()
      ensures ok ==> depth == old(depth)
      ensures ok ==> Holds(old(buffer[..offset]), ValueText(JArray(CutItems(o.vs)), format, old(depth)))
      decreases item.repr, 2
    {
      hide ItemsText, PrintableItems, Holds, JsonNodes.Holds, Tree, Value;
      ghost var before, body := buffer[..offset], ItemsText(CutItems(o.vs), format, depth + 1);
      ok := Append([LBRACKET], 1);
      if !ok { return; }
      depth := depth + 1;
      ok := PrintItems(item, o);
      if !ok { return; }
      ok := PutClose([RBRACKET], before, [LBRACKET], body);
    }

    // What print_array and print_object end with.
    method PutClose(close: seq<byte>, ghost before: seq<byte>, ghost open: seq<byte>, ghost body: seq<byte>)
        returns (ok: bool)
      requires Valid() && depth > 0 && Wrote((before + open) + body)
      modifies this, buffer
      ensures Valid() && Limit() == old(Limit())
      ensures buffer == old(buffer) || (fresh(buffer) && !noalloc)
      ensures ok <==> |before| + |open + (body + close)| + 2 <= Limit()
      ensures ok ==> depth == old(depth) - 1 && Holds(before, open + (body + close))
    {
      hide Holds;
      ok := PutText(close);
      if !ok { return; }
      depth := depth - 1;
      HeldAll(before, open, body, close);
    }

    // Text held in parts is held as a whole.
    lemma HeldAll(before: seq<byte>, open: seq<byte>, body: seq<byte>, close: seq<byte>)
      requires Holds((before + open) + body, close)
      ensures Holds(before, open + (body + close))
    {
      assert ((before + open) + body) + close == before + (open + (body + close));
    }

    // The loop of print_array.
    method PrintItems(item: Node, ghost o: Batch) returns (ok: bool)
      requires Valid() && JsonNodes.Holds(item, o) && PrintableItems(CutItems(o.vs)) && offset < buffer.Length
      modifies this, buffer
      ensures Valid() && Limit() == old(Limit())
      ensures buffer == old(buffer) || (fresh(buffer) && !noalloc)
      ensures var t := ItemsText(CutItems(o.vs), format, old(depth));
              && (ok <==> o.vs == [] || old(offset) + |t| + 2 <= Limit())
              && (ok ==> depth == old(depth) && Wrote(old(buffer[..offset]) + t))
      decreases item.repr, 1
    {
      hide ItemsText, PrintableItems, ElementText, JsonNodes.Holds, Tree, Value, Cut, CutItems;
      ghost var vs := CutItems(o.vs);
      ghost var goal := buffer[..offset] + ItemsText(vs, format, depth);
      ghost var i := 0;
      var current := item.child;
      ok := true;
      FirstChild(item, o);
      assert vs[0..] == vs;
      while current != null
        invariant 0 <= i <= |vs| && PrintableItems(vs[i..]) && JsonNodes.Holds(item, o) && IsChild(item, i, current)
        invariant |vs| == |item.children|
        invariant Valid() && Limit() == old(Limit()) && depth == old(depth) && ok
        invariant buffer == old(buffer) || (fresh(buffer) && !noalloc)
        invariant offset < buffer.Length
        invariant i == |vs| > 0 ==> offset + 2 <= Limit()
        invariant buffer[..offset] + ItemsText(vs[i..], format, depth) == goal
        decreases |vs| - i
      {
        ghost var start := buffer[..offset];
        ItemsFrom(vs, i, format, depth);
        ChildIs(item, o, i);
        ok := PrintElement(current, vs[i]);
        if !ok { return; }
        ConcatAssoc(start, ElementText(vs[i], i + 1 < |vs|, format, depth),
          ItemsText(vs[i + 1..], format, depth));
        i := i + 1;
        current := current.next;
      }
      NoItems(vs[i..], format, depth);
    }

    // One round of the loop of print_array.
    method PrintElement(element: Node, ghost v: Json) returns (ok: bool)
      requires Valid() && Printable(v) && Tree(element) && Cut(Value(element)) == v
      modifies this, buffer
      ensures Valid() && Limit() == old(Limit())
      ensures buffer == old(buffer) || (fresh(buffer) && !noalloc)
      ensures var t := ElementText(v, element.next != null, format, old(depth));
              && (ok <==> old(offset) + |t| + 2 <= Limit())
              && (ok ==> depth == old(depth) && Wrote(old(buffer[..offset]) + t))
      decreases element.repr, 5
    {
      hide ValueText, Printable, Tree, Value, Cut;
      ghost var start, t := buffer[..offset], ValueText(v, format, depth);
      ok := PrintThrough(element, v);
      if !ok { return; }
      var sep := ItemSeparator(format, element.next != null);
      if element.next != null {
        ok := AppendEnded(sep);
        assert (start + t) + sep == start + (t + sep);
      } else {
        assert t + sep == t;
      }
    }

    method PrintObject(item: Node, ghost o: Batch) returns (ok: bool)
      requires Valid() && JsonNodes.Holds(item, o) && item.kind.ObjectKind?
      requires |o.names| == |o.vs| && PrintableMembers(CutMembers(Named(o.names, o.vs)))
      modifies this, buffer
      ensures Valid() && Limit() == old(Limit())
      ensures buffer == old(buffer) || (fresh(buffer) && !noalloc)
      ensures var t := ValueText(JObject(CutMembers(Named(o.names, o.vs))), format, old(depth));
              && (ok <==> old(offset) + |t| + 2 <= Limit())
              && (ok ==> depth == old(depth) && Holds(old(buffer[..offset]), t))
      decreases item.repr, 2
    {
      hide MembersText, PrintableMembers, Holds, ObjectOpen, ObjectClose, JsonNodes.Holds, Named, ValueText, Tree,
        Value;
      ghost var before, body := buffer[..offset], MembersText(CutMembers(Named(o.names, o.vs)), format, depth + 1);
      ObjectTextIs(CutMembers(Named(o.names, o.vs)), format, depth);
      var open, close := ObjectOpen(format), ObjectClose(format, depth);
      ok := Append(open, |open| + 1);
      if !ok { return; }
      depth := depth + 1;
      ok := PrintMembers(item, o);
      if !ok { return; }
      ok := PutClose(close, before, open, body);
    }

    // The loop of print_object.
    method PrintMembers(item: Node, ghost o: Batch) returns (ok: bool)
      requires Valid() && JsonNodes.Holds(item, o) && offset < buffer.Length
      requires |o.names| == |o.vs| && PrintableMembers(CutMembers(Named(o.names, o.vs)))
      modifies this, buffer
      ensures Valid() && Limit() == old(Limit())
      ensures buffer == old(buffer) || (fresh(buffer) && !noalloc)
      ensures var t := MembersText(CutMembers(Named(o.names, o.vs)), format, old(depth));
              && (ok <==> o.vs == [] || old(offset) + |t| + 2 <= Limit())
              && (ok ==> depth == old(depth) && Wrote(old(buffer[..offset]) + t))
      decreases item.repr, 1
    {
      hide MembersText, PrintableMembers, MemberText, JsonNodes.Holds, Tree, Value, Named, Cut, CutMembers;
      ghost var members := CutMembers(Named(o.names, o.vs));
      ghost var goal := buffer[..offset] + MembersText(members, format, depth);
      ghost var i := 0;
      var current := item.child;
      ok := true;
      FirstChild(item, o);
      assert members[0..] == members;
      while current != null
        invariant 0 <= i <= |members| && PrintableMembers(members[i..])
        invariant JsonNodes.Holds(item, o) && IsChild(item, i, current) && |members| == |item.children|
        invariant Valid() && Limit() == old(Limit()) && depth == old(depth) && ok
        invariant buffer == old(buffer) || (fresh(buffer) && !noalloc)
        invariant offset < buffer.Length
        invariant i == |members| > 0 ==> offset + 2 <= Limit()
        invariant buffer[..offset] + MembersText(members[i..], format, depth) == goal
        decreases |members| - i
      {
        ghost var start := buffer[..offset];
        MembersFrom(members, i, format, depth);
        ChildIs(item, o, i);
        NamedAt(o.names, o.vs, i);
        ok := PrintMember(current, members[i]);
        if !ok { return; }
        ConcatAssoc(start, MemberText(members[i], i + 1 < |members|, format, depth),
          MembersText(members[i + 1..], format, depth));
        i := i + 1;
        current := current.next;
      }
      NoMembers(members[i..], format, depth);
    }

    // One round of the loop of print_object.
    method PrintMember(element: Node, ghost m: Member) returns (ok: bool)
      requires Valid() && NulFree(m.key) && Printable(m.value)
      requires Tree(element) && m == Member(CText(element.name), Cut(Value(element)))
      modifies this, buffer
      ensures Valid() && Limit() == old(Limit())
      ensures buffer == old(buffer) || (fresh(buffer) && !noalloc)
      ensures var t := MemberText(m, element.next != null, format, old(depth));
              && (ok <==> old(offset) + |t| + 2 <= Limit())
              && (ok ==> depth == old(depth) && Wrote(old(buffer[..offset]) + t))
      decreases element.repr, 5
    {
      hide ValueText, Printable, KeyText, Tree, Value, Cut, CText, NulFree, MemberEnd;
      ghost var start, key, t := buffer[..offset], KeyText(m.key, format, depth), ValueText(m.value, format, depth);
      ok := PrintKey(CText(element.name));
      if !ok { return; }
      ok := PrintThrough(element, m.value);
      if !ok { return; }
      var end := MemberEnd(format, element.next != null);
      ok := AppendEnded(end);
      MemberConcat(start, key, t, end);
    }

    // The indented key and the colon.
    method PrintKey(key: seq<byte>) returns (ok: bool)
      requires Valid() && NulFree(key)
      modifies this`buffer, this`offset, buffer
      ensures Valid() && Limit() == old(Limit())
      ensures buffer == old(buffer) || (fresh(buffer) && !noalloc)
      ensures old(offset) + |KeyText(key, format, depth)| + 2 <= Limit() ==> ok
      ensures ok ==> Wrote(old(buffer[..offset]) + KeyText(key, format, depth))
    {
      hide StringText, NulFree;
      ghost var start, tabs := buffer[..offset], Indent(format, depth);
      if format {
        ok := Append(Tabs(depth), depth);
        if !ok { return; }
      }
      assert buffer[..offset] == start + tabs;
      ok := PrintString(key);
      if !ok { return; }
      StringHasNoNul(key);
      UpdateOffset(start + tabs, StringText(key));
      var colon := KeySeparator(format);
      ok := Append(colon, |colon|);
      assert ((start + tabs) + StringText(key)) + colon == start + (tabs + (StringText(key) + colon));
    }
  }

  // The cases of print_value.
  lemma WhatToPrint(item: Node, o: Batch, v: Json)
    requires Tree(item) && Cut(Value(item)) == v && Printable(v) && o == Brood(item)
    ensures JsonNodes.Holds(item, o) && |o.names| == |o.vs|
    ensures match item.kind
            case NullKind => v == JNull
            case FalseKind => v == JFalse
            case TrueKind => v == JTrue
            case NumberKind => v.JNumber? && v.valueint == item.valueint && INT_MIN <= item.valueint <= INT_MAX
            case StringKind => v == JString(CText(item.valuestring))
            case ArrayKind => v == JArray(CutItems(o.vs)) && PrintableItems(CutItems(o.vs))
            case ObjectKind =>
              v == JObject(CutMembers(Named(o.names, o.vs))) && PrintableMembers(CutMembers(Named(o.names, o.vs)))
  {
    TreeHolds(item);
    hide Tree, Value;
  }

  // The size of a buffer grown for `size` bytes: twice as many, or all there may be.
  function Grown(size: nat): int { if size <= INT_MAX / 2 then 2 * size else INT_MAX }

  lemma MemberConcat(start: seq<byte>, key: seq<byte>, t: seq<byte>, end: seq<byte>)
    ensures ((start + key) + t) + end == start + (key + (t + end))
  {
  }

  lemma ConcatAssoc(a: seq<byte>, b: seq<byte>, c: seq<byte>)
    ensures (a + b) + c == a + (b + c)
  {
  }

  lemma ObjectTextIs(members: seq<Member>, format: bool, depth: nat)
    ensures ValueText(JObject(members), format, depth) ==
            ObjectOpen(format) + (MembersText(members, format, depth + 1) + ObjectClose(format, depth))
  {
  }

  lemma NoItems(items: seq<Json>, format: bool, depth: nat)
    requires items == []
    ensures ItemsText(items, format, depth) == [] && forall t: seq<byte> :: t + [] == t
  {
  }

  lemma NoMembers(members: seq<Member>, format: bool, depth: nat)
    requires members == []
    ensures MembersText(members, format, depth) == [] && forall t: seq<byte> :: t + [] == t
  {
  }

  function ElementText(v: Json, more: bool, format: bool, depth: nat): seq<byte>
  {
    ValueText(v, format, depth) + ItemSeparator(format, more)
  }

  function MemberText(m: Member, more: bool, format: bool, depth: nat): seq<byte>
  {
    KeyText(m.key, format, depth) + (ValueText(m.value, format, depth) + MemberEnd(format, more))
  }

  lemma ItemsFrom(items: seq<Json>, i: nat, format: bool, depth: nat)
    requires i < |items| && PrintableItems(items[i..])
    ensures Printable(items[i]) && PrintableItems(items[i + 1..])
    ensures ItemsText(items[i..], format, depth) ==
            ElementText(items[i], i + 1 < |items|, format, depth) + ItemsText(items[i + 1..], format, depth)
  {
    hide ValueText, ItemSeparator, Printable;
    assert items[i..][1..] == items[i + 1..];
  }

  lemma MembersFrom(members: seq<Member>, i: nat, format: bool, depth: nat)
    requires i < |members| && PrintableMembers(members[i..])
    ensures NulFree(members[i].key) && Printable(members[i].value) && PrintableMembers(members[i + 1..])
    ensures MembersText(members[i..], format, depth) ==
            MemberText(members[i], i + 1 < |members|, format, depth) + MembersText(members[i + 1..], format, depth)
  {
    hide ValueText, KeyText, MemberEnd, Printable, NulFree;
    assert members[i..][1..] == members[i + 1..];
  }

  // ----- the text has no NUL of its own -----

  lemma NoNulConcat(t: seq<byte>, u: seq<byte>)
    requires NulFree(t) && NulFree(u)
    ensures NulFree(t + u)
  {
  }

  lemma {:induction false} TailHasNoNul(t: seq<byte>)
    requires NulFree(t)
    ensures NulFree(LiteralTail(t))
  {
    if t != [] {
      TailHasNoNul(t[1..]);
      assert NulFree(EscapedByte(t[0]));
      NoNulConcat(EscapedByte(t[0]), LiteralTail(t[1..]));
    }
  }

  lemma StringHasNoNul(t: seq<byte>)
    requires NulFree(t)
    ensures NulFree(StringText(t))
  {
    TailHasNoNul(t);
  }

  lemma {:induction false} ValueHasNoNul(v: Json, format: bool, depth: nat)
    requires Printable(v)
    ensures NulFree(ValueText(v, format, depth))
    decreases v, 1
  {
    hide StringText, ItemsText, MembersText, IntText;
    match v
    case JString(t) => StringHasNoNul(t);
    case JArray(items) => ItemsHaveNoNul(items, format, depth + 1);
    case JObject(members) => MembersHaveNoNul(members, format, depth + 1);
    case _ =>
  }

  lemma {:induction false} ItemsHaveNoNul(items: seq<Json>, format: bool, depth: nat)
    requires PrintableItems(items)
    ensures NulFree(ItemsText(items, format, depth))
    decreases items, 0
  {
    if items != [] {
      hide ValueText;
      ValueHasNoNul(items[0], format, depth);
      ItemsHaveNoNul(items[1..], format, depth);
    }
  }

  lemma KeyHasNoNul(key: seq<byte>, format: bool, depth: nat)
    requires NulFree(key)
    ensures NulFree(KeyText(key, format, depth))
  {
    hide StringText;
    StringHasNoNul(key);
  }

  lemma {:induction false} MembersHaveNoNul(members: seq<Member>, format: bool, depth: nat)
    requires PrintableMembers(members)
    ensures NulFree(MembersText(members, format, depth))
    decreases members, 0
  {
    if members != [] {
      var m, rest := members[0], MembersText(members[1..], format, depth);
      var end := MemberEnd(format, |members| > 1);
      assert NulFree(end);
      hide ValueText, KeyText, NulFree, MemberEnd;
      KeyHasNoNul(m.key, format, depth);
      ValueHasNoNul(m.value, format, depth);
      MembersHaveNoNul(members[1..], format, depth);
      NoNulConcat(end, rest);
      NoNulConcat(ValueText(m.value, format, depth), end + rest);
      NoNulConcat(KeyText(m.key, format, depth), ValueText(m.value, format, depth) + (end + rest));
    } else {
      assert NulFree([]);
    }
  }

  // ----- strings without escapes -----

  // A literal no longer than its bytes holds them as they are.
  lemma NothingEscaped(t: seq<byte>)
    requires |StringText(t)| == |t| + 2
    ensures StringText(t) == [QUOTE] + t + [QUOTE]
  {
    PlainTail(t);
  }

  lemma {:induction false} TailIsLonger(t: seq<byte>)
    ensures |LiteralTail(t)| >= |t| + 1
  {
    if t != [] { TailIsLonger(t[1..]); }
  }

  lemma {:induction false} PlainTail(t: seq<byte>)
    requires |LiteralTail(t)| == |t| + 1
    ensures LiteralTail(t) == t + [QUOTE]
  {
    if t != [] {
      TailIsLonger(t[1..]);
      PlainTail(t[1..]);
      assert EscapedByte(t[0]) == [t[0]];
    }
  }

  // ----- entry points -----

  // The text in front of the first NUL: what the caller of the C function sees.
  predicate IsCString(buffer: seq<byte>, text: seq<byte>)
  {
    |text| < |buffer| && buffer[..|text|] == text && buffer[|text|] == NUL && NulFree(text)
  }

  // cJSON_Print and cJSON_PrintUnformatted: a growing buffer of 256 bytes.
  method Print(item: Node?, format: bool) returns (printed: Option<seq<byte>>)
    requires item != null ==> Tree(item) && Integral(Value(item))
    ensures printed.Some? <==> item != null && |ValueText(Cut(old(Value(item))), format, 0)| + 2 <= INT_MAX
    ensures printed.Some? ==> printed.value == ValueText(Cut(old(Value(item))), format, 0) + [NUL]
  {
    hide ValueText, Tree, Value, Cut, Integral, Printable;
    if item == null { return None; }
    CutShape(Value(item));
    ghost var v := Cut(Value(item));
    var buffer := new byte[256];
    var p := new PrintBuffer(buffer, false, format);
    ghost var t := ValueText(v, format, 0);
    assert p.buffer[..0] + t == t;
    var ok := p.PrintThrough(item, v);
    if !ok { return None; }
    assert p.buffer[..p.offset] == t;
    printed := Some(p.buffer[..p.offset] + [NUL]);
  }

  // cJSON_PrintBuffered: a growing buffer that starts with `prebuffer` bytes.
  method PrintBuffered(item: Node?, prebuffer: int, format: bool) returns (printed: Option<seq<byte>>)
    requires prebuffer <= INT_MAX && (item != null ==> Tree(item) && Integral(Value(item)))
    ensures printed.Some? <==>
              0 <= prebuffer && item != null && |ValueText(Cut(old(Value(item))), format, 0)| + 2 <= INT_MAX
    ensures printed.Some? ==> IsCString(printed.value, ValueText(Cut(old(Value(item))), format, 0))
  {
    hide ValueText, Tree, Value, Cut, Integral, Printable;
    if prebuffer < 0 || item == null { return None; }
    CutShape(Value(item));
    ghost var v := Cut(Value(item));
    var buffer := new byte[prebuffer];
    var p := new PrintBuffer(buffer, false, format);
    ghost var t := ValueText(v, format, 0);
    assert p.buffer[..0] + t == t;
    var ok := p.PrintValue(item, v);
    if !ok { return None; }
    ValueHasNoNul(v, format, 0);
    printed := Some(p.buffer[..]);
    assert printed.value[..|t|] == p.buffer[..|t|];
  }

  // cJSON_PrintPreallocated into the caller's array of `length` bytes: it works
  // exactly when the text and two more bytes fit.
  method PrintPreallocated(item: Node?, buffer: array<byte>, format: bool) returns (ok: bool)
    requires buffer.Length <= INT_MAX && (item != null ==> Tree(item) && Integral(Value(item)))
    modifies buffer
    ensures ok <==> item != null && |ValueText(Cut(old(Value(item))), format, 0)| + 2 <= buffer.Length
    ensures ok ==> IsCString(buffer[..], ValueText(Cut(old(Value(item))), format, 0))
  {
    hide ValueText, Tree, Value, Cut, Integral, Printable;
    if item == null { return false; }
    CutShape(Value(item));
    ghost var v := Cut(Value(item));
    var p := new PrintBuffer(buffer, true, format);
    ghost var t := ValueText(v, format, 0);
    assert p.buffer[..0] + t == t;
    ok := p.PrintValue(item, v);
    if !ok { return; }
    ValueHasNoNul(v, format, 0);
    assert buffer[..][..|t|] == buffer[..|t|];
  }
}
