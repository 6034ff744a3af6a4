// safe_tkcmp: two outputs are the same when they are the same words, whatever
// white space stands around them.
module TokenCompare {
  import opened Bytes

  // Tab, newline, return and blank; and NUL, which strchr finds at the end of
  // the list.
  predicate IsSpace(b: byte) { b in {0x09, 0x0A, 0x0D, 0x20, 0x00} }

  function AfterSpace(s: seq<byte>): (n: nat)
    ensures n <= |s| && (n < |s| ==> !IsSpace(s[n]))
  {
    if s != [] && IsSpace(s[0]) then 1 + AfterSpace(s[1..]) else 0
  }

  function WordEnd(s: seq<byte>): (n: nat)
    ensures n <= |s| && (n < |s| ==> IsSpace(s[n]))
  {
    if s != [] && !IsSpace(s[0]) then 1 + WordEnd(s[1..]) else 0
  }

  // The words of a text, in order.
  function Words(s: seq<byte>): seq<seq<byte>>
    decreases |s|
  {
    if s == [] then []
    else if IsSpace(s[0]) then Words(s[1..])
    else [s[..WordEnd(s)]] + Words(s[WordEnd(s)..])
  }

  // ----- what the words of a text are -----

  predicate AllSpace(t: seq<byte>) { forall i :: 0 <= i < |t| ==> IsSpace(t[i]) }

  predicate IsWord(t: seq<byte>) { t != [] && forall i :: 0 <= i < |t| ==> !IsSpace(t[i]) }

  // Words with white space in front of each, and behind the last.
  datatype Layout = Layout(words: seq<seq<byte>>, spaces: seq<seq<byte>>, end: seq<byte>)

  predicate Good(l: Layout)
  {
    && |l.words| == |l.spaces| && AllSpace(l.end)
    && (forall i :: 0 <= i < |l.words| ==> IsWord(l.words[i]) && AllSpace(l.spaces[i]))
    && (forall i :: 0 < i < |l.words| ==> l.spaces[i] != [])
  }

  function TextOf(l: Layout): seq<byte>
    requires |l.words| == |l.spaces|
    decreases |l.words|
  {
    if l.words == [] then l.end
    else l.spaces[0] + (l.words[0] + TextOf(Layout(l.words[1..], l.spaces[1..], l.end)))
  }

  lemma {:induction false} SpaceSkipped(t: seq<byte>, rest: seq<byte>)
    requires AllSpace(t)
    ensures Words(t + rest) == Words(rest)
  {
    if t == [] {
      assert t + rest == rest;
    } else {
      assert (t + rest)[1..] == t[1..] + rest;
      SpaceSkipped(t[1..], rest);
    }
  }

  lemma {:induction false} WordEnds(t: seq<byte>, rest: seq<byte>)
    requires forall i :: 0 <= i < |t| ==> !IsSpace(t[i])
    requires rest == [] || IsSpace(rest[0])
    ensures WordEnd(t + rest) == |t|
  {
    if t == [] {
      assert t + rest == rest;
    } else {
      assert (t + rest)[1..] == t[1..] + rest;
      WordEnds(t[1..], rest);
    }
  }

  lemma NoWords(t: seq<byte>)
    requires AllSpace(t)
    ensures Words(t) == []
  {
    assert t + [] == t;
    SpaceSkipped(t, []);
  }

  // The words are those the text was made of, whatever the white space.
  lemma {:induction false} WordsOf(l: Layout)
    requires Good(l)
    ensures Words(TextOf(l)) == l.words
    decreases |l.words|
  {
    if l.words == [] {
      NoWords(l.end);
    } else {
      var word, more := l.words[0], Layout(l.words[1..], l.spaces[1..], l.end);
      var rest := TextOf(more);
      assert Good(more);
      WordsOf(more);
      SpaceSkipped(l.spaces[0], word + rest);
      assert rest == [] || IsSpace(rest[0]) by {
        if more.words != [] { assert more.spaces[0] == l.spaces[1] && rest[0] == more.spaces[0][0]; }
      }
      WordEnds(word, rest);
      assert (word + rest)[0] == word[0] && (word + rest)[..|word|] == word && (word + rest)[|word|..] == rest;
      assert l.words == [word] + l.words[1..];
    }
  }

  // Every text is made of its words.
  lemma {:induction false} LayoutOf(s: seq<byte>) returns (l: Layout)
    ensures Good(l) && TextOf(l) == s && l.words == Words(s)
    decreases |s|
  {
    hide *;
    var n := AfterSpace(s);
    SpaceIn(s);
    assert s == s[..n] + s[n..];
    SpaceSkipped(s[..n], s[n..]);
    if n == |s| {
      assert s[..n] == s;
      l := OnlySpace(s);
    } else {
      var t := s[n..];
      var k := WordEnd(t);
      WordIn(t);
      var more := LayoutOf(t[k..]);
      l := OneMoreWord(s[..n], t[..k], more);
      assert t == t[..k] + t[k..];
    }
  }

  lemma OnlySpace(s: seq<byte>) returns (l: Layout)
    requires AllSpace(s)
    ensures Good(l) && TextOf(l) == s && l.words == Words(s)
  {
    l := Layout([], [], s);
    NoWords(s);
  }

  lemma OneMoreWord(space: seq<byte>, word: seq<byte>, more: Layout) returns (l: Layout)
    requires AllSpace(space) && IsWord(word) && Good(more)
    requires TextOf(more) == [] || IsSpace(TextOf(more)[0])
    ensures Good(l) && TextOf(l) == space + (word + TextOf(more)) && l.words == [word] + more.words
  {
    hide AllSpace, IsWord;
    FirstSpace(more);
    l := Layout([word] + more.words, [space] + more.spaces, more.end);
    assert l.words[1..] == more.words && l.spaces[1..] == more.spaces;
    assert Layout(l.words[1..], l.spaces[1..], l.end) == more;
    assert forall i :: 0 < i < |l.words| ==> l.words[i] == more.words[i - 1] && l.spaces[i] == more.spaces[i - 1];
  }

  lemma {:induction false} SpaceIn(s: seq<byte>)
    ensures AllSpace(s[..AfterSpace(s)]) && (AfterSpace(s) < |s| ==> !IsSpace(s[AfterSpace(s)..][0]))
  {
    if s != [] && IsSpace(s[0]) {
      SpaceIn(s[1..]);
      assert s[..AfterSpace(s)] == [s[0]] + s[1..][..AfterSpace(s[1..])];
    }
  }

  lemma {:induction false} WordIn(s: seq<byte>)
    requires s != [] && !IsSpace(s[0])
    ensures var n := WordEnd(s);
            n > 0 && IsWord(s[..n]) && Words(s) == [s[..n]] + Words(s[n..]) && (s[n..] == [] || IsSpace(s[n..][0]))
  {
    if |s| > 1 && !IsSpace(s[1]) {
      WordIn(s[1..]);
      assert s[..WordEnd(s)] == [s[0]] + s[1..][..WordEnd(s[1..])];
    } else {
      assert WordEnd(s[1..]) == 0 && s[..1] == [s[0]];
    }
  }

  // A text whose first word has nothing in front of it begins with no white space.
  lemma FirstSpace(l: Layout)
    ensures Good(l) && l.words != [] && l.spaces[0] == [] ==> TextOf(l) != [] && !IsSpace(TextOf(l)[0])
  {
    if Good(l) && l.words != [] && l.spaces[0] == [] {
      assert IsWord(l.words[0]);
      assert TextOf(l)[0] == l.words[0][0];
    }
  }

  // Tab, newline, return, blank and NUL part words, and no other byte does.
  lemma WhatPartsWords(b: byte)
    ensures Words([0x61, b, 0x62]) == if b == 0x09 || b == 0x0A || b == 0x0D || b == 0x20 || b == 0x00
                                      then [[0x61], [0x62]] else [[0x61, b, 0x62]]
  {
    var s: seq<byte> := [0x61, b, 0x62];
    WordEnds([0x62], []);
    assert [0x62] + [] == [0x62] && [0x62][1..] == [];
    assert s[1..] == [b, 0x62] && s[1..][1..] == [0x62] && s[3..] == [];
    assert WordEnd([0x62]) == 1 && Words([0x62]) == [[0x62]];
    assert s[..1] == [0x61] && s[..3] == s;
  }

  // ----- the comparison -----

  // An open file.
  class File {
    const content: seq<byte>
    var offset: nat

    predicate Valid()
      reads this
    {
      offset <= |content|
    }

    constructor (content: seq<byte>)
      ensures Valid() && this.content == content && offset == 0
    {
      this.content := content;
      offset := 0;
    }

    method SkipSpace()
      requires Valid()
      modifies this
      ensures Valid() && offset >= old(offset) && (offset < |content| ==> !IsSpace(content[offset]))
      ensures Words(content[old(offset)..]) == Words(content[offset..])
    {
      while offset < |content| && IsSpace(content[offset])
        invariant old(offset) <= offset <= |content|
        invariant Words(content[old(offset)..]) == Words(content[offset..])
      {
        assert content[offset..][1..] == content[offset + 1..];
        offset := offset + 1;
      }
    }

    method ReadWord() returns (word: seq<byte>)
      requires Valid() && offset < |content| && !IsSpace(content[offset])
      modifies this
      ensures old(offset) < offset <= |content| && (offset < |content| ==> IsSpace(content[offset]))
      ensures word == content[old(offset)..offset] && |word| == WordEnd(content[old(offset)..])
    {
      word := [];
      ghost var start := offset;
      while offset < |content| && !IsSpace(content[offset])
        invariant start <= offset <= |content| && word == content[start..offset]
        invariant WordEnd(content[start..]) == offset - start + WordEnd(content[offset..])
        decreases |content| - offset
      {
        assert content[offset..][1..] == content[offset + 1..];
        word := word + [content[offset]];
        offset := offset + 1;
      }
      assert WordEnd(content[offset..]) == 0;
    }

    // get_next_token: the next word, and nothing at the end. The byte behind the
    // word is read too.
    method GetNextToken() returns (token: Option<seq<byte>>)
      requires Valid()
      modifies this
      ensures Valid() && offset >= old(offset)
      ensures token.None? ==> Words(content[old(offset)..]) == [] && offset == |content|
      ensures token.Some? ==>
                Words(content[old(offset)..]) == [token.value] + Words(content[offset..]) && offset > old(offset)
    {
      hide WordEnd;
      SkipSpace();
      if offset == |content| {
        assert content[offset..] == [];
        return None;
      }
      ghost var rest := content[offset..];
      WordIn(rest);
      var word := ReadWord();
      assert rest[..|word|] == word && rest[|word|..] == content[offset..];
      if offset < |content| {
        assert content[offset..][1..] == content[offset + 1..];
        offset := offset + 1;
      }
      token := Some(word);
    }
  }

  // safe_tkcmp; None is a file that cannot be opened.
  method SafeTkcmp(first: Option<seq<byte>>, second: Option<seq<byte>>) returns (match': int)
    ensures match' == if first.None? || second.None? then -1
                      else if Words(first.value) == Words(second.value) then 1 else 0
  {
    if first.None? || second.None? { return -1; }
    var f1 := new File(first.value);
    var f2 := new File(second.value);
    match' := 1;
    assert f1.content[0..] == first.value && f2.content[0..] == second.value;
    while true
      invariant f1.Valid() && f2.Valid() && f1 != f2
      invariant f1.content == first.value && f2.content == second.value && match' == 1
      invariant Words(first.value) == Words(second.value) <==>
                Words(f1.content[f1.offset..]) == Words(f2.content[f2.offset..])
      decreases |f1.content| - f1.offset
    {
      ghost var w1, w2 := Words(f1.content[f1.offset..]), Words(f2.content[f2.offset..]);
      var t1 := f1.GetNextToken();
      var t2 := f2.GetNextToken();
      if t2.None? && t1.None? { break; }
      if t2.None? || t1.None? { return 0; }
      if t1.value != t2.value { assert w1[0] == t1.value && w2[0] == t2.value; return 0; }
      assert w1[1..] == Words(f1.content[f1.offset..]) && w2[1..] == Words(f2.content[f2.offset..]);
    }
  }

  // It finds no difference exactly when both texts are the same words, laid out
  // each in its own way.
  lemma SameWords(s: seq<byte>, t: seq<byte>)
    ensures Words(s) == Words(t) <==>
            exists a: Layout, b: Layout :: Good(a) && Good(b) && TextOf(a) == s && TextOf(b) == t && a.words == b.words
  {
    hide Words, TextOf;
    var a := LayoutOf(s);
    var b := LayoutOf(t);
    forall a: Layout, b: Layout | Good(a) && Good(b) && TextOf(a) == s && TextOf(b) == t && a.words == b.words
      ensures Words(s) == Words(t)
    {
      WordsOf(a);
      WordsOf(b);
    }
  }
}
