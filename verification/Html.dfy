// HTML text as html.c writes it, and a reader of its tags that looks at nothing
// but the characters.
module Html {
  import opened Bytes

  // ----- the elements html_markdown uses -----

  datatype Element =
    | P | Br | Ul | Li | Table | Thead | Tbody | Tr | Th | Td | Pre | Code | Div | Span | H1 | H2 | H3

  predicate IsName(s: string) { s != "" && s[0] != '/' && forall c :: c in s ==> c !in " <>" }

  function Name(e: Element): (s: string)
    ensures IsName(s)
  {
    match e
    case P => "p" case Br => "br" case Ul => "ul" case Li => "li" case Table => "table"
    case Thead => "thead" case Tbody => "tbody" case Tr => "tr" case Th => "th" case Td => "td"
    case Pre => "pre" case Code => "code" case Div => "div" case Span => "span"
    case H1 => "h1" case H2 => "h2" case H3 => "h3"
  }

  datatype Piece = Text(text: string) | Open(e: Element) | OpenMath(e: Element) | Close(e: Element)

  const MATH_CLASS := " class=\"math-block\""

  // What stands between the angle brackets.
  function Mark(p: Piece): (s: string)
    requires !p.Text?
    ensures forall c :: c in s ==> c !in "<>"
  {
    match p
    case Open(e) => Name(e)
    case OpenMath(e) => Name(e) + MATH_CLASS
    case Close(e) => "/" + Name(e)
  }

  function Written(p: Piece): string { if p.Text? then p.text else "<" + Mark(p) + ">" }

  function Render(ps: seq<Piece>): string
  {
    if ps == [] then "" else Written(ps[0]) + Render(ps[1..])
  }

  lemma {:induction false} RenderConcat(a: seq<Piece>, b: seq<Piece>)
    ensures Render(a + b) == Render(a) + Render(b)
  {
    hide Written;
    if a == [] {
      assert a + b == b && Render(a) == "";
    } else {
      RenderConcat(a[1..], b);
      assert (a + b)[1..] == a[1..] + b && (a + b)[0] == a[0];
    }
  }

  // ----- escaping -----

  function Entity(c: char): string
  {
    if c == '&' then "&amp;" else if c == '<' then "&lt;" else if c == '>' then "&gt;"
    else if c == '"' then "&quot;" else if c == '\'' then "&#x27;" else [c]
  }

  function Escape(s: string): string
  {
    if s == "" then "" else Escape(s[..|s| - 1]) + Entity(s[|s| - 1])
  }

  // html_escape_text, behind out.
  method EscapeText(out: string, text: string) returns (r: string)
    ensures r == out + Escape(text)
  {
    hide Entity;
    r := out;
    var i := 0;
    while i < |text|
      invariant 0 <= i <= |text| && r == out + Escape(text[..i])
    {
      r := EscapeChar(r, text[i]);
      assert text[..i + 1][..i] == text[..i];
      i := i + 1;
    }
    assert text[..i] == text;
  }

  method EscapeChar(out: string, c: char) returns (r: string)
    ensures r == out + Entity(c)
  {
    match c {
      case '&' => r := out + "&amp;";
      case '<' => r := out + "&lt;";
      case '>' => r := out + "&gt;";
      case '"' => r := out + "&quot;";
      case '\'' => r := out + "&#x27;";
      case _ => r := out + [c];
    }
  }

  predicate Inert(s: string) { forall c :: c in s ==> c !in "<>" }

  lemma {:induction false} EscapedIsInert(s: string)
    ensures Inert(Escape(s))
  {
    if s != "" { EscapedIsInert(s[..|s| - 1]); }
  }

  // ----- reading text back -----

  // The five references, read as a browser reads them.
  function Unescape(s: string): string
  {
    if s == "" then ""
    else if "&amp;" <= s then "&" + Unescape(s[5..])
    else if "&lt;" <= s then "<" + Unescape(s[4..])
    else if "&gt;" <= s then ">" + Unescape(s[4..])
    else if "&quot;" <= s then "\"" + Unescape(s[6..])
    else if "&#x27;" <= s then "'" + Unescape(s[6..])
    else [s[0]] + Unescape(s[1..])
  }

  lemma {:induction false} EscapeFront(c: char, s: string)
    ensures Escape([c] + s) == Entity(c) + Escape(s)
  {
    hide Entity;
    var t := [c] + s;
    if s == "" {
      assert t[..0] == "" && Escape("") == "";
    } else {
      var n := |s| - 1;
      assert t[..|t| - 1] == [c] + s[..n] && t[|t| - 1] == s[n];
      EscapeFront(c, s[..n]);
      assert Escape(t) == (Entity(c) + Escape(s[..n])) + Entity(s[n]);
    }
  }

  lemma EntityReads(c: char, r: string)
    ensures Unescape(Entity(c) + r) == [c] + Unescape(r)
  {
    var t := Entity(c) + r;
    assert t[|Entity(c)|..] == r;
    if c == '<' { assert t[1] == 'l'; }
    if c == '>' { assert t[1] == 'g'; }
    if c == '"' { assert t[1] == 'q'; }
    if c == '\'' { assert t[1] == '#'; }
    if c == '&' { assert t[..5] == "&amp;"; }
  }

  // Escaping loses nothing.
  lemma {:induction false} EscapeReadsBack(s: string)
    ensures Unescape(Escape(s)) == s
  {
    if s != "" {
      EscapeReadsBack(s[1..]);
      assert s == [s[0]] + s[1..];
      EscapeFront(s[0], s[1..]);
      EntityReads(s[0], Escape(s[1..]));
    }
  }

  // ----- reading tags -----

  datatype Tag = Opens(name: string) | Closes(name: string) | Void

  // The index of c in s from i on, or the end of s.
  function Find(s: string, c: char, i: nat): (k: nat)
    requires i <= |s|
    ensures i <= k <= |s| && (k < |s| ==> s[k] == c) && forall j :: i <= j < k ==> s[j] != c
    decreases |s| - i
  {
    if i == |s| || s[i] == c then i else Find(s, c, i + 1)
  }

  // The tag of a mark: a name ends at a blank, and br has no content.
  function ReadTag(mark: string): Tag
  {
    if mark != "" && mark[0] == '/' then Closes(mark[1..])
    else
      var name := mark[..Find(mark, ' ', 0)];
      if name == "br" then Void else Opens(name)
  }

  // The tags of a text: from each '<' to the '>' behind it.
  function Tags(s: string): seq<Tag>
  {
    if s == "" then []
    else if s[0] != '<' then Tags(s[1..])
    else
      var k := Find(s, '>', 1);
      if k == |s| then [] else [ReadTag(s[1..k])] + Tags(s[k + 1..])
  }

  function TagOf(p: Piece): seq<Tag>
  {
    match p
    case Text(_) => []
    case Open(e) => if e == Br then [Void] else [Opens(Name(e))]
    case OpenMath(e) => if e == Br then [Void] else [Opens(Name(e))]
    case Close(e) => [Closes(Name(e))]
  }

  function TagsOf(ps: seq<Piece>): seq<Tag>
  {
    if ps == [] then [] else TagOf(ps[0]) + TagsOf(ps[1..])
  }

  predicate Clean(ps: seq<Piece>) { forall p :: p in ps && p.Text? ==> Inert(p.text) }

  lemma MarkReads(p: Piece)
    requires !p.Text?
    ensures [ReadTag(Mark(p))] == TagOf(p)
  {
    if !p.Close? {
      var m := Mark(p);
      var name := Name(p.e);
      assert forall j :: 0 <= j < |name| ==> name[j] in name && m[j] == name[j];
      assert p.OpenMath? ==> m[|name|] == ' ';
      var k := Find(m, ' ', 0);
      assert k == |name|;
      assert m[..k] == name;
      BrIsBr(p.e);
    } else {
      assert ("/" + Name(p.e))[1..] == Name(p.e);
    }
  }

  lemma BrIsBr(e: Element)
    ensures Name(e) == "br" <==> e == Br
  {
  }

  // Text without angle brackets is skipped.
  lemma {:induction false} TagsSkipText(t: string, s: string)
    requires Inert(t)
    ensures Tags(t + s) == Tags(s)
  {
    if t == "" {
      assert t + s == s;
    } else {
      assert t[0] in t && (t + s)[0] == t[0] && (t + s)[1..] == t[1..] + s;
      TagsSkipText(t[1..], s);
    }
  }

  lemma TagsReadMark(m: string, s: string)
    requires Inert(m)
    ensures Tags("<" + m + ">" + s) == [ReadTag(m)] + Tags(s)
  {
    var t := "<" + m + ">" + s;
    assert t[0] == '<' && t[|m| + 1] == '>';
    assert forall j :: 1 <= j <= |m| ==> t[j] == m[j - 1] && m[j - 1] in m;
    assert Find(t, '>', 1) == |m| + 1;
    assert t[1..|m| + 1] == m && t[|m| + 2..] == s;
  }

  // The reader of characters sees exactly the tags that were meant.
  lemma {:induction false} TagsOfRendered(ps: seq<Piece>)
    requires Clean(ps)
    ensures Tags(Render(ps)) == TagsOf(ps)
  {
    if ps != [] {
      var p := ps[0];
      assert p in ps && forall q :: q in ps[1..] ==> q in ps;
      TagsOfRendered(ps[1..]);
      if p.Text? {
        TagsSkipText(p.text, Render(ps[1..]));
      } else {
        MarkReads(p);
        TagsReadMark(Mark(p), Render(ps[1..]));
        assert Render(ps) == "<" + Mark(p) + ">" + Render(ps[1..]);
      }
    }
  }

  // ----- nesting -----

  // The elements open behind the tags, unless an end tag does not fit.
  function Nest(open: seq<string>, tags: seq<Tag>): Option<seq<string>>
    decreases |tags|
  {
    if tags == [] then Some(open)
    else
      match tags[0]
      case Void => Nest(open, tags[1..])
      case Opens(n) => Nest(open + [n], tags[1..])
      case Closes(n) =>
        if open != [] && open[|open| - 1] == n then Nest(open[..|open| - 1], tags[1..]) else None
  }

  lemma {:induction false} NestConcat(open: seq<string>, a: seq<Tag>, b: seq<Tag>)
    ensures Nest(open, a + b) == if Nest(open, a).Some? then Nest(Nest(open, a).value, b) else None
    decreases |a|
  {
    if a == [] {
      assert a + b == b;
    } else {
      assert (a + b)[1..] == a[1..] + b;
      match a[0]
      case Void => NestConcat(open, a[1..], b);
      case Opens(n) => NestConcat(open + [n], a[1..], b);
      case Closes(n) =>
        if open != [] && open[|open| - 1] == n { NestConcat(open[..|open| - 1], a[1..], b); }
    }
  }

  predicate WellNested(s: string) { Nest([], Tags(s)) == Some([]) }

  // Start tags less end tags of a name.
  function Balance(n: string, tags: seq<Tag>): int
  {
    if tags == [] then 0
    else (if tags[0] == Opens(n) then 1 else if tags[0] == Closes(n) then -1 else 0) + Balance(n, tags[1..])
  }

  lemma {:induction false} BalanceConcat(n: string, a: seq<Tag>, b: seq<Tag>)
    ensures Balance(n, a + b) == Balance(n, a) + Balance(n, b)
  {
    if a == [] {
      assert a + b == b;
    } else {
      assert (a + b)[1..] == a[1..] + b;
      BalanceConcat(n, a[1..], b);
    }
  }

  // Tags that nest leave open what they open more often than they close.
  lemma {:induction false} NestBalances(n: string, open: seq<string>, tags: seq<Tag>)
    requires Nest(open, tags).Some?
    ensures multiset(Nest(open, tags).value)[n] == multiset(open)[n] + Balance(n, tags)
    decreases |tags|
  {
    if tags != [] {
      match tags[0]
      case Void => NestBalances(n, open, tags[1..]);
      case Opens(m) => NestBalances(n, open + [m], tags[1..]);
      case Closes(m) =>
        assert open == open[..|open| - 1] + [m];
        NestBalances(n, open[..|open| - 1], tags[1..]);
    }
  }
}
