// What a reader of the HTML sees: every character of the statement that is
// shown, inside which elements, in order. The lines say it directly.
module MarkdownShown {
  import opened Bytes
  import opened Html
  import opened Markdown

  // ----- the reader -----

  // An element starts (with what stands behind its name), a line breaks, or a
  // character is shown; `path` are the elements around, outermost first.
  datatype Event =
    | Starts(path: seq<string>, attributes: string)
    | Breaks(path: seq<string>)
    | Shows(path: seq<string>, c: char)

  // It looks at nothing but the characters.
  function Events(path: seq<string>, s: string): seq<Event>
    decreases |s|
  {
    if s == "" then []
    else if s[0] == '<' then
      var k := Find(s, '>', 1);
      if k == |s| then [] else TagEvents(path, s[1..k]) + Events(PathBehind(path, s[1..k]), s[k + 1..])
    else if "&amp;" <= s then [Shows(path, '&')] + Events(path, s[5..])
    else if "&lt;" <= s then [Shows(path, '<')] + Events(path, s[4..])
    else if "&gt;" <= s then [Shows(path, '>')] + Events(path, s[4..])
    else if "&quot;" <= s then [Shows(path, '"')] + Events(path, s[6..])
    else if "&#x27;" <= s then [Shows(path, '\'')] + Events(path, s[6..])
    else [Shows(path, s[0])] + Events(path, s[1..])
  }

  function TagEvents(path: seq<string>, mark: string): seq<Event>
  {
    match ReadTag(mark)
    case Opens(name) => if name <= mark then [Starts(path + [name], mark[|name|..])] else []
    case Closes(_) => []
    case Void => [Breaks(path)]
  }

  function PathBehind(path: seq<string>, mark: string): seq<string>
  {
    match ReadTag(mark)
    case Opens(name) => path + [name]
    case Closes(_) => if path == [] then [] else path[..|path| - 1]
    case Void => path
  }

  function ShowAll(path: seq<string>, t: string): (es: seq<Event>)
    ensures |es| == |t| && forall k :: 0 <= k < |t| ==> es[k] == Shows(path, t[k])
  {
    seq(|t|, k requires 0 <= k < |t| => Shows(path, t[k]))
  }

  // ----- what the lines say -----

  // Where a line stands: in a code block, in a math block, in one inside a code
  // block, in a table, behind a list item, behind a line of prose, or in none.
  datatype Place = Nowhere | BehindProse | BehindItem | Tabled | Coded | Formula | CodedFormula

  function Path(p: Place): seq<string>
  {
    match p
    case Nowhere => []
    case BehindProse => ["p"]
    case BehindItem => ["ul"]
    case Tabled => ["table", "tbody"]
    case Coded => ["pre", "code"]
    case Formula => ["div"]
    case CodedFormula => ["pre", "code", "div"]
  }

  predicate OnlyBlanks(s: string) { forall i :: 0 <= i < |s| ==> s[i] == ' ' || s[i] == '\t' }

  // A bar in front, another one later, and nothing but blanks behind that.
  predicate Barred(line: string)
  {
    line != "" && line[0] == '|' && exists k :: 0 < k < |line| && line[k] == '|' && OnlyBlanks(line[k + 1..])
  }

  // A row of bars, dashes, colons and blanks with a dash among them.
  predicate IsRule(line: string)
  {
    && Barred(line) && (exists k :: 0 <= k < |line| && line[k] == '-')
    && forall k :: 0 <= k < |line| ==> line[k] in {'-', '|', ':', ' ', '\t'}
  }

  function WithoutReturns(s: string): string
  {
    if s != "" && s[|s| - 1] == '\r' then WithoutReturns(s[..|s| - 1]) else s
  }

  function Split(s: string, c: char): (parts: seq<string>)
    ensures |parts| >= 1
  {
    if s == "" then [""]
    else
      var more := Split(s[1..], c);
      if s[0] == c then [""] + more else [[s[0]] + more[0]] + more[1..]
  }

  function FrontTrimmed(s: string): string
  {
    if s != "" && (s[0] == ' ' || s[0] == '\t') then FrontTrimmed(s[1..]) else s
  }

  function BackTrimmed(s: string): string
  {
    if s != "" && (s[|s| - 1] == ' ' || s[|s| - 1] == '\t') then BackTrimmed(s[..|s| - 1]) else s
  }

  // A cell around each trimmed part between the bars.
  function CellEvents(path: seq<string>, cell: string, parts: seq<string>): seq<Event>
  {
    if parts == [] then []
    else
      [Starts(path + [cell], "")] + ShowAll(path + [cell], BackTrimmed(FrontTrimmed(parts[0]))) +
      CellEvents(path, cell, parts[1..])
  }

  function RowEvents(path: seq<string>, cell: string, line: string): seq<Event>
    requires line != ""
  {
    var body := if |line| > 1 && line[|line| - 1] == '|' then line[1..|line| - 1] else line[1..];
    [Starts(path + ["tr"], "")] + CellEvents(path + ["tr"], cell, Split(body, '|'))
  }

  function AfterBlanks(s: string): string { if s != "" && s[0] == ' ' then AfterBlanks(s[1..]) else s }

  function AfterHashes(s: string): string { if s != "" && s[0] == '#' then AfterHashes(s[1..]) else s }

  datatype Shown = Shown(place: Place, events: seq<Event>)

  // Headings of one to three hashes and a blank; items behind a dash or a star
  // and a blank; prose, in a span of its own if it begins like a formula.
  function TextShown(p: Place, line: string): Shown
  {
    if "# " <= line then Title("h1", line[1..])
    else if "## " <= line then Title("h2", line[2..])
    else if "### " <= line then Title("h3", line[3..])
    else ItemOrProse(p, AfterHashes(line))
  }

  function ItemOrProse(p: Place, text: string): Shown
  {
    if "- " <= text || "* " <= text then
      Shown(BehindItem,
            (if p == BehindItem then [] else [Starts(["ul"], "")]) +
            ([Starts(["ul", "li"], "")] + ShowAll(["ul", "li"], text[2..])))
    else
      Shown(BehindProse,
            (if p == BehindProse then [Breaks(["p"])] else [Starts(["p"], "")]) +
            if "$$" <= text || "\\[" <= text
            then [Starts(["p", "span"], " class=\"math-block\"")] + ShowAll(["p", "span"], text)
            else ShowAll(["p"], text))
  }

  function Title(name: string, rest: string): Shown
  {
    Shown(Nowhere, [Starts([name], "")] + ShowAll([name], AfterBlanks(rest)))
  }

  // What a line shows; `next` is the line behind it, if there is a newline.
  function LineShown(place: Place, line: string, next: Option<string>): Shown
  {
    var p := if place == Tabled && !Barred(line) then Nowhere else place;
    if p == Formula || p == CodedFormula then
      Shown(if line != "\\]" && line != "$$" then p else if p == Formula then Nowhere else Coded,
            ShowAll(Path(p), line + "\n"))
    else if line == "\\[" || line == "$$" then
      var q := if p == Coded then CodedFormula else Formula;
      Shown(q, [Starts(Path(q), " class=\"math-block\"")] + ShowAll(Path(q), line + "\n"))
    else if "```" <= line then
      if p == Coded then Shown(Nowhere, []) else Shown(Coded, [Starts(["pre"], ""), Starts(["pre", "code"], "")])
    else if p == Coded then Shown(p, ShowAll(Path(p), line + "\n"))
    else if OnlyBlanks(line) then Shown(Nowhere, [])
    else if p == Tabled then Shown(p, if IsRule(line) then [] else RowEvents(Path(p), "td", line))
    else if Barred(line) && next.Some? && IsRule(WithoutReturns(next.value)) then
      Shown(Tabled,
            [Starts(["table"], ""), Starts(["table", "thead"], "")] + RowEvents(["table", "thead"], "th", line) +
            [Starts(["table", "tbody"], "")])
    else TextShown(p, line)
  }

  // What the lines of a text show, in order. Nothing behind the last newline is
  // no line.
  function LinesShown(place: Place, lines: seq<string>): seq<Event>
    decreases |lines|
  {
    if lines == [] || lines == [""] then []
    else
      var t := LineShown(place, lines[0], if |lines| > 1 then Some(lines[1]) else None);
      t.events + LinesShown(t.place, lines[1..])
  }

  function EndPlace(place: Place, lines: seq<string>): Place
    decreases |lines|
  {
    if lines == [] || lines == [""] then place
    else
      EndPlace(LineShown(place, lines[0], if |lines| > 1 then Some(lines[1]) else None).place, lines[1..])
  }

  // ----- the kinds of lines -----

  lemma {:induction false} TrimmedIs(s: string)
    ensures TrimRight(s) == BackTrimmed(s) && OnlyBlanks(s[|TrimRight(s)|..])
    ensures TrimRight(s) != "" ==> var c := s[|TrimRight(s)| - 1]; c != ' ' && c != '\t'
  {
    if s != "" && IsBlank(s[|s| - 1]) {
      var t := s[..|s| - 1];
      TrimmedIs(t);
      assert s[|TrimRight(s)|..] == t[|TrimRight(s)|..] + [s[|s| - 1]];
    }
  }

  lemma {:induction false} FrontTrimmedIs(s: string)
    ensures TrimLeft(s) == FrontTrimmed(s)
  {
    if s != "" && IsBlank(s[0]) { FrontTrimmedIs(s[1..]); }
  }

  lemma BlankIs(line: string)
    ensures BlankLine(line) <==> OnlyBlanks(line)
  {
    if OnlyBlanks(line) { assert forall c :: c in line ==> IsBlank(c); }
    if BlankLine(line) { assert forall i :: 0 <= i < |line| ==> line[i] in line; }
  }

  lemma RowIsBarred(line: string)
    ensures IsRow(line) <==> Barred(line)
  {
    TrimmedIs(line);
    var n := |TrimRight(line)|;
    BlanksFrom(line, n);
    if IsRow(line) {
      assert line[n - 1] == '|' && OnlyBlanks(line[n - 1 + 1..]);
    }
    if Barred(line) {
      var k :| 0 < k < |line| && line[k] == '|' && OnlyBlanks(line[k + 1..]);
      BlanksFrom(line, k + 1);
      assert k < n <= k + 1;
    }
  }

  lemma BlanksFrom(line: string, n: nat)
    requires n <= |line|
    ensures OnlyBlanks(line[n..]) <==> forall j :: n <= j < |line| ==> line[j] == ' ' || line[j] == '\t'
  {
    assert forall j :: n <= j < |line| ==> line[j] == line[n..][j - n];
  }

  lemma RuleIs(line: string)
    ensures IsSeparator(line) <==> IsRule(line)
  {
    RowIsBarred(line);
    hide IsRow, Barred;
    if IsSeparator(line) {
      assert forall k :: 0 <= k < |line| ==> line[k] in line;
    }
    if IsRule(line) {
      assert forall c :: c in line ==> c in "-|: \t";
    }
  }

  lemma {:induction false} ReturnsIs(s: string)
    ensures StripReturns(s) == WithoutReturns(s)
  {
    if s != "" && s[|s| - 1] == '\r' { ReturnsIs(s[..|s| - 1]); }
  }

  lemma {:induction false} SplitIs(s: string, c: char)
    ensures var k := Find(s, c, 0);
            Split(s, c) == if k == |s| then [s] else [s[..k]] + Split(s[k + 1..], c)
  {
    if s != "" {
      if s[0] == c {
        assert s[..0] == "";
      } else {
        SplitIs(s[1..], c);
        FindNext(s, c);
        var k := Find(s[1..], c, 0);
        assert [s[0]] + s[1..] == s;
        if k < |s[1..]| {
          assert s[1..][k + 1..] == s[k + 2..] && s[..k + 1] == [s[0]] + s[1..][..k];
        }
      }
    }
  }

  lemma FindNext(s: string, c: char)
    requires s != "" && s[0] != c
    ensures Find(s, c, 0) == 1 + Find(s[1..], c, 0)
  {
    var k, n := Find(s, c, 0), Find(s[1..], c, 0);
    assert forall j :: 0 <= j < |s[1..]| ==> s[1..][j] == s[j + 1];
    if n < |s[1..]| { assert s[n + 1] == c; }
    if k < |s| { assert s[1..][k - 1] == c; }
  }

  lemma {:induction false} CellsAre(body: string)
    ensures Cells(body) == Split(body, '|')
    decreases |body|
  {
    SplitIs(body, '|');
    var k := Find(body, '|', 0);
    if k < |body| { CellsAre(body[k + 1..]); }
  }

  // The lines of a text as the loop finds them.
  lemma LinesAre(text: string)
    ensures var lines := Split(text, '\n');
            && lines[0] == Line(text) && (|lines| > 1 <==> Rest(text).Some?)
            && (Rest(text).Some? ==> lines[1..] == Split(Rest(text).value, '\n'))
            && (Rest(text).None? ==> lines[1..] == [])
    ensures text == "" <==> Split(text, '\n') == [""]
  {
    SplitIs(text, '\n');
  }

  lemma NextRule(rest: Option<string>)
    ensures SeparatorFollows(rest) <==> rest.Some? && IsRule(WithoutReturns(Split(rest.value, '\n')[0]))
  {
    if rest.Some? {
      SplitIs(rest.value, '\n');
      var next := rest.value[..Find(rest.value, '\n', 0)];
      if Find(rest.value, '\n', 0) == |rest.value| { assert next == rest.value; }
      ReturnsIs(next);
      RuleIs(StripReturns(next));
    }
  }

  lemma {:induction false} HashesAre(line: string)
    ensures Hashes(line) <= |line| && line[Hashes(line)..] == AfterHashes(line)
  {
    if line != "" && line[0] == '#' { HashesAre(line[1..]); }
  }

  lemma {:induction false} SpacesAre(s: string)
    ensures SkipSpaces(s) == AfterBlanks(s)
  {
    if s != "" && s[0] == ' ' { SpacesAre(s[1..]); }
  }

  // One, two or three hashes and a blank.
  lemma HeadingIs(line: string)
    ensures Hashes(line) <= |line|
    ensures "# " <= line <==> Hashes(line) == 1 && " " <= line[1..]
    ensures "## " <= line <==> Hashes(line) == 2 && " " <= line[2..]
    ensures "### " <= line <==> Hashes(line) == 3 && " " <= line[3..]
  {
    HashesFit(line);
    HashesFrom(line, 1);
    HashesFrom(line, 2);
    HashesFrom(line, 3);
  }

  lemma {:induction false} HashesFrom(line: string, n: nat)
    ensures n < |line| && (forall j :: 0 <= j < n ==> line[j] == '#') && line[n] != '#' ==> Hashes(line) == n
    decreases n
  {
    if n > 0 && n < |line| && (forall j :: 0 <= j < n ==> line[j] == '#') && line[n] != '#' {
      assert forall j :: 0 <= j < n - 1 ==> line[1..][j] == line[j + 1];
      HashesFrom(line[1..], n - 1);
    }
  }

  // ----- reading pieces -----

  // Reading the pieces yields the events and leads from one path to another,
  // whatever follows.
  ghost predicate Reads(a: seq<string>, ps: seq<Piece>, es: seq<Event>, b: seq<string>)
  {
    forall r: string :: Events(a, Render(ps) + r) == es + Events(b, r)
  }

  lemma ReadsConcat(a: seq<string>, ps: seq<Piece>, es: seq<Event>, b: seq<string>, qs: seq<Piece>, fs: seq<Event>,
                    c: seq<string>)
    requires Reads(a, ps, es, b) && Reads(b, qs, fs, c)
    ensures Reads(a, ps + qs, es + fs, c)
  {
    hide Events, Render;
    forall r: string ensures Events(a, Render(ps + qs) + r) == (es + fs) + Events(c, r) {
      RenderConcat(ps, qs);
      assert Render(ps + qs) + r == Render(ps) + (Render(qs) + r);
      assert es + (fs + Events(c, r)) == (es + fs) + Events(c, r);
    }
  }

  lemma ReadsNothing(a: seq<string>)
    ensures Reads(a, [], [], a)
  {
    hide Events;
    forall r: string ensures Events(a, Render([]) + r) == [] + Events(a, r) {
      assert "" + r == r;
    }
  }

  lemma CharacterShown(path: seq<string>, c: char, r: string)
    ensures Events(path, Entity(c) + r) == [Shows(path, c)] + Events(path, r)
  {
    var t := Entity(c) + r;
    assert t[|Entity(c)|..] == r;
    assert t[0] == Entity(c)[0];
    if c == '<' { assert t[1] == 'l'; }
    if c == '>' { assert t[1] == 'g'; }
    if c == '"' { assert t[1] == 'q'; }
    if c == '\'' { assert t[1] == '#'; }
    if c == '&' { assert t[..5] == "&amp;"; }
  }

  lemma {:induction false} EscapedShown(path: seq<string>, t: string, r: string)
    ensures Events(path, Escape(t) + r) == ShowAll(path, t) + Events(path, r)
  {
    hide *;
    if t == "" {
      NothingShown(path);
      assert "" + r == r && [] + Events(path, r) == Events(path, r);
    } else {
      var rest := Escape(t[1..]) + r;
      EscapeFront(t[0], t[1..]);
      assert t == [t[0]] + t[1..];
      assert (Entity(t[0]) + Escape(t[1..])) + r == Entity(t[0]) + rest;
      CharacterShown(path, t[0], rest);
      EscapedShown(path, t[1..], r);
      ShownFront(path, t);
      assert ([Shows(path, t[0])] + ShowAll(path, t[1..])) + Events(path, r) ==
             [Shows(path, t[0])] + (ShowAll(path, t[1..]) + Events(path, r));
    }
  }

  lemma NothingShown(path: seq<string>)
    ensures Escape("") == "" && ShowAll(path, "") == []
  {
  }

  lemma ShownFront(path: seq<string>, t: string)
    requires t != ""
    ensures ShowAll(path, t) == [Shows(path, t[0])] + ShowAll(path, t[1..])
  {
  }

  lemma ReadsText(path: seq<string>, t: string)
    ensures Reads(path, [Text(Escape(t))], ShowAll(path, t), path)
  {
    hide Events, Escape, ShowAll;
    forall r: string ensures Events(path, Render([Text(Escape(t))]) + r) == ShowAll(path, t) + Events(path, r) {
      RenderOne(Text(Escape(t)));
      EscapedShown(path, t, r);
    }
  }

  // A line of a code or math block.
  lemma ReadsLine(path: seq<string>, t: string)
    ensures Reads(path, [Text(Escape(t) + "\n")], ShowAll(path, t + "\n"), path)
  {
    hide Events, Escape, Render;
    forall r: string
      ensures Events(path, Render([Text(Escape(t) + "\n")]) + r) == ShowAll(path, t + "\n") + Events(path, r)
    {
      RenderOne(Text(Escape(t) + "\n"));
      assert (Escape(t) + "\n") + r == Escape(t) + ("\n" + r);
      EscapedShown(path, t, "\n" + r);
      CharacterShown(path, '\n', r);
      assert ShowAll(path, t + "\n") == ShowAll(path, t) + [Shows(path, '\n')];
    }
  }

  // A mark between angle brackets.
  lemma MarkShown(path: seq<string>, m: string, r: string)
    requires Inert(m)
    ensures Events(path, ("<" + m + ">") + r) == TagEvents(path, m) + Events(PathBehind(path, m), r)
  {
    hide TagEvents, PathBehind;
    var t := ("<" + m + ">") + r;
    assert t[0] == '<' && t[|m| + 1] == '>';
    assert forall j :: 1 <= j <= |m| ==> t[j] == m[j - 1] && m[j - 1] in m;
    assert Find(t, '>', 1) == |m| + 1;
    assert t[1..|m| + 1] == m && t[|m| + 2..] == r;
  }

  lemma ReadsMark(path: seq<string>, p: Piece)
    requires !p.Text?
    ensures Reads(path, [p], TagEvents(path, Mark(p)), PathBehind(path, Mark(p)))
  {
    hide Events, TagEvents, PathBehind, Mark;
    forall r: string
      ensures Events(path, Render([p]) + r) == TagEvents(path, Mark(p)) + Events(PathBehind(path, Mark(p)), r)
    {
      RenderOne(p);
      assert Inert(Mark(p));
      MarkShown(path, Mark(p), r);
    }
  }

  lemma ReadsOpen(path: seq<string>, e: Element)
    requires e != Br
    ensures Reads(path, [Open(e)], [Starts(path + [Name(e)], "")], path + [Name(e)])
    ensures Reads(path, [OpenMath(e)], [Starts(path + [Name(e)], " class=\"math-block\"")], path + [Name(e)])
  {
    hide Reads, Name;
    MarkReads(Open(e));
    MarkReads(OpenMath(e));
    hide ReadTag;
    ReadsMark(path, Open(e));
    ReadsMark(path, OpenMath(e));
    assert Mark(Open(e))[|Name(e)|..] == "";
    assert Mark(OpenMath(e))[|Name(e)|..] == MATH_CLASS;
  }

  lemma ReadsClose(path: seq<string>, e: Element, n: string)
    ensures Reads(path + [n], [Close(e)], [], path) && Reads([], [Close(e)], [], [])
  {
    hide Reads, Name;
    MarkReads(Close(e));
    hide ReadTag;
    ReadsMark(path + [n], Close(e));
    ReadsMark([], Close(e));
    assert (path + [n])[..|path|] == path;
  }

  lemma ReadsBreak(path: seq<string>)
    ensures Reads(path, [Open(Br)], [Breaks(path)], path)
  {
    hide Reads, Name;
    MarkReads(Open(Br));
    hide ReadTag;
    ReadsMark(path, Open(Br));
  }

  // An element around a text.
  lemma ReadsAround(path: seq<string>, e: Element, t: string)
    requires e != Br
    ensures var inside := path + [Name(e)];
            && Reads(path, [Open(e), Text(Escape(t)), Close(e)], [Starts(inside, "")] + ShowAll(inside, t), path)
            && Reads(path, [OpenMath(e), Text(Escape(t)), Close(e)],
                     [Starts(inside, " class=\"math-block\"")] + ShowAll(inside, t), path)
  {
    hide *;
    var inside := path + [Name(e)];
    ReadsOpen(path, e);
    ReadsText(inside, t);
    ReadsClose(path, e, Name(e));
    ReadsConcat(inside, [Text(Escape(t))], ShowAll(inside, t), inside, [Close(e)], [], path);
    var shown := ShowAll(inside, t) + [];
    assert shown == ShowAll(inside, t);
    ReadsConcat(path, [Open(e)], [Starts(inside, "")], inside, [Text(Escape(t))] + [Close(e)], shown, path);
    ReadsConcat(path, [OpenMath(e)], [Starts(inside, " class=\"math-block\"")], inside,
                [Text(Escape(t))] + [Close(e)], shown, path);
    assert [Open(e)] + ([Text(Escape(t))] + [Close(e)]) == [Open(e), Text(Escape(t)), Close(e)];
    assert [OpenMath(e)] + ([Text(Escape(t))] + [Close(e)]) == [OpenMath(e), Text(Escape(t)), Close(e)];
  }

  lemma {:induction false} ReadsCells(path: seq<string>, cells: seq<string>, e: Element)
    requires e != Br
    ensures Reads(path, AllCells(cells, e), CellEvents(path, Name(e), cells), path)
  {
    hide Reads, Escape, ShowAll, Name;
    if cells == [] {
      ReadsNothing(path);
    } else {
      TrimmedIs(TrimLeft(cells[0]));
      FrontTrimmedIs(cells[0]);
      var value := TrimRight(TrimLeft(cells[0]));
      var inside := path + [Name(e)];
      ReadsAround(path, e, value);
      ReadsCells(path, cells[1..], e);
      ReadsConcat(path, CellPieces(cells[0], e), [Starts(inside, "")] + ShowAll(inside, value), path,
                  AllCells(cells[1..], e), CellEvents(path, Name(e), cells[1..]), path);
    }
  }

  lemma RowNames(line: string, header: bool)
    requires line != ""
    ensures Name(Tr) == "tr" && Name(CellElement(header)) == if header then "th" else "td"
    ensures RowBody(line) == if |line| > 1 && line[|line| - 1] == '|' then line[1..|line| - 1] else line[1..]
  {
  }

  lemma ReadsRow(path: seq<string>, line: string, header: bool)
    requires line != ""
    ensures Reads(path, RowPieces(line, header), RowEvents(path, if header then "th" else "td", line), path)
  {
    hide Reads, AllCells, CellEvents, Cells, Split;
    var e := CellElement(header);
    var inside := path + [Name(Tr)];
    var body := RowBody(line);
    CellsAre(body);
    ReadsOpen(path, Tr);
    ReadsCells(inside, Cells(body), e);
    ReadsClose(path, Tr, Name(Tr));
    var cells, es := AllCells(Cells(body), e), CellEvents(inside, Name(e), Cells(body));
    ReadsConcat(path, [Open(Tr)], [Starts(inside, "")], inside, cells, es, inside);
    ReadsConcat(path, [Open(Tr)] + cells, [Starts(inside, "")] + es, inside, [Close(Tr)], [], path);
    assert [Starts(inside, "")] + es + [] == [Starts(inside, "")] + es;
    RowNames(line, header);
  }

  // ----- lines -----

  function PlaceOf(m: Mode): Place
  {
    match m
    case Plain => Nowhere
    case Paragraph => BehindProse
    case List => BehindItem
    case InTable => Tabled
    case InCode => Coded
    case InMath => Formula
    case MathInCode => CodedFormula
  }

  function PathOf(m: Mode): seq<string> { Path(PlaceOf(m)) }

  // Closing tags show nothing and lead out of all elements.
  lemma ReadsClosing(m: Mode)
    ensures Reads(PathOf(m), Closing(m), [], [])
  {
    hide Reads, Name;
    match m
    case Plain => ReadsNothing([]);
    case Paragraph => ReadsClose([], P, "p"); assert [] + ["p"] == PathOf(m);
    case List => ReadsClose([], Ul, "ul"); assert [] + ["ul"] == PathOf(m);
    case InTable => ReadsTwoClosed([], Tbody, Element.Table, "table", "tbody"); assert [] + Path(Tabled) == PathOf(m);
    case InCode => ReadsTwoClosed([], Element.Code, Pre, "pre", "code"); assert [] + ["pre", "code"] == PathOf(m);
    case InMath => ReadsClose([], Div, "div"); assert [] + ["div"] == PathOf(m);
    case MathInCode => ReadsThreeClosed();
  }

  // The wrong order leads out all the same.
  lemma ReadsThreeClosed()
    ensures Reads(["pre", "code", "div"], [Close(Element.Code), Close(Pre), Close(Div)], [], [])
  {
    hide Reads, Name;
    var path := ["pre", "code", "div"];
    ReadsTwoClosed(["pre"], Element.Code, Pre, "code", "div");
    assert ["pre"] + ["code", "div"] == path;
    ReadsClose([], Div, "pre");
    var none: seq<Event> := [];
    assert [] + ["pre"] == ["pre"] && none + none == none;
    ReadsConcat(path, [Close(Element.Code), Close(Pre)], [], ["pre"], [Close(Div)], [], []);
    assert [Close(Element.Code), Close(Pre)] + [Close(Div)] == [Close(Element.Code), Close(Pre), Close(Div)];
  }

  lemma ReadsTwoClosed(path: seq<string>, e: Element, f: Element, n: string, k: string)
    ensures Reads(path + [n, k], [Close(e), Close(f)], [], path)
  {
    hide Reads, Name;
    ReadsClose(path + [n], e, k);
    ReadsClose(path, f, n);
    assert path + [n] + [k] == path + [n, k];
    ReadsConcat(path + [n, k], [Close(e)], [], path + [n], [Close(f)], [], path);
    assert [Close(e)] + [Close(f)] == [Close(e), Close(f)];
    var none: seq<Event> := [];
    assert none + none == none;
  }

  lemma ReadsTwoOpened(path: seq<string>, e: Element, f: Element)
    requires e != Br && f != Br
    ensures var inside := path + [Name(e)];
            Reads(path, [Open(e), Open(f)], [Starts(inside, ""), Starts(inside + [Name(f)], "")], inside + [Name(f)])
  {
    hide Reads, Name;
    var inside := path + [Name(e)];
    ReadsOpen(path, e);
    ReadsOpen(inside, f);
    ReadsConcat(path, [Open(e)], [Starts(inside, "")], inside, [Open(f)], [Starts(inside + [Name(f)], "")],
                inside + [Name(f)]);
    assert [Open(e)] + [Open(f)] == [Open(e), Open(f)];
    assert [Starts(inside, "")] + [Starts(inside + [Name(f)], "")] ==
           [Starts(inside, ""), Starts(inside + [Name(f)], "")];
  }

  // Behind the closing tags of what was open.
  lemma ReadsAfterClosing(m: Mode, ps: seq<Piece>, es: seq<Event>, b: seq<string>)
    requires Reads([], ps, es, b)
    ensures Reads(PathOf(m), Closing(m) + ps, es, b)
  {
    hide *;
    ReadsClosing(m);
    ReadsConcat(PathOf(m), Closing(m), [], [], ps, es, b);
    assert [] + es == es;
  }

  // The turn shows what the line says.
  ghost predicate Tells(m: Mode, t: Turn, shown: Shown)
  {
    Reads(PathOf(m), t.ps, shown.events, Path(shown.place)) && PlaceOf(t.mode) == shown.place
  }

  lemma MathLineTells(m: Mode, line: string)
    requires m.InMath? || m.MathInCode?
    ensures var p := PlaceOf(m);
            Tells(m, MathLine(m, line),
                  Shown(if line != "\\]" && line != "$$" then p else if p == Formula then Nowhere else Coded,
                        ShowAll(Path(p), line + "\n")))
  {
    hide Reads, Name, Escape, ShowAll;
    var shown := ShowAll(PathOf(m), line + "\n");
    ReadsLine(PathOf(m), line);
    if MathMark(line, "\\]") {
      var b := if m.MathInCode? then ["pre", "code"] else [];
      assert b + ["div"] == PathOf(m);
      ReadsClose(b, Div, "div");
      ReadsConcat(PathOf(m), [Text(Escape(line) + "\n")], shown, PathOf(m), [Close(Div)], [], b);
      assert shown + [] == shown;
    }
  }

  lemma MathStartIs(m: Mode, line: string)
    ensures var ps := [OpenMath(Div), Text(Escape(line) + "\n")];
            && MathStart(m, line) == (if m.InCode? then Turn(MathInCode, [] + ps) else Turn(InMath, Closing(m) + ps))
            && PlaceOf(MathInCode) == CodedFormula && PlaceOf(InMath) == Formula && Name(Div) == "div"
            && PathOf(InCode) == ["pre", "code"] && Path(CodedFormula) == ["pre", "code", "div"]
            && Path(Formula) == ["div"]
  {
  }

  lemma MathStartTells(m: Mode, line: string)
    requires !m.InMath? && !m.MathInCode?
    ensures var q := if m.InCode? then CodedFormula else Formula;
            Tells(m, MathStart(m, line),
                  Shown(q, [Starts(Path(q), " class=\"math-block\"")] + ShowAll(Path(q), line + "\n")))
  {
    hide *;
    MathStartIs(m, line);
    var q := if m.InCode? then CodedFormula else Formula;
    var a := if m.InCode? then ["pre", "code"] else [];
    var b := Path(q);
    assert a + ["div"] == b;
    var ps, start, shown := [Text(Escape(line) + "\n")], Starts(b, " class=\"math-block\""), ShowAll(b, line + "\n");
    ReadsOpen(a, Div);
    ReadsLine(b, line);
    ReadsConcat(a, [OpenMath(Div)], [start], b, ps, shown, b);
    assert [OpenMath(Div)] + ps == [OpenMath(Div), Text(Escape(line) + "\n")];
    if !m.InCode? { ReadsAfterClosing(m, [OpenMath(Div), Text(Escape(line) + "\n")], [start] + shown, b); }
    assert [] + ([OpenMath(Div)] + ps) == [OpenMath(Div)] + ps;
    TellsIf(m, MathStart(m, line), Shown(q, [start] + shown));
  }

  lemma FenceTells(m: Mode)
    requires !m.InMath? && !m.MathInCode?
    ensures Tells(m, Fence(m),
                  if m.InCode? then Shown(Nowhere, [])
                  else Shown(Coded, [Starts(["pre"], ""), Starts(["pre", "code"], "")]))
  {
    assert Name(Pre) == "pre" && Name(Element.Code) == "code";
    hide Reads, Name, Closing;
    if m.InCode? {
      ReadsClosing(m);
    } else {
      ReadsTwoOpened([], Pre, Element.Code);
      assert [] + ["pre"] == ["pre"] && ["pre"] + ["code"] == ["pre", "code"];
      ReadsAfterClosing(m, [Open(Pre), Open(Element.Code)], [Starts(["pre"], ""), Starts(["pre", "code"], "")],
                        ["pre", "code"]);
    }
  }

  lemma TellsIf(m: Mode, t: Turn, shown: Shown)
    requires Reads(PathOf(m), t.ps, shown.events, Path(shown.place)) && PlaceOf(t.mode) == shown.place
    ensures Tells(m, t, shown)
  {
  }

  lemma TableStartIs(m: Mode, line: string)
    requires line != ""
    ensures TableStart(m, line) == Turn(InTable, Closing(m) + ([Open(Element.Table), Open(Thead)] +
                                                               RowPieces(line, true) + [Close(Thead), Open(Tbody)]))
    ensures PlaceOf(InTable) == Tabled && Path(Tabled) == ["table", "tbody"]
    ensures Name(Element.Table) == "table" && Name(Thead) == "thead" && Name(Tbody) == "tbody"
  {
  }

  lemma TableStartTells(m: Mode, line: string)
    requires line != ""
    ensures Tells(m, TableStart(m, line),
                  Shown(Tabled, [Starts(["table"], ""), Starts(["table", "thead"], "")] +
                                RowEvents(["table", "thead"], "th", line) + [Starts(["table", "tbody"], "")]))
  {
    hide *;
    TableStartIs(m, line);
    var head, row := [Open(Element.Table), Open(Thead)], RowPieces(line, true);
    var heads := [Starts(["table"], ""), Starts(["table", "thead"], "")];
    var rows := RowEvents(["table", "thead"], "th", line);
    ReadsTwoOpened([], Element.Table, Thead);
    assert [] + ["table"] == ["table"] && ["table"] + ["thead"] == ["table", "thead"];
    ReadsRow(["table", "thead"], line, true);
    ReadsConcat([], head, heads, ["table", "thead"], row, rows, ["table", "thead"]);
    ReadsHeadClosed();
    var rest, start := [Close(Thead), Open(Tbody)], [Starts(["table", "tbody"], "")];
    ReadsConcat([], head + row, heads + rows, ["table", "thead"], rest, start, ["table", "tbody"]);
    ReadsAfterClosing(m, head + row + rest, heads + rows + start, ["table", "tbody"]);
    TellsIf(m, TableStart(m, line), Shown(Tabled, heads + rows + start));
  }

  lemma ReadsHeadClosed()
    ensures Reads(["table", "thead"], [Close(Thead), Open(Tbody)], [Starts(["table", "tbody"], "")], ["table", "tbody"])
  {
    assert Name(Tbody) == "tbody";
    hide *;
    ReadsClose(["table"], Thead, "thead");
    ReadsOpen(["table"], Tbody);
    assert ["table"] + ["thead"] == ["table", "thead"] && ["table"] + ["tbody"] == ["table", "tbody"];
    var start := [Starts(["table", "tbody"], "")];
    ReadsConcat(["table", "thead"], [Close(Thead)], [], ["table"], [Open(Tbody)], start, ["table", "tbody"]);
    assert [Close(Thead)] + [Open(Tbody)] == [Close(Thead), Open(Tbody)] && [] + start == start;
  }

  lemma HeadingTells(m: Mode, h: Element, rest: string)
    requires h != Br
    ensures Tells(m, Turn(Plain, Closing(m) + [Open(h), Text(Escape(SkipSpaces(rest))), Close(h)]),
                  Title(Name(h), rest))
  {
    SpacesAre(rest);
    hide Reads, Name, Closing, Escape, ShowAll, SkipSpaces, AfterBlanks;
    var t := SkipSpaces(rest);
    ReadsAround([], h, t);
    assert [] + [Name(h)] == [Name(h)];
    ReadsAfterClosing(m, [Open(h), Text(Escape(t)), Close(h)], [Starts([Name(h)], "")] + ShowAll([Name(h)], t), []);
  }

  lemma ItemTells(m: Mode, t: string)
    ensures Tells(m, Turn(List, (if m.List? then [] else Closing(m) + [Open(Ul)]) +
                                [Open(Li), Text(Escape(t)), Close(Li)]),
                  Shown(BehindItem, (if m.List? then [] else [Starts(["ul"], "")]) +
                                    ([Starts(["ul", "li"], "")] + ShowAll(["ul", "li"], t))))
  {
    assert Name(Ul) == "ul" && Name(Li) == "li" && PathOf(List) == ["ul"] && PlaceOf(List) == BehindItem;
    hide *;
    var item, shown := [Open(Li), Text(Escape(t)), Close(Li)], [Starts(["ul", "li"], "")] + ShowAll(["ul", "li"], t);
    ReadsAround(["ul"], Li, t);
    assert ["ul"] + ["li"] == ["ul", "li"];
    ReadsNothing(["ul"]);
    OpenedFor(m, List, Ul, [], item, [], shown);
  }

  // Inside an element that is opened unless it is open already.
  lemma OpenedFor(m: Mode, n: Mode, e: Element, before: seq<Piece>, ps: seq<Piece>, es: seq<Event>, fs: seq<Event>)
    requires e != Br && PathOf(n) == [Name(e)] && Reads(PathOf(n), ps, fs, PathOf(n))
    requires Reads(PathOf(n), before, es, PathOf(n))
    ensures Tells(m, Turn(n, (if m == n then before else Closing(m) + [Open(e)]) + ps),
                  Shown(PlaceOf(n), (if m == n then es else [Starts([Name(e)], "")]) + fs))
  {
    hide Reads, Name, Closing, PathOf;
    assert PathOf(n) == Path(PlaceOf(n)) by { PathIs(n); }
    if m == n {
      ReadsConcat(PathOf(n), before, es, PathOf(n), ps, fs, PathOf(n));
    } else {
      ReadsOpen([], e);
      assert [] + [Name(e)] == [Name(e)];
      ReadsConcat([], [Open(e)], [Starts([Name(e)], "")], PathOf(n), ps, fs, PathOf(n));
      ReadsAfterClosing(m, [Open(e)] + ps, [Starts([Name(e)], "")] + fs, PathOf(n));
      assert Closing(m) + ([Open(e)] + ps) == Closing(m) + [Open(e)] + ps;
    }
  }

  lemma PathIs(m: Mode)
    ensures PathOf(m) == Path(PlaceOf(m))
  {
  }

  lemma ProseTells(m: Mode, text: string)
    ensures Tells(m, Turn(Paragraph, (if m.Paragraph? then [Open(Br)] else Closing(m) + [Open(P)]) +
                                     ContentPieces(text)),
                  Shown(BehindProse, (if m.Paragraph? then [Breaks(["p"])] else [Starts(["p"], "")]) +
                    if "$$" <= text || "\\[" <= text
                    then [Starts(["p", "span"], " class=\"math-block\"")] + ShowAll(["p", "span"], text)
                    else ShowAll(["p"], text)))
  {
    assert Name(P) == "p" && Name(Span) == "span";
    hide Reads, Name, Closing, Escape, ShowAll;
    ReadsBreak(["p"]);
    if MathText(text) {
      ReadsAround(["p"], Span, text);
      assert ["p"] + ["span"] == ["p", "span"];
      OpenedFor(m, Paragraph, P, [Open(Br)], ContentPieces(text), [Breaks(["p"])],
                [Starts(["p", "span"], " class=\"math-block\"")] + ShowAll(["p", "span"], text));
    } else {
      ReadsText(["p"], text);
      OpenedFor(m, Paragraph, P, [Open(Br)], ContentPieces(text), [Breaks(["p"])], ShowAll(["p"], text));
    }
  }

  lemma TextLineIs(m: Mode, line: string)
    ensures var level := Hashes(line);
            && level <= |line|
            && TextLine(m, line) ==
               if 1 <= level <= 3 && " " <= line[level..] then
                 Turn(Plain, Closing(m) + [Open(Heading(level)), Text(Escape(SkipSpaces(line[level..]))),
                                           Close(Heading(level))])
               else if "- " <= line[level..] || "* " <= line[level..] then
                 Turn(List, (if m.List? then [] else Closing(m) + [Open(Ul)]) +
                            [Open(Li), Text(Escape(line[level..][2..])), Close(Li)])
               else
                 Turn(Paragraph, (if m.Paragraph? then [Open(Br)] else Closing(m) + [Open(P)]) +
                                 ContentPieces(line[level..]))
  {
    HashesAre(line);
  }

  lemma HeadingShown(p: Place, line: string)
    requires Hashes(line) <= |line| && 1 <= Hashes(line) <= 3 && " " <= line[Hashes(line)..]
    ensures TextShown(p, line) == Title(Name(Heading(Hashes(line))), line[Hashes(line)..])
  {
    HeadingIs(line);
    HeadingNames();
    hide Hashes, AfterHashes, Name, ItemOrProse, Title, Heading;
    if Hashes(line) == 1 { assert "# " <= line; } else if Hashes(line) == 2 { assert "## " <= line; }
  }

  lemma NoHeadingShown(p: Place, line: string)
    requires Hashes(line) <= |line| && !(1 <= Hashes(line) <= 3 && " " <= line[Hashes(line)..])
    ensures TextShown(p, line) == ItemOrProse(p, line[Hashes(line)..])
  {
    NoHeading(line);
    HashesAre(line);
    hide Hashes, AfterHashes, ItemOrProse, Title;
  }

  lemma NoHeading(line: string)
    requires Hashes(line) <= |line| && !(1 <= Hashes(line) <= 3 && " " <= line[Hashes(line)..])
    ensures !("# " <= line) && !("## " <= line) && !("### " <= line)
  {
    HeadingIs(line);
    hide *;
  }

  lemma TextShownIs(p: Place, line: string)
    ensures var level := Hashes(line);
            && level <= |line|
            && TextShown(p, line) ==
               if 1 <= level <= 3 && " " <= line[level..] then Title(Name(Heading(level)), line[level..])
               else ItemOrProse(p, line[level..])
  {
    hide *;
    HashesAre(line);
    if 1 <= Hashes(line) <= 3 && " " <= line[Hashes(line)..] {
      HeadingShown(p, line);
    } else {
      NoHeadingShown(p, line);
    }
  }

  lemma TextLineTells(m: Mode, line: string)
    requires m.Plain? || m.Paragraph? || m.List?
    ensures Tells(m, TextLine(m, line), TextShown(PlaceOf(m), line))
  {
    assert (PlaceOf(m) == BehindItem <==> m.List?) && (PlaceOf(m) == BehindProse <==> m.Paragraph?);
    hide *;
    TextLineIs(m, line);
    TextShownIs(PlaceOf(m), line);
    HeadingNames();
    var level := Hashes(line);
    var content := line[level..];
    if 1 <= level <= 3 && " " <= content {
      HeadingTells(m, Heading(level), content);
    } else if "- " <= content || "* " <= content {
      ItemTells(m, content[2..]);
    } else {
      ProseTells(m, content);
    }
  }

  lemma HeadingNames()
    ensures Name(Heading(1)) == "h1" && Name(Heading(2)) == "h2" && Name(Heading(3)) == "h3"
    ensures Heading(1) != Br && Heading(2) != Br && Heading(3) != Br
  {
  }

  function NextLine(rest: Option<string>): Option<string>
  {
    if rest.Some? then Some(Split(rest.value, '\n')[0]) else None
  }

  lemma CodeLineTells(m: Mode, line: string)
    ensures Tells(m, Turn(m, [Text(Escape(line) + "\n")]),
                  Shown(PlaceOf(m), ShowAll(Path(PlaceOf(m)), line + "\n")))
  {
    hide Reads, Escape, ShowAll, Path;
    ReadsLine(PathOf(m), line);
  }

  lemma BlankTells(m: Mode)
    ensures Tells(m, Turn(Plain, Closing(m)), Shown(Nowhere, []))
  {
    hide Reads;
    ReadsClosing(m);
  }

  lemma RowTells(line: string)
    requires line != ""
    ensures Tells(InTable, Turn(InTable, if IsSeparator(line) then [] else RowPieces(line, false)),
                  Shown(Tabled, if IsSeparator(line) then [] else RowEvents(["table", "tbody"], "td", line)))
  {
    hide Reads, IsSeparator, RowPieces, RowEvents;
    if IsSeparator(line) { ReadsNothing(PathOf(InTable)); } else { ReadsRow(PathOf(InTable), line, false); }
  }

  // A line that ends no table shows what it says.
  lemma LineTells(m: Mode, line: string, rest: Option<string>)
    requires m.InTable? ==> IsRow(line)
    ensures Tells(m, LineIn(m, line, rest), LineShown(PlaceOf(m), line, NextLine(rest)))
  {
    RowIsBarred(line);
    BlankIs(line);
    RuleIs(line);
    NextRule(rest);
    assert PathOf(InTable) == ["table", "tbody"] && (IsRow(line) ==> line != "");
    hide IsRow, Barred, MathLine, MathStart, Fence, TableStart, RowPieces, TextLine, TextShown;
    hide RowEvents, Tells, Closing, Escape;
    hide ShowAll, IsSeparator, IsRule, SeparatorFollows, Split, BlankLine, OnlyBlanks, Path, WithoutReturns;
    if m.InMath? || m.MathInCode? { MathLineTells(m, line); }
    else if line == "\\[" || line == "$$" { MathStartTells(m, line); }
    else if "```" <= line { FenceTells(m); }
    else if m.InCode? { CodeLineTells(m, line); }
    else if BlankLine(line) { BlankTells(m); }
    else if IsRow(line) && !m.InTable? && SeparatorFollows(rest) { TableStartTells(m, line); }
    else if m.InTable? { RowTells(line); }
    else { TextLineTells(m, line); }
  }

  lemma StepTells(m: Mode, line: string, rest: Option<string>)
    ensures Tells(m, Step(m, line, rest), LineShown(PlaceOf(m), line, NextLine(rest)))
  {
    var settled := Settle(m, line);
    LineTells(settled, line, rest);
    LeftTable(m, line, NextLine(rest));
    hide LineIn, LineShown, IsRow, Reads, Closing, Path, NextLine;
    var t := LineIn(settled, line, rest);
    if settled == m {
      assert [] + t.ps == t.ps;
    } else {
      var shown := LineShown(PlaceOf(m), line, NextLine(rest));
      PlainPath();
      ReadsAfterClosing(m, t.ps, shown.events, Path(shown.place));
    }
  }

  lemma PlainPath()
    ensures PathOf(Plain) == []
  {
  }

  lemma LeftTable(m: Mode, line: string, next: Option<string>)
    ensures LineShown(PlaceOf(Settle(m, line)), line, next) == LineShown(PlaceOf(m), line, next)
  {
    RowIsBarred(line);
    hide IsRow, Barred, TextShown, RowEvents, ShowAll, IsRule, OnlyBlanks;
  }

  // ----- the whole text -----

  lemma {:induction false} PiecesTell(m: Mode, text: string)
    ensures Events(PathOf(m), Render(Pieces(m, text))) == LinesShown(PlaceOf(m), Split(text, '\n'))
    ensures PlaceOf(EndMode(m, text)) == EndPlace(PlaceOf(m), Split(text, '\n'))
    decreases |text|
  {
    LinesAre(text);
    if text == "" {
      ClosedIsRead(m);
    } else {
      var lines := Split(text, '\n');
      var t := Step(m, Line(text), Rest(text));
      StepTells(m, Line(text), Rest(text));
      PiecesTell(t.mode, Remaining(text));
      LinesBehind(m, text);
      var shown := LineShown(PlaceOf(m), lines[0], if |lines| > 1 then Some(lines[1]) else None);
      TurnRead(m, t, shown, Pieces(t.mode, Remaining(text)));
      hide Step, LineShown, Events, Render, Split, Line, Rest, Path;
    }
  }

  lemma ClosedIsRead(m: Mode)
    ensures Events(PathOf(m), Render(Closing(m))) == []
  {
    ReadsClosing(m);
    hide PathOf, Closing, Render;
    assert Render(Closing(m)) + "" == Render(Closing(m));
  }

  lemma TurnRead(m: Mode, t: Turn, shown: Shown, more: seq<Piece>)
    requires Tells(m, t, shown)
    ensures Events(PathOf(m), Render(t.ps + more)) == shown.events + Events(PathOf(t.mode), Render(more))
    ensures PlaceOf(t.mode) == shown.place
  {
    hide Events, Render, Path, PlaceOf;
    RenderConcat(t.ps, more);
  }

  lemma LinesBehind(m: Mode, text: string)
    requires text != ""
    ensures var lines := Split(text, '\n');
            && lines != [] && lines != [""] && lines[0] == Line(text)
            && NextLine(Rest(text)) == (if |lines| > 1 then Some(lines[1]) else None)
            && LinesShown(Nowhere, []) == []
            && forall p: Place :: LinesShown(p, lines[1..]) == LinesShown(p, Split(Remaining(text), '\n'))
                               && EndPlace(p, lines[1..]) == EndPlace(p, Split(Remaining(text), '\n'))
  {
    LinesAre(text);
    hide Line, Rest, LineShown;
    assert Split("", '\n') == [""];
  }

  // A reader of the HTML of a text sees what its lines say, in order.
  lemma MarkupShows(text: string)
    ensures Events([], Markup(text)) == LinesShown(Nowhere, Split(text, '\n'))
  {
    PiecesTell(Plain, text);
    PlainPath();
  }

  // The elements nest exactly when the lines do not end in a formula that was
  // opened in a code block.
  lemma NestsExactly(text: string)
    ensures WellNested(Markup(text)) <==> EndPlace(Nowhere, Split(text, '\n')) != CodedFormula
  {
    PiecesTell(Plain, text);
    MarkupNests(text);
  }
}
