// html_markdown: lines drive five flags, and the tags written on the way nest.
module Markdown {
  import opened Bytes
  import opened Html

  // ----- kinds of lines -----

  predicate IsBlank(c: char) { c == ' ' || c == '\t' }

  function TrimRight(s: string): (t: string)
    ensures t <= s
  {
    if s != "" && IsBlank(s[|s| - 1]) then TrimRight(s[..|s| - 1]) else s
  }

  function TrimLeft(s: string): string
  {
    if s != "" && IsBlank(s[0]) then TrimLeft(s[1..]) else s
  }

  function StripReturns(s: string): string
  {
    if s != "" && s[|s| - 1] == '\r' then StripReturns(s[..|s| - 1]) else s
  }

  predicate BlankLine(line: string) { forall c :: c in line ==> IsBlank(c) }

  predicate IsRow(line: string)
  {
    var t := TrimRight(line);
    |t| > 1 && line[0] == '|' && t[|t| - 1] == '|'
  }

  predicate IsSeparator(line: string)
  {
    IsRow(line) && '-' in line && forall c :: c in line ==> c in "-|: \t"
  }

  // The line behind the newline, if there is a newline.
  predicate SeparatorFollows(rest: Option<string>)
  {
    rest.Some? && IsSeparator(StripReturns(rest.value[..Find(rest.value, '\n', 0)]))
  }

  method LineIsBlank(line: string) returns (b: bool)
    ensures b <==> BlankLine(line)
  {
    var i := 0;
    while i < |line| && IsBlank(line[i])
      invariant 0 <= i <= |line| && forall j :: 0 <= j < i ==> IsBlank(line[j])
    {
      i := i + 1;
    }
    b := i == |line|;
    if !b { assert line[i] in line; }
  }

  method TableRow(line: string) returns (b: bool)
    ensures b <==> IsRow(line)
  {
    if line == "" || line[0] != '|' { return false; }
    var length := |line|;
    assert line[..length] == line;
    while length > 0 && IsBlank(line[length - 1])
      invariant 0 <= length <= |line| && TrimRight(line) == TrimRight(line[..length])
    {
      assert line[..length][..length - 1] == line[..length - 1];
      length := length - 1;
    }
    b := length > 1 && line[length - 1] == '|';
  }

  method TableSeparator(line: string) returns (b: bool)
    ensures b <==> IsSeparator(line)
  {
    hide IsRow;
    var row := TableRow(line);
    if !row { return false; }
    var dash := false;
    var i := 0;
    while i < |line|
      invariant 0 <= i <= |line| && (dash <==> '-' in line[..i])
      invariant forall j :: 0 <= j < i ==> line[j] in "-|: \t"
    {
      if line[i] == '-' {
        dash := true;
      } else if line[i] != '|' && line[i] != ':' && line[i] != ' ' && line[i] != '\t' {
        assert line[i] in line && line[i] !in "-|: \t";
        return false;
      }
      i := i + 1;
    }
    assert line[..i] == line;
    b := dash;
  }

  method NextLineIsTableSeparator(rest: Option<string>) returns (b: bool)
    ensures b <==> SeparatorFollows(rest)
  {
    hide IsSeparator;
    if rest.None? { return false; }
    var next := rest.value[..Find(rest.value, '\n', 0)];
    var length := |next|;
    assert next[..length] == next;
    while length > 0 && next[length - 1] == '\r'
      invariant 0 <= length <= |next| && StripReturns(next) == StripReturns(next[..length])
    {
      assert next[..length][..length - 1] == next[..length - 1];
      length := length - 1;
    }
    b := TableSeparator(next[..length]);
  }

  // ----- table rows -----

  function Cells(body: string): seq<string>
  {
    var k := Find(body, '|', 0);
    if k == |body| then [body] else [body[..k]] + Cells(body[k + 1..])
  }

  function CellPieces(cell: string, e: Element): seq<Piece>
  {
    [Open(e), Text(Escape(TrimRight(TrimLeft(cell)))), Close(e)]
  }

  function AllCells(cells: seq<string>, e: Element): seq<Piece>
  {
    if cells == [] then [] else CellPieces(cells[0], e) + AllCells(cells[1..], e)
  }

  // Between the first bar and the last byte, if that is a bar too.
  function RowBody(line: string): string
    requires line != ""
  {
    line[1..if |line| > 1 && line[|line| - 1] == '|' then |line| - 1 else |line|]
  }

  function CellElement(header: bool): Element { if header then Th else Td }

  function RowPieces(line: string, header: bool): seq<Piece>
    requires line != ""
  {
    [Open(Tr)] + AllCells(Cells(RowBody(line)), CellElement(header)) + [Close(Tr)]
  }

  lemma RowLiterals()
    ensures Written(Open(Tr)) == "<tr>" && Written(Close(Tr)) == "</tr>"
  {
  }

  lemma RenderNothing()
    ensures Render([]) == ""
  {
  }

  lemma TextAsIs(s: string)
    ensures Written(Text(s)) == s
  {
  }

  lemma RenderOne(p: Piece)
    ensures Render([p]) == Written(p)
  {
    assert Render([p][1..]) == "";
  }

  lemma RenderTwo(p: Piece, q: Piece)
    ensures Render([p, q]) == Written(p) + Written(q)
  {
    RenderOne(p);
    RenderOne(q);
    RenderConcat([p], [q]);
    assert [p] + [q] == [p, q];
  }

  lemma RenderThree(p: Piece, q: Piece, r: Piece)
    ensures Render([p, q, r]) == Written(p) + Written(q) + Written(r)
  {
    RenderTwo(p, q);
    RenderOne(r);
    RenderConcat([p, q], [r]);
    assert [p, q] + [r] == [p, q, r];
  }

  method AppendCell(out: string, cell: string, header: bool) returns (r: string)
    ensures r == out + Render(CellPieces(cell, CellElement(header)))
  {
    hide Render, Written, Escape;
    var left, right := 0, |cell|;
    assert cell[left..] == cell;
    while left < right && IsBlank(cell[left])
      invariant 0 <= left <= right == |cell| && TrimLeft(cell) == TrimLeft(cell[left..])
    {
      assert cell[left..][1..] == cell[left + 1..];
      left := left + 1;
    }
    assert TrimLeft(cell) == cell[left..] == cell[left..right];
    while right > left && IsBlank(cell[right - 1])
      invariant left <= right <= |cell| && TrimRight(TrimLeft(cell)) == TrimRight(cell[left..right])
    {
      assert cell[left..right][..right - left - 1] == cell[left..right - 1];
      right := right - 1;
    }
    var value := cell[left..right];
    assert value == TrimRight(TrimLeft(cell));
    r := AppendElement(out, CellElement(header), value);
  }

  // An element around an escaped text.
  method AppendElement(out: string, e: Element, value: string) returns (r: string)
    ensures r == out + Render([Open(e), Text(Escape(value)), Close(e)])
  {
    hide Written, Render, Escape;
    r := out + Written(Open(e));
    r := EscapeText(r, value);
    r := r + Written(Close(e));
    TextAsIs(Escape(value));
    RenderThree(Open(e), Text(Escape(value)), Close(e));
  }

  method AppendTableRow(out: string, line: string, header: bool) returns (r: string)
    requires line != ""
    ensures r == out + Render(RowPieces(line, header))
  {
    hide Render, Written, CellPieces, Cells;
    ghost var e := CellElement(header);
    r := out + "<tr>";
    var finish := |line|;
    if finish > 1 && line[finish - 1] == '|' { finish := finish - 1; }
    ghost var body := line[1..finish];
    ghost var goal := r + Render(AllCells(Cells(body), e));
    assert line[1..finish] == body;
    var cell, p := 1, 1;
    while p <= finish
      invariant 1 <= cell <= p <= finish + 1
      invariant p <= finish ==> r + Render(AllCells(Cells(line[cell..finish]), e)) == goal
      invariant p <= finish ==> forall j :: cell <= j < p ==> line[j] != '|'
      invariant p > finish ==> r == goal
      decreases finish + 1 - p
    {
      if p == finish || line[p] == '|' {
        FirstCell(line, cell, p, finish, e);
        r := AppendCell(r, line[cell..p], header);
        cell := p + 1;
      }
      p := p + 1;
    }
    r := r + "</tr>";
    RowIs(out, body, e);
  }

  // The cell that ends at p, and the cells behind it.
  lemma FirstCell(line: string, cell: nat, p: nat, finish: nat, e: Element)
    requires cell <= p <= finish <= |line| && (p == finish || line[p] == '|')
    requires forall j :: cell <= j < p ==> line[j] != '|'
    ensures Render(AllCells(Cells(line[cell..finish]), e)) ==
            Render(CellPieces(line[cell..p], e)) +
            if p == finish then "" else Render(AllCells(Cells(line[p + 1..finish]), e))
  {
    hide CellPieces, Render;
    var body := line[cell..finish];
    assert forall j :: 0 <= j < p - cell ==> body[j] == line[cell + j];
    assert Find(body, '|', 0) == p - cell;
    assert body[..p - cell] == line[cell..p];
    if p == finish {
      assert AllCells([body], e) == CellPieces(body, e) + AllCells([body][1..], e);
      assert AllCells([body], e) == CellPieces(body, e);
    } else {
      assert body[p - cell + 1..] == line[p + 1..finish];
      var more := Cells(line[p + 1..finish]);
      assert ([line[cell..p]] + more)[1..] == more;
      RenderConcat(CellPieces(line[cell..p], e), AllCells(more, e));
    }
  }

  lemma RowIs(out: string, body: string, e: Element)
    ensures out + "<tr>" + Render(AllCells(Cells(body), e)) + "</tr>" ==
            out + Render([Open(Tr)] + AllCells(Cells(body), e) + [Close(Tr)])
  {
    hide Render, AllCells, Cells;
    RowLiterals();
    var ps := AllCells(Cells(body), e);
    RenderOne(Open(Tr));
    RenderOne(Close(Tr));
    RenderConcat([Open(Tr)], ps);
    RenderConcat([Open(Tr)] + ps, [Close(Tr)]);
  }

  // ----- what a line adds -----

  // The elements that can be open between lines.
  datatype Mode = Plain | Paragraph | List | InTable | InCode | InMath | MathInCode

  datatype Flags = Flags(code: bool, list: bool, paragraph: bool, math: bool, table: bool)

  // Of the five flags only code and math are ever on together.
  function FlagsOf(m: Mode): Flags
  {
    Flags(m.InCode? || m.MathInCode?, m.List?, m.Paragraph?, m.InMath? || m.MathInCode?, m.InTable?)
  }

  // The end tags written at the end of the text.
  function Closing(m: Mode): seq<Piece>
  {
    match m
    case Plain => []
    case Paragraph => [Close(P)]
    case List => [Close(Ul)]
    case InTable => [Close(Tbody), Close(Table)]
    case InCode => [Close(Code), Close(Pre)]
    case InMath => [Close(Div)]
    case MathInCode => [Close(Code), Close(Pre), Close(Div)]
  }

  datatype Turn = Turn(mode: Mode, ps: seq<Piece>)

  predicate MathMark(line: string, bracket: string) { line == bracket || line == "$$" }

  function MathLine(m: Mode, line: string): Turn
  {
    var ps := [Text(Escape(line) + "\n")];
    if MathMark(line, "\\]") then Turn(if m.MathInCode? then InCode else Plain, ps + [Close(Div)]) else Turn(m, ps)
  }

  function MathStart(m: Mode, line: string): Turn
  {
    Turn(if m.InCode? then MathInCode else InMath,
         (if m.InCode? then [] else Closing(m)) + [OpenMath(Div), Text(Escape(line) + "\n")])
  }

  function Fence(m: Mode): Turn
  {
    if m.InCode? then Turn(Plain, Closing(m)) else Turn(InCode, Closing(m) + [Open(Pre), Open(Code)])
  }

  function TableStart(m: Mode, line: string): Turn
    requires line != ""
  {
    Turn(InTable, Closing(m) + ([Open(Table), Open(Thead)] + RowPieces(line, true) + [Close(Thead), Open(Tbody)]))
  }

  function Hashes(line: string): nat
  {
    if line != "" && line[0] == '#' then 1 + Hashes(line[1..]) else 0
  }

  function SkipSpaces(s: string): string
  {
    if s != "" && s[0] == ' ' then SkipSpaces(s[1..]) else s
  }

  function Heading(level: nat): Element
    requires 1 <= level <= 3
  {
    if level == 1 then H1 else if level == 2 then H2 else H3
  }

  predicate MathText(content: string) { "$$" <= content || "\\[" <= content }

  // Headings, list items and paragraphs.
  function TextLine(m: Mode, line: string): Turn
  {
    var level := Hashes(line);
    HashesFit(line);
    var content := line[level..];
    if 1 <= level <= 3 && " " <= content then
      var h := Heading(level);
      Turn(Plain, Closing(m) + [Open(h), Text(Escape(SkipSpaces(content))), Close(h)])
    else if "- " <= content || "* " <= content then
      Turn(List, (if m.List? then [] else Closing(m) + [Open(Ul)]) + [Open(Li), Text(Escape(content[2..])), Close(Li)])
    else
      Turn(Paragraph,
           (if m.Paragraph? then [Open(Br)] else Closing(m) + [Open(P)]) +
           ContentPieces(content))
  }

  function ContentPieces(content: string): seq<Piece>
  {
    if MathText(content) then [OpenMath(Span), Text(Escape(content)), Close(Span)] else [Text(Escape(content))]
  }

  lemma HashesFit(line: string)
    ensures Hashes(line) <= |line| && forall j :: 0 <= j < Hashes(line) ==> line[j] == '#'
    ensures Hashes(line) < |line| ==> line[Hashes(line)] != '#'
  {
  }

  // A line that is no row ends the table before anything else.
  function Settle(m: Mode, line: string): Mode { if m.InTable? && !IsRow(line) then Plain else m }

  function LineIn(m: Mode, line: string, rest: Option<string>): Turn
  {
    if m.InMath? || m.MathInCode? then MathLine(m, line)
    else if MathMark(line, "\\[") then MathStart(m, line)
    else if "```" <= line then Fence(m)
    else if m.InCode? then Turn(m, [Text(Escape(line) + "\n")])
    else if BlankLine(line) then Turn(Plain, Closing(m))
    else if IsRow(line) && !m.InTable? && SeparatorFollows(rest) then TableStart(m, line)
    else if m.InTable? && IsRow(line) then Turn(m, if IsSeparator(line) then [] else RowPieces(line, false))
    else TextLine(m, line)
  }

  function Step(m: Mode, line: string, rest: Option<string>): Turn
  {
    var settled := Settle(m, line);
    var t := LineIn(settled, line, rest);
    Turn(t.mode, (if settled == m then [] else Closing(m)) + t.ps)
  }

  // ----- a whole text -----

  function Line(text: string): string { text[..Find(text, '\n', 0)] }

  // What stands behind the first newline.
  function Rest(text: string): (r: Option<string>)
    ensures r.Some? ==> |r.value| < |text|
  {
    var k := Find(text, '\n', 0);
    if k < |text| then Some(text[k + 1..]) else None
  }

  function Remaining(text: string): (r: string)
    ensures text != "" ==> |r| < |text|
  {
    if Rest(text).Some? then Rest(text).value else ""
  }

  function Pieces(m: Mode, text: string): seq<Piece>
    decreases |text|
  {
    if text == "" then Closing(m)
    else
      var t := Step(m, Line(text), Rest(text));
      t.ps + Pieces(t.mode, Remaining(text))
  }

  function EndMode(m: Mode, text: string): Mode
    decreases |text|
  {
    if text == "" then m else EndMode(Step(m, Line(text), Rest(text)).mode, Remaining(text))
  }

  // The HTML of a text.
  function Markup(text: string): string { Render(Pieces(Plain, text)) }

  // ----- every text -----

  function Stack(m: Mode): seq<string>
  {
    match m
    case Plain => []
    case Paragraph => [Name(P)]
    case List => [Name(Ul)]
    case InTable => [Name(Table), Name(Tbody)]
    case InCode => [Name(Pre), Name(Code)]
    case InMath => [Name(Div)]
    case MathInCode => [Name(Pre), Name(Code), Name(Div)]
  }

  // The pieces lead from one stack of open elements to another.
  predicate Leads(a: seq<string>, ps: seq<Piece>, b: seq<string>)
  {
    Clean(ps) && Nest(a, TagsOf(ps)) == Some(b)
  }

  lemma LeadsConcat(a: seq<string>, ps: seq<Piece>, b: seq<string>, qs: seq<Piece>, c: seq<string>)
    requires Leads(a, ps, b) && Leads(b, qs, c)
    ensures Leads(a, ps + qs, c)
  {
    TagsOfConcat(ps, qs);
    NestConcat(a, TagsOf(ps), TagsOf(qs));
  }

  lemma {:induction false} TagsOfConcat(ps: seq<Piece>, qs: seq<Piece>)
    ensures TagsOf(ps + qs) == TagsOf(ps) + TagsOf(qs)
  {
    hide TagOf;
    if ps == [] {
      assert ps + qs == qs;
    } else {
      assert (ps + qs)[1..] == ps[1..] + qs && (ps + qs)[0] == ps[0];
      TagsOfConcat(ps[1..], qs);
    }
  }

  lemma LeadsOpen(a: seq<string>, e: Element)
    requires e != Br
    ensures Leads(a, [Open(e)], a + [Name(e)]) && Leads(a, [OpenMath(e)], a + [Name(e)])
  {
    hide Name;
    var t := [Opens(Name(e))];
    assert TagsOf([Open(e)]) == t && TagsOf([OpenMath(e)]) == t;
    assert Nest(a + [Name(e)], t[1..]) == Some(a + [Name(e)]);
  }

  lemma LeadsClose(a: seq<string>, e: Element)
    ensures Leads(a + [Name(e)], [Close(e)], a)
  {
    hide Name;
    var t := [Closes(Name(e))];
    assert TagsOf([Close(e)]) == t;
    assert (a + [Name(e)])[..|a|] == a;
    assert Nest(a, t[1..]) == Some(a);
  }

  lemma LeadsText(a: seq<string>, s: string)
    requires Inert(s)
    ensures Leads(a, [Text(s)], a) && Leads(a, [Open(Br)], a)
  {
    hide Name;
    assert TagsOf([Text(s)]) == [];
    var t := [Void];
    assert TagsOf([Open(Br)]) == t;
    assert Nest(a, t[1..]) == Some(a);
  }

  // An element around a text.
  lemma LeadsAround(a: seq<string>, e: Element, s: string)
    requires Inert(s) && e != Br
    ensures Leads(a, [Open(e), Text(s), Close(e)], a) && Leads(a, [OpenMath(e), Text(s), Close(e)], a)
  {
    hide Leads;
    LeadsOpen(a, e);
    LeadsText(a + [Name(e)], s);
    LeadsClose(a, e);
    LeadsConcat(a + [Name(e)], [Text(s)], a + [Name(e)], [Close(e)], a);
    LeadsConcat(a, [Open(e)], a + [Name(e)], [Text(s)] + [Close(e)], a);
    LeadsConcat(a, [OpenMath(e)], a + [Name(e)], [Text(s)] + [Close(e)], a);
    assert [Open(e)] + ([Text(s)] + [Close(e)]) == [Open(e), Text(s), Close(e)];
    assert [OpenMath(e)] + ([Text(s)] + [Close(e)]) == [OpenMath(e), Text(s), Close(e)];
  }

  lemma {:induction false} LeadsCells(a: seq<string>, cells: seq<string>, e: Element)
    requires e != Br
    ensures Leads(a, AllCells(cells, e), a)
  {
    if cells != [] {
      var value := Escape(TrimRight(TrimLeft(cells[0])));
      EscapedIsInert(TrimRight(TrimLeft(cells[0])));
      hide Leads, Escape, TrimRight, TrimLeft;
      LeadsAround(a, e, value);
      LeadsCells(a, cells[1..], e);
      LeadsConcat(a, CellPieces(cells[0], e), a, AllCells(cells[1..], e), a);
    }
  }

  lemma LeadsRow(a: seq<string>, line: string, header: bool)
    requires line != ""
    ensures Leads(a, RowPieces(line, header), a)
  {
    hide Leads, AllCells, Cells;
    var e := CellElement(header);
    var cells := AllCells(Cells(RowBody(line)), e);
    var b := a + [Name(Tr)];
    LeadsOpen(a, Tr);
    LeadsCells(b, Cells(RowBody(line)), e);
    LeadsClose(a, Tr);
    LeadsConcat(a, [Open(Tr)], b, cells, b);
    LeadsConcat(a, [Open(Tr)] + cells, b, [Close(Tr)], a);
  }

  lemma LeadsTwo(a: seq<string>, e: Element, f: Element)
    requires e != Br && f != Br
    ensures Leads(a, [Open(e), Open(f)], a + [Name(e), Name(f)])
    ensures Leads(a + [Name(e), Name(f)], [Close(f), Close(e)], a)
  {
    hide Leads;
    var b := a + [Name(e)];
    assert b + [Name(f)] == a + [Name(e), Name(f)];
    LeadsOpen(a, e);
    LeadsOpen(b, f);
    LeadsConcat(a, [Open(e)], b, [Open(f)], b + [Name(f)]);
    LeadsClose(a, e);
    LeadsClose(b, f);
    LeadsConcat(b + [Name(f)], [Close(f)], b, [Close(e)], a);
    assert [Open(e)] + [Open(f)] == [Open(e), Open(f)] && [Close(f)] + [Close(e)] == [Close(f), Close(e)];
  }

  lemma CodeIsNotDiv()
    ensures Name(Code) != Name(Div)
  {
  }

  // The end tags fit, save for a math block inside a code fence.
  lemma ClosingNests(m: Mode)
    ensures Clean(Closing(m))
    ensures m != MathInCode ==> Leads(Stack(m), Closing(m), [])
    ensures m == MathInCode ==> Nest(Stack(m), TagsOf(Closing(m))) == None
  {
    hide Name;
    match m
    case Plain =>
    case Paragraph => LeadsClose([], P); assert [] + [Name(P)] == Stack(m);
    case List => LeadsClose([], Ul); assert [] + [Name(Ul)] == Stack(m);
    case InTable => LeadsTwo([], Table, Tbody); assert [] + [Name(Table), Name(Tbody)] == Stack(m);
    case InCode => LeadsTwo([], Pre, Code); assert [] + [Name(Pre), Name(Code)] == Stack(m);
    case InMath => LeadsClose([], Div); assert [] + [Name(Div)] == Stack(m);
    case MathInCode =>
      CodeIsNotDiv();
      assert TagsOf(Closing(m))[0] == Closes(Name(Code));
  }

  predicate Good(m: Mode, t: Turn) { Leads(Stack(m), t.ps, Stack(t.mode)) }

  // Closing what is open and starting afresh.
  lemma GoodAfterClosing(m: Mode, ps: seq<Piece>, n: Mode)
    requires m != MathInCode && Leads([], ps, Stack(n))
    ensures Good(m, Turn(n, Closing(m) + ps))
  {
    hide Leads, Closing, Stack;
    ClosingNests(m);
    LeadsConcat(Stack(m), Closing(m), [], ps, Stack(n));
  }

  lemma LineText(a: seq<string>, line: string)
    ensures Leads(a, [Text(Escape(line) + "\n")], a)
  {
    EscapedIsInert(line);
    LeadsText(a, Escape(line) + "\n");
  }

  lemma MathLineNests(m: Mode, line: string)
    requires m.InMath? || m.MathInCode?
    ensures Good(m, MathLine(m, line))
  {
    hide Leads, Name, Escape;
    LineText(Stack(m), line);
    if MathMark(line, "\\]") {
      var b := Stack(if m.MathInCode? then InCode else Plain);
      assert b + [Name(Div)] == Stack(m);
      LeadsClose(b, Div);
      LeadsConcat(Stack(m), [Text(Escape(line) + "\n")], Stack(m), [Close(Div)], b);
    }
  }

  lemma MathStartNests(m: Mode, line: string)
    requires !m.InMath? && !m.MathInCode?
    ensures Good(m, MathStart(m, line))
  {
    hide Leads, Name, Escape, Closing;
    var a := if m.InCode? then Stack(m) else [];
    var b := a + [Name(Div)];
    var ps := [OpenMath(Div), Text(Escape(line) + "\n")];
    assert b == Stack(MathStart(m, line).mode);
    LeadsOpen(a, Div);
    LineText(b, line);
    LeadsConcat(a, [OpenMath(Div)], b, [Text(Escape(line) + "\n")], b);
    assert [OpenMath(Div)] + [Text(Escape(line) + "\n")] == ps;
    if m.InCode? {
      assert [] + ps == ps;
    } else {
      GoodAfterClosing(m, ps, InMath);
    }
  }

  lemma FenceNests(m: Mode)
    requires !m.InMath? && !m.MathInCode?
    ensures Good(m, Fence(m))
  {
    hide Leads, Name, Closing;
    ClosingNests(m);
    if !m.InCode? {
      LeadsTwo([], Pre, Code);
      assert [] + [Name(Pre), Name(Code)] == Stack(InCode);
      GoodAfterClosing(m, [Open(Pre), Open(Code)], InCode);
    }
  }

  lemma TableStartNests(m: Mode, line: string)
    requires m != MathInCode && line != ""
    ensures Good(m, TableStart(m, line))
  {
    hide Leads, Name, Closing, RowPieces;
    var table := [Name(Table)];
    var head := [Open(Table), Open(Thead)];
    var row := RowPieces(line, true);
    LeadsTwo([], Table, Thead);
    assert [] + [Name(Table), Name(Thead)] == [Name(Table), Name(Thead)] == table + [Name(Thead)];
    LeadsRow(table + [Name(Thead)], line, true);
    LeadsConcat([], head, table + [Name(Thead)], row, table + [Name(Thead)]);
    LeadsClose(table, Thead);
    LeadsOpen(table, Tbody);
    assert table + [Name(Tbody)] == Stack(InTable);
    LeadsConcat(table + [Name(Thead)], [Close(Thead)], table, [Open(Tbody)], Stack(InTable));
    assert [Close(Thead)] + [Open(Tbody)] == [Close(Thead), Open(Tbody)];
    LeadsConcat([], head + row, table + [Name(Thead)], [Close(Thead), Open(Tbody)], Stack(InTable));
    GoodAfterClosing(m, head + row + [Close(Thead), Open(Tbody)], InTable);
  }

  lemma HeadingNests(m: Mode, h: Element, s: string)
    requires m != MathInCode && h != Br
    ensures Good(m, Turn(Plain, Closing(m) + [Open(h), Text(Escape(s)), Close(h)]))
  {
    hide Leads, Name, Closing, Escape;
    EscapedIsInert(s);
    LeadsAround([], h, Escape(s));
    GoodAfterClosing(m, [Open(h), Text(Escape(s)), Close(h)], Plain);
  }

  // Opening e unless it is open already, and something inside it.
  lemma InsideNests(m: Mode, n: Mode, e: Element, before: seq<Piece>, ps: seq<Piece>)
    requires m != MathInCode && e != Br && Stack(n) == [Name(e)] && Leads(Stack(n), ps, Stack(n))
    requires Leads(Stack(n), before, Stack(n))
    ensures Good(m, Turn(n, (if m == n then before else Closing(m) + [Open(e)]) + ps))
  {
    hide Leads, Name, Closing, Stack;
    if m == n {
      LeadsConcat(Stack(n), before, Stack(n), ps, Stack(n));
    } else {
      LeadsOpen([], e);
      assert [] + [Name(e)] == Stack(n);
      LeadsConcat([], [Open(e)], Stack(n), ps, Stack(n));
      GoodAfterClosing(m, [Open(e)] + ps, n);
      assert Closing(m) + ([Open(e)] + ps) == Closing(m) + [Open(e)] + ps;
    }
  }

  lemma TextLineNests(m: Mode, line: string)
    requires m.Plain? || m.Paragraph? || m.List?
    ensures Good(m, TextLine(m, line))
  {
    hide Leads, Name, Closing, Escape, Hashes;
    var level := Hashes(line);
    HashesFit(line);
    var content := line[level..];
    LeadsText(Stack(List), "");
    LeadsText(Stack(Paragraph), "");
    if 1 <= level <= 3 && " " <= content {
      HeadingNests(m, Heading(level), SkipSpaces(content));
    } else if "- " <= content || "* " <= content {
      EscapedIsInert(content[2..]);
      LeadsAround(Stack(List), Li, Escape(content[2..]));
      LeadsNothing(Stack(List));
      InsideNests(m, List, Ul, [], [Open(Li), Text(Escape(content[2..])), Close(Li)]);
    } else {
      EscapedIsInert(content);
      LeadsAround(Stack(Paragraph), Span, Escape(content));
      LeadsText(Stack(Paragraph), Escape(content));
      InsideNests(m, Paragraph, P, [Open(Br)], ContentPieces(content));
    }
  }

  lemma LeadsNothing(a: seq<string>)
    ensures Leads(a, [], a)
  {
  }

  lemma LineNests(m: Mode, line: string, rest: Option<string>)
    requires m.InTable? ==> IsRow(line)
    ensures Good(m, LineIn(m, line, rest))
  {
    hide Leads, Name, Closing, Escape, RowPieces, TextLine, MathLine, MathStart, Fence, TableStart, IsSeparator,
      SeparatorFollows;
    if m.InMath? || m.MathInCode? {
      MathLineNests(m, line);
    } else if MathMark(line, "\\[") {
      MathStartNests(m, line);
    } else if "```" <= line {
      FenceNests(m);
    } else if m.InCode? {
      LineText(Stack(m), line);
    } else if BlankLine(line) {
      LeadsNothing([]);
      GoodAfterClosing(m, [], Plain);
      assert Closing(m) + [] == Closing(m);
    } else if IsRow(line) && !m.InTable? && SeparatorFollows(rest) {
      TableStartNests(m, line);
    } else if m.InTable? && IsRow(line) {
      LeadsNothing(Stack(m));
      LeadsRow(Stack(m), line, false);
    } else {
      TextLineNests(m, line);
    }
  }

  lemma StepNests(m: Mode, line: string, rest: Option<string>)
    ensures Good(m, Step(m, line, rest))
  {
    hide Leads, Closing, LineIn, IsRow;
    var settled := Settle(m, line);
    LineNests(settled, line, rest);
    var t := LineIn(settled, line, rest);
    if settled == m {
      assert [] + t.ps == t.ps;
    } else {
      GoodAfterClosing(m, t.ps, t.mode);
    }
  }

  // Whatever the text: up to the end tags the pieces nest.
  lemma {:induction false} PiecesNest(m: Mode, text: string)
    ensures Clean(Pieces(m, text))
    ensures Nest(Stack(m), TagsOf(Pieces(m, text))) == Nest(Stack(EndMode(m, text)), TagsOf(Closing(EndMode(m, text))))
    decreases |text|
  {
    hide Step, Stack, Closing;
    if text == "" {
      ClosingNests(m);
    } else {
      var t := Step(m, Line(text), Rest(text));
      StepNests(m, Line(text), Rest(text));
      PiecesNest(t.mode, Remaining(text));
      TagsOfConcat(t.ps, Pieces(t.mode, Remaining(text)));
      NestConcat(Stack(m), TagsOf(t.ps), TagsOf(Pieces(t.mode, Remaining(text))));
    }
  }

  // The characters written are well nested HTML exactly when the text does not
  // end with a math block open inside a code fence.
  lemma MarkupNests(text: string)
    ensures WellNested(Markup(text)) <==> EndMode(Plain, text) != MathInCode
  {
    hide Pieces, EndMode, Closing, Render, Tags;
    PiecesNest(Plain, text);
    TagsOfRendered(Pieces(Plain, text));
    ClosingNests(EndMode(Plain, text));
  }

  lemma ClosingBalances(m: Mode, n: string)
    ensures multiset(Stack(m))[n] + Balance(n, TagsOf(Closing(m))) == 0
    decreases m.MathInCode?
  {
    hide Name, Balance, Nest, TagsOf;
    if m != MathInCode {
      ClosingNests(m);
      NestBalances(n, Stack(m), TagsOf(Closing(m)));
    } else {
      ClosingBalances(InCode, n);
      TagsOfConcat(Closing(InCode), [Close(Div)]);
      BalanceConcat(n, TagsOf(Closing(InCode)), TagsOf([Close(Div)]));
      assert Closing(m) == Closing(InCode) + [Close(Div)] && Stack(m) == Stack(InCode) + [Name(Div)];
      LeadsClose([], Div);
      NestBalances(n, [] + [Name(Div)], TagsOf([Close(Div)]));
      assert [] + [Name(Div)] == [Name(Div)];
    }
  }

  lemma {:induction false} PiecesBalance(m: Mode, text: string, n: string)
    ensures multiset(Stack(m))[n] + Balance(n, TagsOf(Pieces(m, text))) == 0
    decreases |text|
  {
    hide Step, Stack, Closing;
    if text == "" {
      ClosingBalances(m, n);
    } else {
      var t := Step(m, Line(text), Rest(text));
      StepNests(m, Line(text), Rest(text));
      NestBalances(n, Stack(m), TagsOf(t.ps));
      PiecesBalance(t.mode, Remaining(text), n);
      TagsOfConcat(t.ps, Pieces(t.mode, Remaining(text)));
      BalanceConcat(n, TagsOf(t.ps), TagsOf(Pieces(t.mode, Remaining(text))));
    }
  }

  // In the characters written every element is closed as often as it is opened.
  lemma MarkupBalances(text: string, n: string)
    ensures Balance(n, Tags(Markup(text))) == 0
  {
    hide Pieces, Closing, Render, Tags;
    PiecesNest(Plain, text);
    TagsOfRendered(Pieces(Plain, text));
    PiecesBalance(Plain, text, n);
  }

  // A fence and a math mark: the text that is closed in the wrong order.
  lemma MathInFenceMisnests()
    ensures !WellNested(Markup("```\n$$"))
  {
    hide Pieces, WellNested, Markup, Render;
    var text := "```\n$$";
    assert text[3] == '\n' && text[..3] == "```" && text[4..] == "$$";
    assert Find(text, '\n', 0) == 3;
    assert Line(text) == "```" && Rest(text) == Some("$$");
    var next := "$$";
    assert next[0] == '$' && next[1] == '$' && next[..2] == next;
    assert Find(next, '\n', 0) == 2;
    assert Step(Plain, "```", Rest(text)).mode == InCode;
    assert Step(InCode, next, Rest(next)).mode == MathInCode;
    assert EndMode(InCode, next) == EndMode(MathInCode, "");
    MarkupNests(text);
  }

  // ----- carriage returns -----

  // The lines taken for rows are exactly those that would be rows once stripped
  // and end in no carriage return.
  lemma ReturnEndsNoRow(line: string)
    ensures IsRow(line) <==> IsRow(StripReturns(line)) && StripReturns(line) == line
    ensures StripReturns(line) == line <==> line == "" || line[|line| - 1] != '\r'
  {
    StripShortens(line);
  }

  // The same for blank lines and math marks: a line that ends in a carriage
  // return ends no paragraph or list, and opens or closes no math block.
  lemma ReturnEndsNoBlank(line: string)
    ensures BlankLine(line) <==> BlankLine(StripReturns(line)) && StripReturns(line) == line
  {
    StripShortens(line);
    if line != "" && line[|line| - 1] == '\r' { assert line[|line| - 1] in line; }
  }

  lemma ReturnEndsNoMark(line: string, bracket: string)
    requires bracket == "\\[" || bracket == "\\]"
    ensures MathMark(line, bracket) <==> MathMark(StripReturns(line), bracket) && StripReturns(line) == line
  {
    StripShortens(line);
  }

  // Only code fences are still seen.
  lemma {:induction false} ReturnKeepsFence(line: string)
    ensures "```" <= line <==> "```" <= StripReturns(line)
  {
    if line != "" && line[|line| - 1] == '\r' {
      ReturnKeepsFence(line[..|line| - 1]);
      assert |line| == 3 ==> line[2] == '\r' && "```"[2] != '\r';
    }
  }

  lemma {:induction false} StripShortens(s: string)
    ensures |StripReturns(s)| <= |s| - if s != "" && s[|s| - 1] == '\r' then 1 else 0
  {
    if s != "" && s[|s| - 1] == '\r' { StripShortens(s[..|s| - 1]); }
  }

  // Every newline follows a carriage return.
  predicate CrLf(text: string) { forall i :: 0 <= i < |text| && text[i] == '\n' ==> i > 0 && text[i - 1] == '\r' }

  predicate NoTable(ps: seq<Piece>) { Open(Table) !in ps && OpenMath(Table) !in ps }

  lemma StepWithoutTable(m: Mode, line: string, rest: Option<string>)
    requires !m.InTable? && !(IsRow(line) && SeparatorFollows(rest))
    ensures !Step(m, line, rest).mode.InTable? && NoTable(Step(m, line, rest).ps)
  {
    hide IsRow, SeparatorFollows, Escape, BlankLine, TextLine, MathLine, MathStart, Closing;
    ClosingWithoutTable(m);
    TextWithoutTable(m, line);
    MathWithoutTable(m, line);
    var t := LineIn(m, line, rest);
    assert [] + t.ps == t.ps;
  }

  lemma ClosingWithoutTable(m: Mode)
    ensures NoTable(Closing(m))
  {
  }

  lemma MathWithoutTable(m: Mode, line: string)
    requires !m.InTable?
    ensures !MathLine(m, line).mode.InTable? && NoTable(MathLine(m, line).ps)
    ensures !MathStart(m, line).mode.InTable? && NoTable(MathStart(m, line).ps)
  {
    hide Escape, Closing;
    ClosingWithoutTable(m);
  }

  lemma TextWithoutTable(m: Mode, line: string)
    ensures !TextLine(m, line).mode.InTable? && NoTable(TextLine(m, line).ps)
  {
    hide Escape, Closing, Hashes, SkipSpaces, MathText;
    ClosingWithoutTable(m);
    HashesFit(line);
  }

  lemma CrLfLines(text: string)
    requires CrLf(text) && text != ""
    ensures !(IsRow(Line(text)) && SeparatorFollows(Rest(text))) && CrLf(Remaining(text))
  {
    var k := Find(text, '\n', 0);
    if k < |text| {
      assert Line(text)[k - 1] == '\r';
      ReturnEndsNoRow(Line(text));
      var rest := text[k + 1..];
      forall i | 0 <= i < |rest| && rest[i] == '\n' ensures i > 0 && rest[i - 1] == '\r' {
        assert text[k + 1 + i] == '\n' && text[k + i] == '\r';
      }
    }
  }

  lemma {:induction false} PiecesWithoutTable(m: Mode, text: string)
    requires !m.InTable? && CrLf(text)
    ensures NoTable(Pieces(m, text))
    decreases |text|
  {
    hide Step, CrLf, Line, Rest, Remaining;
    if text != "" {
      CrLfLines(text);
      var t := Step(m, Line(text), Rest(text));
      StepWithoutTable(m, Line(text), Rest(text));
      assert |Remaining(text)| < |text|;
      PiecesWithoutTable(t.mode, Remaining(text));
    }
  }

  lemma TableIsTable(e: Element)
    ensures Name(e) == Name(Table) <==> e == Table
  {
  }

  lemma {:induction false} TableTags(ps: seq<Piece>)
    ensures Opens(Name(Table)) in TagsOf(ps) <==> !NoTable(ps)
  {
    hide Name;
    if ps != [] {
      TableTags(ps[1..]);
      if !ps[0].Text? { TableIsTable(ps[0].e); }
      assert Opens(Name(Table)) in TagOf(ps[0]) <==> ps[0] == Open(Table) || ps[0] == OpenMath(Table);
      assert ps == [ps[0]] + ps[1..];
    }
  }

  // A text with CR LF line ends gets no table, whatever its lines say.
  lemma CrLfHasNoTable(text: string)
    requires CrLf(text)
    ensures Opens("table") !in Tags(Markup(text))
  {
    hide Pieces, Tags, Render, CrLf, NoTable;
    PiecesNest(Plain, text);
    TagsOfRendered(Pieces(Plain, text));
    PiecesWithoutTable(Plain, text);
    TableTags(Pieces(Plain, text));
  }

  lemma SmallTableLines()
    ensures IsRow("|a|") && IsSeparator("|-|") && StripReturns("|-|") == "|-|" && !BlankLine("|a|")
    ensures Line("|a|\n|-|") == "|a|" && Rest("|a|\n|-|") == Some("|-|") && Find("|-|", '\n', 0) == 3
  {
    var text, row, next := "|a|\n|-|", "|a|", "|-|";
    assert text[3] == '\n' && text[..3] == row && text[4..] == next;
    assert Find(text, '\n', 0) == 3;
    assert next[0] == '|' && next[1] == '-' && next[2] == '|';
    assert row[0] in row;
  }

  lemma SmallTableStarts()
    ensures Step(Plain, "|a|", Some("|-|")).ps == TableStart(Plain, "|a|").ps
    ensures Open(Table) in TableStart(Plain, "|a|").ps
  {
    SmallTableLines();
    var row, next := "|a|", "|-|";
    assert next[..3] == next;
    assert SeparatorFollows(Some(next));
    hide IsRow, SeparatorFollows, BlankLine, RowPieces;
    assert row[0] == '|';
    var t := LineIn(Plain, row, Some(next));
    assert t == TableStart(Plain, row);
    assert [] + t.ps == t.ps;
    assert t.ps[0] == Open(Table);
  }

  lemma TableWithin(text: string)
    requires text != "" && Open(Table) in Step(Plain, Line(text), Rest(text)).ps
    ensures Opens("table") in Tags(Markup(text))
  {
    hide Tags, Render, Step, Line, Rest;
    assert Open(Table) in Pieces(Plain, text);
    hide Pieces, Remaining;
    PiecesNest(Plain, text);
    TagsOfRendered(Pieces(Plain, text));
    TableTags(Pieces(Plain, text));
  }

  // Two lines that are a table with LF and none with CR LF.
  lemma ReturnsUndoTable()
    ensures Opens("table") in Tags(Markup("|a|\n|-|"))
    ensures Opens("table") !in Tags(Markup("|a|\r\n|-|"))
  {
    hide Tags, Markup, Step, TableStart, Line, Rest;
    SmallTableLines();
    SmallTableStarts();
    TableWithin("|a|\n|-|");
    CrLfHasNoTable("|a|\r\n|-|");
  }

  // ----- the line loop -----

  // Paragraph and list are closed before anything else begins.
  method CloseText(out: string, f: Flags, ghost m: Mode) returns (r: string, g: Flags)
    requires f == FlagsOf(m)
    ensures r == out + Render(if m.Paragraph? || m.List? then Closing(m) else [])
    ensures g == f.(paragraph := false, list := false)
  {
    hide Written, Render;
    RenderOne(Close(P));
    RenderOne(Close(Ul));
    RenderNothing();
    r, g := out, f;
    if g.paragraph {
      r := r + Written(Close(P));
      g := g.(paragraph := false);
    }
    if g.list {
      r := r + Written(Close(Ul));
      g := g.(list := false);
    }
  }

  method MathBlockLine(out: string, f: Flags, line: string, ghost m: Mode) returns (r: string, g: Flags)
    requires f == FlagsOf(m) && f.math
    ensures r == out + Render(MathLine(m, line).ps) && g == FlagsOf(MathLine(m, line).mode)
  {
    hide Written, Render, Escape;
    r := EscapeText(out, line);
    g := f;
    r := r + "\n";
    TextAsIs(Escape(line) + "\n");
    RenderOne(Text(Escape(line) + "\n"));
    RenderTwo(Text(Escape(line) + "\n"), Close(Div));
    assert [Text(Escape(line) + "\n")] + [Close(Div)] == [Text(Escape(line) + "\n"), Close(Div)];
    if line == "\\]" || line == "$$" {
      r := r + Written(Close(Div));
      g := g.(math := false);
    }
  }

  method StartMathBlock(out: string, f: Flags, line: string, ghost m: Mode) returns (r: string, g: Flags)
    requires f == FlagsOf(m) && !f.math && !f.table
    ensures r == out + Render(MathStart(m, line).ps) && g == FlagsOf(MathStart(m, line).mode)
  {
    hide Written, Render, Escape;
    r, g := CloseText(out, f, m);
    ghost var before := if m.InCode? then [] else Closing(m);
    assert r == out + Render(before);
    r := r + Written(OpenMath(Div));
    r := EscapeText(r, line);
    r := r + "\n";
    g := g.(math := true);
    TextAsIs(Escape(line) + "\n");
    RenderTwo(OpenMath(Div), Text(Escape(line) + "\n"));
    RenderConcat(before, [OpenMath(Div), Text(Escape(line) + "\n")]);
  }

  method ToggleFence(out: string, f: Flags, ghost m: Mode) returns (r: string, g: Flags)
    requires f == FlagsOf(m) && !f.math && !f.table
    ensures r == out + Render(Fence(m).ps) && g == FlagsOf(Fence(m).mode)
  {
    hide Written, Render;
    RenderTwo(Close(Code), Close(Pre));
    RenderTwo(Open(Pre), Open(Code));
    r, g := CloseText(out, f, m);
    if g.code {
      RenderNothing();
      r := r + Written(Close(Code)) + Written(Close(Pre));
    } else {
      RenderConcat(Closing(m), [Open(Pre), Open(Code)]);
      r := r + Written(Open(Pre)) + Written(Open(Code));
    }
    g := g.(code := !g.code);
  }

  method StartTable(out: string, f: Flags, line: string, ghost m: Mode) returns (r: string, g: Flags)
    requires f == FlagsOf(m) && !f.math && !f.table && !f.code && line != ""
    ensures r == out + Render(TableStart(m, line).ps) && g == FlagsOf(TableStart(m, line).mode)
  {
    hide Written, Render, RowPieces;
    r, g := CloseText(out, f, m);
    ghost var head, row, body := [Open(Table), Open(Thead)], RowPieces(line, true), [Close(Thead), Open(Tbody)];
    r := r + Written(Open(Table)) + Written(Open(Thead));
    r := AppendTableRow(r, line, true);
    r := r + Written(Close(Thead)) + Written(Open(Tbody));
    g := g.(table := true);
    RenderTwo(Open(Table), Open(Thead));
    RenderTwo(Close(Thead), Open(Tbody));
    RenderConcat(head, row);
    RenderConcat(head + row, body);
    RenderConcat(Closing(m), head + row + body);
  }

  method AppendHeading(out: string, f: Flags, level: nat, content: string, ghost m: Mode) returns (r: string, g: Flags)
    requires f == FlagsOf(m) && !f.math && !f.table && !f.code && 1 <= level <= 3
    ensures var h := Heading(level);
            r == out + Render(Closing(m) + [Open(h), Text(Escape(SkipSpaces(content))), Close(h)])
    ensures g == FlagsOf(Plain)
  {
    hide Written, Render, Escape, Heading;
    r, g := CloseText(out, f, m);
    var i := 0;
    assert content[0..] == content;
    while i < |content| && content[i] == ' '
      invariant 0 <= i <= |content| && SkipSpaces(content) == SkipSpaces(content[i..])
    {
      assert content[i..][1..] == content[i + 1..];
      i := i + 1;
    }
    var value := content[i..];
    assert value == SkipSpaces(content);
    var h := Heading(level);
    r := AppendElement(r, h, value);
    RenderConcat(Closing(m), [Open(h), Text(Escape(value)), Close(h)]);
    assert Closing(m) == if m.Paragraph? || m.List? then Closing(m) else [];
  }

  method AppendItem(out: string, f: Flags, item: string, ghost m: Mode) returns (r: string, g: Flags)
    requires f == FlagsOf(m) && !f.math && !f.table && !f.code
    ensures var ps := [Open(Li), Text(Escape(item)), Close(Li)];
            r == out + Render((if m.List? then [] else Closing(m) + [Open(Ul)]) + ps)
    ensures g == FlagsOf(List)
  {
    hide Written, Render, Escape;
    RenderOne(Close(P));
    RenderOne(Open(Ul));
    RenderConcat(Closing(m), [Open(Ul)]);
    RenderNothing();
    r, g := out, f;
    if g.paragraph {
      r := r + Written(Close(P));
      g := g.(paragraph := false);
    }
    if !g.list {
      r := r + Written(Open(Ul));
      g := g.(list := true);
    }
    ghost var before := if m.List? then [] else Closing(m) + [Open(Ul)];
    assert r == out + Render(before);
    r := AppendElement(r, Li, item);
    RenderConcat(before, [Open(Li), Text(Escape(item)), Close(Li)]);
  }

  method AppendParagraph(out: string, f: Flags, content: string, ghost m: Mode) returns (r: string, g: Flags)
    requires f == FlagsOf(m) && !f.math && !f.table && !f.code
    ensures var before := if m.Paragraph? then [Open(Br)] else Closing(m) + [Open(P)];
            r == out + Render(before + ContentPieces(content))
    ensures g == FlagsOf(Paragraph)
  {
    hide Written, Render, ContentPieces;
    RenderOne(Close(Ul));
    RenderOne(Open(P));
    RenderOne(Open(Br));
    RenderConcat(Closing(m), [Open(P)]);
    RenderNothing();
    r, g := out, f;
    if g.list {
      r := r + Written(Close(Ul));
      g := g.(list := false);
    }
    if !g.paragraph {
      r := r + Written(Open(P));
      g := g.(paragraph := true);
    } else {
      r := r + Written(Open(Br));
    }
    ghost var before := if m.Paragraph? then [Open(Br)] else Closing(m) + [Open(P)];
    assert r == out + Render(before);
    r := AppendContent(r, content);
    RenderConcat(before, ContentPieces(content));
  }

  method AppendContent(out: string, content: string) returns (r: string)
    ensures r == out + Render(ContentPieces(content))
  {
    hide Written, Render, Escape;
    r := out;
    if MathText(content) { r := r + Written(OpenMath(Span)); }
    r := EscapeText(r, content);
    if MathText(content) { r := r + Written(Close(Span)); }
    TextAsIs(Escape(content));
    RenderOne(Text(Escape(content)));
    RenderThree(OpenMath(Span), Text(Escape(content)), Close(Span));
  }

  method AppendTextLine(out: string, f: Flags, line: string, ghost m: Mode) returns (r: string, g: Flags)
    requires f == FlagsOf(m) && !f.math && !f.table && !f.code
    ensures r == out + Render(TextLine(m, line).ps) && g == FlagsOf(TextLine(m, line).mode)
  {
    hide Written, Render, Escape, Heading, SkipSpaces;
    var heading := 0;
    while heading < |line| && line[heading] == '#'
      invariant 0 <= heading <= |line| && Hashes(line) == heading + Hashes(line[heading..])
    {
      assert line[heading..][1..] == line[heading + 1..];
      heading := heading + 1;
    }
    assert heading == Hashes(line);
    var content := line[heading..];
    if 1 <= heading <= 3 && " " <= content {
      r, g := AppendHeading(out, f, heading, content, m);
    } else if "- " <= content || "* " <= content {
      r, g := AppendItem(out, f, content[2..], m);
    } else {
      r, g := AppendParagraph(out, f, content, m);
    }
  }

  lemma RowBegins(line: string)
    ensures IsRow(line) ==> line != "" && line[0] == '|'
  {
  }

  lemma BlankIsNoRow(line: string)
    requires BlankLine(line)
    ensures !IsRow(line)
  {
    assert line != "" ==> line[0] in line;
  }

  lemma ClosingCases()
    ensures Closing(Plain) == [] && Closing(InTable) == [Close(Tbody), Close(Table)]
  {
  }

  method MarkdownLine(out: string, f: Flags, line: string, rest: Option<string>, ghost m: Mode)
    returns (r: string, g: Flags)
    requires f == FlagsOf(m)
    requires m.InTable? ==> IsRow(line)
    ensures r == out + Render(LineIn(m, line, rest).ps) && g == FlagsOf(LineIn(m, line, rest).mode)
  {
    hide Written, Render, Escape, IsRow, IsSeparator, SeparatorFollows, MathLine, MathStart, Fence, TableStart,
      TextLine, RowPieces, Closing, BlankLine;
    if f.math {
      r, g := MathBlockLine(out, f, line, m);
      return;
    }
    var row := TableRow(line);
    var blank := LineIsBlank(line);
    var follows := NextLineIsTableSeparator(rest);
    if line == "\\[" || line == "$$" {
      RowBegins(line);
      r, g := StartMathBlock(out, f, line, m);
    } else if "```" <= line {
      RowBegins(line);
      r, g := ToggleFence(out, f, m);
    } else if f.code {
      r := EscapeText(out, line);
      g := f;
      r := r + "\n";
      TextAsIs(Escape(line) + "\n");
      RenderOne(Text(Escape(line) + "\n"));
    } else if blank {
      BlankIsNoRow(line);
      r, g := CloseText(out, f, m);
      assert !f.table;
      ClosingCases();
    } else if row && !f.table && follows {
      RowBegins(line);
      r, g := StartTable(out, f, line, m);
    } else if f.table && row {
      RowBegins(line);
      r, g := out, f;
      var separator := TableSeparator(line);
      RenderNothing();
      if !separator { r := AppendTableRow(r, line, false); }
    } else {
      r, g := AppendTextLine(out, f, line, m);
    }
  }

  // One round of the line loop.
  method MarkdownRound(out: string, f: Flags, line: string, rest: Option<string>, ghost m: Mode)
    returns (r: string, g: Flags)
    requires f == FlagsOf(m)
    ensures r == out + Render(Step(m, line, rest).ps) && g == FlagsOf(Step(m, line, rest).mode)
  {
    hide Written, Render, LineIn, IsRow, Closing;
    ghost var settled := Settle(m, line);
    ghost var before := if settled == m then [] else Closing(m);
    r, g := out, f;
    var row := TableRow(line);
    RenderNothing();
    if g.table && !row {
      ClosingCases();
      RenderTwo(Close(Tbody), Close(Table));
      r := r + (Written(Close(Tbody)) + Written(Close(Table)));
      g := g.(table := false);
    }
    assert r == out + Render(before);
    r, g := MarkdownLine(r, g, line, rest, settled);
    RenderConcat(before, LineIn(settled, line, rest).ps);
  }

  // html_markdown. A null text is the empty one.
  method HtmlMarkdown(out: string, text: string) returns (r: string)
    ensures r == out + Markup(text)
  {
    hide Render, Step, Line, Rest;
    r := out;
    var f := FlagsOf(Plain);
    ghost var m := Plain;
    var cursor := 0;
    assert text[0..] == text;
    while cursor < |text|
      invariant 0 <= cursor <= |text| && f == FlagsOf(m)
      invariant r + Render(Pieces(m, text[cursor..])) == out + Markup(text)
    {
      ghost var left := text[cursor..];
      var end := Find(text, '\n', cursor);
      var line := text[cursor..end];
      var rest := if end < |text| then Some(text[end + 1..]) else None;
      FirstLine(text, cursor, end);
      ghost var t := Step(m, line, rest);
      assert Pieces(m, left) == t.ps + Pieces(t.mode, Remaining(left));
      RenderConcat(t.ps, Pieces(t.mode, Remaining(left)));
      r, f := MarkdownRound(r, f, line, rest, m);
      m := t.mode;
      cursor := if end < |text| then end + 1 else end;
      assert text[cursor..] == Remaining(left);
    }
    assert text[cursor..] == "";
    r := CloseAll(r, f, m);
  }

  lemma FindInRest(text: string, cursor: nat, end: nat)
    requires cursor < |text| && end == Find(text, '\n', cursor)
    ensures Find(text[cursor..], '\n', 0) == end - cursor
  {
    hide Find;
    var left := text[cursor..];
    var k := Find(left, '\n', 0);
    assert forall j :: 0 <= j < |left| ==> left[j] == text[cursor + j];
    assert k < |left| ==> text[cursor + k] == '\n';
    assert end < |text| ==> left[end - cursor] == '\n';
    assert end <= cursor + k && cursor + k <= end;
  }

  lemma FirstLine(text: string, cursor: nat, end: nat)
    requires cursor < |text| && end == Find(text, '\n', cursor)
    ensures Line(text[cursor..]) == text[cursor..end]
    ensures Rest(text[cursor..]) == if end < |text| then Some(text[end + 1..]) else None
  {
    hide Find;
    var left := text[cursor..];
    FindInRest(text, cursor, end);
    assert left[..end - cursor] == text[cursor..end];
    if end < |text| { assert left[end - cursor + 1..] == text[end + 1..]; }
  }

  // The end tags behind the loop.
  method CloseAll(out: string, f: Flags, ghost m: Mode) returns (r: string)
    requires f == FlagsOf(m)
    ensures r == out + Render(Closing(m))
  {
    hide Written, Render;
    RenderOne(Close(P));
    RenderOne(Close(Ul));
    RenderOne(Close(Div));
    RenderTwo(Close(Tbody), Close(Table));
    RenderTwo(Close(Code), Close(Pre));
    RenderConcat([Close(Code), Close(Pre)], [Close(Div)]);
    assert [Close(Code), Close(Pre)] + [Close(Div)] == Closing(MathInCode);
    RenderNothing();
    r := out;
    if f.paragraph { r := r + Written(Close(P)); }
    if f.list { r := r + Written(Close(Ul)); }
    if f.table { r := r + Written(Close(Tbody)) + Written(Close(Table)); }
    if f.code { r := r + Written(Close(Code)) + Written(Close(Pre)); }
    if f.math { r := r + Written(Close(Div)); }
  }
}
