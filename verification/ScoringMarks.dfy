// The brackets of subtask_results: where they stand, and when they balance.
module ScoringMarks {
  import opened Bytes
  import opened Verdict
  import opened Scoring

  // The last case of a group.
  function Last(g: Group): int { g.start + g.count - 1 }

  // Groups one behind the other, none of them empty.
  predicate Ascending(groups: seq<Group>)
  {
    && (forall i :: 0 <= i < |groups| ==> groups[i].start <= Last(groups[i]))
    && (forall i, j :: 0 <= i < j < |groups| ==> Last(groups[i]) < groups[j].start)
  }

  lemma {:induction false} TilesAscend(groups: seq<Group>, start: nat)
    requires Contiguous(groups, start)
    ensures Ascending(groups) && forall i :: 0 <= i < |groups| ==> groups[i].start >= start
  {
    if groups != [] {
      var rest := groups[1..];
      TilesAscend(rest, start + groups[0].count);
      assert forall i :: 0 < i < |groups| ==> groups[i] == rest[i - 1];
    }
  }

  lemma {:induction false} NextStart(groups: seq<Group>, start: nat, i: nat)
    requires Contiguous(groups, start) && i < |groups|
    ensures groups[i].start == (if i == 0 then start else Last(groups[i - 1]) + 1) <= Last(groups[i])
    ensures start <= groups[i].start && Last(groups[i]) <= start + TotalCases(groups) - 1
    ensures i == |groups| - 1 ==> Last(groups[i]) == start + TotalCases(groups) - 1
  {
    if i > 0 { NextStart(groups[1..], start + groups[0].count, i - 1); }
  }

  lemma AscendingFront(groups: seq<Group>)
    requires groups != [] && Ascending(groups)
    ensures Ascending(groups[..|groups| - 1])
  {
  }

  // One opening bracket where a group starts, none elsewhere in it.
  lemma {:induction false} StartsAt(groups: seq<Group>, c: nat, i: nat)
    requires Ascending(groups) && i < |groups| && Within(groups[i], c)
    ensures StartBrackets(groups, c) == if c == groups[i].start then "[" else ""
  {
    AscendingFront(groups);
    var n := |groups| - 1;
    if i < n {
      assert c < groups[n].start;
      hide Ascending;
      StartsAt(groups[..n], c, i);
    } else {
      NoStart(groups[..n], c);
    }
  }

  lemma {:induction false} NoStart(groups: seq<Group>, c: nat)
    requires forall j :: 0 <= j < |groups| ==> groups[j].start < c
    ensures StartBrackets(groups, c) == ""
  {
    if groups != [] { NoStart(groups[..|groups| - 1], c); }
  }

  // One closing bracket where a group ends, none elsewhere in it.
  lemma {:induction false} EndsAt(groups: seq<Group>, c: nat, i: nat)
    requires Ascending(groups) && i < |groups| && Within(groups[i], c)
    ensures EndBrackets(groups, c) == if c == Last(groups[i]) then "][" else ""
  {
    AscendingFront(groups);
    var n := |groups| - 1;
    if i < n {
      EndsAt(groups[..n], c, i);
    } else {
      NoEnd(groups[..n], c);
    }
  }

  lemma {:induction false} NoEnd(groups: seq<Group>, c: nat)
    requires forall j :: 0 <= j < |groups| ==> Last(groups[j]) < c
    ensures EndBrackets(groups, c) == ""
  {
    if groups != [] { NoEnd(groups[..|groups| - 1], c); }
  }

  // What closes group i.
  function Closer(groups: seq<Group>, i: nat): string { if i + 1 == |groups| then "]" else "][" }

  // What is written around case c of group i.
  lemma AroundCase(groups: seq<Group>, count: nat, c: nat, i: nat)
    requires Ascending(groups) && i < |groups| && Within(groups[i], c)
    ensures Opening(groups, c) == if c == groups[i].start then "[" else ""
    ensures Closing(groups, count, c) == if c == Last(groups[i]) then Closer(groups, i) else ""
  {
    var n := |groups| - 1;
    StartsAt(groups, c, i);
    AscendingFront(groups);
    if i < n {
      EndsAt(groups[..n], c, i);
      assert c < groups[n].start;
    } else {
      NoEnd(groups[..n], c);
    }
    assert i > 0 ==> groups[0].start < c;
  }

  // The letters of a group.
  function Own(g: Group, letters: string): string
  {
    if 1 <= g.start <= Last(g) <= |letters| then letters[g.start - 1..Last(g)] else ""
  }

  // The first i groups: each is "[", its letters, and what closes it.
  function Whole(groups: seq<Group>, letters: string, i: nat): string
    requires i <= |groups|
  {
    if i == 0 then ""
    else Whole(groups, letters, i - 1) + ("[" + Own(groups[i - 1], letters) + Closer(groups, i - 1))
  }

  // The letters of a group up to case c, opened.
  function Part(g: Group, letters: string, c: nat): string
  {
    if 1 <= g.start <= c <= |letters| then "[" + letters[g.start - 1..c] else ""
  }

  // Up to case c of group i.
  lemma {:induction false} MarksUpTo(groups: seq<Group>, count: nat, letters: string, c: nat, i: nat)
    requires Contiguous(groups, 1) && i < |groups| && Within(groups[i], c) && TotalCases(groups) == |letters|
    ensures c <= |letters|
    ensures Marks(groups, count, letters[..c]) ==
            Whole(groups, letters, i) + Part(groups[i], letters, c) +
            if c == Last(groups[i]) then Closer(groups, i) else ""
    decreases c
  {
    hide *;
    var g := groups[i];
    InsideGroup(groups, letters, c, i);
    TilesAscend(groups, 1);
    AroundCase(groups, count, c, i);
    OneMoreCase(groups, count, letters, c);
    PartGrows(g, letters, c);
    var close := if c == Last(g) then Closer(groups, i) else "";
    if c > g.start {
      MarksUpTo(groups, count, letters, c - 1, i);
      Rejoin(Whole(groups, letters, i), Part(g, letters, c - 1), "", [letters[c - 1]], close);
    } else {
      var before := MarksBefore(groups, count, letters, i);
      Rejoin(before, "", "[", [letters[c - 1]], close);
    }
  }

  lemma InsideGroup(groups: seq<Group>, letters: string, c: nat, i: nat)
    requires Contiguous(groups, 1) && i < |groups| && Within(groups[i], c) && TotalCases(groups) == |letters|
    ensures 1 <= groups[i].start <= c <= |letters|
    ensures c > groups[i].start ==> Within(groups[i], c - 1) && c - 1 != Last(groups[i])
  {
    NextStart(groups, 1, i);
  }

  // The groups in front of group i.
  lemma {:induction false} MarksBefore(groups: seq<Group>, count: nat, letters: string, i: nat) returns (t: string)
    requires Contiguous(groups, 1) && i < |groups| && TotalCases(groups) == |letters|
    ensures 0 < groups[i].start <= |letters| && t == Marks(groups, count, letters[..groups[i].start - 1])
    ensures t == Whole(groups, letters, i)
    decreases if i < |groups| then groups[i].start else 0, 0
  {
    hide *;
    GroupEdges(groups, letters, i);
    t := Marks(groups, count, letters[..groups[i].start - 1]);
    if i == 0 {
      NoMarks(groups, count, letters);
    } else {
      MarksUpTo(groups, count, letters, groups[i].start - 1, i - 1);
      WholeGrows(groups, letters, i);
    }
  }

  lemma GroupEdges(groups: seq<Group>, letters: string, i: nat)
    requires Contiguous(groups, 1) && i < |groups| && TotalCases(groups) == |letters|
    ensures 1 <= groups[i].start <= Last(groups[i]) <= |letters| && Within(groups[i], Last(groups[i]))
    ensures i == |groups| - 1 ==> Last(groups[i]) == |letters|
    ensures i == 0 ==> groups[i].start == 1
    ensures i > 0 ==> && 1 <= groups[i - 1].start <= Last(groups[i - 1]) == groups[i].start - 1
                      && Within(groups[i - 1], Last(groups[i - 1]))
  {
    NextStart(groups, 1, i);
    if i > 0 { NextStart(groups, 1, i - 1); }
  }

  lemma NoMarks(groups: seq<Group>, count: nat, letters: string)
    ensures Marks(groups, count, letters[..0]) == "" && Whole(groups, letters, 0) == ""
  {
  }

  lemma Rejoin(w: string, p: string, open: string, letter: string, close: string)
    ensures (w + p + "") + (open + letter + close) == w + (p + open + letter) + close
    ensures w + p + "" == w + p && w + "" == w && p + "" == p && "" + open == open
  {
    assert (w + p) + (open + letter + close) == w + (p + open + letter) + close;
  }

  lemma OneMoreCase(groups: seq<Group>, count: nat, letters: string, c: nat)
    requires 0 < c <= |letters|
    ensures Marks(groups, count, letters[..c]) ==
            Marks(groups, count, letters[..c - 1]) + (Opening(groups, c) + [letters[c - 1]] + Closing(groups, count, c))
  {
    hide Opening, Closing;
    assert letters[..c][..c - 1] == letters[..c - 1];
  }

  lemma PartGrows(g: Group, letters: string, c: nat)
    requires 1 <= g.start <= c <= |letters|
    ensures Part(g, letters, c) ==
            (if c == g.start then "[" else Part(g, letters, c - 1)) + [letters[c - 1]]
  {
  }

  lemma WholeGrows(groups: seq<Group>, letters: string, i: nat)
    requires 0 < i <= |groups|
    requires 1 <= groups[i - 1].start <= Last(groups[i - 1]) <= |letters|
    ensures Whole(groups, letters, i) ==
            Whole(groups, letters, i - 1) + Part(groups[i - 1], letters, Last(groups[i - 1])) + Closer(groups, i - 1)
  {
  }

  // With groups that tile the cases: every group is "[" and its letters, closed
  // by "][", the last one by "]".
  lemma MarksOfGroups(groups: seq<Group>, letters: string)
    requires groups != [] && Contiguous(groups, 1) && TotalCases(groups) == |letters|
    ensures Marks(groups, |letters|, letters) == Whole(groups, letters, |groups|)
  {
    hide *;
    var n := |groups| - 1;
    GroupEdges(groups, letters, n);
    MarksUpTo(groups, |letters|, letters, |letters|, n);
    WholeGrows(groups, letters, |groups|);
    assert letters[..|letters|] == letters;
  }

  lemma OwnLetters(groups: seq<Group>, letters: string, i: nat)
    requires Contiguous(groups, 1) && TotalCases(groups) == |letters| && i < |groups|
    ensures 1 <= groups[i].start <= Last(groups[i]) <= |letters|
    ensures Own(groups[i], letters) == letters[groups[i].start - 1..Last(groups[i])]
  {
    NextStart(groups, 1, i);
  }

  // Without groups: all letters between one pair.
  lemma {:induction false} MarksWithoutGroups(letters: string, k: nat)
    requires k <= |letters|
    ensures Marks([], |letters|, letters[..k]) ==
            if k == 0 then "" else "[" + letters[..k] + if k == |letters| then "]" else ""
  {
    hide *;
    if k == 0 {
      NoMarks([], |letters|, letters);
      assert letters[..k] == "";
    } else {
      MarksWithoutGroups(letters, k - 1);
      OneMoreCase([], |letters|, letters, k);
      UniformCase(|letters|, k);
      var before, close := if k == 1 then "" else "[" + letters[..k - 1], if k == |letters| then "]" else "";
      assert letters[..k] == letters[..k - 1] + [letters[k - 1]];
      Rejoin(before, "", if k == 1 then "[" else "", [letters[k - 1]], close);
    }
  }

  lemma UniformCase(count: nat, c: nat)
    ensures Opening([], c) == (if c == 1 then "[" else "") && Closing([], count, c) == if c == count then "]" else ""
  {
  }

  // ----- balance -----

  function Count(t: string, b: char): nat { if t == "" then 0 else (if t[0] == b then 1 else 0) + Count(t[1..], b) }

  lemma {:induction false} CountConcat(t: string, u: string, b: char)
    ensures Count(t + u, b) == Count(t, b) + Count(u, b)
  {
    if t == "" {
      assert t + u == u;
    } else {
      assert (t + u)[1..] == t[1..] + u;
      CountConcat(t[1..], u, b);
    }
  }

  lemma {:induction false} NoneCounted(t: string, b: char)
    requires b !in t
    ensures Count(t, b) == 0
  {
    if t != "" { NoneCounted(t[1..], b); }
  }

  lemma GroupCounts(groups: seq<Group>, u: string, i: nat)
    requires '[' !in u && ']' !in u
    ensures var t := "[" + u + Closer(groups, i);
            Count(t, '[') == (if i + 1 == |groups| then 1 else 2) && Count(t, ']') == 1
  {
    assert "]["[1..] == "[" && "["[1..] == "" && "]"[1..] == "";
    forall b | b == '[' || b == ']'
      ensures Count("[" + u + Closer(groups, i), b) == Count("[", b) + Count(Closer(groups, i), b)
    {
      CountConcat("[" + u, Closer(groups, i), b);
      CountConcat("[", u, b);
      NoneCounted(u, b);
    }
  }

  lemma {:induction false} WholeCounts(groups: seq<Group>, letters: string, i: nat)
    requires i <= |groups| && '[' !in letters && ']' !in letters
    ensures Count(Whole(groups, letters, i), '[') == 2 * i - (if i > 0 && i == |groups| then 1 else 0)
    ensures Count(Whole(groups, letters, i), ']') == i
  {
    hide *;
    WholeStep(groups, letters, i);
    if i > 0 {
      WholeCounts(groups, letters, i - 1);
      var u := Own(groups[i - 1], letters);
      var t := "[" + u + Closer(groups, i - 1);
      OwnIsPlain(groups[i - 1], letters);
      GroupCounts(groups, u, i - 1);
      CountConcat(Whole(groups, letters, i - 1), t, '[');
      CountConcat(Whole(groups, letters, i - 1), t, ']');
    }
  }

  lemma WholeStep(groups: seq<Group>, letters: string, i: nat)
    requires i <= |groups|
    ensures i == 0 ==> Whole(groups, letters, i) == "" && Count("", '[') == Count("", ']') == 0
    ensures i > 0 ==> Whole(groups, letters, i) ==
                      Whole(groups, letters, i - 1) + ("[" + Own(groups[i - 1], letters) + Closer(groups, i - 1))
  {
  }

  lemma OwnIsPlain(g: Group, letters: string)
    requires '[' !in letters && ']' !in letters
    ensures '[' !in Own(g, letters) && ']' !in Own(g, letters)
  {
  }

  // The brackets balance exactly when there is one group: n groups write 2n - 1
  // opening and n closing ones.
  lemma OneGroupBalances(groups: seq<Group>, letters: string)
    requires groups != [] && Contiguous(groups, 1) && TotalCases(groups) == |letters|
    requires '[' !in letters && ']' !in letters
    ensures var t := Marks(groups, |letters|, letters);
            && Count(t, '[') == 2 * |groups| - 1 && Count(t, ']') == |groups|
            && (Count(t, '[') == Count(t, ']') <==> |groups| == 1)
  {
    hide *;
    MarksOfGroups(groups, letters);
    WholeCounts(groups, letters, |groups|);
  }
}
