// The reported score and verdict, and what they owe to the test cases.
module ScoringTheorems {
  import opened Bytes
  import opened Verdict
  import opened Scoring

  // ----- the report -----

  function ScoreSum(groups: seq<Group>): real
  {
    if groups == [] then 0.0 else ScoreSum(groups[..|groups| - 1]) + groups[|groups| - 1].score
  }

  function Earned(groups: seq<Group>, failed: seq<bool>): real
    requires |failed| == |groups|
  {
    if groups == [] then 0.0
    else
      var n := |groups| - 1;
      Earned(groups[..n], failed[..n]) + if failed[n] then 0.0 else groups[n].score
  }

  function Share(maxScore: real, passed: nat, count: nat): real
    requires count > 0
  {
    maxScore * passed as real / count as real
  }

  // The built-in score of a run of outcomes.
  function Score(maxScore: real, groups: seq<Group>, outs: seq<Option<Failure>>): real
  {
    if FirstFailure(outs) == None then maxScore
    else if groups == [] then Share(maxScore, Passed(outs), |outs|)
    else Earned(groups, FailedGroups(groups, outs))
  }

  datatype Report = Report(score: real, result: string, marks: string, timeUsed: nat, memoryUsed: nat)

  // grade() behind the compilation, with no task scripts.
  method Grade(task: Task, groups: seq<Group>, runs: seq<CaseRun>) returns (r: Report)
    ensures var outs := Outcomes(task, runs);
            && r.score == Score(task.maxScore, groups, outs)
            && r.result == (if FirstFailure(outs) == None then "accepted!" else FailureText(FirstFailure(outs).value))
            && r.marks == Marks(groups, |runs|, Letters(outs))
            && r.timeUsed == MaxTime(runs) && r.memoryUsed == MaxMemory(runs)
  {
    hide FailureText, Outcomes, MaxTime, MaxMemory, Marks, Letters, FailedGroups, Share, Passed, FirstFailure;
    var t := GradeCases(task, groups, runs);
    var total := 0.0;
    if t.first.None? {
      total := task.maxScore;
    } else if groups == [] {
      FailureMeansCases(Outcomes(task, runs));
      total := Share(task.maxScore, t.passed, |runs|);
    } else {
      total := AddUp(groups, t.failed);
    }
    r := Report(total, if t.first.None? then "accepted!" else t.first.value, t.marks, t.maxTime, t.maxMemory);
  }

  method AddUp(groups: seq<Group>, failed: seq<bool>) returns (total: real)
    requires |failed| == |groups|
    ensures total == Earned(groups, failed)
  {
    total := 0.0;
    var i := 0;
    while i < |groups|
      invariant 0 <= i <= |groups| && total == Earned(groups[..i], failed[..i])
    {
      assert groups[..i + 1][..i] == groups[..i] && failed[..i + 1][..i] == failed[..i];
      if !failed[i] { total := total + groups[i].score; }
      i := i + 1;
    }
    assert groups[..i] == groups && failed[..i] == failed;
  }

  lemma FailureMeansCases(outs: seq<Option<Failure>>)
    ensures FirstFailure(outs).Some? ==> outs != []
  {
  }

  // ----- the first failure -----

  lemma {:induction false} FirstFailureIsSmallest(outs: seq<Option<Failure>>)
    ensures FirstFailure(outs) == None <==> forall k :: 0 <= k < |outs| ==> outs[k] == None
    ensures FirstFailure(outs).Some? ==>
              exists k :: SmallestFailing(outs, k) && outs[k] == FirstFailure(outs)
  {
    if outs != [] {
      var before := outs[..|outs| - 1];
      FirstFailureIsSmallest(before);
      if FirstFailure(before).Some? {
        var k :| SmallestFailing(before, k) && before[k] == FirstFailure(before);
        assert outs[k] == FirstFailure(outs) && forall j :: 0 <= j < k ==> outs[j] == before[j];
        assert SmallestFailing(outs, k);
      } else {
        assert forall j :: 0 <= j < |before| ==> outs[j] == before[j];
        assert outs[|outs| - 1].Some? ==> SmallestFailing(outs, |outs| - 1);
      }
    }
  }

  predicate SmallestFailing(outs: seq<Option<Failure>>, k: int)
  {
    0 <= k < |outs| && outs[k].Some? && forall j :: 0 <= j < k ==> outs[j] == None
  }

  // The case number that belongs in failed_case: only these classes carry one.
  function NamedCase(f: Failure, c: int): int
  {
    if f.Wrong? || f.TimeExceeded? || f.MemoryExceeded? then c else -1
  }

  // The verdict stored for a run: accepted exactly when no case failed;
  // otherwise the class of the smallest failing case's marker letter, with that
  // case's number for a wrong answer and for both limits.
  lemma StoredVerdict(task: Task, runs: seq<CaseRun>)
    ensures var outs := Outcomes(task, runs);
            var first := FirstFailure(outs);
            var result := if first == None then "accepted!" else FailureText(first.value);
            && (ParseVerdict(result).0 == Accepted <==> forall k :: 0 <= k < |outs| ==> outs[k] == None)
            && (first.Some? ==> exists k :: SmallestFailing(outs, k) && outs[k] == first &&
                                            ParseVerdict(result) ==
                                              (ClassOf(Letter(first.value)), NamedCase(first.value, k + 1)))
  {
    hide FailureText, ParseVerdict;
    var outs := Outcomes(task, runs);
    FirstFailureIsSmallest(outs);
    if FirstFailure(outs).Some? {
      VerdictReads(FirstFailure(outs).value);
      forall k | 0 <= k < |outs| && outs[k].Some? { OutcomeNamesItself(task, runs, k); }
    } else {
      AcceptedReads();
    }
  }

  lemma AcceptedReads()
    ensures ParseVerdict("accepted!") == (Accepted, -1)
  {
  }

  // ----- the marker string -----

  function WithoutBrackets(t: string): string
  {
    if t == "" then ""
    else if t[0] == '[' || t[0] == ']' then WithoutBrackets(t[1..])
    else [t[0]] + WithoutBrackets(t[1..])
  }

  lemma {:induction false} WithoutBracketsConcat(t: string, u: string)
    ensures WithoutBrackets(t + u) == WithoutBrackets(t) + WithoutBrackets(u)
  {
    if t == "" {
      assert t + u == u;
    } else {
      assert (t + u)[1..] == t[1..] + u;
      WithoutBracketsConcat(t[1..], u);
    }
  }

  predicate OnlyBrackets(t: string) { forall i :: 0 <= i < |t| ==> t[i] == '[' || t[i] == ']' }

  lemma {:induction false} NothingLeft(t: string)
    requires OnlyBrackets(t)
    ensures WithoutBrackets(t) == ""
  {
    if t != "" { NothingLeft(t[1..]); }
  }

  lemma {:induction false} BracketsOnly(groups: seq<Group>, c: nat)
    ensures OnlyBrackets(StartBrackets(groups, c)) && OnlyBrackets(EndBrackets(groups, c))
  {
    if groups != [] { BracketsOnly(groups[..|groups| - 1], c); }
  }

  lemma CaseMarkIsLetter(groups: seq<Group>, count: nat, c: nat, letter: char)
    requires letter != '[' && letter != ']'
    ensures WithoutBrackets(CaseMarks(groups, count, c, letter)) == [letter]
  {
    var open, close := Opening(groups, c), Closing(groups, count, c);
    BracketsOnly(groups, c);
    if groups != [] { BracketsOnly(groups[..|groups| - 1], c); }
    NothingLeft(open);
    NothingLeft(close);
    WithoutBracketsConcat(open + [letter], close);
    WithoutBracketsConcat(open, [letter]);
    assert WithoutBrackets([letter]) == [letter];
  }

  predicate NoBrackets(t: string) { '[' !in t && ']' !in t }

  lemma {:induction false} MarksAreLetters(groups: seq<Group>, count: nat, letters: string)
    requires NoBrackets(letters)
    ensures WithoutBrackets(Marks(groups, count, letters)) == letters
  {
    if letters != "" {
      hide CaseMarks, WithoutBrackets;
      var c := |letters|;
      MarksAreLetters(groups, count, letters[..c - 1]);
      CaseMarkIsLetter(groups, count, c, letters[c - 1]);
      WithoutBracketsConcat(Marks(groups, count, letters[..c - 1]), CaseMarks(groups, count, c, letters[c - 1]));
      assert letters == letters[..c - 1] + [letters[c - 1]];
    } else {
      assert WithoutBrackets("") == "";
    }
  }

  function CountA(t: string): nat
  {
    if t == "" then 0 else CountA(t[..|t| - 1]) + if t[|t| - 1] == 'A' then 1 else 0
  }

  lemma LetterIsPlain(f: Failure)
    ensures Letter(f) != 'A' && Letter(f) != '[' && Letter(f) != ']'
  {
  }

  // The letter of one case.
  function CaseLetter(out: Option<Failure>): char { if out.None? then 'A' else Letter(out.value) }

  lemma {:induction false} LetterAt(outs: seq<Option<Failure>>, k: nat)
    requires k < |outs|
    ensures Letters(outs)[k] == CaseLetter(outs[k])
  {
    hide Letter;
    var n := |outs| - 1;
    if k < n { LetterAt(outs[..n], k); }
  }

  lemma {:induction false} LettersCount(outs: seq<Option<Failure>>)
    ensures CountA(Letters(outs)) == Passed(outs)
  {
    if outs != [] {
      var n := |outs| - 1;
      LettersCount(outs[..n]);
      if outs[n].Some? { LetterIsPlain(outs[n].value); }
      hide Letter;
      assert Letters(outs)[..n] == Letters(outs[..n]);
    }
  }

  lemma LettersTell(outs: seq<Option<Failure>>)
    ensures NoBrackets(Letters(outs)) && CountA(Letters(outs)) == Passed(outs)
    ensures forall k :: 0 <= k < |outs| ==> (Letters(outs)[k] == 'A' <==> outs[k] == None)
  {
    hide Letter, Letters;
    LettersCount(outs);
    forall k | 0 <= k < |outs|
      ensures Letters(outs)[k] != '[' && Letters(outs)[k] != ']' && (Letters(outs)[k] == 'A' <==> outs[k] == None)
    {
      LetterAt(outs, k);
      if outs[k].Some? { LetterIsPlain(outs[k].value); }
    }
  }

  // The letter a case gets: A, W, T, M, R, or E for everything internal.
  predicate MarkedAs(out: Option<Failure>, letter: char)
  {
    if out.None? then letter == 'A'
    else if out.value.Wrong? then letter == 'W'
    else if out.value.TimeExceeded? then letter == 'T'
    else if out.value.MemoryExceeded? then letter == 'M'
    else if out.value.Signalled? || out.value.Exited? then letter == 'R'
    else letter == 'E'
  }

  // Erasing the brackets of subtask_results leaves one letter per case, with as
  // many A's as passed cases.
  lemma MarkerString(task: Task, groups: seq<Group>, runs: seq<CaseRun>)
    ensures var outs := Outcomes(task, runs);
            var letters := WithoutBrackets(Marks(groups, |runs|, Letters(outs)));
            && |letters| == |runs| && CountA(letters) == Passed(outs)
            && forall k :: 0 <= k < |runs| ==> MarkedAs(outs[k], letters[k])
  {
    var outs := Outcomes(task, runs);
    LettersTell(outs);
    forall k | 0 <= k < |runs| ensures MarkedAs(outs[k], Letters(outs)[k]) { LetterAt(outs, k); }
    MarksAreLetters(groups, |runs|, Letters(outs));
  }

  // ----- failed groups -----

  lemma {:induction false} GroupFailsWhenHit(groups: seq<Group>, outs: seq<Option<Failure>>, i: nat)
    requires i < |groups|
    ensures FailedGroups(groups, outs)[i] <==>
            exists k :: 0 <= k < |outs| && outs[k].Some? && Hits(groups[i], ReportedCase(outs[k].value))
  {
    if outs != [] {
      hide Hits, ReportedCase;
      var n := |outs| - 1;
      GroupFailsWhenHit(groups, outs[..n], i);
      assert forall k :: 0 <= k < n ==> outs[..n][k] == outs[k];
    }
  }

  // A jury answered '#' and a digit.
  predicate OddNumber(out: Option<Failure>)
  {
    out.Some? && out.value.JuryOdd? && ReportedCase(out.value).Some?
  }

  // A group is marked failed exactly when a failing case lies in it or some
  // failure carried no case, as long as no jury answered '#' and a digit.
  lemma GroupFails(task: Task, groups: seq<Group>, runs: seq<CaseRun>, i: nat)
    requires i < |groups| && groups[i].start > 0
    requires forall k :: 0 <= k < |runs| ==> !OddNumber(Outcomes(task, runs)[k])
    ensures var outs := Outcomes(task, runs);
            FailedGroups(groups, outs)[i] <==>
            exists k :: 0 <= k < |outs| && outs[k].Some? &&
              (ReportedCase(outs[k].value).None? || Within(groups[i], k + 1))
  {
    hide ReportedCase;
    var outs := Outcomes(task, runs);
    GroupFailsWhenHit(groups, outs, i);
    forall k | 0 <= k < |outs| && outs[k].Some?
      ensures Hits(groups[i], ReportedCase(outs[k].value)) <==>
              (ReportedCase(outs[k].value).None? || Within(groups[i], k + 1))
    {
      assert !OddNumber(outs[k]);
      OutcomeNamesItself(task, runs, k);
    }
  }

  // What marks a group: a failure that is no odd answer and lies in the group or
  // names no case, or an odd answer that names a case of the group; and what
  // should: odd answers on cases of the group.
  predicate Honest(groups: seq<Group>, outs: seq<Option<Failure>>, i: nat)
    requires i < |groups|
  {
    exists k :: 0 <= k < |outs| && outs[k].Some? && !OddNumber(outs[k]) &&
      (ReportedCase(outs[k].value).None? || Within(groups[i], k + 1))
  }

  predicate OddHits(groups: seq<Group>, outs: seq<Option<Failure>>, i: nat)
    requires i < |groups|
  {
    exists k :: 0 <= k < |outs| && OddNumber(outs[k]) && Hits(groups[i], ReportedCase(outs[k].value))
  }

  predicate OddLies(groups: seq<Group>, outs: seq<Option<Failure>>, i: nat)
    requires i < |groups|
  {
    exists k :: 0 <= k < |outs| && OddNumber(outs[k]) && Within(groups[i], k + 1)
  }

  predicate ShouldFail(groups: seq<Group>, outs: seq<Option<Failure>>, i: nat)
    requires i < |groups|
  {
    exists k :: 0 <= k < |outs| && outs[k].Some? &&
      (ReportedCase(outs[k].value).None? || Within(groups[i], k + 1))
  }

  // On every run the mark of a group is right exactly when some other failure
  // settles it, or the odd answers name the group just when they come from it.
  lemma GroupMarkIsRight(task: Task, groups: seq<Group>, runs: seq<CaseRun>, i: nat)
    requires i < |groups| && groups[i].start > 0
    ensures var outs := Outcomes(task, runs);
            (FailedGroups(groups, outs)[i] <==> ShouldFail(groups, outs, i)) <==>
            (Honest(groups, outs, i) || (OddHits(groups, outs, i) <==> OddLies(groups, outs, i)))
  {
    hide Honest, OddHits, OddLies, ShouldFail;
    MarkedBy(task, groups, runs, i);
  }

  lemma MarkedBy(task: Task, groups: seq<Group>, runs: seq<CaseRun>, i: nat)
    requires i < |groups| && groups[i].start > 0
    ensures var outs := Outcomes(task, runs);
            && (FailedGroups(groups, outs)[i] <==> Honest(groups, outs, i) || OddHits(groups, outs, i))
            && (ShouldFail(groups, outs, i) <==> Honest(groups, outs, i) || OddLies(groups, outs, i))
  {
    hide ReportedCase;
    var outs := Outcomes(task, runs);
    GroupFailsWhenHit(groups, outs, i);
    forall k | 0 <= k < |outs| && outs[k].Some? && !OddNumber(outs[k])
      ensures Hits(groups[i], ReportedCase(outs[k].value)) <==>
              (ReportedCase(outs[k].value).None? || Within(groups[i], k + 1))
    {
      OutcomeNamesItself(task, runs, k);
    }
  }

  // A case whose jury answers v0 v1.
  function JuryCase(v0: char, v1: char): CaseRun { Ran("", 0, 0, 0, 0, JurySays(v0, v1)) }

  lemma OddJuryOutcomes(task: Task)
    ensures Outcomes(task, [JuryCase('o', 'k'), JuryCase('#', '1')]) == [None, Some(JuryOdd('#', '1'))]
  {
    var runs := [JuryCase('o', 'k'), JuryCase('#', '1')];
    assert runs[..1] == [JuryCase('o', 'k')] && [JuryCase('o', 'k')][..0] == [];
    assert MaxTime([JuryCase('o', 'k')]) == 0 && MaxTime(runs) == 0;
    assert Outcomes(task, [JuryCase('o', 'k')]) == [None];
  }

  // A jury that answers "#1" on case 2 fails the group of case 1, which passed,
  // and not its own.
  lemma OddJuryFailsAnotherGroup(task: Task)
    ensures FailedGroups([Group(1, 1, 50.0), Group(2, 1, 50.0)],
                         Outcomes(task, [JuryCase('o', 'k'), JuryCase('#', '1')])) == [true, false]
  {
    hide FailedGroups, Outcomes;
    var groups := [Group(1, 1, 50.0), Group(2, 1, 50.0)];
    var outs: seq<Option<Failure>> := [None, Some(JuryOdd('#', '1'))];
    OddJuryOutcomes(task);
    assert ReportedCase(JuryOdd('#', '1')) == Some(1);
    assert outs[1].Some? && Hits(groups[0], ReportedCase(outs[1].value));
    assert !Hits(groups[1], ReportedCase(outs[1].value));
    GroupFailsWhenHit(groups, outs, 0);
    GroupFailsWhenHit(groups, outs, 1);
  }

  // ----- what the score is -----

  function PassedCases(outs: seq<Option<Failure>>): set<int> { set k | 0 <= k < |outs| && outs[k] == None }

  lemma {:induction false} PassedCounts(outs: seq<Option<Failure>>)
    ensures Passed(outs) == |PassedCases(outs)|
  {
    if outs != [] {
      var n := |outs| - 1;
      PassedCounts(outs[..n]);
      assert PassedCases(outs) == PassedCases(outs[..n]) + if outs[n] == None then {n} else {};
    }
  }

  // Some failure fails the group: it names no case, or a case of the group.
  predicate Struck(g: Group, outs: seq<Option<Failure>>)
  {
    exists k :: 0 <= k < |outs| && outs[k].Some? &&
      var r := ReportedCase(outs[k].value);
      r.None? || r.value == 0 || g.start <= r.value < g.start + g.count
  }

  function Total(xs: seq<real>): real { if xs == [] then 0.0 else xs[0] + Total(xs[1..]) }

  // The points of each group: its score unless it is struck.
  function Points(groups: seq<Group>, outs: seq<Option<Failure>>): (xs: seq<real>)
    ensures |xs| == |groups|
    ensures forall i :: 0 <= i < |groups| ==> xs[i] == if Struck(groups[i], outs) then 0.0 else groups[i].score
  {
    seq(|groups|, i requires 0 <= i < |groups| => if Struck(groups[i], outs) then 0.0 else groups[i].score)
  }

  // Without a failure the maximum; without groups the share of the cases that
  // passed; otherwise the points of the groups that no failure struck.
  lemma ScoreIs(maxScore: real, groups: seq<Group>, outs: seq<Option<Failure>>)
    ensures (forall k :: 0 <= k < |outs| ==> outs[k] == None) ==> Score(maxScore, groups, outs) == maxScore
    ensures groups == [] ==>
              Score(maxScore, groups, outs) * |outs| as real == maxScore * |PassedCases(outs)| as real || outs == []
    ensures groups == [] && maxScore > 0.0 ==>
              (Score(maxScore, groups, outs) == maxScore <==> forall k :: 0 <= k < |outs| ==> outs[k] == None)
    ensures groups != [] && (exists k :: 0 <= k < |outs| && outs[k].Some?) ==>
              Score(maxScore, groups, outs) == Total(Points(groups, outs))
  {
    FirstFailureIsSmallest(outs);
    PassedCounts(outs);
    AllOrSome(outs);
    AllOrLess(outs);
    hide Passed, FirstFailure, FailedGroups, Share, Points, Total, Earned, Struck, PassedCases;
    if FirstFailure(outs).Some? && groups == [] {
      FailureMeansCases(outs);
      ShareIs(maxScore, Passed(outs), |outs|);
    } else if FirstFailure(outs).Some? {
      EarnedIs(groups, outs);
    }
  }

  lemma AllOrSome(outs: seq<Option<Failure>>)
    ensures FirstFailure(outs) == None <==> forall k :: 0 <= k < |outs| ==> outs[k] == None
  {
    FirstFailureIsSmallest(outs);
    if FirstFailure(outs).Some? {
      assert exists k :: SmallestFailing(outs, k) && outs[k] == FirstFailure(outs);
    }
  }

  lemma {:induction false} AllOrLess(outs: seq<Option<Failure>>)
    ensures Passed(outs) <= |outs|
    ensures Passed(outs) == |outs| <==> forall k :: 0 <= k < |outs| ==> outs[k] == None
  {
    if outs != [] {
      var n := |outs| - 1;
      AllOrLess(outs[..n]);
      assert forall k :: 0 <= k < n ==> outs[..n][k] == outs[k];
    }
  }

  lemma ShareIs(maxScore: real, passed: nat, count: nat)
    requires count > 0
    ensures Share(maxScore, passed, count) * count as real == maxScore * passed as real
    ensures maxScore > 0.0 && passed < count ==> Share(maxScore, passed, count) != maxScore
  {
    if maxScore > 0.0 && passed < count {
      assert maxScore * (count - passed) as real > 0.0;
      assert maxScore * count as real - maxScore * passed as real == maxScore * (count - passed) as real;
    }
  }

  lemma {:induction false} TotalSnoc(xs: seq<real>, x: real)
    ensures Total(xs + [x]) == Total(xs) + x
  {
    if xs == [] {
      assert ([] + [x])[1..] == [];
    } else {
      TotalSnoc(xs[1..], x);
      assert (xs + [x])[1..] == xs[1..] + [x];
    }
  }

  lemma EarnedIs(groups: seq<Group>, outs: seq<Option<Failure>>)
    ensures Earned(groups, FailedGroups(groups, outs)) == Total(Points(groups, outs))
  {
    hide FailedGroups, Total, Earned, Struck;
    forall i | 0 <= i < |groups| ensures FailedGroups(groups, outs)[i] <==> Struck(groups[i], outs) {
      GroupFailsWhenHit(groups, outs, i);
      StruckIs(groups[i], outs);
    }
    EarnedPoints(groups, FailedGroups(groups, outs), Points(groups, outs));
  }

  lemma StruckIs(g: Group, outs: seq<Option<Failure>>)
    ensures Struck(g, outs) <==>
            exists k :: 0 <= k < |outs| && outs[k].Some? && Hits(g, ReportedCase(outs[k].value))
  {
    hide ReportedCase;
  }

  lemma {:induction false} EarnedPoints(groups: seq<Group>, failed: seq<bool>, xs: seq<real>)
    requires |failed| == |groups| == |xs|
    requires forall i :: 0 <= i < |groups| ==> xs[i] == if failed[i] then 0.0 else groups[i].score
    ensures Earned(groups, failed) == Total(xs)
  {
    if groups != [] {
      var n := |groups| - 1;
      EarnedPoints(groups[..n], failed[..n], xs[..n]);
      TotalSnoc(xs[..n], xs[n]);
      assert xs == xs[..n] + [xs[n]];
    }
  }

  // ----- the range of the score -----

  predicate NonNegative(groups: seq<Group>) { forall i :: 0 <= i < |groups| ==> groups[i].score >= 0.0 }

  lemma {:induction false} EarnedInRange(groups: seq<Group>, failed: seq<bool>)
    requires |failed| == |groups| && NonNegative(groups)
    ensures 0.0 <= Earned(groups, failed) <= ScoreSum(groups)
  {
    if groups != [] { EarnedInRange(groups[..|groups| - 1], failed[..|groups| - 1]); }
  }

  lemma Scaled(m: real, x: real, y: real)
    requires m >= 0.0 && x <= y
    ensures m * x <= m * y
  {
  }

  lemma Divided(x: real, y: real, d: real)
    requires d > 0.0 && x <= y
    ensures x / d <= y / d
  {
  }

  lemma ShareInRange(maxScore: real, passed: nat, count: nat)
    requires maxScore >= 0.0 && passed <= count && count > 0
    ensures 0.0 <= Share(maxScore, passed, count) <= maxScore
  {
    Scaled(maxScore, 0.0, passed as real);
    Scaled(maxScore, passed as real, count as real);
    Divided(0.0, maxScore * passed as real, count as real);
    Divided(maxScore * passed as real, maxScore * count as real, count as real);
    assert maxScore * count as real / count as real == maxScore;
  }

  lemma ShareGrows(maxScore: real, passed: nat, more: nat, count: nat)
    requires maxScore >= 0.0 && passed <= more && count > 0
    ensures Share(maxScore, passed, count) <= Share(maxScore, more, count)
  {
    Scaled(maxScore, passed as real, more as real);
    Divided(maxScore * passed as real, maxScore * more as real, count as real);
  }

  // With non-negative group scores summing to at most max_score the built-in
  // score stays within 0 and max_score.
  lemma ScoreInRange(maxScore: real, groups: seq<Group>, outs: seq<Option<Failure>>)
    requires maxScore >= 0.0 && NonNegative(groups) && ScoreSum(groups) <= maxScore
    ensures 0.0 <= Score(maxScore, groups, outs) <= maxScore
  {
    hide Share;
    if FirstFailure(outs).Some? {
      FailureMeansCases(outs);
      if groups == [] {
        ShareInRange(maxScore, Passed(outs), |outs|);
      } else {
        EarnedInRange(groups, FailedGroups(groups, outs));
      }
    }
  }

  lemma {:induction false} EarnedGrows(groups: seq<Group>, failed: seq<bool>, fewer: seq<bool>)
    requires |failed| == |fewer| == |groups| && NonNegative(groups)
    requires forall i :: 0 <= i < |groups| && fewer[i] ==> failed[i]
    ensures Earned(groups, failed) <= Earned(groups, fewer)
  {
    if groups != [] {
      var n := |groups| - 1;
      EarnedGrows(groups[..n], failed[..n], fewer[..n]);
    }
  }

  lemma {:induction false} PassedGrows(outs: seq<Option<Failure>>, k: nat)
    requires k < |outs|
    ensures Passed(outs) <= Passed(outs[k := None])
  {
    var n := |outs| - 1;
    if k < n {
      PassedGrows(outs[..n], k);
      assert outs[k := None][..n] == outs[..n][k := None];
    } else {
      assert outs[k := None][..n] == outs[..n];
    }
  }

  lemma FewerFailedGroups(groups: seq<Group>, outs: seq<Option<Failure>>, k: nat)
    requires k < |outs|
    ensures forall i :: 0 <= i < |groups| && FailedGroups(groups, outs[k := None])[i] ==> FailedGroups(groups, outs)[i]
  {
    hide FailedGroups, Hits;
    forall i | 0 <= i < |groups| && FailedGroups(groups, outs[k := None])[i] ensures FailedGroups(groups, outs)[i] {
      GroupFailsWhenHit(groups, outs[k := None], i);
      GroupFailsWhenHit(groups, outs, i);
    }
  }

  // Turning a failure into a pass never lowers the score.
  lemma PassingNeverHurts(maxScore: real, groups: seq<Group>, outs: seq<Option<Failure>>, k: nat)
    requires maxScore >= 0.0 && NonNegative(groups) && ScoreSum(groups) <= maxScore
    requires k < |outs|
    ensures Score(maxScore, groups, outs) <= Score(maxScore, groups, outs[k := None])
  {
    var better := outs[k := None];
    hide FirstFailure, FailedGroups, Share, Passed, Earned, ScoreSum, NonNegative;
    FirstFailureIsSmallest(outs);
    FirstFailureIsSmallest(better);
    ScoreInRange(maxScore, groups, outs);
    if FirstFailure(better).Some? {
      if groups == [] {
        PassedGrows(outs, k);
        ShareGrows(maxScore, Passed(outs), Passed(better), |outs|);
      } else {
        FewerFailedGroups(groups, outs, k);
        EarnedGrows(groups, FailedGroups(groups, outs), FailedGroups(groups, better));
      }
    }
  }
}
