// The case loop of `grade`: what it accumulates over the test cases, and the
// score, result and marker string it reports.
module Scoring {
  import opened Bytes
  import opened JsonText
  import opened Verdict

  // ----- subtask groups -----

  datatype Group = Group(start: nat, count: nat, score: real)

  const UINT := 0x1_0000_0000

  // The [score, count] pair of a manifest, or None where the process exits.
  function GroupEntry(v: Json): Option<(real, int)>
  {
    if v.JArray? && |v.items| >= 2 && v.items[0].JNumber? && v.items[1].JNumber? && v.items[1].valueint > 0
    then Some((v.items[0].valuedouble, v.items[1].valueint))
    else None
  }

  function GroupsFrom(entries: seq<Json>, start: nat): Option<seq<Group>>
  {
    if entries == [] then Some([])
    else
      match GroupEntry(entries[0])
      case None => None
      case Some((score, count)) =>
        match GroupsFrom(entries[1..], (start + count) % UINT)
        case None => None
        case Some(rest) => Some([Group(start, count, score)] + rest)
  }

  // store_subtask_groups: the rows written for the manifest's "subtasks" entry.
  method StoreSubtaskGroups(subtasks: Option<Json>) returns (rows: Option<seq<Group>>)
    ensures rows == if subtasks.Some? && subtasks.value.JArray? then GroupsFrom(subtasks.value.items, 1) else Some([])
  {
    if subtasks.None? || !subtasks.value.JArray? { return Some([]); }
    var entries := subtasks.value.items;
    var groups: seq<Group> := [];
    var caseStart: nat := 1;
    var i := 0;
    assert entries[0..] == entries && forall gs: seq<Group> :: [] + gs == gs;
    while i < |entries|
      invariant 0 <= i <= |entries|
      invariant GroupsFrom(entries, 1) == WithFront(groups, GroupsFrom(entries[i..], caseStart))
    {
      assert entries[i..][1..] == entries[i + 1..];
      var entry := GroupEntry(entries[i]);
      if entry.None? { return None; }
      var (score, count) := entry.value;
      WithFrontOne(groups, Group(caseStart, count, score), GroupsFrom(entries[i + 1..], (caseStart + count) % UINT));
      groups := groups + [Group(caseStart, count, score)];
      caseStart := (caseStart + count) % UINT;
      i := i + 1;
    }
    assert entries[i..] == [] && groups + [] == groups;
    rows := Some(groups);
  }

  // A [score, count] pair: two numbers or more, the count positive.
  predicate IsPair(v: Json)
  {
    && v.JArray? && |v.items| >= 2 && v.items[0].JNumber? && v.items[1].JNumber? && v.items[1].valueint > 0
  }

  predicate AllPairs(entries: seq<Json>) { forall i :: 0 <= i < |entries| ==> IsPair(entries[i]) }

  // The cases of the first k groups.
  function CountsBefore(entries: seq<Json>, k: nat): int
    requires AllPairs(entries) && k <= |entries|
  {
    if k == 0 then 0
    else
      assert IsPair(entries[k - 1]);
      CountsBefore(entries, k - 1) + entries[k - 1].items[1].valueint
  }

  // The row for entry k: its score and count, starting behind the cases of those
  // before it, as an unsigned int counts.
  predicate IsRow(row: Group, entries: seq<Json>, k: nat, start: nat)
    requires AllPairs(entries) && k < |entries|
  {
    assert IsPair(entries[k]);
    && row.score == entries[k].items[0].valuedouble && row.count == entries[k].items[1].valueint
    && row.start == (start + CountsBefore(entries, k)) % 0x1_0000_0000
  }

  // The rows stored: one for each entry, and none at all if an entry is no pair.
  lemma {:induction false} GroupRows(entries: seq<Json>, start: nat)
    requires start < 0x1_0000_0000
    ensures GroupsFrom(entries, start).Some? <==> AllPairs(entries)
    ensures AllPairs(entries) ==>
              var rows := GroupsFrom(entries, start).value;
              |rows| == |entries| && forall k :: 0 <= k < |rows| ==> IsRow(rows[k], entries, k, start)
  {
    if entries != [] {
      var rest := entries[1..];
      PairsOf(entries);
      if IsPair(entries[0]) {
        var count := entries[0].items[1].valueint;
        GroupRows(rest, (start + count) % UINT);
        if AllPairs(entries) {
          hide IsPair, AllPairs, IsRow;
          var rows, more := GroupsFrom(entries, start).value, GroupsFrom(rest, (start + count) % UINT).value;
          forall k | 0 <= k < |rows| ensures IsRow(rows[k], entries, k, start) {
            if k == 0 {
              FirstRow(rows[0], entries, start);
            } else {
              assert rows[k] == more[k - 1];
              RowShift(rows[k], entries, k, start);
            }
          }
        }
      }
    }
  }

  lemma PairsOf(entries: seq<Json>)
    requires entries != []
    ensures AllPairs(entries) <==> IsPair(entries[0]) && AllPairs(entries[1..])
  {
    hide IsPair;
    assert forall k :: 0 <= k < |entries[1..]| ==> entries[1..][k] == entries[k + 1];
    assert forall k :: 0 < k < |entries| ==> entries[k] == entries[1..][k - 1];
  }

  lemma FirstRow(row: Group, entries: seq<Json>, start: nat)
    requires entries != [] && AllPairs(entries) && start < 0x1_0000_0000
    requires IsPair(entries[0])
    requires row == Group(start, entries[0].items[1].valueint, entries[0].items[0].valuedouble)
    ensures IsRow(row, entries, 0, start)
  {
  }

  lemma RowShift(row: Group, entries: seq<Json>, k: nat, start: nat)
    requires 0 < k < |entries| && AllPairs(entries) && AllPairs(entries[1..]) && IsPair(entries[0])
    requires IsRow(row, entries[1..], k - 1, (start + entries[0].items[1].valueint) % 0x1_0000_0000)
    ensures IsRow(row, entries, k, start)
  {
    CountsShift(entries, k);
    Modulo(start + entries[0].items[1].valueint, CountsBefore(entries[1..], k - 1));
  }

  lemma Modulo(a: int, b: int)
    ensures (a % 0x1_0000_0000 + b) % 0x1_0000_0000 == (a + b) % 0x1_0000_0000
  {
  }

  lemma {:induction false} CountsShift(entries: seq<Json>, k: nat)
    requires 0 < k <= |entries| && AllPairs(entries) && AllPairs(entries[1..]) && IsPair(entries[0])
    ensures CountsBefore(entries, k) == entries[0].items[1].valueint + CountsBefore(entries[1..], k - 1)
  {
    if k > 1 { CountsShift(entries, k - 1); }
  }

  function TotalCases(groups: seq<Group>): nat
  {
    if groups == [] then 0 else groups[0].count + TotalCases(groups[1..])
  }

  predicate Within(g: Group, c: int) { g.start <= c < g.start + g.count }

  // Each group starts where the one before it ends.
  predicate Contiguous(groups: seq<Group>, start: nat)
  {
    groups == [] ||
    (groups[0].start == start && groups[0].count > 0 && Contiguous(groups[1..], start + groups[0].count))
  }

  // As long as the case numbers fit an unsigned int, the groups tile the cases
  // from the first one on.
  lemma {:induction false} GroupsAreContiguous(entries: seq<Json>, start: nat)
    requires GroupsFrom(entries, start).Some?
    requires start + TotalCases(GroupsFrom(entries, start).value) < UINT
    ensures Contiguous(GroupsFrom(entries, start).value, start)
  {
    if entries != [] {
      var (_, count) := GroupEntry(entries[0]).value;
      var groups := GroupsFrom(entries, start).value;
      assert groups[1..] == GroupsFrom(entries[1..], (start + count) % UINT).value;
      GroupsAreContiguous(entries[1..], start + count);
    }
  }

  // Every case up to the last belongs to exactly one group.
  lemma {:induction false} OneGroupPerCase(groups: seq<Group>, start: nat, c: nat)
    requires Contiguous(groups, start)
    ensures start <= c < start + TotalCases(groups) <==> exists i :: 0 <= i < |groups| && Within(groups[i], c)
    ensures forall i, j ::
              0 <= i < |groups| && 0 <= j < |groups| && Within(groups[i], c) && Within(groups[j], c) ==> i == j
  {
    if groups != [] {
      var next := start + groups[0].count;
      OneGroupPerCase(groups[1..], next, c);
      assert forall i :: 0 < i < |groups| ==> groups[i] == groups[1..][i - 1];
      assert forall i :: 0 <= i < |groups| - 1 ==> groups[1..][i] == groups[i + 1];
      LaterGroups(groups[1..], next);
    }
  }

  lemma {:induction false} LaterGroups(groups: seq<Group>, start: nat)
    requires Contiguous(groups, start)
    ensures forall i :: 0 <= i < |groups| ==> groups[i].start >= start
  {
    if groups != [] {
      LaterGroups(groups[1..], start + groups[0].count);
      assert forall i :: 0 < i < |groups| ==> groups[i] == groups[1..][i - 1];
    }
  }

  // ----- one test case -----

  datatype Task = Task(timeLimit: nat, memoryLimit: nat, maxScore: real)

  // The comparison: safe_tkcmp's result, or what became of the jury.
  datatype Check = Tokens(match': int) | NoJury | JuryNotCompiled | JuryCrash | JurySays(v0: char, v1: char)

  // What the sandbox reports for a case.
  datatype CaseRun =
    | Unreadable
    | Ran(status: string, time: nat, memory: nat, exitsig: int, exitcode: int, check: Check)

  function CheckFailure(check: Check, c: nat): Option<Failure>
  {
    match check
    case Tokens(m) => if m == 0 then Some(Wrong(c)) else None
    case NoJury => Some(JuryMissing)
    case JuryNotCompiled => Some(JuryUncompilable)
    case JuryCrash => Some(JuryFailed)
    case JurySays(v0, v1) =>
      if v0 == 'o' && v1 == 'k' then None
      else if v0 == 'w' && v1 == 'a' then Some(Wrong(c))
      else Some(JuryOdd(v0, v1))
  }

  // The verdict on case c, given the maxima over the cases so far and this one.
  function CaseFailure(task: Task, run: CaseRun, c: nat, maxTime: nat, maxMemory: nat): Option<Failure>
  {
    match run
    case Unreadable => Some(NoStat)
    case Ran(status, _, _, exitsig, exitcode, check) =>
      if status == "XX" then Some(Crashed)
      else if status == "TO" || maxTime > task.timeLimit then Some(TimeExceeded(c))
      else if status == "SG" then Some(Signalled(exitsig, c))
      else if exitcode != 0 then Some(Exited(exitcode, c))
      else if status != "" && maxMemory > task.memoryLimit then Some(MemoryExceeded(c))
      else CheckFailure(check, c)
  }

  function MaxTime(runs: seq<CaseRun>): nat
  {
    if runs == [] then 0
    else
      var m, run := MaxTime(runs[..|runs| - 1]), runs[|runs| - 1];
      if run.Ran? && run.time > m then run.time else m
  }

  function MaxMemory(runs: seq<CaseRun>): nat
  {
    if runs == [] then 0
    else
      var m, run := MaxMemory(runs[..|runs| - 1]), runs[|runs| - 1];
      if run.Ran? && run.memory > m then run.memory else m
  }

  // The verdicts on all cases, None for a pass.
  function Outcomes(task: Task, runs: seq<CaseRun>): (r: seq<Option<Failure>>)
    ensures |r| == |runs|
  {
    if runs == [] then []
    else
      Outcomes(task, runs[..|runs| - 1]) +
      [CaseFailure(task, runs[|runs| - 1], |runs|, MaxTime(runs), MaxMemory(runs))]
  }

  lemma {:induction false} OutcomeAt(task: Task, runs: seq<CaseRun>, k: nat)
    requires k < |runs|
    ensures Outcomes(task, runs)[k] ==
            CaseFailure(task, runs[k], k + 1, MaxTime(runs[..k + 1]), MaxMemory(runs[..k + 1]))
    ensures Outcomes(task, runs)[..k] == Outcomes(task, runs[..k])
  {
    if k < |runs| - 1 {
      OutcomeAt(task, runs[..|runs| - 1], k);
      assert runs[..|runs| - 1][..k + 1] == runs[..k + 1];
      assert runs[..|runs| - 1][..k] == runs[..k];
    } else {
      assert runs[..k + 1] == runs;
    }
  }

  lemma {:induction false} MaximaWithin(runs: seq<CaseRun>, limit: nat)
    ensures MaxTime(runs) <= limit <==> forall j :: 0 <= j < |runs| && runs[j].Ran? ==> runs[j].time <= limit
    ensures MaxMemory(runs) <= limit <==> forall j :: 0 <= j < |runs| && runs[j].Ran? ==> runs[j].memory <= limit
  {
    if runs != [] {
      var n := |runs| - 1;
      MaximaWithin(runs[..n], limit);
      assert forall j :: 0 <= j < n ==> runs[..n][j] == runs[j];
    }
  }

  // The case and every one before it kept the limits.
  predicate TimesKept(task: Task, runs: seq<CaseRun>, k: nat)
    requires k < |runs|
  {
    forall j :: 0 <= j <= k && runs[j].Ran? ==> runs[j].time <= task.timeLimit
  }

  predicate MemoryKept(task: Task, runs: seq<CaseRun>, k: nat)
    requires k < |runs|
  {
    forall j :: 0 <= j <= k && runs[j].Ran? ==> runs[j].memory <= task.memoryLimit
  }

  // The sandbox and the limits let the case through to the comparison. The
  // memory limit counts only if a status is reported.
  predicate Compared(task: Task, runs: seq<CaseRun>, k: nat)
    requires k < |runs|
  {
    && runs[k].Ran? && runs[k].status !in {"XX", "TO", "SG"} && TimesKept(task, runs, k) && runs[k].exitcode == 0
    && (runs[k].status == "" || MemoryKept(task, runs, k))
  }

  // A case passes exactly when it gets to the comparison and the comparison does
  // not find a difference, or the jury says ok.
  lemma CasePasses(task: Task, runs: seq<CaseRun>, k: nat)
    requires k < |runs|
    ensures Outcomes(task, runs)[k] == None <==>
              && Compared(task, runs, k)
              && (runs[k].check == JurySays('o', 'k') || (runs[k].check.Tokens? && runs[k].check.match' != 0))
  {
    hide Outcomes, MaxTime, MaxMemory;
    LimitsKept(task, runs, k);
  }

  lemma LimitsKept(task: Task, runs: seq<CaseRun>, k: nat)
    requires k < |runs|
    ensures Outcomes(task, runs)[k] ==
            CaseFailure(task, runs[k], k + 1, MaxTime(runs[..k + 1]), MaxMemory(runs[..k + 1]))
    ensures MaxTime(runs[..k + 1]) <= task.timeLimit <==> TimesKept(task, runs, k)
    ensures MaxMemory(runs[..k + 1]) <= task.memoryLimit <==> MemoryKept(task, runs, k)
  {
    hide CaseFailure, Outcomes, MaxTime, MaxMemory;
    OutcomeAt(task, runs, k);
    var upTo := runs[..k + 1];
    MaximaWithin(upTo, task.timeLimit);
    MaximaWithin(upTo, task.memoryLimit);
    assert forall j :: 0 <= j <= k ==> upTo[j] == runs[j];
    assert forall j :: 0 <= j < |upTo| ==> upTo[j] == runs[j];
  }

  // Which failure a case gets, class by class.
  lemma CaseFails(task: Task, runs: seq<CaseRun>, k: nat)
    requires k < |runs|
    ensures var r, out := runs[k], Outcomes(task, runs)[k];
            && (out == Some(NoStat) <==> r.Unreadable?)
            && (out == Some(Crashed) <==> r.Ran? && r.status == "XX")
            && (out == Some(TimeExceeded(k + 1)) <==>
                r.Ran? && r.status != "XX" && (r.status == "TO" || !TimesKept(task, runs, k)))
            && (r.Ran? ==> (out == Some(Signalled(r.exitsig, k + 1)) <==>
                            r.status == "SG" && TimesKept(task, runs, k)))
            && (r.Ran? ==> (out == Some(Exited(r.exitcode, k + 1)) <==>
                            r.status !in {"XX", "TO", "SG"} && TimesKept(task, runs, k) && r.exitcode != 0))
            && (out == Some(MemoryExceeded(k + 1)) <==>
                && r.Ran? && r.status !in {"XX", "TO", "SG", ""} && TimesKept(task, runs, k) && r.exitcode == 0
                && !MemoryKept(task, runs, k))
  {
    hide Outcomes, MaxTime, MaxMemory, CheckFailure;
    LimitsKept(task, runs, k);
    if runs[k].Ran? { CheckNamesOther(runs[k].check, k + 1); }
  }

  // The comparison reports none of the sandbox's failures.
  lemma CheckNamesOther(check: Check, c: nat)
    ensures var f := CheckFailure(check, c);
            f.Some? ==> f.value.Wrong? || f.value.JuryMissing? || f.value.JuryUncompilable? || f.value.JuryFailed? ||
                        f.value.JuryOdd?
  {
  }

  lemma ComparisonFails(task: Task, runs: seq<CaseRun>, k: nat)
    requires k < |runs|
    ensures var r, out := runs[k], Outcomes(task, runs)[k];
            && (out == Some(Wrong(k + 1)) <==>
                Compared(task, runs, k) && (r.check == Tokens(0) || r.check == JurySays('w', 'a')))
            && (out == Some(JuryMissing) <==> Compared(task, runs, k) && r.check == NoJury)
            && (out == Some(JuryUncompilable) <==> Compared(task, runs, k) && r.check == JuryNotCompiled)
            && (out == Some(JuryFailed) <==> Compared(task, runs, k) && r.check == JuryCrash)
            && (forall v0, v1 :: out == Some(JuryOdd(v0, v1)) <==>
                  && Compared(task, runs, k) && r.check == JurySays(v0, v1)
                  && !(v0 == 'o' && v1 == 'k') && !(v0 == 'w' && v1 == 'a'))
  {
    hide Outcomes, MaxTime, MaxMemory;
    LimitsKept(task, runs, k);
  }

  // A case that used more memory than allowed and whose output could not be
  // compared: it passes.
  lemma UncheckedCasePasses(task: Task)
    ensures Outcomes(task, [Ran("", 0, task.memoryLimit + 1, 0, 0, Tokens(-1))]) == [None]
  {
    var runs := [Ran("", 0, task.memoryLimit + 1, 0, 0, Tokens(-1))];
    CasePasses(task, runs, 0);
    assert Outcomes(task, runs) == [Outcomes(task, runs)[0]];
  }

  // A failure that names a case names its own.
  lemma OutcomeNamesItself(task: Task, runs: seq<CaseRun>, k: nat)
    requires k < |runs| && Outcomes(task, runs)[k].Some?
    ensures var f := Outcomes(task, runs)[k].value;
            && (!f.JuryOdd? && ReportedCase(f).Some? ==> ReportedCase(f).value == k + 1)
            && (VerdictCase(f) != -1 ==> VerdictCase(f) == k + 1)
  {
    OutcomeAt(task, runs, k);
  }

  // ----- what the loop accumulates -----

  function Passed(outs: seq<Option<Failure>>): (n: nat)
    ensures n <= |outs|
  {
    if outs == [] then 0 else Passed(outs[..|outs| - 1]) + if outs[|outs| - 1].None? then 1 else 0
  }

  function FirstFailure(outs: seq<Option<Failure>>): Option<Failure>
  {
    if outs == [] then None
    else
      var first := FirstFailure(outs[..|outs| - 1]);
      if first.Some? then first else outs[|outs| - 1]
  }

  function Letters(outs: seq<Option<Failure>>): (t: string)
    ensures |t| == |outs|
  {
    if outs == [] then ""
    else Letters(outs[..|outs| - 1]) + [if outs[|outs| - 1].None? then 'A' else Letter(outs[|outs| - 1].value)]
  }

  // A failure that reports case r (None: no case) fails the group.
  predicate Hits(g: Group, r: Option<int>) { r.None? || r.value == 0 || Within(g, r.value) }

  function FailedGroups(groups: seq<Group>, outs: seq<Option<Failure>>): (failed: seq<bool>)
    ensures |failed| == |groups|
  {
    if outs == [] then seq(|groups|, _ => false)
    else WithHits(groups, FailedGroups(groups, outs[..|outs| - 1]), outs[|outs| - 1])
  }

  function WithHits(groups: seq<Group>, failed: seq<bool>, out: Option<Failure>): (r: seq<bool>)
    requires |failed| == |groups|
    ensures |r| == |groups|
  {
    if out.None? then failed
    else seq(|groups|, i requires 0 <= i < |groups| => failed[i] || Hits(groups[i], ReportedCase(out.value)))
  }

  // The brackets in front of and behind case c; no groups means uniform scoring.
  function StartBrackets(groups: seq<Group>, c: nat): string
  {
    if groups == [] then ""
    else StartBrackets(groups[..|groups| - 1], c) + if c == groups[|groups| - 1].start then "[" else ""
  }

  function Opening(groups: seq<Group>, c: nat): string
  {
    if groups == [] then (if c == 1 then "[" else "")
    else if c == groups[0].start then "["
    else StartBrackets(groups, c)
  }

  function EndBrackets(groups: seq<Group>, c: nat): string
  {
    if groups == [] then ""
    else
      EndBrackets(groups[..|groups| - 1], c) +
      if c == groups[|groups| - 1].start + groups[|groups| - 1].count - 1 then "][" else ""
  }

  function Closing(groups: seq<Group>, count: nat, c: nat): string
  {
    if groups == [] then (if c == count then "]" else "")
    else if c == groups[|groups| - 1].start + groups[|groups| - 1].count - 1 then "]"
    else EndBrackets(groups[..|groups| - 1], c)
  }

  function Marks(groups: seq<Group>, count: nat, letters: string): string
  {
    if letters == "" then ""
    else
      var c := |letters|;
      Marks(groups, count, letters[..c - 1]) + CaseMarks(groups, count, c, letters[c - 1])
  }

  function CaseMarks(groups: seq<Group>, count: nat, c: nat, letter: char): string
  {
    Opening(groups, c) + [letter] + Closing(groups, count, c)
  }

  // ----- the loop -----

  method OpenCase(groups: seq<Group>, c: nat, marks: string) returns (r: string)
    ensures r == marks + Opening(groups, c)
  {
    r := marks;
    if (groups != [] && c == groups[0].start) || (groups == [] && c == 1) {
      r := r + "[";
    } else if groups != [] {
      var i := 0;
      while i < |groups|
        invariant 0 <= i <= |groups| && r == marks + StartBrackets(groups[..i], c)
      {
        assert groups[..i + 1][..i] == groups[..i];
        if c == groups[i].start { r := r + "["; }
        i := i + 1;
      }
      assert groups[..i] == groups;
    }
  }

  method CloseCase(groups: seq<Group>, count: nat, c: nat, marks: string) returns (r: string)
    ensures r == marks + Closing(groups, count, c)
  {
    r := marks;
    var n := |groups|;
    if (n == 0 && c == count) || (n > 0 && c == groups[n - 1].start + groups[n - 1].count - 1) {
      r := r + "]";
    } else if n > 0 {
      var i := 0;
      while i + 1 < n
        invariant 0 <= i < n && r == marks + EndBrackets(groups[..i], c)
      {
        assert groups[..i + 1][..i] == groups[..i];
        if c == groups[i].start + groups[i].count - 1 { r := r + "]["; }
        i := i + 1;
      }
    }
  }

  // The bookkeeping for a failed case; `text` is its result string.
  method MarkGroups(groups: seq<Group>, failed: array<bool>, text: string)
    requires failed.Length == |groups|
    modifies failed
    ensures forall i :: 0 <= i < |groups| ==> failed[i] == (old(failed[i]) || Hits(groups[i], ScanCase(text)))
  {
    var failedCase := ScanCase(text);
    var i := 0;
    while i < |groups|
      invariant 0 <= i <= |groups|
      invariant forall j :: 0 <= j < i ==> failed[j] == (old(failed[j]) || Hits(groups[j], failedCase))
      invariant forall j :: i <= j < |groups| ==> failed[j] == old(failed[j])
    {
      if failedCase.None? || failedCase.value == 0 {
        failed[i] := true;
      } else {
        var first, last := groups[i].start, groups[i].start + groups[i].count - 1;
        if failedCase.value >= first && failedCase.value <= last {
          failed[i] := true;
        }
      }
      i := i + 1;
    }
  }

  datatype Totals = Totals(maxTime: nat, maxMemory: nat, passed: nat, first: Option<string>,
    failed: seq<bool>, marks: string)

  function TotalsOf(groups: seq<Group>, count: nat, maxTime: nat, maxMemory: nat, outs: seq<Option<Failure>>): Totals
  {
    Totals(maxTime, maxMemory, Passed(outs), RawText(FirstFailure(outs)), FailedGroups(groups, outs),
           Marks(groups, count, Letters(outs)))
  }

  // What the loop has accumulated after the cases of `runs`.
  function Accumulated(task: Task, groups: seq<Group>, count: nat, runs: seq<CaseRun>): Totals
  {
    TotalsOf(groups, count, MaxTime(runs), MaxMemory(runs), Outcomes(task, runs))
  }

  // The text in raw_results at the end of a case; None is the null pointer.
  function RawText(out: Option<Failure>): Option<string>
  {
    if out.None? then None else Some(FailureText(out.value))
  }

  lemma RawReads(out: Option<Failure>)
    ensures Marker(RawText(out)) == if out.None? then 'A' else Letter(out.value)
    ensures out.Some? ==> ScanCase(RawText(out).value) == ReportedCase(out.value)
  {
    hide FailureText, ScanCase;
    if out.Some? {
      hide Marker;
      MarkerReads(out.value);
      CaseReads(out.value);
    }
  }

  // The case loop of grade().
  method GradeCases(task: Task, groups: seq<Group>, runs: seq<CaseRun>) returns (t: Totals)
    ensures t == Accumulated(task, groups, |runs|, runs)
  {
    hide Opening, Closing, FailureText, CaseFailure, Marker, ScanCase, Letter, ReportedCase, Hits, Accumulated;
    var maxTime: nat, maxMemory: nat, passed: nat, first: Option<string>, marks := 0, 0, 0, None, "";
    var failed := new bool[|groups|](_ => false);
    NothingAccumulated(task, groups, |runs|);
    assert failed[..] == seq(|groups|, _ => false);
    var c := 1;
    while c <= |runs|
      invariant 1 <= c <= |runs| + 1
      invariant Totals(maxTime, maxMemory, passed, first, failed[..], marks) ==
                Accumulated(task, groups, |runs|, runs[..c - 1])
    {
      var run := runs[c - 1];
      marks := OpenCase(groups, c, marks);
      if run.Ran? {
        maxTime := if run.time > maxTime then run.time else maxTime;
        maxMemory := if run.memory > maxMemory then run.memory else maxMemory;
      }
      var out := CaseFailure(task, run, c, maxTime, maxMemory);
      var raw := RawText(out);
      assert runs[..c][..c - 1] == runs[..c - 1];
      CaseAdds(task, groups, |runs|, runs[..c]);
      RawReads(out);
      ghost var marked := marks[..|marks| - |Opening(groups, c)|];
      marks := CloseCase(groups, |runs|, c, marks + [Marker(raw)]);
      assert marks == marked + CaseMarks(groups, |runs|, c, Marker(raw));
      ghost var before := failed[..];
      if raw.Some? {
        MarkGroups(groups, failed, raw.value);
        if first.None? { first := raw; }
      } else {
        passed := passed + 1;
      }
      assert failed[..] == WithHits(groups, before, out);
      c := c + 1;
    }
    assert runs[..c - 1] == runs;
    t := Totals(maxTime, maxMemory, passed, first, failed[..], marks);
  }

  lemma NothingAccumulated(task: Task, groups: seq<Group>, count: nat)
    ensures Accumulated(task, groups, count, []) == Totals(0, 0, 0, None, seq(|groups|, _ => false), "")
  {
  }

  // The totals behind case c with this run and outcome.
  function WithCase(t: Totals, groups: seq<Group>, count: nat, c: nat, run: CaseRun, out: Option<Failure>): Totals
    requires |t.failed| == |groups|
  {
    Totals(WithRun(t.maxTime, run, true), WithRun(t.maxMemory, run, false),
           t.passed + (if out.None? then 1 else 0),
           if t.first.Some? then t.first else RawText(out),
           WithHits(groups, t.failed, out),
           t.marks + CaseMarks(groups, count, c, if out.None? then 'A' else Letter(out.value)))
  }

  // What one more case adds to the totals.
  lemma CaseAdds(task: Task, groups: seq<Group>, count: nat, runs: seq<CaseRun>)
    requires runs != []
    ensures var c := |runs|;
            var before := Accumulated(task, groups, count, runs[..c - 1]);
            var out := CaseFailure(task, runs[c - 1], c, MaxTime(runs), MaxMemory(runs));
            && |before.failed| == |groups|
            && Accumulated(task, groups, count, runs) == WithCase(before, groups, count, c, runs[c - 1], out)
            && MaxTime(runs) == WithRun(before.maxTime, runs[c - 1], true)
            && MaxMemory(runs) == WithRun(before.maxMemory, runs[c - 1], false)
  {
    hide CaseFailure, Outcomes, WithCase, WithRun, MaxTime, MaxMemory, Marks, Letters, FailedGroups,
      FirstFailure, Passed;
    var c := |runs|;
    var run := runs[c - 1];
    var out := CaseFailure(task, run, c, MaxTime(runs), MaxMemory(runs));
    var outs := Outcomes(task, runs[..c - 1]);
    assert |outs| == c - 1;
    RunAdds(task, runs);
    TotalsAdd(groups, count, MaxTime(runs[..c - 1]), MaxMemory(runs[..c - 1]), outs, run, out);
  }

  lemma TotalsAdd(groups: seq<Group>, count: nat, maxTime: nat, maxMemory: nat, outs: seq<Option<Failure>>,
                  run: CaseRun, out: Option<Failure>)
    ensures var t := TotalsOf(groups, count, maxTime, maxMemory, outs);
            && |t.failed| == |groups|
            && TotalsOf(groups, count, WithRun(maxTime, run, true), WithRun(maxMemory, run, false), outs + [out]) ==
                 WithCase(t, groups, count, |outs| + 1, run, out)
  {
    hide CaseMarks, Letter, Marks, Letters, FailedGroups, FirstFailure, Passed, WithHits, FailureText;
    OutcomeAdds(groups, outs, out);
    LetterAdds(groups, count, Letters(outs), if out.None? then 'A' else Letter(out.value));
  }

  lemma RunAdds(task: Task, runs: seq<CaseRun>)
    requires runs != []
    ensures var c := |runs|;
            && Outcomes(task, runs) ==
                 Outcomes(task, runs[..c - 1]) + [CaseFailure(task, runs[c - 1], c, MaxTime(runs), MaxMemory(runs))]
            && MaxTime(runs) == WithRun(MaxTime(runs[..c - 1]), runs[c - 1], true)
            && MaxMemory(runs) == WithRun(MaxMemory(runs[..c - 1]), runs[c - 1], false)
  {
    hide CaseFailure;
  }

  lemma OutcomeAdds(groups: seq<Group>, outs: seq<Option<Failure>>, out: Option<Failure>)
    ensures Passed(outs + [out]) == Passed(outs) + if out.None? then 1 else 0
    ensures FirstFailure(outs + [out]) == if FirstFailure(outs).Some? then FirstFailure(outs) else out
    ensures FailedGroups(groups, outs + [out]) == WithHits(groups, FailedGroups(groups, outs), out)
    ensures Letters(outs + [out]) == Letters(outs) + [if out.None? then 'A' else Letter(out.value)]
  {
    hide Letter, Hits, WithHits;
    assert (outs + [out])[..|outs|] == outs;
  }

  lemma LetterAdds(groups: seq<Group>, count: nat, letters: string, letter: char)
    ensures Marks(groups, count, letters + [letter]) ==
            Marks(groups, count, letters) + CaseMarks(groups, count, |letters| + 1, letter)
  {
    hide CaseMarks;
    assert (letters + [letter])[..|letters|] == letters;
  }

  function WithRun(m: nat, run: CaseRun, time: bool): nat
  {
    if run.Unreadable? then m
    else if time then (if run.time > m then run.time else m)
    else if run.memory > m then run.memory else m
  }
}
