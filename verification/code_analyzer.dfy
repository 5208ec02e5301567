/**
  The analysis run of the code-analyzer screen: a fixed catalogue of five analyzers,
  one result slot per analyzer, slots completed one at a time in catalogue order,
  per-issue selection, and the "fix selected issues" action that replaces the code
  buffer and clears the run.

  Each timer callback of the component is one step here: `StartRun` is the
  synchronous start, `CompleteStage` one stage's callback, `CompleteFix` the fix
  callback. Notifications are returned as values instead of being shown.
 */
module CodeAnalyzer {
  import Seqs

  datatype Severity = Error | Warning | Info

  datatype Issue = Issue(
    id: string,
    line: int,
    severity: Severity,
    message: string,
    suggestion: string,
    selected: bool)

  /** The three statuses the code declares; `Failed` is the unused 'error' status. */
  datatype Status = Analyzing | Complete | Failed

  /** One analyzer's slot in a run. */
  datatype AnalysisResult = AnalysisResult(
    id: string,
    analyzer: string,
    status: Status,
    issues: seq<Issue>,
    summary: string)

  datatype Analyzer = Analyzer(id: string, name: string, icon: string)

  /** The component's state: the code buffer, the current run's slots, and the busy flag. */
  datatype Session = Session(code: string, results: seq<AnalysisResult>, analyzing: bool)

  /** What the fix button reports: an error toast, or the number of issues being fixed. */
  datatype FixReply = NothingSelected | Fixing(count: nat)

  /** The catalogue; its order is the order in which stages run. */
  const Analyzers: seq<Analyzer> := [
    Analyzer("security", "Security Analyzer", "Shield"),
    Analyzer("performance", "Performance Analyzer", "Zap"),
    Analyzer("best-practices", "Best Practices", "BookOpen"),
    Analyzer("logic", "Logic Analyzer", "Brain"),
    Analyzer("documentation", "Documentation", "FileText")
  ]

  const IssuesPerStage: nat := 2

  const InitialCode: string := "function example() {\n  var x = 10;\n  console.log(x);\n  return x;\n}"

  /** The buffer contents a completed fix installs, whatever was selected. */
  const FixedCode: string := "function example() {\n  const x = 10;\n  // Removed console.log\n  return x;\n}"

  const CompletedSummary: string := "Проверка завершена. Найдено: 2 проблем"

  const VarMessage: string := "] Используется var вместо let/const"
  const VarSuggestion: string := "Замените var на const или let для улучшения области видимости"
  const LogMessage: string := "] Console.log в production коде"
  const LogSuggestion: string := "Удалите console.log или используйте logger"

  const InitialSession: Session := Session(InitialCode, [], false)

  predicate IsSelected(i: Issue)
  {
    i.selected
  }

  predicate IsUnselected(i: Issue)
  {
    !i.selected
  }

  /** No two catalogue entries share an id, so a stage's id picks out exactly one slot. */
  lemma CatalogueIdsDistinct(j: nat, k: nat)
    requires j < |Analyzers| && k < |Analyzers| && j != k
    ensures Analyzers[j].id != Analyzers[k].id
  {
    assert |Analyzers[0].id| == 8 && |Analyzers[1].id| == 11 && |Analyzers[2].id| == 14;
    assert |Analyzers[3].id| == 5 && |Analyzers[4].id| == 13;
  }

  // ---------------------------------------------------------------------------
  // Starting a run

  function PendingResult(a: Analyzer): AnalysisResult
  {
    AnalysisResult(a.id, a.name, Analyzing, [], "")
  }

  /** The fresh slots of a run: one per catalogue entry, in catalogue order. */
  function PendingResults(catalogue: seq<Analyzer>): (r: seq<AnalysisResult>)
    ensures |r| == |catalogue|
    ensures forall j :: 0 <= j < |r| ==>
      && r[j].id == catalogue[j].id
      && r[j].analyzer == catalogue[j].name
      && r[j].status == Analyzing
      && r[j].issues == []
      && r[j].summary == ""
    decreases |catalogue|
  {
    if |catalogue| == 0 then []
    else [PendingResult(catalogue[0])] + PendingResults(catalogue[1..])
  }

  /** Starting a run discards any previous slots and marks the session busy. */
  function StartRun(s: Session): (r: Session)
    ensures r.analyzing && r.code == s.code
    ensures StagesDone(r.results, 0)
    ensures TotalIssues(r.results) == 0
  {
    var rs := PendingResults(Analyzers);
    NoIssuesBeforeStages(rs);
    Session(s.code, rs, true)
  }

  // ---------------------------------------------------------------------------
  // One stage

  /**
    The two canned findings a stage produces for analyzer `a`: both selected, both
    named after the analyzer, with distinct ids, on lines 2 and 3, a warning then an info.
   */
  function MockIssues(a: Analyzer): (r: seq<Issue>)
    ensures |r| == IssuesPerStage
    ensures forall m :: 0 <= m < |r| ==> r[m].selected && r[m].line == m + 2 && a.id <= r[m].id
    ensures r[0].id != r[1].id
    ensures r[0].severity == Warning && r[1].severity == Info
  {
    assert (a.id + "-1")[|a.id| + 1] != (a.id + "-2")[|a.id| + 1];
    [ Issue(a.id + "-1", 2, Warning,
            "[" + a.name + VarMessage,
            VarSuggestion,
            true),
      Issue(a.id + "-2", 3, Info,
            "[" + a.name + LogMessage,
            LogSuggestion,
            true) ]
  }

  function CompletedSlot(r: AnalysisResult, a: Analyzer): AnalysisResult
  {
    r.(status := Complete, issues := MockIssues(a), summary := CompletedSummary)
  }

  /** The stage callback for analyzer `a`: every slot with `a`'s id is completed with its findings, every other slot is kept. */
  function CompleteStage(rs: seq<AnalysisResult>, a: Analyzer): (r: seq<AnalysisResult>)
    ensures |r| == |rs|
    ensures forall j :: 0 <= j < |rs| && rs[j].id != a.id ==> r[j] == rs[j]
    ensures forall j :: 0 <= j < |rs| && rs[j].id == a.id ==>
      && r[j].id == rs[j].id
      && r[j].analyzer == rs[j].analyzer
      && r[j].status == Complete
      && r[j].issues == MockIssues(a)
      && r[j].summary == CompletedSummary
    decreases |rs|
  {
    if |rs| == 0 then []
    else
      var head := if rs[0].id == a.id then CompletedSlot(rs[0], a) else rs[0];
      [head] + CompleteStage(rs[1..], a)
  }

  /** Issue lists equal up to the `selected` flags. */
  predicate SameModuloSelection(xs: seq<Issue>, ys: seq<Issue>)
  {
    && |xs| == |ys|
    && forall m :: 0 <= m < |xs| ==> xs[m].(selected := ys[m].selected) == ys[m]
  }

  /** Slot `r` is in the position of catalogue entry `j` after the first `k` stages. */
  predicate SlotAfter(r: AnalysisResult, j: nat, k: nat)
    requires j < |Analyzers|
  {
    && r.id == Analyzers[j].id
    && r.analyzer == Analyzers[j].name
    && if j < k then
         && r.status == Complete
         && r.summary == CompletedSummary
         && SameModuloSelection(r.issues, MockIssues(Analyzers[j]))
       else
         && r.status == Analyzing
         && r.issues == []
         && r.summary == ""
  }

  /**
    The run invariant after `k` stages: one slot per analyzer in catalogue order,
    the first `k` complete with their findings, the rest still analyzing and empty.
    Selection flags are free, since the user may toggle issues between stages.
   */
  predicate StagesDone(rs: seq<AnalysisResult>, k: nat)
  {
    && |rs| == |Analyzers|
    && k <= |Analyzers|
    && forall j :: 0 <= j < |rs| ==> SlotAfter(rs[j], j, k)
  }

  /** Every issue of every slot is selected. */
  predicate AllSelected(rs: seq<AnalysisResult>)
  {
    forall j, m :: 0 <= j < |rs| && 0 <= m < |rs[j].issues| ==> rs[j].issues[m].selected
  }

  /** A completed stage's own findings agree with themselves up to selection. */
  lemma MockIssuesSelfSame(a: Analyzer)
    ensures SameModuloSelection(MockIssues(a), MockIssues(a))
  {
    var mock := MockIssues(a);
    assert forall m :: 0 <= m < |mock| ==> mock[m].(selected := mock[m].selected) == mock[m];
  }

  /** One slot under stage `k`: slot `k` becomes complete, every other slot keeps its state. */
  lemma SlotAdvances(before: AnalysisResult, after: AnalysisResult, j: nat, k: nat)
    requires j < |Analyzers| && k < |Analyzers| && SlotAfter(before, j, k)
    requires before.id != Analyzers[k].id ==> after == before
    requires before.id == Analyzers[k].id ==> after == CompletedSlot(before, Analyzers[k])
    ensures SlotAfter(after, j, k + 1)
  {
    if j == k {
      MockIssuesSelfSame(Analyzers[k]);
    } else {
      CatalogueIdsDistinct(j, k);
    }
  }

  /** Stage `k` turns the invariant for `k` stages into the invariant for `k + 1`. */
  lemma StageAdvances(rs: seq<AnalysisResult>, k: nat)
    requires StagesDone(rs, k) && k < |Analyzers|
    ensures StagesDone(CompleteStage(rs, Analyzers[k]), k + 1)
  {
    var r := CompleteStage(rs, Analyzers[k]);
    forall j | 0 <= j < |r|
      ensures SlotAfter(r[j], j, k + 1)
    {
      SlotAdvances(rs[j], r[j], j, k);
    }
  }

  /** A stage installs only selected findings, so a fully selected run stays fully selected. */
  lemma StageKeepsAllSelected(rs: seq<AnalysisResult>, a: Analyzer)
    requires AllSelected(rs)
    ensures AllSelected(CompleteStage(rs, a))
  {
  }

  /** The two findings of a completed stage: their ids, lines, severities and default selection. */
  lemma StageFindings(rs: seq<AnalysisResult>, k: nat)
    requires StagesDone(rs, k) && k < |Analyzers|
    ensures var slot := CompleteStage(rs, Analyzers[k])[k];
      && |slot.issues| == IssuesPerStage
      && slot.issues[0].id == Analyzers[k].id + "-1"
      && slot.issues[1].id == Analyzers[k].id + "-2"
      && slot.issues[0].id != slot.issues[1].id
      && slot.issues[0].line == 2 && slot.issues[1].line == 3
      && slot.issues[0].severity == Warning && slot.issues[1].severity == Info
      && slot.issues[0].selected && slot.issues[1].selected
  {
    var a := Analyzers[k];
    assert (a.id + "-1")[|a.id| + 1] != (a.id + "-2")[|a.id| + 1];
  }

  // ---------------------------------------------------------------------------
  // Derived counts

  /** All issues of all slots, slot by slot. */
  function AllIssues(rs: seq<AnalysisResult>): seq<Issue>
    decreases |rs|
  {
    if |rs| == 0 then [] else rs[0].issues + AllIssues(rs[1..])
  }

  /** The selected issues of all slots (the `flatMap` the fix action reads). */
  function SelectedIssues(rs: seq<AnalysisResult>): (r: seq<Issue>)
    ensures r == Seqs.Filter(AllIssues(rs), IsSelected)
    decreases |rs|
  {
    if |rs| == 0 then []
    else
      Seqs.FilterAppend(rs[0].issues, AllIssues(rs[1..]), IsSelected);
      Seqs.Filter(rs[0].issues, IsSelected) + SelectedIssues(rs[1..])
  }

  /** The `totalIssues` reduction: the sum of the slots' issue counts. */
  function TotalIssues(rs: seq<AnalysisResult>): (r: nat)
    ensures r == |AllIssues(rs)|
    decreases |rs|
  {
    if |rs| == 0 then 0 else |rs[0].issues| + TotalIssues(rs[1..])
  }

  /** The `selectedCount` reduction: the sum of the slots' selected-issue counts. */
  function SelectedCount(rs: seq<AnalysisResult>): nat
    decreases |rs|
  {
    if |rs| == 0 then 0 else Seqs.Count(rs[0].issues, IsSelected) + SelectedCount(rs[1..])
  }

  /** The two reductions agree with counting over the flattened issue list, and the fix action's selection is exactly the selected issues of that list. */
  lemma {:induction false} CountsMatchFlattened(rs: seq<AnalysisResult>)
    ensures TotalIssues(rs) == |AllIssues(rs)|
    ensures SelectedIssues(rs) == Seqs.Filter(AllIssues(rs), IsSelected)
    ensures SelectedCount(rs) == |SelectedIssues(rs)|
    decreases |rs|
  {
    if |rs| > 0 {
      CountsMatchFlattened(rs[1..]);
      Seqs.FilterAppend(rs[0].issues, AllIssues(rs[1..]), IsSelected);
    }
  }

  /** Every issue in `xs` is selected. */
  predicate IssuesAllSelected(xs: seq<Issue>)
  {
    forall m :: 0 <= m < |xs| ==> xs[m].selected
  }

  /** Within one slot, the selected count is at most the issue count, with equality exactly when all are selected. */
  lemma SlotSelectedWithinTotal(xs: seq<Issue>)
    ensures Seqs.Count(xs, IsSelected) <= |xs|
    ensures Seqs.Count(xs, IsSelected) == |xs| <==> IssuesAllSelected(xs)
  {
    Seqs.FilterComplement(xs, IsSelected, IsUnselected);
    if Seqs.Count(xs, IsSelected) == |xs| {
      assert Seqs.Filter(xs, IsUnselected) == [];
    }
    if IssuesAllSelected(xs) {
      Seqs.FilterKeepsAll(xs, IsSelected);
    }
  }

  lemma AllSelectedSplit(rs: seq<AnalysisResult>)
    requires |rs| > 0
    ensures AllSelected(rs) <==> IssuesAllSelected(rs[0].issues) && AllSelected(rs[1..])
  {
    if IssuesAllSelected(rs[0].issues) && AllSelected(rs[1..]) {
      forall j, m | 0 <= j < |rs| && 0 <= m < |rs[j].issues|
        ensures rs[j].issues[m].selected
      {
        if j > 0 {
          assert rs[j] == rs[1..][j - 1];
        }
      }
    }
  }

  /** The selected count never exceeds the total, and reaches it exactly when every issue is selected. */
  lemma {:induction false} SelectedWithinTotal(rs: seq<AnalysisResult>)
    ensures SelectedCount(rs) <= TotalIssues(rs)
    ensures SelectedCount(rs) == TotalIssues(rs) <==> AllSelected(rs)
    decreases |rs|
  {
    if |rs| > 0 {
      SelectedWithinTotal(rs[1..]);
      SlotSelectedWithinTotal(rs[0].issues);
      AllSelectedSplit(rs);
    }
  }

  /** Slots whose issue counts are 2 for the first `k` and 0 for the rest hold `2 * k` issues in all. */
  lemma {:induction false} TotalOfStagePattern(rs: seq<AnalysisResult>, k: nat)
    requires k <= |rs|
    requires forall j :: 0 <= j < |rs| ==> |rs[j].issues| == if j < k then IssuesPerStage else 0
    ensures TotalIssues(rs) == IssuesPerStage * k
    decreases |rs|
  {
    if |rs| > 0 {
      var k' := if k > 0 then k - 1 else 0;
      forall j | 0 <= j < |rs[1..]|
        ensures |rs[1..][j].issues| == if j < k' then IssuesPerStage else 0
      {
        assert rs[1..][j] == rs[j + 1];
      }
      TotalOfStagePattern(rs[1..], k');
    }
  }

  /** After `k` stages the run holds exactly two issues per completed stage. */
  lemma TotalAfterStages(rs: seq<AnalysisResult>, k: nat)
    requires StagesDone(rs, k)
    ensures TotalIssues(rs) == IssuesPerStage * k
  {
    forall j | 0 <= j < |rs|
      ensures |rs[j].issues| == if j < k then IssuesPerStage else 0
    {
      assert SlotAfter(rs[j], j, k);
    }
    TotalOfStagePattern(rs, k);
  }

  /** A run that has completed no stage has no issues. */
  lemma NoIssuesBeforeStages(rs: seq<AnalysisResult>)
    requires forall j :: 0 <= j < |rs| ==> rs[j].issues == []
    ensures TotalIssues(rs) == 0
  {
    TotalOfStagePattern(rs, 0);
  }

  // ---------------------------------------------------------------------------
  // The whole run

  /** Once all stages are done, every slot is complete. */
  lemma AllComplete(rs: seq<AnalysisResult>)
    requires StagesDone(rs, |Analyzers|)
    ensures forall j :: 0 <= j < |rs| ==> rs[j].status == Complete
  {
    forall j | 0 <= j < |rs|
      ensures rs[j].status == Complete
    {
      assert SlotAfter(rs[j], j, |Analyzers|);
    }
  }

  /** Once all stages are done with nothing unselected, every slot is complete and all ten issues are selected. */
  lemma FullRun(rs: seq<AnalysisResult>)
    requires StagesDone(rs, |Analyzers|) && AllSelected(rs)
    ensures forall j :: 0 <= j < |rs| ==> rs[j].status == Complete
    ensures TotalIssues(rs) == |Analyzers| * IssuesPerStage == 10
    ensures SelectedCount(rs) == TotalIssues(rs)
  {
    AllComplete(rs);
    TotalAfterStages(rs, |Analyzers|);
    SelectedWithinTotal(rs);
  }

  /**
    `simulateAnalysis` with its delays removed: start the run, complete the five
    stages in catalogue order, then clear the busy flag and announce the total.
    `snapshots[k]` is the slot list observed after `k` stages.
   */
  method SimulateAnalysis(s: Session) returns (r: Session, snapshots: seq<seq<AnalysisResult>>, announced: nat)
    ensures |snapshots| == |Analyzers| + 1
    ensures forall k :: 0 <= k < |snapshots| ==> StagesDone(snapshots[k], k) && AllSelected(snapshots[k])
    ensures r.results == snapshots[|Analyzers|]
    ensures forall j :: 0 <= j < |r.results| ==> r.results[j].status == Complete
    ensures !r.analyzing && r.code == s.code
    ensures TotalIssues(r.results) == |Analyzers| * IssuesPerStage == 10
    ensures SelectedCount(r.results) == TotalIssues(r.results)
    ensures announced == TotalIssues(r.results)
  {
    var started := StartRun(s);
    snapshots := RunStages(started.results);
    var results := snapshots[|Analyzers|];
    FullRun(results);
    r := Session(started.code, results, false);
    announced := |Analyzers| * IssuesPerStage;
  }

  /** The five stage callbacks in catalogue order, from a fresh slot list; `snapshots[k]` is the list after `k` stages. */
  method RunStages(rs: seq<AnalysisResult>) returns (snapshots: seq<seq<AnalysisResult>>)
    requires StagesDone(rs, 0) && AllSelected(rs)
    ensures |snapshots| == |Analyzers| + 1 && snapshots[0] == rs
    ensures forall k :: 0 <= k < |snapshots| ==> StagesDone(snapshots[k], k) && AllSelected(snapshots[k])
  {
    var results := rs;
    snapshots := [results];
    var i := 0;
    while i < |Analyzers|
      invariant 0 <= i <= |Analyzers|
      invariant StagesDone(results, i) && AllSelected(results)
      invariant |snapshots| == i + 1 && snapshots[0] == rs && snapshots[i] == results
      invariant forall k :: 0 <= k < |snapshots| ==> StagesDone(snapshots[k], k) && AllSelected(snapshots[k])
    {
      StageAdvances(results, i);
      StageKeepsAllSelected(results, Analyzers[i]);
      results := CompleteStage(results, Analyzers[i]);
      snapshots := snapshots + [results];
      i := i + 1;
    }
  }

  // ---------------------------------------------------------------------------
  // Toggling one issue

  function FlipIf(i: Issue, issueId: string): Issue
  {
    if i.id == issueId then i.(selected := !i.selected) else i
  }

  /** Flip `selected` on the issues of one slot whose id is `issueId`. */
  function ToggleIn(issues: seq<Issue>, issueId: string): (r: seq<Issue>)
    ensures |r| == |issues|
    ensures forall m :: 0 <= m < |r| ==>
      && r[m].(selected := issues[m].selected) == issues[m]
      && (r[m].selected <==> (issues[m].selected != (issues[m].id == issueId)))
    decreases |issues|
  {
    if |issues| == 0 then [] else [FlipIf(issues[0], issueId)] + ToggleIn(issues[1..], issueId)
  }

  /** `toggleIssue`: flip `selected` on issue `issueId` of the slot `analyzerId`; everything else is kept. */
  function ToggleIssue(rs: seq<AnalysisResult>, analyzerId: string, issueId: string): (r: seq<AnalysisResult>)
    ensures |r| == |rs|
    ensures forall j :: 0 <= j < |rs| ==>
      && r[j].(issues := rs[j].issues) == rs[j]
      && |r[j].issues| == |rs[j].issues|
    ensures forall j, m :: 0 <= j < |rs| && 0 <= m < |rs[j].issues| ==>
      && r[j].issues[m].(selected := rs[j].issues[m].selected) == rs[j].issues[m]
      && (r[j].issues[m].selected <==>
            (rs[j].issues[m].selected != (rs[j].id == analyzerId && rs[j].issues[m].id == issueId)))
    decreases |rs|
  {
    if |rs| == 0 then []
    else
      var head := if rs[0].id == analyzerId then rs[0].(issues := ToggleIn(rs[0].issues, issueId)) else rs[0];
      [head] + ToggleIssue(rs[1..], analyzerId, issueId)
  }

  /** How many issues of one slot carry id `issueId` and selection flag `sel`. */
  function Hits(issues: seq<Issue>, issueId: string, sel: bool): nat
    decreases |issues|
  {
    if |issues| == 0 then 0
    else Seqs.Ind(issues[0].id == issueId && issues[0].selected == sel) + Hits(issues[1..], issueId, sel)
  }

  /** How many issues a toggle of (`analyzerId`, `issueId`) targets, among those with selection flag `sel`. */
  function Targets(rs: seq<AnalysisResult>, analyzerId: string, issueId: string, sel: bool): nat
    decreases |rs|
  {
    if |rs| == 0 then 0
    else (if rs[0].id == analyzerId then Hits(rs[0].issues, issueId, sel) else 0)
         + Targets(rs[1..], analyzerId, issueId, sel)
  }

  /** Toggling twice restores the slot list. */
  lemma ToggleTwiceIsIdentity(rs: seq<AnalysisResult>, analyzerId: string, issueId: string)
    ensures ToggleIssue(ToggleIssue(rs, analyzerId, issueId), analyzerId, issueId) == rs
  {
    var r2 := ToggleIssue(ToggleIssue(rs, analyzerId, issueId), analyzerId, issueId);
    forall j | 0 <= j < |rs|
      ensures r2[j] == rs[j]
    {
      assert r2[j].issues == rs[j].issues;
    }
  }

  /** A toggle never changes the total issue count. */
  lemma {:induction false} ToggleKeepsTotal(rs: seq<AnalysisResult>, analyzerId: string, issueId: string)
    ensures TotalIssues(ToggleIssue(rs, analyzerId, issueId)) == TotalIssues(rs)
    decreases |rs|
  {
    if |rs| > 0 {
      ToggleKeepsTotal(rs[1..], analyzerId, issueId);
    }
  }

  lemma {:induction false} ToggleInCount(issues: seq<Issue>, issueId: string)
    ensures Seqs.Count(ToggleIn(issues, issueId), IsSelected) + Hits(issues, issueId, true)
         == Seqs.Count(issues, IsSelected) + Hits(issues, issueId, false)
    decreases |issues|
  {
    if |issues| > 0 {
      var t := ToggleIn(issues, issueId);
      assert t[1..] == ToggleIn(issues[1..], issueId);
      ToggleInCount(issues[1..], issueId);
    }
  }

  /** The selected count moves by the number of targeted unselected issues minus the number of targeted selected ones. */
  lemma {:induction false} ToggleSelectedCount(rs: seq<AnalysisResult>, analyzerId: string, issueId: string)
    ensures SelectedCount(ToggleIssue(rs, analyzerId, issueId)) + Targets(rs, analyzerId, issueId, true)
         == SelectedCount(rs) + Targets(rs, analyzerId, issueId, false)
    decreases |rs|
  {
    if |rs| > 0 {
      var t := ToggleIssue(rs, analyzerId, issueId);
      assert t[1..] == ToggleIssue(rs[1..], analyzerId, issueId);
      ToggleSelectedCount(rs[1..], analyzerId, issueId);
      if rs[0].id == analyzerId {
        ToggleInCount(rs[0].issues, issueId);
      }
    }
  }

  /** A toggle whose ids name exactly one issue changes the selected count by exactly one, in the direction of that issue's flip. */
  lemma ToggleOneTarget(rs: seq<AnalysisResult>, analyzerId: string, issueId: string)
    requires Targets(rs, analyzerId, issueId, true) + Targets(rs, analyzerId, issueId, false) == 1
    ensures Targets(rs, analyzerId, issueId, true) == 1 ==>
      SelectedCount(ToggleIssue(rs, analyzerId, issueId)) == SelectedCount(rs) - 1
    ensures Targets(rs, analyzerId, issueId, false) == 1 ==>
      SelectedCount(ToggleIssue(rs, analyzerId, issueId)) == SelectedCount(rs) + 1
  {
    ToggleSelectedCount(rs, analyzerId, issueId);
  }

  lemma {:induction false} NoHitsKeepsIssues(issues: seq<Issue>, issueId: string)
    requires Hits(issues, issueId, true) + Hits(issues, issueId, false) == 0
    ensures ToggleIn(issues, issueId) == issues
    decreases |issues|
  {
    if |issues| > 0 {
      NoHitsKeepsIssues(issues[1..], issueId);
    }
  }

  /** A toggle whose ids name no issue (unknown slot or unknown issue) leaves the slots unchanged. */
  lemma {:induction false} ToggleUnknownIsNoOp(rs: seq<AnalysisResult>, analyzerId: string, issueId: string)
    requires Targets(rs, analyzerId, issueId, true) + Targets(rs, analyzerId, issueId, false) == 0
    ensures ToggleIssue(rs, analyzerId, issueId) == rs
    decreases |rs|
  {
    if |rs| > 0 {
      ToggleUnknownIsNoOp(rs[1..], analyzerId, issueId);
      if rs[0].id == analyzerId {
        NoHitsKeepsIssues(rs[0].issues, issueId);
      }
    }
  }

  /** An issue list holds at most one issue with id `issueId`. */
  predicate AtMostOneWithId(issues: seq<Issue>, issueId: string)
  {
    Hits(issues, issueId, true) + Hits(issues, issueId, false) <= 1
  }

  lemma HitsOfPair(issues: seq<Issue>, issueId: string)
    requires |issues| == 2 && issues[0].id != issues[1].id
    ensures AtMostOneWithId(issues, issueId)
  {
    var tail := issues[1..];
    assert tail[1..] == [];
    assert Hits(tail, issueId, true) + Hits(tail, issueId, false) == Seqs.Ind(issues[1].id == issueId);
  }

  /** Slots with distinct ids, each holding at most one issue with id `issueId`, give a toggle at most one target. */
  lemma {:induction false} AtMostOneTarget(rs: seq<AnalysisResult>, analyzerId: string, issueId: string)
    requires forall j, k :: 0 <= j < k < |rs| ==> rs[j].id != rs[k].id
    requires forall j :: 0 <= j < |rs| ==> AtMostOneWithId(rs[j].issues, issueId)
    ensures Targets(rs, analyzerId, issueId, true) + Targets(rs, analyzerId, issueId, false) <= 1
    decreases |rs|
  {
    if |rs| > 0 {
      if rs[0].id == analyzerId {
        assert forall j :: 0 <= j < |rs[1..]| ==> rs[1..][j].id != analyzerId by {
          forall j | 0 <= j < |rs[1..]| ensures rs[1..][j].id != analyzerId {
            assert rs[1..][j] == rs[j + 1];
          }
        }
        TargetsOfOtherSlots(rs[1..], analyzerId, issueId, true);
        TargetsOfOtherSlots(rs[1..], analyzerId, issueId, false);
      } else {
        AtMostOneTarget(rs[1..], analyzerId, issueId);
      }
    }
  }

  /**
    At every point of a run, a toggle names at most one issue: with `ToggleOneTarget`
    and `ToggleUnknownIsNoOp`, any toggle during a run either changes nothing or moves
    the selected count by exactly one.
   */
  lemma RunTargetsUnique(rs: seq<AnalysisResult>, k: nat, analyzerId: string, issueId: string)
    requires StagesDone(rs, k)
    ensures Targets(rs, analyzerId, issueId, true) + Targets(rs, analyzerId, issueId, false) <= 1
  {
    forall j1, j2 | 0 <= j1 < j2 < |rs|
      ensures rs[j1].id != rs[j2].id
    {
      assert SlotAfter(rs[j1], j1, k) && SlotAfter(rs[j2], j2, k);
      CatalogueIdsDistinct(j1, j2);
    }
    forall j | 0 <= j < |rs|
      ensures AtMostOneWithId(rs[j].issues, issueId)
    {
      SlotIssueIdsUnique(rs[j], j, k, issueId);
    }
    AtMostOneTarget(rs, analyzerId, issueId);
  }

  /** A slot in a run holds no issues or the two findings with distinct ids. */
  lemma SlotIssueIdsUnique(r: AnalysisResult, j: nat, k: nat, issueId: string)
    requires j < |Analyzers| && SlotAfter(r, j, k)
    ensures AtMostOneWithId(r.issues, issueId)
  {
    if j < k {
      var a := Analyzers[j];
      var mock := MockIssues(a);
      assert r.issues[0].id == a.id + "-1" && r.issues[1].id == a.id + "-2" by {
        assert r.issues[0].(selected := mock[0].selected) == mock[0];
        assert r.issues[1].(selected := mock[1].selected) == mock[1];
      }
      assert (a.id + "-1")[|a.id| + 1] != (a.id + "-2")[|a.id| + 1];
      HitsOfPair(r.issues, issueId);
    }
  }

  /** Toggles between stages keep the run invariant: they touch only selection flags. */
  lemma ToggleKeepsStages(rs: seq<AnalysisResult>, k: nat, analyzerId: string, issueId: string)
    requires StagesDone(rs, k)
    ensures StagesDone(ToggleIssue(rs, analyzerId, issueId), k)
  {
    var r := ToggleIssue(rs, analyzerId, issueId);
    forall j | 0 <= j < |r|
      ensures SlotAfter(r[j], j, k)
    {
      assert SlotAfter(rs[j], j, k);
      if j < k {
        var mock := MockIssues(Analyzers[j]);
        forall m | 0 <= m < |r[j].issues|
          ensures r[j].issues[m].(selected := mock[m].selected) == mock[m]
        {
          assert rs[j].issues[m].(selected := mock[m].selected) == mock[m];
        }
      }
    }
  }

  // ---------------------------------------------------------------------------
  // Fixing the selected issues

  /** The synchronous part of `fixSelectedIssues`: reject an empty selection, otherwise announce how many issues are being fixed. */
  function RequestFix(s: Session): (r: FixReply)
    ensures r.NothingSelected? <==> SelectedCount(s.results) == 0
    ensures r.Fixing? ==> r.count == SelectedCount(s.results) > 0
  {
    CountsMatchFlattened(s.results);
    var n := |SelectedIssues(s.results)|;
    if n == 0 then NothingSelected else Fixing(n)
  }

  /** The fix timer's callback: install the fixed code and clear the run; the busy flag is not touched. */
  function CompleteFix(s: Session): (r: Session)
    ensures r.code == FixedCode && r.results == [] && r.analyzing == s.analyzing
    ensures TotalIssues(r.results) == 0 && SelectedCount(r.results) == 0
  {
    Session(FixedCode, [], s.analyzing)
  }

  /** `fixSelectedIssues` run to completion with no other event in between. */
  function FixSelectedIssues(s: Session): (r: (Session, FixReply))
    ensures r.1.NothingSelected? <==> SelectedCount(s.results) == 0
    ensures r.1.NothingSelected? ==> r.0 == s
    ensures r.1.Fixing? ==>
      && r.1.count == SelectedCount(s.results) > 0
      && r.0.code == FixedCode
      && r.0.results == []
      && TotalIssues(r.0.results) == 0
      && r.0.analyzing == s.analyzing
  {
    var reply := RequestFix(s);
    if reply.NothingSelected? then (s, reply) else (CompleteFix(s), reply)
  }

  /** A fix requested before any stage has completed is rejected. */
  lemma FixOnFreshRunRejected(s: Session)
    ensures FixSelectedIssues(StartRun(s)).1 == NothingSelected
    ensures FixSelectedIssues(StartRun(s)).0 == StartRun(s)
  {
    var rs := StartRun(s).results;
    SelectedWithinTotal(rs);
  }

  /**
    After a full run with every issue selected, unselecting the security
    analyzer's first issue leaves 9 of 10 selected, and the fix then succeeds,
    installing the fixed code and clearing the run.
   */
  lemma EndToEndScenario(rs: seq<AnalysisResult>, code: string)
    requires StagesDone(rs, |Analyzers|) && AllSelected(rs)
    ensures var toggled := ToggleIssue(rs, "security", "security-1");
      && TotalIssues(toggled) == 10
      && SelectedCount(toggled) == 9
      && FixSelectedIssues(Session(code, toggled, false)).1 == Fixing(9)
      && FixSelectedIssues(Session(code, toggled, false)).0 == Session(FixedCode, [], false)
  {
    TotalAfterStages(rs, |Analyzers|);
    SelectedWithinTotal(rs);
    ToggleKeepsTotal(rs, "security", "security-1");
    SecurityFirstIsSelectedTarget(rs);
    ToggleOneTarget(rs, "security", "security-1");
  }

  /** After a full run with every issue selected, ("security", "security-1") names exactly one issue, and it is selected. */
  lemma SecurityFirstIsSelectedTarget(rs: seq<AnalysisResult>)
    requires StagesDone(rs, |Analyzers|) && AllSelected(rs)
    ensures Targets(rs, "security", "security-1", true) == 1
    ensures Targets(rs, "security", "security-1", false) == 0
  {
    assert SlotAfter(rs[0], 0, |Analyzers|);
    var xs := rs[0].issues;
    assert |xs| == 2;
    assert xs[0].id == "security-1" && xs[0].selected;
    assert xs[1].id == "security-2" && xs[1].selected;
    assert xs[1].id != "security-1" by {
      assert xs[1].id[9] != "security-1"[9];
    }
    assert xs[1..][1..] == [];
    assert Hits(xs[1..], "security-1", true) == 0;
    assert Hits(xs[1..], "security-1", false) == 0;
    forall j | 1 <= j < |rs|
      ensures rs[j].id != "security"
    {
      assert SlotAfter(rs[j], j, |Analyzers|);
    }
    TargetsOfOtherSlots(rs[1..], "security", "security-1", true);
    TargetsOfOtherSlots(rs[1..], "security", "security-1", false);
  }

  lemma {:induction false} TargetsOfOtherSlots(rs: seq<AnalysisResult>, analyzerId: string, issueId: string, sel: bool)
    requires forall j :: 0 <= j < |rs| ==> rs[j].id != analyzerId
    ensures Targets(rs, analyzerId, issueId, sel) == 0
    decreases |rs|
  {
    if |rs| > 0 {
      TargetsOfOtherSlots(rs[1..], analyzerId, issueId, sel);
    }
  }
}
