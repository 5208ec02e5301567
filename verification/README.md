# Code analyzer UI: state-transition model

This project models the three pieces of state-transition logic in the code-analyzer
single-page UI. Each is a set of pure functions over immutable records, and the
project proves what those functions promise.

- **CodeAnalyzer** (`code_analyzer.dfy`) models the analysis run. A fixed catalogue of
  five analyzers gives one result slot each. A run creates every slot in the
  `analyzing` status and then completes the slots one stage at a time, in catalogue
  order. Each completed slot receives two canned issues. The user may toggle the
  selection of single issues. "Fix selected issues" rejects an empty selection.
  Otherwise its timer callback replaces the code buffer with a fixed text and clears
  the results. `totalIssues` and `selectedCount` are derived from the slots.
- **FixesPanel** (`fixes_panel.dfy`) models the list of proposed fixes. It covers
  per-fix toggling, select-all and deselect-all. "Apply" rejects an empty selection.
  Otherwise it steps through the selected fixes, raising a progress percentage, and
  then drops the fixes that are selected at that moment. It also models the
  selected, error and warning counts.
- **SettingsPanel** (`settings_panel.dfy`) models the settings record. It covers the
  single-key update, the reset to the default record, and the count of enabled AI
  models.
- **Seqs** (`seqs.dfy`) holds the `filter` that every count and the fix removal use,
  with its distribution, complement and point-update facts.

Each timer callback is one discrete step. `CodeAnalyzer.StartRun`,
`CodeAnalyzer.CompleteStage` and `CodeAnalyzer.CompleteFix` are the analysis steps.
`FixesPanel.ApplyFixes` runs its loop once per selected fix. Notifications (toasts)
become returned values: a reply datatype, an announced count, or the titles
announced in order.

Two consequences of the code's choices shape the analysis model:

- The status type declares only `'analyzing' | 'complete' | 'error'`, and every slot
  is created as `'analyzing'` (`src/components/CodeAnalyzer.tsx:13,48`). There is no
  waiting state, so several slots are `Analyzing` at once. The run invariant
  (`CodeAnalyzer.StagesDone`) therefore says that the completed slots form a prefix
  and every later slot is still `Analyzing` with no issues.
- The fix callback (`src/components/CodeAnalyzer.tsx:115-120`) replaces the code and
  clears the results but never touches the `analyzing` flag, so
  `CodeAnalyzer.CompleteFix` keeps the flag as it was.

The settings record is a map from key to value because the update is an object spread
with a computed key. It accepts any key and any value. `activeModels` uses JavaScript
truthiness (`filter(Boolean)`), and a missing key reads as `undefined`.

## Model

| member | source | states |
|---|---|---|
| CodeAnalyzer.CatalogueIdsDistinct | src/components/CodeAnalyzer.tsx:27-33 | no two catalogue entries share an id, so a stage's id picks out exactly its own slot |
| CodeAnalyzer.PendingResults | src/components/CodeAnalyzer.tsx:45-51 | one fresh slot per catalogue entry, in catalogue order, each `Analyzing` with the entry's id and name, no issues and an empty summary |
| CodeAnalyzer.StartRun | src/components/CodeAnalyzer.tsx:41-53 | starting a run discards any previous slots, marks the session busy, keeps the code, satisfies the run invariant for zero stages and holds no issues |
| CodeAnalyzer.CompleteStage | src/components/CodeAnalyzer.tsx:77-86 | a stage callback completes every slot carrying its analyzer's id, giving it that analyzer's two findings and the completion summary, and leaves every other slot unchanged |
| CodeAnalyzer.MockIssues | src/components/CodeAnalyzer.tsx:58-75 | a stage's canned findings are two selected issues whose ids start with the analyzer's id and differ from each other, on lines 2 and 3, a warning then an info |
| CodeAnalyzer.StageAdvances | src/components/CodeAnalyzer.tsx:55-87 | stage k turns the invariant "slots before k complete, the rest analyzing" into the same invariant for k + 1 |
| CodeAnalyzer.StageKeepsAllSelected | src/components/CodeAnalyzer.tsx:58-86 | a stage installs only selected findings, so a run with every issue selected stays that way |
| CodeAnalyzer.StageFindings | src/components/CodeAnalyzer.tsx:58-75 | a completed stage contributes exactly two issues, with ids `<analyzer>-1` and `<analyzer>-2`, lines 2 and 3, severities warning and info, both selected |
| CodeAnalyzer.AllComplete | src/components/CodeAnalyzer.tsx:77-86 | once every stage callback has run, every slot is `Complete` |
| CodeAnalyzer.FullRun | src/components/CodeAnalyzer.tsx:55-90 | once all five stages are done and nothing was unselected, every slot is complete, there are exactly 10 issues and all of them are selected |
| CodeAnalyzer.SimulateAnalysis | src/components/CodeAnalyzer.tsx:41-91 | every snapshot after k stages satisfies the run invariant; at the end the session is idle, every slot is complete, there are 10 issues, all selected, and the announced total equals the real total |
| CodeAnalyzer.RunStages | src/components/CodeAnalyzer.tsx:55-87 | the stage callbacks run in catalogue order; the list after k of them satisfies the run invariant for k with every issue selected |
| CodeAnalyzer.TotalIssues | src/components/CodeAnalyzer.tsx:123 | the `totalIssues` reduction equals the length of the flattened issue list |
| CodeAnalyzer.SelectedIssues | src/components/CodeAnalyzer.tsx:106 | the fix action's `flatMap` selection equals filtering the flattened issue list for selected issues |
| CodeAnalyzer.CountsMatchFlattened | src/components/CodeAnalyzer.tsx:106-124 | the `totalIssues` and `selectedCount` reductions equal counts over the flattened issue list, and the fix action's `flatMap` selection is exactly the selected issues of that list |
| CodeAnalyzer.SelectedWithinTotal | src/components/CodeAnalyzer.tsx:123-124 | `selectedCount <= totalIssues`, with equality exactly when every issue is selected |
| CodeAnalyzer.TotalAfterStages | src/components/CodeAnalyzer.tsx:123 | after k stages the run holds exactly `2 * k` issues |
| CodeAnalyzer.ToggleIssue | src/components/CodeAnalyzer.tsx:93-104 | toggling keeps every slot's other fields and every issue's other fields, and flips `selected` exactly on the issues with the given id inside slots with the given id |
| CodeAnalyzer.ToggleIn | src/components/CodeAnalyzer.tsx:98-100 | inside one slot, exactly the issues with the given id have `selected` flipped; length, order and every other field are kept |
| CodeAnalyzer.ToggleTwiceIsIdentity | src/components/CodeAnalyzer.tsx:93-104 | toggling the same pair of ids twice restores the slots |
| CodeAnalyzer.ToggleKeepsTotal | src/components/CodeAnalyzer.tsx:98-100 | a toggle never changes `totalIssues` |
| CodeAnalyzer.ToggleSelectedCount | src/components/CodeAnalyzer.tsx:93-124 | after a toggle, `selectedCount` has grown by the number of targeted unselected issues and shrunk by the number of targeted selected ones |
| CodeAnalyzer.ToggleOneTarget | src/components/CodeAnalyzer.tsx:93-124 | when the ids name exactly one issue, `selectedCount` moves by exactly one, down if that issue was selected and up otherwise |
| CodeAnalyzer.ToggleUnknownIsNoOp | src/components/CodeAnalyzer.tsx:93-104 | when the ids name no issue (unknown slot or unknown issue), the toggle changes nothing |
| CodeAnalyzer.RunTargetsUnique | src/components/CodeAnalyzer.tsx:55-104 | at every point of a run a pair of ids names at most one issue, so any toggle is a no-op or a change of exactly one |
| CodeAnalyzer.ToggleKeepsStages | src/components/CodeAnalyzer.tsx:93-104 | toggles between stages preserve the run invariant |
| CodeAnalyzer.RequestFix | src/components/CodeAnalyzer.tsx:106-113 | the fix is rejected exactly when `selectedCount` is 0; otherwise it announces `selectedCount` issues |
| CodeAnalyzer.CompleteFix | src/components/CodeAnalyzer.tsx:115-120 | the fix callback installs the fixed code and empties the results, so both counts are 0, and it leaves the busy flag alone |
| CodeAnalyzer.FixSelectedIssues | src/components/CodeAnalyzer.tsx:106-121 | with nothing selected the session is unchanged and the reply is the error; otherwise the code is the fixed text, the results are empty and the reply carries the selected count |
| CodeAnalyzer.FixOnFreshRunRejected | src/components/CodeAnalyzer.tsx:106-111 | a fix requested right after a run starts, before any stage completes, is rejected and changes nothing |
| CodeAnalyzer.EndToEndScenario | src/components/CodeAnalyzer.tsx:41-124 | after a full run, unselecting one issue leaves 9 of 10 selected, and the fix then succeeds, fixes 9 issues and clears the run |
| FixesPanel.InitialFixesFacts | src/components/FixesPanel.tsx:24-69 | the initial list has 4 fixes with distinct ids, 3 selected, 2 errors and 2 warnings |
| FixesPanel.ToggleFix | src/components/FixesPanel.tsx:74-78 | toggling keeps length, order and every other field, and flips `selected` exactly on the fixes with the given id |
| FixesPanel.ToggleFixTwice | src/components/FixesPanel.tsx:74-78 | toggling the same id twice restores the list |
| FixesPanel.ToggleFixOne | src/components/FixesPanel.tsx:74-78 | when the id names exactly one fix, only that fix changes and the selected count moves by exactly one |
| FixesPanel.ToggleFixUnknown | src/components/FixesPanel.tsx:74-78 | toggling an id no fix carries changes nothing |
| FixesPanel.SelectAll | src/components/FixesPanel.tsx:80-82 | every fix becomes selected and nothing else changes, so `selectedCount` equals the list length |
| FixesPanel.DeselectAll | src/components/FixesPanel.tsx:84-86 | every fix becomes unselected and nothing else changes, so `selectedCount` is 0 |
| FixesPanel.SelectAllIdempotent | src/components/FixesPanel.tsx:80-82 | select-all applied twice equals select-all applied once |
| FixesPanel.DeselectAllIdempotent | src/components/FixesPanel.tsx:84-86 | deselect-all applied twice equals deselect-all applied once |
| FixesPanel.CountsBounded | src/components/FixesPanel.tsx:109-111 | `selectedCount <= fixes.length` and `errorCount + warningCount <= fixes.length` |
| FixesPanel.CountsZero | src/components/FixesPanel.tsx:89-111 | the `selectedCount`, `errorCount` and `warningCount` badges are each zero exactly when no fix is selected, an error, or a warning respectively; for the selection this is the guard that rejects `applyFixes` |
| FixesPanel.Progress | src/components/FixesPanel.tsx:100 | the progress after k of n steps is non-negative, is the percentage whose n-th part is k hundredths (`r * n == k * 100`), and is at most 100 while k <= n |
| FixesPanel.ProgressMonotone | src/components/FixesPanel.tsx:98-100 | progress `k / n * 100` starts at 0, strictly increases with k and is 100 at k = n |
| FixesPanel.FinishApply | src/components/FixesPanel.tsx:104-106 | the closing callback clears the busy flag and drops exactly the selected fixes: the length falls by the selected count, no survivor is selected, every unselected fix survives, and survivors plus removed fixes make up the original multiset |
| FixesPanel.RemovalKeepsOrder | src/components/FixesPanel.tsx:106 | removal distributes over concatenation, so the survivors keep their relative order |
| FixesPanel.ApplyFixes | src/components/FixesPanel.tsx:88-107 | an empty selection is rejected with nothing changed; otherwise the panel is busy at every step, progress after k steps is `k / n * 100` and strictly increasing up to 100, the selected fixes are announced in list order, and the result is the list without its selected fixes, idle at 100% |
| SettingsPanel.HandleSettingChange | src/components/SettingsPanel.tsx:29-31 | the written key holds the new value, every other key reads as before, and the key set gains only the written key |
| SettingsPanel.ResetSettings | src/components/SettingsPanel.tsx:37-54 | whatever the settings were, reset returns exactly the record the panel starts with (a separate literal): thirteen keys, all five model switches and all five analysis switches on, `autoFix` off, three checks per model, severity "all" |
| SettingsPanel.ResetEnablesAllModels | src/components/SettingsPanel.tsx:37-62 | after a reset the model count `activeModels` is 5 |
| SettingsPanel.DefaultsAreInitial | src/components/SettingsPanel.tsx:13-27 | the record reset writes is the same record the panel's state starts with, key for key |
| SettingsPanel.DefaultsActiveModels | src/components/SettingsPanel.tsx:13-27 | the default record has all five models enabled |
| SettingsPanel.ResetIdempotent | src/components/SettingsPanel.tsx:37-52 | reset is idempotent and does not depend on the prior state |
| SettingsPanel.ActiveModels | src/components/SettingsPanel.tsx:56-62 | the model count is at most 5 |
| SettingsPanel.ActiveModelsIsSum | src/components/SettingsPanel.tsx:56-62 | the model count is the number of truthy values among the five `enable*` keys |
| SettingsPanel.OtherKeyKeepsActiveModels | src/components/SettingsPanel.tsx:29-62 | writing a key other than the five model switches leaves the model count unchanged |
| SettingsPanel.ModelKeyChangesActiveModels | src/components/SettingsPanel.tsx:29-62 | writing a model switch moves the count by the change in that switch's truthiness |
| SettingsPanel.ToggleModelChangesByOne | src/components/SettingsPanel.tsx:29-62 | flipping a boolean model switch moves the count by exactly one, up when it was off and down when it was on |

## Left out

- Timers, `await` and React's batching of state updates are left out. Each timer callback is one step, and interleavings are not modelled in general. Only toggles between analysis stages are covered (`CodeAnalyzer.ToggleKeepsStages`).
- A fix whose callback fires while an analysis run is still going empties the results. The remaining stages then map over an empty list, so `CodeAnalyzer.CompleteStage` keeps it empty. The run invariant no longer holds after that, and no lemma covers this interleaving.
- CodeAnalyzer.SimulateAnalysis: the method covers an uninterrupted run. The closing toast's count is the constant `ANALYZERS.length * 2`, which is recorded as `announced` and proved equal to the real total only for that case.
- FixesPanel.ApplyFixes: it assumes no fix is toggled during the steps. The checkboxes stay enabled, and the final removal reads the flags current at that moment, which `FixesPanel.FinishApply` models on its own.
- FixesPanel.ProgressMonotone: progress is an exact real rather than an IEEE double. `Math.round` in the progress label is display formatting.
- Toast texts are not modelled. Their kind and payload are returned instead: the reply datatypes, the announced count, and the announced fix titles. The step counter text `i/n` is not produced.
- Tab switching (`setSelectedTab`) is left out, as are the `disabled` guards on buttons, JSX rendering, icons and CSS.
- Free editing of the code buffer through the textarea is left out. The buffer is an arbitrary string in `CodeAnalyzer.Session`.
- `saveSettings` is left out because it only shows a toast.
- SettingsPanel.ActiveModels: numbers are unbounded integers. The slider's JavaScript numbers (and `NaN`) are not modelled; the slider only sends the integers 1 to 5.
- src/components/DocsPanel.tsx, src/components/ReportsPanel.tsx, src/components/HistoryPanel.tsx and src/pages/Index.tsx are left out. They hold static markup, hardcoded lists and tab routing, with no behaviour.
