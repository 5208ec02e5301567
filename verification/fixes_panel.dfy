/**
  The fixes panel: a list of proposed fixes with per-fix selection, select-all and
  deselect-all, and the "apply" action that steps through the selected fixes with
  a progress percentage and then removes the selected fixes from the list.

  The one-second delay between apply steps is dropped; each step is one loop
  iteration, and the panel state after each step is recorded in a trace.
 */
module FixesPanel {
  import Seqs

  datatype FixKind = Error | Warning | Info

  datatype Fix = Fix(
    id: string,
    line: int,
    kind: FixKind,
    title: string,
    current: string,
    proposed: string,
    selected: bool,
    verified: bool,
    aiModel: string)

  /** The panel's state: the fix list, the busy flag, and the progress percentage. */
  datatype Panel = Panel(fixes: seq<Fix>, fixing: bool, progress: real)

  /** What the apply button reports: an error toast, or the number of fixes applied. */
  datatype ApplyReply = NothingSelected | Applied(count: nat)

  const InitialFixes: seq<Fix> := [
    Fix("1", 42, Error, "SQL injection уязвимость",
        "query = \"SELECT * FROM users WHERE id=\" + userId",
        "query = \"SELECT * FROM users WHERE id=?\"; params = [userId]",
        true, true, "GPT-4 Turbo"),
    Fix("2", 89, Error, "Незащищённое хранение паролей",
        "db.save({password: password})",
        "db.save({password: bcrypt.hash(password, 10)})",
        true, true, "Claude 3 Opus"),
    Fix("3", 23, Warning, "Неиспользуемая функция",
        "function calculateDiscount() { /* 50 строк кода */ }",
        "// Функция удалена - нигде не используется",
        false, true, "Gemini Pro"),
    Fix("4", 178, Warning, "Неэффективный алгоритм O(n²)",
        "for(i) { for(j) { compare(i,j) } }",
        "items.sort(); // O(n log n) вместо O(n²)",
        true, true, "Mistral Large")
  ]

  const InitialPanel: Panel := Panel(InitialFixes, false, 0.0)

  predicate IsSelected(f: Fix)
  {
    f.selected
  }

  predicate IsUnselected(f: Fix)
  {
    !f.selected
  }

  predicate IsError(f: Fix)
  {
    f.kind == Error
  }

  predicate IsWarning(f: Fix)
  {
    f.kind == Warning
  }

  /** How many fixes are selected. */
  function SelectedCount(fs: seq<Fix>): nat
  {
    Seqs.Count(fs, IsSelected)
  }

  /** How many fixes are errors. */
  function ErrorCount(fs: seq<Fix>): nat
  {
    Seqs.Count(fs, IsError)
  }

  /** How many fixes are warnings. */
  function WarningCount(fs: seq<Fix>): nat
  {
    Seqs.Count(fs, IsWarning)
  }

  /** Each badge count is zero exactly when no fix has its property; for the selection this is the guard of `applyFixes`. */
  lemma CountsZero(fs: seq<Fix>)
    ensures SelectedCount(fs) == 0 <==> forall j :: 0 <= j < |fs| ==> !fs[j].selected
    ensures ErrorCount(fs) == 0 <==> forall j :: 0 <= j < |fs| ==> fs[j].kind != Error
    ensures WarningCount(fs) == 0 <==> forall j :: 0 <= j < |fs| ==> fs[j].kind != Warning
  {
    Seqs.CountZero(fs, IsSelected);
    Seqs.CountZero(fs, IsError);
    Seqs.CountZero(fs, IsWarning);
  }

  /** No two fixes share an id. */
  predicate IdsDistinct(fs: seq<Fix>)
  {
    forall j, k :: 0 <= j < k < |fs| ==> fs[j].id != fs[k].id
  }

  lemma CountOfFour(fs: seq<Fix>, p: Fix -> bool)
    requires |fs| == 4
    ensures Seqs.Count(fs, p) == Seqs.Ind(p(fs[0])) + Seqs.Ind(p(fs[1])) + Seqs.Ind(p(fs[2])) + Seqs.Ind(p(fs[3]))
  {
    assert fs == [fs[0]] + ([fs[1]] + ([fs[2]] + ([fs[3]] + [])));
    Seqs.CountCons(fs[0], [fs[1]] + ([fs[2]] + ([fs[3]] + [])), p);
    Seqs.CountCons(fs[1], [fs[2]] + ([fs[3]] + []), p);
    Seqs.CountCons(fs[2], [fs[3]] + [], p);
    Seqs.CountCons(fs[3], [], p);
  }

  /** The flags of the initial list, fix by fix. */
  lemma InitialFlags()
    ensures |InitialFixes| == 4
    ensures InitialFixes[0].id == "1" && InitialFixes[1].id == "2" && InitialFixes[2].id == "3" && InitialFixes[3].id == "4"
    ensures InitialFixes[0].selected && InitialFixes[1].selected && !InitialFixes[2].selected && InitialFixes[3].selected
    ensures InitialFixes[0].kind == Error && InitialFixes[1].kind == Error
    ensures InitialFixes[2].kind == Warning && InitialFixes[3].kind == Warning
  {
  }

  lemma InitialIdsDistinct()
    ensures IdsDistinct(InitialFixes)
  {
    InitialFlags();
  }

  lemma InitialSelectedCount()
    ensures SelectedCount(InitialFixes) == 3
  {
    InitialFlags();
    CountOfFour(InitialFixes, IsSelected);
  }

  lemma InitialKindCounts()
    ensures ErrorCount(InitialFixes) == 2 && WarningCount(InitialFixes) == 2
  {
    InitialFlags();
    CountOfFour(InitialFixes, IsError);
    CountOfFour(InitialFixes, IsWarning);
  }

  /** The initial list: four fixes with distinct ids, three selected, two errors and two warnings. */
  lemma InitialFixesFacts()
    ensures |InitialFixes| == 4
    ensures IdsDistinct(InitialFixes)
    ensures SelectedCount(InitialFixes) == 3
    ensures ErrorCount(InitialFixes) == 2 && WarningCount(InitialFixes) == 2
  {
    InitialIdsDistinct();
    InitialSelectedCount();
    InitialKindCounts();
  }

  // ---------------------------------------------------------------------------
  // Selection

  function FlipIf(f: Fix, id: string): Fix
  {
    if f.id == id then f.(selected := !f.selected) else f
  }

  /** `toggleFix`: flip `selected` on the fixes with id `id`; order, length and every other field are kept. */
  function ToggleFix(fs: seq<Fix>, id: string): (r: seq<Fix>)
    ensures |r| == |fs|
    ensures forall j :: 0 <= j < |fs| ==>
      && r[j].(selected := fs[j].selected) == fs[j]
      && (r[j].selected <==> (fs[j].selected != (fs[j].id == id)))
    decreases |fs|
  {
    if |fs| == 0 then [] else [FlipIf(fs[0], id)] + ToggleFix(fs[1..], id)
  }

  /** `selectAll`: every fix selected, nothing else changed. */
  function SelectAll(fs: seq<Fix>): (r: seq<Fix>)
    ensures |r| == |fs|
    ensures forall j :: 0 <= j < |fs| ==> r[j].selected && r[j].(selected := fs[j].selected) == fs[j]
    ensures SelectedCount(r) == |r|
    decreases |fs|
  {
    var r := if |fs| == 0 then [] else [fs[0].(selected := true)] + SelectAll(fs[1..]);
    Seqs.FilterKeepsAll(r, IsSelected);
    r
  }

  /** `deselectAll`: every fix unselected, nothing else changed. */
  function DeselectAll(fs: seq<Fix>): (r: seq<Fix>)
    ensures |r| == |fs|
    ensures forall j :: 0 <= j < |fs| ==> !r[j].selected && r[j].(selected := fs[j].selected) == fs[j]
    ensures SelectedCount(r) == 0
    decreases |fs|
  {
    var r := if |fs| == 0 then [] else [fs[0].(selected := false)] + DeselectAll(fs[1..]);
    Seqs.FilterDropsAll(r, IsSelected);
    r
  }

  /** Toggling the same id twice restores the list. */
  lemma ToggleFixTwice(fs: seq<Fix>, id: string)
    ensures ToggleFix(ToggleFix(fs, id), id) == fs
  {
    var r2 := ToggleFix(ToggleFix(fs, id), id);
    assert forall j :: 0 <= j < |fs| ==> r2[j] == fs[j];
  }

  /** When `id` names exactly fix `i`, the toggle flips that fix alone and moves the selected count by one. */
  lemma ToggleFixOne(fs: seq<Fix>, id: string, i: nat)
    requires i < |fs| && fs[i].id == id
    requires forall j :: 0 <= j < |fs| && j != i ==> fs[j].id != id
    ensures ToggleFix(fs, id) == fs[i := fs[i].(selected := !fs[i].selected)]
    ensures fs[i].selected ==> SelectedCount(ToggleFix(fs, id)) == SelectedCount(fs) - 1
    ensures !fs[i].selected ==> SelectedCount(ToggleFix(fs, id)) == SelectedCount(fs) + 1
  {
    var r := ToggleFix(fs, id);
    assert r == fs[i := fs[i].(selected := !fs[i].selected)];
    Seqs.CountUpdate(fs, i, fs[i].(selected := !fs[i].selected), IsSelected);
  }

  /** Toggling an id no fix carries leaves the list unchanged. */
  lemma ToggleFixUnknown(fs: seq<Fix>, id: string)
    requires forall j :: 0 <= j < |fs| ==> fs[j].id != id
    ensures ToggleFix(fs, id) == fs
  {
    var r := ToggleFix(fs, id);
    assert forall j :: 0 <= j < |fs| ==> r[j] == fs[j];
  }

  /** Selecting all a second time changes nothing. */
  lemma {:induction false} SelectAllIdempotent(fs: seq<Fix>)
    ensures SelectAll(SelectAll(fs)) == SelectAll(fs)
    decreases |fs|
  {
    if |fs| > 0 {
      SelectAllIdempotent(fs[1..]);
    }
  }

  /** Deselecting all a second time changes nothing. */
  lemma {:induction false} DeselectAllIdempotent(fs: seq<Fix>)
    ensures DeselectAll(DeselectAll(fs)) == DeselectAll(fs)
    decreases |fs|
  {
    if |fs| > 0 {
      DeselectAllIdempotent(fs[1..]);
    }
  }

  /** The badge counts never exceed the list: selected fixes, and errors plus warnings. */
  lemma {:induction false} CountsBounded(fs: seq<Fix>)
    ensures SelectedCount(fs) <= |fs|
    ensures ErrorCount(fs) + WarningCount(fs) <= |fs|
    decreases |fs|
  {
    if |fs| > 0 {
      CountsBounded(fs[1..]);
      assert fs == [fs[0]] + fs[1..];
    }
  }

  // ---------------------------------------------------------------------------
  // Applying the selected fixes

  /** The progress percentage after `k` of `n` steps. */
  function Progress(k: nat, n: nat): (r: real)
    requires 0 < n
    ensures 0.0 <= r
    ensures r * n as real == k as real * 100.0
    ensures k <= n ==> r <= 100.0
  {
    (k as real / n as real) * 100.0
  }

  /** Dividing by a positive real keeps a strict order. */
  lemma DivStrict(a: real, b: real, d: real)
    requires a < b && 0.0 < d
    ensures a / d < b / d
  {
    assert b / d - a / d == (b - a) / d;
  }

  /** Progress starts at 0, strictly increases with each step, and reaches 100 on the last. */
  lemma ProgressMonotone(k1: nat, k2: nat, n: nat)
    requires 0 < n && k1 < k2 <= n
    ensures Progress(0, n) == 0.0
    ensures Progress(k1, n) < Progress(k2, n)
    ensures Progress(n, n) == 100.0
  {
    var d := n as real;
    assert d / d == 1.0;
    DivStrict(k1 as real, k2 as real, d);
  }

  /** The callback that ends an apply: clear the busy flag and drop every fix that is selected at that moment. */
  function FinishApply(p: Panel): (r: Panel)
    ensures !r.fixing && r.progress == p.progress
    ensures |r.fixes| == |p.fixes| - SelectedCount(p.fixes)
    ensures SelectedCount(r.fixes) == 0
    ensures forall j :: 0 <= j < |r.fixes| ==> r.fixes[j] in p.fixes
    ensures forall j :: 0 <= j < |p.fixes| && !p.fixes[j].selected ==> p.fixes[j] in r.fixes
    ensures multiset(r.fixes) + multiset(Seqs.Filter(p.fixes, IsSelected)) == multiset(p.fixes)
  {
    var kept := Seqs.Filter(p.fixes, IsUnselected);
    Seqs.FilterComplement(p.fixes, IsSelected, IsUnselected);
    Seqs.FilterDropsAll(kept, IsSelected);
    Panel(kept, false, p.progress)
  }

  /** Removal keeps the relative order of the surviving fixes: removing from a concatenation is concatenating the removals. */
  lemma RemovalKeepsOrder(a: seq<Fix>, b: seq<Fix>, fixing: bool, progress: real)
    ensures FinishApply(Panel(a + b, fixing, progress)).fixes
         == FinishApply(Panel(a, fixing, progress)).fixes + FinishApply(Panel(b, fixing, progress)).fixes
  {
    Seqs.FilterAppend(a, b, IsUnselected);
  }

  /**
    `applyFixes` run to completion with no toggle in between. An empty selection is
    rejected with nothing changed. Otherwise the panel goes busy at 0%, each of the
    `n` selected fixes is announced in list order while progress climbs to
    `k / n * 100`, and finally the selected fixes are removed.
    `trace[k]` is the panel after `k` steps.
   */
  method ApplyFixes(p: Panel) returns (r: Panel, reply: ApplyReply, trace: seq<Panel>, announced: seq<string>)
    ensures reply.NothingSelected? <==> SelectedCount(p.fixes) == 0
    ensures reply.NothingSelected? ==> r == p && trace == [] && announced == []
    ensures reply.Applied? ==>
      var n := SelectedCount(p.fixes);
      && reply.count == n
      && |trace| == n + 1
      && |announced| == n
      && (forall k :: 0 <= k <= n ==>
            trace[k].fixing && trace[k].fixes == p.fixes && trace[k].progress == Progress(k, n))
      && (forall k :: 0 <= k < n ==> announced[k] == Seqs.Filter(p.fixes, IsSelected)[k].title)
      && (forall k1, k2 :: 0 <= k1 < k2 <= n ==> trace[k1].progress < trace[k2].progress)
      && trace[n].progress == 100.0
      && r.fixes == Seqs.Filter(p.fixes, IsUnselected)
      && !r.fixing && r.progress == 100.0
      && |r.fixes| == |p.fixes| - n
      && SelectedCount(r.fixes) == 0
  {
    var selectedFixes := Seqs.Filter(p.fixes, IsSelected);
    var n := |selectedFixes|;
    if n == 0 {
      return p, NothingSelected, [], [];
    }
    var cur := Panel(p.fixes, true, 0.0);
    trace := [cur];
    announced := [];
    var i := 0;
    while i < n
      invariant 0 <= i <= n
      invariant cur == Panel(p.fixes, true, Progress(i, n))
      invariant |trace| == i + 1 && |announced| == i
      invariant forall k :: 0 <= k <= i ==> trace[k] == Panel(p.fixes, true, Progress(k, n))
      invariant forall k :: 0 <= k < i ==> announced[k] == selectedFixes[k].title
    {
      cur := cur.(progress := Progress(i + 1, n));
      trace := trace + [cur];
      announced := announced + [selectedFixes[i].title];
      i := i + 1;
    }
    forall k1, k2 | 0 <= k1 < k2 <= n
      ensures trace[k1].progress < trace[k2].progress
    {
      ProgressMonotone(k1, k2, n);
    }
    ProgressMonotone(0, n, n);
    r := FinishApply(cur);
    reply := Applied(n);
  }
}
