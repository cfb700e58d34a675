/** The label picker of the new-transaction form: the chosen labels, the
    chosen merchant's default labels, the search text and the colour for
    a label created from the search (src/app/home/transactions/new/labelsSelect.tsx).
    Labels are keyed by name. */
module LabelsPicker {
  import opened Common
  import opened Strings

  /** `labelColors`. */
  const Palette: seq<string> := [
    "#ef4444", "#f59e0b", "#10b981", "#3b82f6", "#8b5cf6",
    "#ec4899", "#6366f1", "#14b8a6", "#f97316", "#06b6d4"]

  /** The component's state, together with the two arrays it receives from
      its parent. */
  datatype Picker = Picker(
    labels: seq<LabelDto>,
    defaults: seq<LabelDto>,
    search: string,
    selectedColor: string)

  /** `useState(labelColors[0])` and `useState("")`. */
  function Initial(labels: seq<LabelDto>, defaults: seq<LabelDto>): Picker {
    Picker(labels, defaults, "", Palette[0])
  }

  /** `labels.some(l => l.name === name)`. */
  predicate HasName(labels: seq<LabelDto>, name: string) {
    exists i :: 0 <= i < |labels| && labels[i].name == name
  }

  /** No two labels share a name. */
  predicate DistinctNames(labels: seq<LabelDto>) {
    forall i, j :: 0 <= i < j < |labels| ==> labels[i].name != labels[j].name
  }

  /** `labels.filter(l => l.name !== name)`. */
  function Without(labels: seq<LabelDto>, name: string): (r: seq<LabelDto>)
    ensures !HasName(r, name)
    ensures forall l :: l in r ==> l in labels
    ensures forall l :: l in labels && l.name != name ==> l in r
    ensures !HasName(labels, name) ==> r == labels
  {
    if labels == [] then []
    else if labels[0].name == name then Without(labels[1..], name)
    else [labels[0]] + Without(labels[1..], name)
  }

  /** Filtering keeps the order of what it keeps: it distributes over
      concatenation. */
  lemma {:induction false} WithoutConcat(a: seq<LabelDto>, b: seq<LabelDto>, name: string)
    ensures Without(a + b, name) == Without(a, name) + Without(b, name)
  {
    if a == [] {
      assert a + b == b;
    } else {
      var c := a + b;
      assert c[0] == a[0] && c[1..] == a[1..] + b;
      WithoutConcat(a[1..], b, name);
      if a[0].name == name {
        calc {
          Without(c, name);
          Without(a[1..] + b, name);
          Without(a[1..], name) + Without(b, name);
          Without(a, name) + Without(b, name);
        }
      } else {
        calc {
          Without(c, name);
          [a[0]] + Without(a[1..] + b, name);
          [a[0]] + (Without(a[1..], name) + Without(b, name));
          ([a[0]] + Without(a[1..], name)) + Without(b, name);
          Without(a, name) + Without(b, name);
        }
      }
    }
  }

  /** `handleSelect`: the label is added at the end unless one of that name
      is already chosen; the search is cleared either way. */
  function Select(p: Picker, chosen: LabelDto): (q: Picker)
    ensures !HasName(p.labels, chosen.name) ==> q.labels == p.labels + [chosen]
    ensures HasName(p.labels, chosen.name) ==> q.labels == p.labels
    ensures HasName(q.labels, chosen.name)
    ensures DistinctNames(p.labels) ==> DistinctNames(q.labels)
    ensures q.search == "" && q.defaults == p.defaults && q.selectedColor == p.selectedColor
  {
    var labels := if HasName(p.labels, chosen.name) then p.labels else p.labels + [chosen];
    assert labels[|labels| - 1].name == chosen.name || HasName(p.labels, chosen.name);
    p.(labels := labels, search := "")
  }

  /** `handleRemove`: the name disappears from both the chosen labels and
      the merchant's defaults; everything else stays, in order. */
  function Remove(p: Picker, name: string): (q: Picker)
    ensures !HasName(q.labels, name) && !HasName(q.defaults, name)
    ensures forall l :: l in p.labels && l.name != name ==> l in q.labels
    ensures forall l :: l in p.defaults && l.name != name ==> l in q.defaults
    ensures forall l :: l in q.labels ==> l in p.labels
    ensures forall l :: l in q.defaults ==> l in p.defaults
    ensures q.search == p.search && q.selectedColor == p.selectedColor
  {
    p.(labels := Without(p.labels, name), defaults := Without(p.defaults, name))
  }

  /** The label `handleCreate` appends: a non-positive id that marks it as
      not yet stored, the trimmed search as its name and the selected colour. */
  function Created(p: Picker): LabelDto {
    LabelDto(-|p.labels|, Trim(p.search), p.selectedColor)
  }

  /** `handleCreate` as written: the duplicate test compares the UNTRIMMED
      search with the existing names, while the new label gets the trimmed
      one. `pick` is the palette index drawn by `Math.random`. */
  function Create(p: Picker, pick: nat): (q: Picker)
    requires pick < |Palette|
    ensures Trim(p.search) == [] || HasName(p.labels, p.search) ==> q == p
    ensures Trim(p.search) != [] && !HasName(p.labels, p.search) ==>
      && q.labels == p.labels + [Created(p)]
      && q.search == ""
      && q.selectedColor == Palette[pick]
      && q.defaults == p.defaults
  {
    if Trim(p.search) != [] && !HasName(p.labels, p.search) then
      p.(labels := p.labels + [Created(p)], search := "", selectedColor := Palette[pick])
    else p
  }

  /** The search "food " creates a second label named "food". */
  lemma CreateDuplicatesName()
    ensures var p := Picker([LabelDto(7, "food", Palette[0])], [], "food ", Palette[0]);
      DistinctNames(p.labels) && !DistinctNames(Create(p, 0).labels)
  {
    var p := Picker([LabelDto(7, "food", Palette[0])], [], "food ", Palette[0]);
    TrimmedFood();
    assert !HasName(p.labels, p.search) by {
      assert p.labels[0].name != p.search;
    }
    var q := Create(p, 0);
    assert q.labels == p.labels + [Created(p)];
    assert q.labels[0].name == q.labels[1].name;
  }

  lemma TrimmedFood()
    ensures Trim("food ") == "food"
  {
    var s := "food ";
    assert !IsJsSpace(s[0]);
    assert LeadingSpace(s) == 0;
    var r := Trim(s);
    assert r == s[..|r|];
    assert IsJsSpace(s[4]) && !IsJsSpace(s[3]);
    assert |r| == 4;
  }

  /** `handleCreate` with the duplicate test on the trimmed name, as the
      label it stores. */
  function CreateChecked(p: Picker, pick: nat): (q: Picker)
    requires pick < |Palette|
    ensures Trim(p.search) == [] || HasName(p.labels, Trim(p.search)) ==> q == p
    ensures Trim(p.search) != [] && !HasName(p.labels, Trim(p.search)) ==>
      && q.labels == p.labels + [Created(p)]
      && q.search == ""
      && q.selectedColor == Palette[pick]
      && q.defaults == p.defaults
    ensures DistinctNames(p.labels) ==> DistinctNames(q.labels)
  {
    if Trim(p.search) != [] && !HasName(p.labels, Trim(p.search)) then
      var q := p.(labels := p.labels + [Created(p)], search := "", selectedColor := Palette[pick]);
      assert forall i :: 0 <= i < |p.labels| ==> q.labels[i] == p.labels[i];
      q
    else p
  }

  /** `merchantDefaultLabels.filter(d => !labels.some(l => l.name === d.name))`. */
  function Absent(defaults: seq<LabelDto>, labels: seq<LabelDto>): (r: seq<LabelDto>)
    ensures |r| <= |defaults|
    ensures forall d :: d in r <==> d in defaults && !HasName(labels, d.name)
  {
    if defaults == [] then []
    else
      (if HasName(labels, defaults[0].name) then [] else [defaults[0]]) + Absent(defaults[1..], labels)
  }

  /** A filter that drops nothing returns its input. */
  lemma {:induction false} AbsentKeepsAll(defaults: seq<LabelDto>, labels: seq<LabelDto>)
    requires |Absent(defaults, labels)| == |defaults|
    ensures Absent(defaults, labels) == defaults
    ensures forall i :: 0 <= i < |defaults| ==> !HasName(labels, defaults[i].name)
  {
    if defaults != [] {
      assert !HasName(labels, defaults[0].name);
      AbsentKeepsAll(defaults[1..], labels);
      assert forall i :: 1 <= i < |defaults| ==> defaults[i] == defaults[1..][i - 1];
    }
  }

  /** The effect at lines 54-63 run once: when none of the merchant's
      defaults is already chosen, the defaults are stored back unchanged;
      otherwise the absent defaults are appended to the chosen labels. */
  function MergeDefaults(p: Picker): (q: Picker)
    ensures (forall i :: 0 <= i < |p.defaults| ==> !HasName(p.labels, p.defaults[i].name)) ==> q == p
    ensures (exists i :: 0 <= i < |p.defaults| && HasName(p.labels, p.defaults[i].name)) ==>
      && q.labels == p.labels + Absent(p.defaults, p.labels)
      && q.defaults == p.defaults
      && (forall i :: 0 <= i < |p.defaults| ==> HasName(q.labels, p.defaults[i].name))
    ensures q.search == p.search && q.selectedColor == p.selectedColor
  {
    var absent := Absent(p.defaults, p.labels);
    if |absent| == |p.defaults| then
      AbsentKeepsAll(p.defaults, p.labels);
      p.(defaults := absent)
    else
      var q := p.(labels := p.labels + absent);
      AbsentDropsNothing(p.defaults, p.labels);
      MergedNamesPresent(p.labels, p.defaults);
      q
  }

  /** With no default already chosen, the filter keeps them all. */
  lemma {:induction false} AbsentDropsNothing(defaults: seq<LabelDto>, labels: seq<LabelDto>)
    ensures (forall i :: 0 <= i < |defaults| ==> !HasName(labels, defaults[i].name)) ==>
      Absent(defaults, labels) == defaults
  {
    if defaults != [] {
      AbsentDropsNothing(defaults[1..], labels);
      assert forall i :: 1 <= i < |defaults| ==> defaults[i] == defaults[1..][i - 1];
    }
  }

  lemma MergedNamesPresent(labels: seq<LabelDto>, defaults: seq<LabelDto>)
    ensures forall i :: 0 <= i < |defaults| ==> HasName(labels + Absent(defaults, labels), defaults[i].name)
  {
    var merged := labels + Absent(defaults, labels);
    forall i | 0 <= i < |defaults|
      ensures HasName(merged, defaults[i].name)
    {
      var d := defaults[i];
      if HasName(labels, d.name) {
        var k :| 0 <= k < |labels| && labels[k].name == d.name;
        assert merged[k] == labels[k];
      } else {
        assert d in Absent(defaults, labels);
        var k :| 0 <= k < |Absent(defaults, labels)| && Absent(defaults, labels)[k] == d;
        assert merged[|labels| + k] == d;
      }
    }
  }

  /** With every default already chosen, the filter keeps none. */
  lemma {:induction false} AbsentEmpty(defaults: seq<LabelDto>, labels: seq<LabelDto>)
    requires forall i :: 0 <= i < |defaults| ==> HasName(labels, defaults[i].name)
    ensures Absent(defaults, labels) == []
  {
    if defaults != [] {
      assert forall i :: 1 <= i < |defaults| ==> defaults[i] == defaults[1..][i - 1];
      AbsentEmpty(defaults[1..], labels);
    }
  }

  /** As values, the effect settles: running it on its own result changes
      nothing. React compares by reference instead, so this alone does not
      stop it re-running (see `MergeEffectNeverSettles`). */
  lemma {:induction false} MergeSettles(p: Picker)
    ensures MergeDefaults(MergeDefaults(p)) == MergeDefaults(p)
  {
    var q := MergeDefaults(p);
    if exists i :: 0 <= i < |p.defaults| && HasName(p.labels, p.defaults[i].name) {
      var absent := Absent(q.defaults, q.labels);
      AbsentEmpty(q.defaults, q.labels);
      assert |p.defaults| > 0;
      assert q.labels + absent == q.labels;
    }
  }

  /** One run of the effect as React sees it: the state afterwards, and
      whether a setter was handed a new array. React compares state and
      effect dependencies with `Object.is`, so a new array always counts as
      a change, re-renders, and runs the effect again. */
  datatype EffectRun = EffectRun(state: Picker, setterCalled: bool)

  /** The effect as written: both branches hand their setter an array built
      afresh, by `filter` or by the spread, even when its elements are the
      old ones. */
  function MergeEffect(p: Picker): EffectRun {
    EffectRun(MergeDefaults(p), true)
  }

  /** The effect with the setters skipped when they would store equal
      values: no default chosen yet, or none of them absent. */
  function MergeEffectGuarded(p: Picker): (r: EffectRun)
    ensures r.state == MergeDefaults(p)
    ensures r.setterCalled <==> r.state != p
  {
    var absent := Absent(p.defaults, p.labels);
    if |absent| == |p.defaults| then
      AbsentKeepsAll(p.defaults, p.labels);
      EffectRun(p, false)
    else if absent == [] then
      assert p.labels + absent == p.labels;
      EffectRun(p, false)
    else
      EffectRun(p.(labels := p.labels + absent), true)
  }

  function EffectStep(p: Picker, guarded: bool): EffectRun {
    if guarded then MergeEffectGuarded(p) else MergeEffect(p)
  }

  /** How many times React runs the effect from `p`, counting at most
      `bound` runs: each run that calls a setter schedules another. */
  function EffectRuns(p: Picker, guarded: bool, bound: nat): (n: nat)
    ensures n <= bound
    ensures bound > 0 ==> n > 0
    decreases bound
  {
    if bound == 0 then 0
    else
      var run := EffectStep(p, guarded);
      1 + (if run.setterCalled then EffectRuns(run.state, guarded, bound - 1) else 0)
  }

  /** As written, the effect never settles: whatever the state, every run
      schedules another, so any bound on the runs is reached. */
  lemma {:induction false} MergeEffectNeverSettles(p: Picker, bound: nat)
    ensures EffectRuns(p, false, bound) == bound
    decreases bound
  {
    if bound > 0 {
      MergeEffectNeverSettles(MergeEffect(p).state, bound - 1);
    }
  }

  /** With the guard, React runs the effect at most twice: once for the
      change that triggered it, and once more after the merge, which then
      calls no setter. */
  lemma GuardedEffectSettles(p: Picker, bound: nat)
    ensures EffectRuns(p, true, bound) <= 2
  {
    var run := MergeEffectGuarded(p);
    if bound > 1 && run.setterCalled {
      MergeSettles(p);
      assert !MergeEffectGuarded(run.state).setterCalled;
    }
  }
}
