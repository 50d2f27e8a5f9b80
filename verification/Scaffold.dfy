/** Merging connector templates into one setup spec, renaming the steps of a connector
    whose step IDs are already taken. */
module Scaffold {
  import opened Wrappers

  /** `payload` stands for the fields the merge copies without looking at them. */
  datatype Step = Step(id: string, dependsOn: seq<string>, payload: int)

  datatype Template = Template(steps: seq<Step>, refresh: Option<seq<string>>)

  datatype Spec = Spec(steps: seq<Step>, refreshSteps: Option<seq<string>>)

  datatype Error = NoConnectors | UnknownConnector(id: string)

  /** A connector ID with the template found for it. */
  datatype Selected = Selected(id: string, template: Template)

  const SEPARATOR := "_"

  predicate HasId(steps: seq<Step>, id: string) {
    exists i :: 0 <= i < |steps| && steps[i].id == id
  }

  /** Some step ID of the template is taken. */
  predicate Conflicts(merged: seq<Step>, steps: seq<Step>) {
    exists i :: 0 <= i < |steps| && HasId(merged, steps[i].id)
  }

  function PrefixFor(multi: bool, merged: seq<Step>, s: Selected): string {
    if multi && Conflicts(merged, s.template.steps) then s.id + SEPARATOR else ""
  }

  function RenameDeps(prefix: string, merged: seq<Step>, deps: seq<string>): (r: seq<string>)
    ensures |r| == |deps|
    ensures forall i :: 0 <= i < |r| ==> r[i] == if HasId(merged, deps[i]) then deps[i] else prefix + deps[i]
  {
    if deps == [] then []
    else
      var d := deps[|deps| - 1];
      RenameDeps(prefix, merged, deps[..|deps| - 1]) + [if HasId(merged, d) then d else prefix + d]
  }

  function Rename(prefix: string, merged: seq<Step>, step: Step): Step {
    if prefix == "" then step
    else Step(prefix + step.id, RenameDeps(prefix, merged, step.dependsOn), step.payload)
  }

  /** Add a template's steps one by one; each sees those added before it. */
  function AddSteps(prefix: string, merged: seq<Step>, steps: seq<Step>): seq<Step> {
    if steps == [] then merged
    else
      var before := AddSteps(prefix, merged, steps[..|steps| - 1]);
      before + [Rename(prefix, before, steps[|steps| - 1])]
  }

  function MergeSteps(multi: bool, sel: seq<Selected>): seq<Step> {
    if sel == [] then []
    else
      var merged := MergeSteps(multi, sel[..|sel| - 1]);
      var s := sel[|sel| - 1];
      AddSteps(PrefixFor(multi, merged, s), merged, s.template.steps)
  }

  /** The prefix the k-th selected connector gets. */
  function PrefixAt(multi: bool, sel: seq<Selected>, k: nat): string
    requires k < |sel|
  {
    PrefixFor(multi, MergeSteps(multi, sel[..k]), sel[k])
  }

  function Prefixed(prefix: string, ids: seq<string>): (r: seq<string>)
    ensures |r| == |ids| && forall i :: 0 <= i < |r| ==> r[i] == prefix + ids[i]
  {
    if ids == [] then [] else Prefixed(prefix, ids[..|ids| - 1]) + [prefix + ids[|ids| - 1]]
  }

  function MergeRefresh(multi: bool, sel: seq<Selected>): seq<string> {
    if sel == [] then []
    else
      var n := |sel| - 1;
      var refresh := sel[n].template.refresh;
      MergeRefresh(multi, sel[..n])
      + if refresh.Some? then Prefixed(PrefixAt(multi, sel, n), refresh.value) else []
  }

  function Lookup(templates: map<string, Template>, ids: seq<string>): (r: seq<Selected>)
    requires forall i :: 0 <= i < |ids| ==> ids[i] in templates
    ensures |r| == |ids| && forall i :: 0 <= i < |r| ==> r[i] == Selected(ids[i], templates[ids[i]])
  {
    if ids == [] then []
    else Lookup(templates, ids[..|ids| - 1]) + [Selected(ids[|ids| - 1], templates[ids[|ids| - 1]])]
  }

  /** The scaffold loop.  It fails on the first unknown connector. */
  method ScaffoldSpec(templates: map<string, Template>, connectorIDs: seq<string>) returns (r: Result<Spec, Error>)
    ensures connectorIDs == [] <==> r == Err(NoConnectors)
    ensures r.Err? && r.error.UnknownConnector? ==>
      exists k :: 0 <= k < |connectorIDs| && r.error.id == connectorIDs[k] && connectorIDs[k] !in templates
                  && forall i :: 0 <= i < k ==> connectorIDs[i] in templates
    ensures r.Ok? ==>
      && (forall i :: 0 <= i < |connectorIDs| ==> connectorIDs[i] in templates)
      && var sel := Lookup(templates, connectorIDs);
         var multi := |sel| > 1;
         var refresh := MergeRefresh(multi, sel);
         r.value == Spec(MergeSteps(multi, sel), if refresh != [] then Some(refresh) else None)
  {
    hide MergeSteps, MergeRefresh, HasId;
    if connectorIDs == [] { return Err(NoConnectors); }
    var multi := |connectorIDs| > 1;
    var usedStepIDs: set<string> := {};
    var steps: seq<Step> := [];
    var refreshSteps: seq<string> := [];
    ghost var sel: seq<Selected> := [];
    assert connectorIDs[..0] == [];
    MergeNothing(multi);
    for k := 0 to |connectorIDs|
      invariant forall i :: 0 <= i < k ==> connectorIDs[i] in templates
      invariant sel == Lookup(templates, connectorIDs[..k])
      invariant steps == MergeSteps(multi, sel) && refreshSteps == MergeRefresh(multi, sel)
      invariant forall id :: id in usedStepIDs <==> HasId(steps, id)
    {
      if connectorIDs[k] !in templates { return Err(UnknownConnector(connectorIDs[k])); }
      var s := Selected(connectorIDs[k], templates[connectorIDs[k]]);
      assert connectorIDs[..k + 1][..k] == connectorIDs[..k];
      steps, usedStepIDs, refreshSteps := AddConnector(multi, sel, s, steps, usedStepIDs, refreshSteps);
      sel := sel + [s];
    }
    assert connectorIDs[..|connectorIDs|] == connectorIDs;
    r := Ok(Spec(steps, if refreshSteps != [] then Some(refreshSteps) else None));
  }

  lemma MergeNothing(multi: bool)
    ensures MergeSteps(multi, []) == [] && MergeRefresh(multi, []) == [] && forall id :: !HasId([], id)
  {
  }

  /** One connector of the loop. */
  method AddConnector(multi: bool, ghost sel: seq<Selected>, s: Selected, steps: seq<Step>, used: set<string>,
                      refresh: seq<string>)
    returns (stepsNow: seq<Step>, usedNow: set<string>, refreshNow: seq<string>)
    requires steps == MergeSteps(multi, sel) && refresh == MergeRefresh(multi, sel)
    requires forall id :: id in used <==> HasId(steps, id)
    ensures stepsNow == MergeSteps(multi, sel + [s]) && refreshNow == MergeRefresh(multi, sel + [s])
    ensures forall id :: id in usedNow <==> HasId(stepsNow, id)
  {
    hide MergeSteps, MergeRefresh, HasId;
    SelectedNext(multi, sel, s);
    var prefix := ChoosePrefix(multi, used, s, steps);
    stepsNow, usedNow := AppendSteps(prefix, steps, used, s.template.steps);
    refreshNow := refresh;
    if s.template.refresh.Some? {
      refreshNow := refreshNow + Prefixed(prefix, s.template.refresh.value);
    }
    assert refresh + [] == refresh;
  }

  lemma SelectedNext(multi: bool, sel: seq<Selected>, s: Selected)
    ensures var merged := MergeSteps(multi, sel); var prefix := PrefixFor(multi, merged, s);
            && MergeSteps(multi, sel + [s]) == AddSteps(prefix, merged, s.template.steps)
            && MergeRefresh(multi, sel + [s]) == MergeRefresh(multi, sel)
               + (if s.template.refresh.Some? then Prefixed(prefix, s.template.refresh.value) else [])
  {
    assert (sel + [s])[..|sel|] == sel;
  }

  /** The conflict scan. */
  method ChoosePrefix(multi: bool, used: set<string>, s: Selected, ghost merged: seq<Step>) returns (prefix: string)
    requires forall id :: id in used <==> HasId(merged, id)
    ensures prefix == PrefixFor(multi, merged, s)
  {
    prefix := "";
    if multi {
      for i := 0 to |s.template.steps|
        invariant prefix == "" && forall j :: 0 <= j < i ==> !HasId(merged, s.template.steps[j].id)
      {
        if s.template.steps[i].id in used {
          prefix := s.id + SEPARATOR;
          break;
        }
      }
    }
  }

  /** The step loop. */
  method AppendSteps(prefix: string, merged: seq<Step>, used: set<string>, steps: seq<Step>)
    returns (r: seq<Step>, usedNow: set<string>)
    requires forall id :: id in used <==> HasId(merged, id)
    ensures r == AddSteps(prefix, merged, steps)
    ensures forall id :: id in usedNow <==> HasId(r, id)
  {
    r, usedNow := merged, used;
    for i := 0 to |steps|
      invariant r == AddSteps(prefix, merged, steps[..i])
      invariant forall id :: id in usedNow <==> HasId(r, id)
    {
      assert steps[..i + 1][..i] == steps[..i];
      var step := steps[i];
      if prefix != "" {
        var newDeps := UpdateDeps(prefix, r, usedNow, step.dependsOn);
        step := Step(prefix + step.id, newDeps, step.payload);
      }
      HasIdAppend(r, step);
      usedNow := usedNow + {step.id};
      r := r + [step];
    }
    assert steps[..|steps|] == steps;
  }

  method UpdateDeps(prefix: string, ghost merged: seq<Step>, used: set<string>, deps: seq<string>)
    returns (newDeps: seq<string>)
    requires forall id :: id in used <==> HasId(merged, id)
    ensures newDeps == RenameDeps(prefix, merged, deps)
  {
    newDeps := [];
    for i := 0 to |deps|
      invariant newDeps == RenameDeps(prefix, merged, deps[..i])
    {
      assert deps[..i + 1][..i] == deps[..i];
      newDeps := newDeps + [if deps[i] in used then deps[i] else prefix + deps[i]];
    }
    assert deps[..|deps|] == deps;
  }

  lemma HasIdAppend(steps: seq<Step>, s: Step)
    ensures forall id :: HasId(steps + [s], id) <==> HasId(steps, id) || s.id == id
  {
    forall id ensures HasId(steps + [s], id) <==> HasId(steps, id) || s.id == id {
      if HasId(steps, id) {
        var i :| 0 <= i < |steps| && steps[i].id == id;
        assert (steps + [s])[i].id == id;
      }
      assert (steps + [s])[|steps|].id == s.id;
    }
  }

  // ----- shape of the merged list

  ghost predicate AddedAt(prefix: string, n: nat, r: seq<Step>, steps: seq<Step>, i: nat)
    requires i < |steps|
  {
    n + i < |r| && r[n + i] == Rename(prefix, r[..n + i], steps[i])
  }

  /** The new steps follow the old ones in template order, with the prefix on every ID. */
  lemma {:induction false} AddShape(prefix: string, merged: seq<Step>, steps: seq<Step>)
    ensures var r := AddSteps(prefix, merged, steps);
            && |r| == |merged| + |steps| && r[..|merged|] == merged
            && forall i :: 0 <= i < |steps| ==> AddedAt(prefix, |merged|, r, steps, i)
  {
    if steps != [] {
      var n := |steps| - 1;
      AddShape(prefix, merged, steps[..n]);
      var before := AddSteps(prefix, merged, steps[..n]);
      var r := AddSteps(prefix, merged, steps);
      assert r == before + [Rename(prefix, before, steps[n])];
      hide AddSteps, Rename;
      forall i | 0 <= i < |steps| ensures AddedAt(prefix, |merged|, r, steps, i) {
        if i < n {
          assert AddedAt(prefix, |merged|, before, steps[..n], i);
          assert r[..|merged| + i] == before[..|merged| + i];
        } else {
          assert r[..|merged| + n] == before;
        }
      }
    }
  }

  function Offset(sel: seq<Selected>, k: nat): nat
    requires k <= |sel|
  {
    if k == 0 then 0 else Offset(sel, k - 1) + |sel[k - 1].template.steps|
  }

  /** The merged steps are the templates' steps in order, each renamed by its connector's
      prefix and otherwise copied; the prefix is empty or the connector's ID. */
  lemma {:induction false} MergedInOrder(multi: bool, sel: seq<Selected>)
    ensures var r := MergeSteps(multi, sel);
            && |r| == Offset(sel, |sel|)
            && forall k, i :: 0 <= k < |sel| && 0 <= i < |sel[k].template.steps| ==>
                 MergedAt(multi, sel, r, k, i)
  {
    if sel != [] {
      hide MergeSteps, AddSteps, Rename, PrefixFor, MergedAt, PrefixAt;
      var n := |sel| - 1;
      MergedInOrder(multi, sel[..n]);
      MergeExtends(multi, sel);
      OffsetsAgree(sel, n);
      forall k, i | 0 <= k < |sel| && 0 <= i < |sel[k].template.steps|
        ensures MergedAt(multi, sel, MergeSteps(multi, sel), k, i)
      {
        if k < n {
          assert sel[..n][k] == sel[k];
          MergedBefore(multi, sel, k, i);
        } else {
          MergedLast(multi, sel, i);
        }
      }
    } else {
      MergeNothing(multi);
    }
  }

  /** The last connector's steps come after the earlier ones. */
  lemma MergeExtends(multi: bool, sel: seq<Selected>)
    requires sel != []
    ensures var n := |sel| - 1; var merged, r := MergeSteps(multi, sel[..n]), MergeSteps(multi, sel);
            && |r| == |merged| + |sel[n].template.steps| && r[..|merged|] == merged
            && forall i :: 0 <= i < |sel[n].template.steps| ==>
                 AddedAt(PrefixAt(multi, sel, n), |merged|, r, sel[n].template.steps, i)
  {
    var n := |sel| - 1;
    AddShape(PrefixAt(multi, sel, n), MergeSteps(multi, sel[..n]), sel[n].template.steps);
    hide AddSteps, AddedAt, PrefixFor;
  }

  lemma MergedBefore(multi: bool, sel: seq<Selected>, k: nat, i: nat)
    requires k < |sel| - 1 && i < |sel[k].template.steps|
    requires var n := |sel| - 1; var merged := MergeSteps(multi, sel[..n]);
             && |merged| == Offset(sel, n) && |merged| <= |MergeSteps(multi, sel)|
             && MergeSteps(multi, sel)[..|merged|] == merged && MergedAt(multi, sel[..n], merged, k, i)
    ensures MergedAt(multi, sel, MergeSteps(multi, sel), k, i)
  {
    hide MergeSteps, Rename, PrefixFor, Offset;
    var n := |sel| - 1;
    var merged, r := MergeSteps(multi, sel[..n]), MergeSteps(multi, sel);
    OffsetsAgree(sel, n);
    assert sel[..n][..k] == sel[..k];
    var p := Offset(sel, k) + i;
    assert r[p] == r[..|merged|][p] && r[..p] == r[..|merged|][..p];
  }

  lemma MergedLast(multi: bool, sel: seq<Selected>, i: nat)
    requires sel != [] && i < |sel[|sel| - 1].template.steps|
    requires |MergeSteps(multi, sel[..|sel| - 1])| == Offset(sel, |sel| - 1)
    ensures MergedAt(multi, sel, MergeSteps(multi, sel), |sel| - 1, i)
  {
    hide MergeSteps, Rename, PrefixAt, Offset;
    var n := |sel| - 1;
    MergeExtends(multi, sel);
    assert AddedAt(PrefixAt(multi, sel, n), Offset(sel, n), MergeSteps(multi, sel), sel[n].template.steps, i);
  }

  ghost predicate MergedAt(multi: bool, sel: seq<Selected>, r: seq<Step>, k: nat, i: nat)
    requires k < |sel| && i < |sel[k].template.steps|
  {
    var p := Offset(sel, k) + i;
    p < |r| && r[p] == Rename(PrefixAt(multi, sel, k), r[..p], sel[k].template.steps[i])
  }

  lemma {:induction false} OffsetsAgree(sel: seq<Selected>, n: nat)
    requires n <= |sel|
    ensures forall k :: 0 <= k <= n ==> Offset(sel[..n], k) == Offset(sel, k)
  {
    forall k | 0 <= k <= n ensures Offset(sel[..n], k) == Offset(sel, k) { OffsetAgrees(sel, n, k); }
  }

  lemma {:induction false} OffsetAgrees(sel: seq<Selected>, n: nat, k: nat)
    requires k <= n <= |sel|
    ensures Offset(sel[..n], k) == Offset(sel, k)
  {
    if k > 0 { OffsetAgrees(sel, n, k - 1); }
  }

  lemma {:induction false} OffsetMonotone(sel: seq<Selected>, j: nat, k: nat)
    requires j <= k <= |sel|
    ensures Offset(sel, j) <= Offset(sel, k)
  {
    if j < k { OffsetMonotone(sel, j, k - 1); }
  }

  /** The ID of an earlier merged step. */
  ghost predicate Earlier(r: seq<Step>, p: nat, id: string)
    requires p <= |r|
  {
    exists q :: 0 <= q < p && r[q].id == id
  }

  lemma EarlierIs(r: seq<Step>, p: nat, id: string)
    requires p <= |r|
    ensures Earlier(r, p, id) <==> HasId(r[..p], id)
  {
    if q :| 0 <= q < p && r[q].id == id { assert r[..p][q].id == id; }
    if q :| 0 <= q < p && r[..p][q].id == id { assert r[q].id == id; }
  }

  /** Every merged step field by field.  Its prefix is its connector's ID and an underscore if
      several connectors are merged and a raw ID of the template is an earlier connector's, and
      empty otherwise; with a prefix, a dependency gets it unless it names an earlier step. */
  lemma MergedFields(multi: bool, sel: seq<Selected>, k: nat, i: nat)
    requires k < |sel| && i < |sel[k].template.steps|
    ensures var r, step, prefix := MergeSteps(multi, sel), sel[k].template.steps[i], PrefixAt(multi, sel, k);
            var p := Offset(sel, k) + i;
            && p < |r|
            && r[p].id == prefix + step.id && r[p].payload == step.payload
            && |r[p].dependsOn| == |step.dependsOn|
            && (forall m :: 0 <= m < |step.dependsOn| ==>
                  r[p].dependsOn[m] == if prefix == "" || Earlier(r, p, step.dependsOn[m]) then step.dependsOn[m]
                                       else prefix + step.dependsOn[m])
    ensures PrefixAt(multi, sel, k) ==
            if multi && exists j :: 0 <= j < |sel[k].template.steps|
                                    && Earlier(MergeSteps(multi, sel), Offset(sel, k), sel[k].template.steps[j].id)
            then sel[k].id + "_" else ""
  {
    hide MergeSteps, Offset, Rename, HasId, Earlier;
    MergedInOrder(multi, sel);
    var r, step, prefix := MergeSteps(multi, sel), sel[k].template.steps[i], PrefixAt(multi, sel, k);
    var p := Offset(sel, k) + i;
    assert MergedAt(multi, sel, r, k, i);
    RenameFields(prefix, r[..p], step);
    forall m | 0 <= m < |step.dependsOn|
      ensures Earlier(r, p, step.dependsOn[m]) <==> HasId(r[..p], step.dependsOn[m])
    {
      EarlierIs(r, p, step.dependsOn[m]);
    }
    EarlierConnectors(multi, sel, k);
    forall j | 0 <= j < |sel[k].template.steps|
      ensures Earlier(r, Offset(sel, k), sel[k].template.steps[j].id) <==>
              HasId(MergeSteps(multi, sel[..k]), sel[k].template.steps[j].id)
    {
      EarlierIs(r, Offset(sel, k), sel[k].template.steps[j].id);
    }
  }

  lemma RenameFields(prefix: string, before: seq<Step>, step: Step)
    ensures var r := Rename(prefix, before, step);
            && r.id == prefix + step.id && r.payload == step.payload && |r.dependsOn| == |step.dependsOn|
            && forall m :: 0 <= m < |step.dependsOn| ==>
                 r.dependsOn[m] == if prefix == "" || HasId(before, step.dependsOn[m]) then step.dependsOn[m]
                                   else prefix + step.dependsOn[m]
  {
    hide HasId;
    RenamedId(prefix, before, step);
  }

  /** The steps before connector `k` are those of the earlier connectors. */
  lemma {:induction false} EarlierConnectors(multi: bool, sel: seq<Selected>, k: nat)
    requires k <= |sel|
    ensures Offset(sel, k) <= |MergeSteps(multi, sel)|
    ensures MergeSteps(multi, sel)[..Offset(sel, k)] == MergeSteps(multi, sel[..k])
    decreases |sel|
  {
    hide MergeSteps, Offset;
    MergedInOrder(multi, sel);
    if k == |sel| {
      assert sel[..k] == sel;
    } else {
      var n := |sel| - 1;
      EarlierConnectors(multi, sel[..n], k);
      OffsetsAgree(sel, n);
      OffsetMonotone(sel, k, n);
      MergedInOrder(multi, sel[..n]);
      MergeExtends(multi, sel);
      assert sel[..n][..k] == sel[..k];
      var before := MergeSteps(multi, sel[..n]);
      assert MergeSteps(multi, sel)[..|before|][..Offset(sel, k)] == MergeSteps(multi, sel)[..Offset(sel, k)];
    }
  }

  /** A connector merged on its own keeps its steps and its refresh list as they are. */
  lemma SingleUnrenamed(s: Selected)
    ensures MergeSteps(false, [s]) == s.template.steps
    ensures MergeRefresh(false, [s]) == if s.template.refresh.Some? then s.template.refresh.value else []
  {
    SelectedNext(false, [], s);
    MergeNothing(false);
    assert [] + [s] == [s];
    hide MergeSteps, MergeRefresh, HasId;
    AddedPlain(s.template.steps);
    if s.template.refresh.Some? { PrefixedPlain(s.template.refresh.value); }
  }

  lemma {:induction false} AddedPlain(steps: seq<Step>)
    ensures AddSteps("", [], steps) == steps
  {
    if steps != [] { AddedPlain(steps[..|steps| - 1]); }
  }

  lemma PrefixedPlain(ids: seq<string>)
    ensures Prefixed("", ids) == ids
  {
    assert forall i :: 0 <= i < |ids| ==> "" + ids[i] == ids[i];
  }

  function RefreshOf(s: Selected): seq<string> {
    if s.template.refresh.Some? then s.template.refresh.value else []
  }

  function RefreshOffset(sel: seq<Selected>, k: nat): nat
    requires k <= |sel|
  {
    if k == 0 then 0 else RefreshOffset(sel, k - 1) + |RefreshOf(sel[k - 1])|
  }

  ghost predicate RefreshAt(multi: bool, sel: seq<Selected>, k: nat, i: nat)
    requires k < |sel| && i < |RefreshOf(sel[k])|
  {
    var r, q := MergeRefresh(multi, sel), RefreshOffset(sel, k) + i;
    q < |r| && r[q] == PrefixAt(multi, sel, k) + RefreshOf(sel[k])[i]
  }

  /** The refresh list holds the templates' refresh entries in order, each with the prefix its
      connector's steps get, and nothing else. */
  lemma {:induction false} RefreshInOrder(multi: bool, sel: seq<Selected>)
    ensures |MergeRefresh(multi, sel)| == RefreshOffset(sel, |sel|)
    ensures forall k, i :: 0 <= k < |sel| && 0 <= i < |RefreshOf(sel[k])| ==> RefreshAt(multi, sel, k, i)
  {
    if sel == [] {
      MergeNothing(multi);
    } else {
      hide MergeRefresh, RefreshAt, RefreshOf, RefreshOffset, PrefixAt;
      var n := |sel| - 1;
      RefreshInOrder(multi, sel[..n]);
      RefreshNext(multi, sel);
      RefreshOffsets(sel, n);
      RefreshOffsetNext(sel, n);
      forall k, i | 0 <= k < |sel| && 0 <= i < |RefreshOf(sel[k])| ensures RefreshAt(multi, sel, k, i) {
        if k < n {
          assert sel[..n][k] == sel[k];
          assert RefreshAt(multi, sel[..n], k, i);
          RefreshBefore(multi, sel, k, i);
        } else {
          RefreshLast(multi, sel, i);
        }
      }
    }
  }

  lemma RefreshNext(multi: bool, sel: seq<Selected>)
    requires sel != []
    ensures var n := |sel| - 1; var last := Prefixed(PrefixAt(multi, sel, n), RefreshOf(sel[n]));
            MergeRefresh(multi, sel) == MergeRefresh(multi, sel[..n]) + last
  {
    hide PrefixAt;
  }

  lemma RefreshBefore(multi: bool, sel: seq<Selected>, k: nat, i: nat)
    requires k < |sel| - 1 && i < |RefreshOf(sel[k])|
    requires sel[..|sel| - 1][k] == sel[k] && RefreshAt(multi, sel[..|sel| - 1], k, i)
    ensures RefreshAt(multi, sel, k, i)
  {
    hide MergeRefresh, RefreshOf, RefreshOffset, PrefixAt;
    RefreshNext(multi, sel);
    RefreshOffsets(sel, |sel| - 1);
    PrefixAtPrefix(multi, sel, |sel| - 1, k);
  }

  lemma RefreshLast(multi: bool, sel: seq<Selected>, i: nat)
    requires sel != [] && i < |RefreshOf(sel[|sel| - 1])|
    requires |MergeRefresh(multi, sel[..|sel| - 1])| == RefreshOffset(sel, |sel| - 1)
    ensures RefreshAt(multi, sel, |sel| - 1, i)
  {
    hide MergeRefresh, RefreshOf, RefreshOffset, PrefixAt;
    RefreshNext(multi, sel);
  }

  lemma RefreshOffsetNext(sel: seq<Selected>, k: nat)
    requires k < |sel|
    ensures RefreshOffset(sel, k + 1) == RefreshOffset(sel, k) + |RefreshOf(sel[k])|
  {
  }

  lemma PrefixAtPrefix(multi: bool, sel: seq<Selected>, n: nat, k: nat)
    requires k < n <= |sel|
    ensures PrefixAt(multi, sel[..n], k) == PrefixAt(multi, sel, k)
  {
    assert sel[..n][..k] == sel[..k];
  }

  lemma {:induction false} RefreshOffsets(sel: seq<Selected>, n: nat)
    requires n <= |sel|
    ensures forall k :: 0 <= k <= n ==> RefreshOffset(sel[..n], k) == RefreshOffset(sel, k)
  {
    forall k | 0 <= k <= n ensures RefreshOffset(sel[..n], k) == RefreshOffset(sel, k) { RefreshOffsetKept(sel, n, k); }
  }

  lemma {:induction false} RefreshOffsetKept(sel: seq<Selected>, n: nat, k: nat)
    requires k <= n <= |sel|
    ensures RefreshOffset(sel[..n], k) == RefreshOffset(sel, k)
  {
    if k > 0 { RefreshOffsetKept(sel, n, k - 1); }
  }

  // ----- dependency order

  /** Every dependency names an earlier step of the list. */
  ghost predicate Ordered(steps: seq<Step>) {
    forall p, m :: 0 <= p < |steps| && 0 <= m < |steps[p].dependsOn| ==> HasId(steps[..p], steps[p].dependsOn[m])
  }

  lemma AddKeepsOrder(prefix: string, merged: seq<Step>, steps: seq<Step>)
    requires Ordered(merged) && Ordered(steps)
    ensures Ordered(AddSteps(prefix, merged, steps))
  {
    var r := AddSteps(prefix, merged, steps);
    AddShape(prefix, merged, steps);
    forall p, m | 0 <= p < |r| && 0 <= m < |r[p].dependsOn| ensures HasId(r[..p], r[p].dependsOn[m]) {
      if p < |merged| {
        assert r[p] == r[..|merged|][p] == merged[p];
        assert r[..p] == merged[..p];
        assert HasId(merged[..p], merged[p].dependsOn[m]);
      } else {
        var i := p - |merged|;
        assert AddedAt(prefix, |merged|, r, steps, i);
        NewDependency(prefix, merged, steps, i, m);
      }
    }
  }

  lemma RenamedDependency(prefix: string, before: seq<Step>, step: Step, m: nat)
    requires m < |step.dependsOn|
    ensures var r, d := Rename(prefix, before, step), step.dependsOn[m];
            && r.id == prefix + step.id && |r.dependsOn| == |step.dependsOn|
            && (r.dependsOn[m] == prefix + d || (HasId(before, d) && r.dependsOn[m] == d))
  {
    hide HasId;
    var d := step.dependsOn[m];
    if prefix == "" { assert prefix + d == d && prefix + step.id == step.id; }
  }

  lemma AddedEntry(prefix: string, merged: seq<Step>, steps: seq<Step>, i: nat)
    requires i < |steps|
    ensures var r, p := AddSteps(prefix, merged, steps), |merged| + i;
            p < |r| && r[p] == Rename(prefix, r[..p], steps[i])
  {
    AddShape(prefix, merged, steps);
    hide AddSteps, Rename;
    assert AddedAt(prefix, |merged|, AddSteps(prefix, merged, steps), steps, i);
  }

  /** A dependency on a step that was added earlier names an earlier step of the result. */
  lemma DependencyFound(prefix: string, r: seq<Step>, p: nat, q: nat, step: Step, dep: Step, m: nat)
    requires q < p < |r| && r[p] == Rename(prefix, r[..p], step) && r[q] == Rename(prefix, r[..q], dep)
    requires m < |step.dependsOn| && step.dependsOn[m] == dep.id
    ensures m < |r[p].dependsOn| && HasId(r[..p], r[p].dependsOn[m])
  {
    hide Rename, HasId;
    RenamedDependency(prefix, r[..p], step, m);
    RenamedId(prefix, r[..q], dep);
    assert r[..p][q] == r[q];
    HasIdAt(r[..p], q);
  }

  lemma NewDependency(prefix: string, merged: seq<Step>, steps: seq<Step>, i: nat, m: nat)
    requires Ordered(steps) && i < |steps| && m < |steps[i].dependsOn|
    ensures var r := AddSteps(prefix, merged, steps); var p := |merged| + i;
            p < |r| && m < |r[p].dependsOn| && HasId(r[..p], r[p].dependsOn[m])
  {
    var j := EarlierStep(steps, i, m);
    hide Ordered, AddSteps, Rename, HasId;
    var r := AddSteps(prefix, merged, steps);
    AddedEntry(prefix, merged, steps, i);
    AddedEntry(prefix, merged, steps, j);
    DependencyFound(prefix, r, |merged| + i, |merged| + j, steps[i], steps[j], m);
  }

  lemma EarlierStep(steps: seq<Step>, i: nat, m: nat) returns (j: nat)
    requires Ordered(steps) && i < |steps| && m < |steps[i].dependsOn|
    ensures j < i && steps[j].id == steps[i].dependsOn[m]
  {
    assert HasId(steps[..i], steps[i].dependsOn[m]);
    j :| 0 <= j < i && steps[..i][j].id == steps[i].dependsOn[m];
  }

  lemma HasIdAt(steps: seq<Step>, i: nat)
    requires i < |steps|
    ensures HasId(steps, steps[i].id)
  {
  }

  lemma RenamedId(prefix: string, before: seq<Step>, step: Step)
    ensures Rename(prefix, before, step).id == prefix + step.id
  {
    assert "" + step.id == step.id;
  }

  /** If every template lists its steps in dependency order, so does the merged spec. */
  lemma {:induction false} MergeKeepsOrder(multi: bool, sel: seq<Selected>)
    requires forall k :: 0 <= k < |sel| ==> Ordered(sel[k].template.steps)
    ensures Ordered(MergeSteps(multi, sel))
  {
    if sel != [] {
      hide Ordered, AddSteps;
      var n := |sel| - 1;
      MergeKeepsOrder(multi, sel[..n]);
      var merged := MergeSteps(multi, sel[..n]);
      AddKeepsOrder(PrefixFor(multi, merged, sel[n]), merged, sel[n].template.steps);
    }
  }

  /** A refresh entry that names a step of its template names a step of the merged spec. */
  lemma RefreshNamesStep(multi: bool, sel: seq<Selected>, k: nat, id: string)
    requires k < |sel| && HasId(sel[k].template.steps, id)
    ensures HasId(MergeSteps(multi, sel), PrefixAt(multi, sel, k) + id)
  {
    MergedInOrder(multi, sel);
    hide MergeSteps, PrefixAt;
    var i :| 0 <= i < |sel[k].template.steps| && sel[k].template.steps[i].id == id;
    assert MergedAt(multi, sel, MergeSteps(multi, sel), k, i);
    assert "" + id == id;
  }

  // ----- unique IDs

  ghost predicate DistinctIds(steps: seq<Step>) {
    forall i, j :: 0 <= i < j < |steps| ==> steps[i].id != steps[j].id
  }

  /** None of the IDs the template's steps get is taken. */
  ghost predicate Fits(prefix: string, merged: seq<Step>, steps: seq<Step>) {
    forall i :: 0 <= i < |steps| ==> !HasId(merged, prefix + steps[i].id)
  }

  lemma AddDistinct(prefix: string, merged: seq<Step>, steps: seq<Step>)
    ensures DistinctIds(AddSteps(prefix, merged, steps))
       <==> DistinctIds(merged) && DistinctIds(steps) && Fits(prefix, merged, steps)
  {
    var r := AddSteps(prefix, merged, steps);
    var n := |merged|;
    AddShape(prefix, merged, steps);
    hide AddSteps, RenameDeps;
    forall i | 0 <= i < |steps| ensures r[n + i].id == prefix + steps[i].id {
      assert AddedAt(prefix, n, r, steps, i) && "" + steps[i].id == steps[i].id;
    }
    assert forall i :: 0 <= i < n ==> r[i] == merged[i] by { assert forall i :: 0 <= i < n ==> r[i] == r[..n][i]; }
    hide Rename;
    PrefixInjective(prefix);
    if DistinctIds(r) {
      forall i, j | 0 <= i < j < |steps| ensures steps[i].id != steps[j].id { assert r[n + i].id != r[n + j].id; }
      forall i | 0 <= i < |steps| ensures !HasId(merged, prefix + steps[i].id) {
        forall q | 0 <= q < n ensures merged[q].id != prefix + steps[i].id { assert r[q].id != r[n + i].id; }
      }
      forall i, j | 0 <= i < j < n ensures merged[i].id != merged[j].id { assert r[i].id != r[j].id; }
    }
    if DistinctIds(merged) && DistinctIds(steps) && Fits(prefix, merged, steps) {
      forall i, j | 0 <= i < j < |r| ensures r[i].id != r[j].id {
        if j >= n && i < n {
          assert !HasId(merged, prefix + steps[j - n].id);
        } else if i >= n {
          assert steps[i - n].id != steps[j - n].id;
        }
      }
    }
  }

  lemma PrefixInjective(prefix: string)
    ensures forall a: string, b: string :: prefix + a == prefix + b ==> a == b
  {
    forall a: string, b: string | prefix + a == prefix + b ensures a == b {
      assert a == (prefix + a)[|prefix|..] && b == (prefix + b)[|prefix|..];
    }
  }

  /** The k-th connector brings no ID twice: its own are distinct, and if it is renamed
      none of its renamed IDs is taken. */
  ghost predicate BringsFreshIds(multi: bool, sel: seq<Selected>, k: nat)
    requires k < |sel|
  {
    && DistinctIds(sel[k].template.steps)
    && (PrefixAt(multi, sel, k) != "" ==>
          Fits(PrefixAt(multi, sel, k), MergeSteps(multi, sel[..k]), sel[k].template.steps))
  }

  /** The scan only looks at raw IDs.  The merged IDs are distinct exactly when each
      template's are and no renamed ID of a renamed connector was already taken. */
  lemma {:induction false} UniqueExactly(multi: bool, sel: seq<Selected>)
    requires multi || |sel| <= 1
    ensures DistinctIds(MergeSteps(multi, sel)) <==> forall k :: 0 <= k < |sel| ==> BringsFreshIds(multi, sel, k)
  {
    if sel != [] {
      var n := |sel| - 1;
      UniqueExactly(multi, sel[..n]);
      LastBrings(multi, sel);
      hide DistinctIds, MergeSteps;
      forall k | 0 <= k < n ensures BringsFreshIds(multi, sel[..n], k) == BringsFreshIds(multi, sel, k) {
        assert sel[..n][..k] == sel[..k] && sel[..n][k] == sel[k];
      }
      hide BringsFreshIds;
      assert (forall k :: 0 <= k < |sel| ==> BringsFreshIds(multi, sel, k))
        <==> (forall k :: 0 <= k < n ==> BringsFreshIds(multi, sel[..n], k)) && BringsFreshIds(multi, sel, n);
    }
  }

  lemma LastBrings(multi: bool, sel: seq<Selected>)
    requires sel != [] && (multi || |sel| <= 1)
    ensures var n := |sel| - 1;
            DistinctIds(MergeSteps(multi, sel)) <==>
            DistinctIds(MergeSteps(multi, sel[..n])) && BringsFreshIds(multi, sel, n)
  {
    hide DistinctIds, Fits, AddSteps, PrefixFor;
    var n := |sel| - 1;
    var merged := MergeSteps(multi, sel[..n]);
    AddDistinct(PrefixAt(multi, sel, n), merged, sel[n].template.steps);
    if PrefixAt(multi, sel, n) == "" { UnprefixedFits(multi, merged, sel[n]); }
  }

  lemma UnprefixedFits(multi: bool, merged: seq<Step>, s: Selected)
    requires PrefixFor(multi, merged, s) == "" && (multi || merged == [])
    ensures Fits("", merged, s.template.steps)
  {
    forall i | 0 <= i < |s.template.steps| ensures !HasId(merged, "" + s.template.steps[i].id) {
      assert "" + s.template.steps[i].id == s.template.steps[i].id;
    }
  }

  /** A duplicated connector: the third copy repeats the IDs of the second. */
  lemma DuplicateWitness()
    ensures var s := Selected("a", Template([Step("x", [], 0)], None));
            !DistinctIds(MergeSteps(true, [s, s, s]))
  {
    var s := Selected("a", Template([Step("x", [], 0)], None));
    var sel := [s, s, s];
    MergedInOrder(true, sel);
    assert sel[..0] == [] && sel[..1] == [s] && sel[..2] == [s, s];
    var r := MergeSteps(true, sel);
    hide MergeSteps, AddSteps;
    assert Offset(sel, 1) == 1 && Offset(sel, 2) == 2;
    assert MergedAt(true, sel, r, 0, 0) && MergedAt(true, sel, r, 1, 0) && MergedAt(true, sel, r, 2, 0);
    TakenAgain(s, r);
  }

  lemma TakenAgain(s: Selected, r: seq<Step>)
    requires s == Selected("a", Template([Step("x", [], 0)], None)) && |r| == 3
    requires r == MergeSteps(true, [s, s, s])
    ensures r[1].id == r[2].id
  {
    var sel := [s, s, s];
    MergedInOrder(true, sel);
    MergedInOrder(true, [s]);
    MergedInOrder(true, [s, s]);
    var one, two := MergeSteps(true, [s]), MergeSteps(true, [s, s]);
    assert sel[..0] == [] && sel[..1] == [s] && sel[..2] == [s, s];
    assert [s, s][..1] == [s] && [s][..0] == [];
    hide MergeSteps, AddSteps;
    assert Offset([s], 0) == 0 && Offset([s, s], 0) == 0 && Offset(sel, 1) == 1 && Offset(sel, 2) == 2;
    assert MergedAt(true, [s], one, 0, 0) && MergedAt(true, [s, s], two, 0, 0);
    assert PrefixAt(true, [s], 0) == "" by { NoConflictWithNothing(s); }
    assert PrefixAt(true, [s, s], 0) == "" by { NoConflictWithNothing(s); }
    assert one[0].id == "x" && two[0].id == "x";
    assert HasId(one, "x") && HasId(two, "x");
    assert Conflicts(one, s.template.steps) && Conflicts(two, s.template.steps) by {
      assert s.template.steps[0].id == "x";
    }
    assert MergedAt(true, sel, r, 1, 0) && MergedAt(true, sel, r, 2, 0);
  }

  lemma NoConflictWithNothing(s: Selected)
    ensures PrefixFor(true, MergeSteps(true, []), s) == ""
  {
  }

  // ----- the condition on the IDs of connectors and templates alone

  function RawId(sel: seq<Selected>, k: nat, i: nat): string
    requires k < |sel| && i < |sel[k].template.steps|
  {
    sel[k].template.steps[i].id
  }

  /** The ID a step gets when its connector is renamed or not. */
  function PlannedId(sel: seq<Selected>, plan: seq<bool>, k: nat, i: nat): string
    requires k < |sel| == |plan| && i < |sel[k].template.steps|
  {
    if plan[k] then sel[k].id + SEPARATOR + RawId(sel, k, i) else RawId(sel, k, i)
  }

  /** The ID is one that an earlier connector's step gets. */
  ghost predicate TakenBefore(sel: seq<Selected>, plan: seq<bool>, k: nat, id: string)
    requires k < |sel| == |plan|
  {
    exists j: nat, m: nat :: j < k && m < |sel[j].template.steps| && PlannedId(sel, plan, j, m) == id
  }

  ghost predicate SomeTaken(sel: seq<Selected>, plan: seq<bool>, k: nat)
    requires k < |sel| == |plan|
  {
    exists i :: 0 <= i < |sel[k].template.steps| && TakenBefore(sel, plan, k, RawId(sel, k, i))
  }

  /** A connector is renamed when one of its raw IDs is taken. */
  ghost predicate PlannedAt(sel: seq<Selected>, plan: seq<bool>, k: nat)
    requires k < |sel| == |plan|
  {
    plan[k] <==> SomeTaken(sel, plan, k)
  }

  /** Which connectors are renamed, worked out from the first to the last. */
  ghost predicate IsPlan(sel: seq<Selected>, plan: seq<bool>) {
    |plan| == |sel| && forall k :: 0 <= k < |sel| ==> PlannedAt(sel, plan, k)
  }

  /** No renamed connector's new ID is taken. */
  ghost predicate NoClash(sel: seq<Selected>, plan: seq<bool>, k: nat)
    requires k < |sel| == |plan|
  {
    plan[k] ==> forall i :: 0 <= i < |sel[k].template.steps| ==> !TakenBefore(sel, plan, k, PlannedId(sel, plan, k, i))
  }

  /** The merge renames as planned. */
  predicate FollowsAt(sel: seq<Selected>, plan: seq<bool>, k: nat)
    requires k < |sel| == |plan|
  {
    PrefixAt(true, sel, k) == if plan[k] then sel[k].id + SEPARATOR else ""
  }

  /** Where the merge has renamed as planned, the planned IDs are the merged ones. */
  lemma MergedAsPlanned(sel: seq<Selected>, plan: seq<bool>, k: nat, j: nat, m: nat)
    requires j < k <= |sel| == |plan| && m < |sel[j].template.steps| && FollowsAt(sel, plan, j)
    ensures var p, merged := Offset(sel[..k], j) + m, MergeSteps(true, sel[..k]);
            p < |merged| && merged[p].id == PlannedId(sel, plan, j, m)
  {
    MergedInOrder(true, sel[..k]);
    hide MergeSteps, Offset, PrefixFor;
    assert sel[..k][j] == sel[j] && sel[..k][..j] == sel[..j];
    assert MergedAt(true, sel[..k], MergeSteps(true, sel[..k]), j, m);
    assert "" + RawId(sel, j, m) == RawId(sel, j, m);
    assert sel[j].id + SEPARATOR != "";
  }

  lemma TakenIsMerged(sel: seq<Selected>, plan: seq<bool>, k: nat, id: string)
    requires k < |sel| == |plan| && forall j :: 0 <= j < k ==> FollowsAt(sel, plan, j)
    ensures TakenBefore(sel, plan, k, id) <==> HasId(MergeSteps(true, sel[..k]), id)
  {
    hide MergeSteps, HasId, TakenBefore, FollowsAt;
    if TakenBefore(sel, plan, k, id) { TakenThenMerged(sel, plan, k, id); }
    if HasId(MergeSteps(true, sel[..k]), id) { MergedThenTaken(sel, plan, k, id); }
  }

  lemma TakenThenMerged(sel: seq<Selected>, plan: seq<bool>, k: nat, id: string)
    requires k < |sel| == |plan| && forall j :: 0 <= j < k ==> FollowsAt(sel, plan, j)
    requires TakenBefore(sel, plan, k, id)
    ensures HasId(MergeSteps(true, sel[..k]), id)
  {
    hide MergeSteps, Offset, PlannedId, FollowsAt;
    var j: nat, m: nat :| j < k && m < |sel[j].template.steps| && PlannedId(sel, plan, j, m) == id;
    MergedAsPlanned(sel, plan, k, j, m);
    assert MergeSteps(true, sel[..k])[Offset(sel[..k], j) + m].id == id;
  }

  lemma MergedThenTaken(sel: seq<Selected>, plan: seq<bool>, k: nat, id: string)
    requires k < |sel| == |plan| && forall j :: 0 <= j < k ==> FollowsAt(sel, plan, j)
    requires HasId(MergeSteps(true, sel[..k]), id)
    ensures TakenBefore(sel, plan, k, id)
  {
    hide MergeSteps, Offset, PlannedId, FollowsAt;
    var q: nat :| q < |MergeSteps(true, sel[..k])| && MergeSteps(true, sel[..k])[q].id == id;
    MergedLength(sel[..k]);
    var j, m := Locate(sel[..k], q);
    assert sel[..k][j] == sel[j];
    MergedAsPlanned(sel, plan, k, j, m);
  }

  lemma MergedLength(sel: seq<Selected>)
    ensures |MergeSteps(true, sel)| == Offset(sel, |sel|)
  {
    hide MergeSteps, Offset;
    MergedInOrder(true, sel);
  }

  /** There is one plan, and the merge follows it. */
  lemma {:induction false} PlanIsFollowed(sel: seq<Selected>, plan: seq<bool>, k: nat)
    requires IsPlan(sel, plan) && k <= |sel|
    ensures forall j :: 0 <= j < k ==> FollowsAt(sel, plan, j)
  {
    if k > 0 {
      PlanIsFollowed(sel, plan, k - 1);
      assert PlannedAt(sel, plan, k - 1);
      hide FollowsAt, IsPlan, PlannedAt;
      PlanStep(sel, plan, k - 1);
    }
  }

  lemma PlanStep(sel: seq<Selected>, plan: seq<bool>, k: nat)
    requires k < |sel| == |plan| && PlannedAt(sel, plan, k) && forall j :: 0 <= j < k ==> FollowsAt(sel, plan, j)
    ensures FollowsAt(sel, plan, k)
  {
    hide MergeSteps, HasId, TakenBefore;
    var merged, steps := MergeSteps(true, sel[..k]), sel[k].template.steps;
    forall i | 0 <= i < |steps|
      ensures TakenBefore(sel, plan, k, RawId(sel, k, i)) <==> HasId(merged, steps[i].id)
    {
      hide FollowsAt;
      TakenIsMerged(sel, plan, k, RawId(sel, k, i));
    }
    assert plan[k] <==> Conflicts(merged, steps);
  }

  lemma {:induction false} PlanExists(sel: seq<Selected>) returns (plan: seq<bool>)
    ensures IsPlan(sel, plan)
  {
    if sel == [] {
      plan := [];
    } else {
      hide SomeTaken, PlannedAt;
      var n := |sel| - 1;
      var before := PlanExists(sel[..n]);
      var trial := before + [false];
      var last := SomeTaken(sel, trial, n);
      plan := before + [last];
      LastPlanned(sel, plan, trial);
      forall k | 0 <= k < |sel| ensures PlannedAt(sel, plan, k) {
        if k < n {
          assert PlannedAt(sel[..n], before, k);
          PlanKept(sel, plan, k);
        }
      }
    }
  }

  lemma LastPlanned(sel: seq<Selected>, plan: seq<bool>, trial: seq<bool>)
    requires sel != [] && |plan| == |trial| == |sel| && plan[..|sel| - 1] == trial[..|sel| - 1]
    requires plan[|sel| - 1] == SomeTaken(sel, trial, |sel| - 1)
    ensures PlannedAt(sel, plan, |sel| - 1)
  {
    hide SomeTaken;
    SomeTakenPrefix(sel, plan, sel, trial, |sel| - 1);
  }

  lemma PlanKept(sel: seq<Selected>, plan: seq<bool>, k: nat)
    requires k < |sel| - 1 && |plan| == |sel|
    requires var n := |sel| - 1; PlannedAt(sel[..n], plan[..n], k)
    ensures PlannedAt(sel, plan, k)
  {
    hide SomeTaken;
    var n := |sel| - 1;
    assert sel[..k + 1] == sel[..n][..k + 1] && plan[..k] == plan[..n][..k];
    SomeTakenPrefix(sel, plan, sel[..n], plan[..n], k);
  }

  lemma SomeTakenPrefix(sel: seq<Selected>, plan: seq<bool>, sel': seq<Selected>, plan': seq<bool>, k: nat)
    requires k < |sel| == |plan| && k < |sel'| == |plan'| && sel[..k + 1] == sel'[..k + 1] && plan[..k] == plan'[..k]
    ensures SomeTaken(sel, plan, k) <==> SomeTaken(sel', plan', k)
  {
    PlanPrefix(sel, plan, sel', plan', k);
    hide TakenBefore;
    assert forall i :: 0 <= i < |sel[k].template.steps| ==> RawId(sel, k, i) == RawId(sel', k, i);
  }

  /** What is taken before connector `k` depends on the earlier ones only. */
  lemma PlanPrefix(sel: seq<Selected>, plan: seq<bool>, sel': seq<Selected>, plan': seq<bool>, k: nat)
    requires k < |sel| == |plan| && k < |sel'| == |plan'| && sel[..k + 1] == sel'[..k + 1] && plan[..k] == plan'[..k]
    ensures sel[k] == sel'[k]
    ensures forall id :: TakenBefore(sel, plan, k, id) <==> TakenBefore(sel', plan', k, id)
  {
    assert sel[k] == sel[..k + 1][k] == sel'[k];
    forall j: nat | j < k ensures sel[j] == sel'[j] && plan[j] == plan'[j] {
      assert sel[j] == sel[..k + 1][j] && plan[j] == plan[..k][j];
    }
    forall j: nat, m: nat | j < k && m < |sel[j].template.steps|
      ensures PlannedId(sel, plan, j, m) == PlannedId(sel', plan', j, m)
    {
    }
  }

  /** In the plan of any selection of several connectors, the merged IDs are distinct exactly
      when each template's are and no renamed connector's new ID is taken. */
  lemma UniqueByPlan(sel: seq<Selected>, plan: seq<bool>)
    requires IsPlan(sel, plan)
    ensures DistinctIds(MergeSteps(true, sel)) <==>
            forall k :: 0 <= k < |sel| ==> DistinctIds(sel[k].template.steps) && NoClash(sel, plan, k)
  {
    UniqueExactly(true, sel);
    PlanIsFollowed(sel, plan, |sel|);
    assert |plan| == |sel|;
    hide MergeSteps, DistinctIds, IsPlan, NoClash, BringsFreshIds;
    forall k | 0 <= k < |sel|
      ensures BringsFreshIds(true, sel, k) <==> DistinctIds(sel[k].template.steps) && NoClash(sel, plan, k)
    {
      FreshByPlan(sel, plan, k);
    }
  }

  lemma FreshByPlan(sel: seq<Selected>, plan: seq<bool>, k: nat)
    requires k < |sel| == |plan| && forall j :: 0 <= j <= k ==> FollowsAt(sel, plan, j)
    ensures BringsFreshIds(true, sel, k) <==> DistinctIds(sel[k].template.steps) && NoClash(sel, plan, k)
  {
    hide MergeSteps, DistinctIds, HasId, PrefixAt;
    assert FollowsAt(sel, plan, k);
    if plan[k] {
      forall i | 0 <= i < |sel[k].template.steps|
        ensures TakenBefore(sel, plan, k, PlannedId(sel, plan, k, i)) <==>
                HasId(MergeSteps(true, sel[..k]), PrefixAt(true, sel, k) + sel[k].template.steps[i].id)
      {
        TakenIsMerged(sel, plan, k, PlannedId(sel, plan, k, i));
      }
    }
  }

  // ----- a static condition for unique IDs

  predicate NoSeparator(id: string) { forall i :: 0 <= i < |id| ==> id[i] != '_' }

  ghost predicate CleanSelection(sel: seq<Selected>) {
    && (forall k :: 0 <= k < |sel| ==> NoSeparator(sel[k].id) && DistinctIds(sel[k].template.steps))
    && (forall j, k :: 0 <= j < k < |sel| ==> sel[j].id != sel[k].id)
    && (forall j, k, i :: 0 < j < |sel| && 0 <= k < |sel| && 0 <= i < |sel[k].template.steps| ==>
          !(sel[j].id + SEPARATOR <= sel[k].template.steps[i].id))
  }

  lemma SeparatorSplits(a: string, b: string, x: string, y: string)
    requires NoSeparator(a) && NoSeparator(b) && a != b
    ensures a + SEPARATOR + x != b + SEPARATOR + y
  {
    var s, t := a + SEPARATOR + x, b + SEPARATOR + y;
    assert s[|a|] == '_' && t[|b|] == '_';
    if |a| < |b| {
      assert t[|a|] == b[|a|];
    } else if |b| < |a| {
      assert s[|b|] == a[|b|];
    } else {
      assert s[..|a|] == a && t[..|a|] == b;
    }
  }

  /** Distinct connector IDs without underscores, distinct step IDs in each template and
      no step ID that starts with the ID of a connector after the first and an underscore: then
      all merged IDs are distinct. */
  lemma UniqueWhenClean(multi: bool, sel: seq<Selected>)
    requires (multi || |sel| <= 1) && CleanSelection(sel)
    ensures DistinctIds(MergeSteps(multi, sel))
  {
    forall k | 0 <= k < |sel| && PrefixAt(multi, sel, k) != ""
      ensures Fits(PrefixAt(multi, sel, k), MergeSteps(multi, sel[..k]), sel[k].template.steps)
    {
      PrefixedFits(multi, sel, k);
    }
    hide MergeSteps, PrefixAt, Fits;
    UniqueExactly(multi, sel);
    assert forall k :: 0 <= k < |sel| ==> BringsFreshIds(multi, sel, k);
  }

  lemma PrefixedFits(multi: bool, sel: seq<Selected>, k: nat)
    requires CleanSelection(sel) && k < |sel| && PrefixAt(multi, sel, k) != ""
    ensures Fits(PrefixAt(multi, sel, k), MergeSteps(multi, sel[..k]), sel[k].template.steps)
  {
    var merged := MergeSteps(multi, sel[..k]);
    var prefix := sel[k].id + SEPARATOR;
    MergedInOrder(multi, sel[..k]);
    hide MergeSteps, AddSteps;
    forall i, q | 0 <= i < |sel[k].template.steps| && 0 <= q < |merged|
      ensures merged[q].id != prefix + sel[k].template.steps[i].id
    {
      var j, m := Locate(sel[..k], q);
      assert MergedAt(multi, sel[..k], merged, j, m);
      var raw := sel[j].template.steps[m].id;
      var id := sel[k].template.steps[i].id;
      assert !(prefix <= raw) && prefix <= prefix + id;
      SeparatorSplits(sel[j].id, sel[k].id, raw, id);
      assert merged[q].id == raw || merged[q].id == sel[j].id + SEPARATOR + raw;
    }
  }

  /** Which template step a merged position comes from. */
  lemma {:induction false} Locate(sel: seq<Selected>, q: nat) returns (k: nat, i: nat)
    requires q < Offset(sel, |sel|)
    ensures k < |sel| && i < |sel[k].template.steps| && Offset(sel, k) + i == q
  {
    var n := |sel| - 1;
    if q >= Offset(sel, n) {
      k, i := n, q - Offset(sel, n);
    } else {
      OffsetsAgree(sel, n);
      k, i := Locate(sel[..n], q);
    }
  }

  // ----- whose step a dependency names after renaming

  /** A dependency of a renamed connector points at that connector's own renamed step
      exactly when its raw name is not the ID of an earlier merged step. */
  lemma OwnDependencyExactly(multi: bool, sel: seq<Selected>, k: nat, i: nat, m: nat)
    requires k < |sel| && i < |sel[k].template.steps| && m < |sel[k].template.steps[i].dependsOn|
    requires PrefixAt(multi, sel, k) != ""
    ensures var r, p, d := MergeSteps(multi, sel), Offset(sel, k) + i, sel[k].template.steps[i].dependsOn[m];
            && p < |r| && m < |r[p].dependsOn|
            && (r[p].dependsOn[m] == PrefixAt(multi, sel, k) + d <==> !HasId(r[..p], d))
            && (HasId(r[..p], d) ==> r[p].dependsOn[m] == d)
  {
    hide MergeSteps, PrefixAt, Offset, Rename, HasId;
    MergedInOrder(multi, sel);
    var r, p := MergeSteps(multi, sel), Offset(sel, k) + i;
    assert MergedAt(multi, sel, r, k, i);
    RenamedExactly(PrefixAt(multi, sel, k), r[..p], sel[k].template.steps[i], m);
  }

  lemma RenamedExactly(prefix: string, before: seq<Step>, step: Step, m: nat)
    requires prefix != "" && m < |step.dependsOn|
    ensures var r, d := Rename(prefix, before, step), step.dependsOn[m];
            && m < |r.dependsOn|
            && (r.dependsOn[m] == prefix + d <==> !HasId(before, d))
            && (HasId(before, d) ==> r.dependsOn[m] == d)
  {
    hide HasId;
    assert |prefix + step.dependsOn[m]| > |step.dependsOn[m]|;
  }
}
