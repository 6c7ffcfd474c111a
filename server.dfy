/** The server side of INCAR generation: the case-insensitive task lookup, the
    parameter lists the server hands out, and the per-request merge of task, standard
    and custom parameters into the rendered text, the parameter count and the merged
    parameter map. */
module Server {
  import opened Wrappers
  import opened Text
  import opened Dicts
  import opened Render
  import Json

  /** An entry of the task table: its display name, its parameters and, for the tasks
      taken from the category configuration, their category. */
  datatype TaskEntry = TaskEntry(display: string, params: Dict<string>, category: Option<string>)

  /** The task table, keyed by task key, in insertion order. */
  type Mapping = Dict<TaskEntry>

  const TasksCategory := "Tasks"

  // ---------------------------------------------------------------- task lookup

  /** The comparison of the lookup: display name and requested name, lower-cased. */
  predicate Matches(e: TaskEntry, name: string) {
    Lower(e.display) == Lower(name)
  }

  /** `r` is the index of the first entry matching `name`, or `None` when none does. */
  predicate IsFirstMatch(mapping: seq<(string, TaskEntry)>, name: string, r: Option<nat>) {
    match r
    case None => forall j :: 0 <= j < |mapping| ==> !Matches(mapping[j].1, name)
    case Some(i) =>
      i < |mapping| && Matches(mapping[i].1, name)
      && forall j :: 0 <= j < i ==> !Matches(mapping[j].1, name)
  }

  function FirstMatch(mapping: seq<(string, TaskEntry)>, name: string): (r: Option<nat>)
    ensures IsFirstMatch(mapping, name, r)
  {
    if mapping == [] then None
    else if Matches(mapping[0].1, name) then Some(0)
    else
      match FirstMatch(mapping[1..], name)
      case None => None
      case Some(i) => Some(i + 1)
  }

  /** Only one index is the first match. */
  lemma FirstMatchUnique(mapping: seq<(string, TaskEntry)>, name: string, r: Option<nat>)
    requires IsFirstMatch(mapping, name, r)
    ensures r == FirstMatch(mapping, name)
  {
  }

  /** The lookup ignores the case of the requested name. */
  lemma FirstMatchCaseInsensitive(mapping: seq<(string, TaskEntry)>, a: string, b: string)
    requires Lower(a) == Lower(b)
    ensures FirstMatch(mapping, a) == FirstMatch(mapping, b)
  {
    FirstMatchUnique(mapping, b, FirstMatch(mapping, a));
  }

  /** The lookup loop: the first entry whose display name equals `name` ignoring case. */
  method FindTask(mapping: Mapping, name: string) returns (r: Option<nat>)
    ensures r == FirstMatch(mapping, name)
  {
    var lowered := Lower(name);
    var i := 0;
    while i < |mapping|
      invariant 0 <= i <= |mapping|
      invariant forall j :: 0 <= j < i ==> !Matches(mapping[j].1, name)
    {
      if Lower(mapping[i].1.display) == lowered {
        r := Some(i);
        FirstMatchUnique(mapping, name, r);
        return;
      }
      i := i + 1;
    }
    r := None;
    FirstMatchUnique(mapping, name, r);
  }

  // ---------------------------------------------------------------- parameter lists

  datatype ParamsReply = Params(params: Dict<string>) | Invalid(error: string)

  /** `/api/task-params`: the parameters of the task the stripped name finds; a name that
      finds nothing, or finds an entry whose key is empty, is an error naming it. */
  function TaskParamsReply(mapping: Mapping, task: string): (r: ParamsReply)
    ensures r.Invalid? ==> r.error == "Invalid task: " + Strip(task)
  {
    LookupParams(mapping, Strip(task))
  }

  /** The answer for an already stripped name. */
  function LookupParams(mapping: Mapping, name: string): (r: ParamsReply)
    ensures r.Invalid? ==> r.error == "Invalid task: " + name
  {
    match FirstMatch(mapping, name)
    case None => Invalid("Invalid task: " + name)
    case Some(i) =>
      if mapping[i].0 == "" then Invalid("Invalid task: " + name) else Params(mapping[i].1.params)
  }

  /** Entry `i` answers a request for `name` with `params`. */
  predicate Answers(mapping: Mapping, i: int, name: string, params: Dict<string>) {
    0 <= i < |mapping| && Matches(mapping[i].1, name) && mapping[i].0 != "" && params == mapping[i].1.params
  }

  /** A request succeeds only with the parameters of an entry whose display name matches
      the stripped name, and fails whenever no entry matches. */
  lemma TaskParamsFound(mapping: Mapping, name: string)
    ensures var r := LookupParams(mapping, name);
      (r.Params? ==> exists i :: Answers(mapping, i, name, r.params))
      && ((forall i :: 0 <= i < |mapping| ==> !Matches(mapping[i].1, name)) ==> r.Invalid?)
  {
    var r := LookupParams(mapping, name);
    if r.Params? {
      assert Answers(mapping, FirstMatch(mapping, name).value, name, r.params);
    }
  }

  /** The request handler: strip, look up, answer. */
  method GetTaskParams(mapping: Mapping, task: string) returns (r: ParamsReply)
    ensures r == TaskParamsReply(mapping, task)
  {
    var name := Strip(task);
    var found := FindTask(mapping, name);
    if found.None? || mapping[found.value].0 == "" {
      r := Invalid("Invalid task: " + name);
    } else {
      r := Params(mapping[found.value].1.params);
    }
  }

  /** Stripped names that agree ignoring case get the same parameters. */
  lemma TaskParamsCaseInsensitive(mapping: Mapping, a: string, b: string)
    requires Lower(a) == Lower(b)
    ensures LookupParams(mapping, a).Params? == LookupParams(mapping, b).Params?
    ensures LookupParams(mapping, a).Params? ==> LookupParams(mapping, a) == LookupParams(mapping, b)
  {
    FirstMatchCaseInsensitive(mapping, a, b);
  }

  /** The sections the page shows as system buttons instead. */
  const SystemButtonSections: set<string> := {"d_lapack", "d_ncore", "d_write"}

  /** `/api/standard-params`: every standard section except the system-button ones. */
  function StandardParams(standard: Dict<Dict<string>>): (r: Dict<Dict<string>>)
    ensures Keys(r) == Keys(standard) - SystemButtonSections
    ensures AsMap(r) == AsMap(standard) - SystemButtonSections
  {
    FilterOutMap(standard, SystemButtonSections);
    FilterOut(standard, SystemButtonSections)
  }

  // ---------------------------------------------------------------- request layers

  /** The standard sections of a request: each section switched on in `switches` that the
      standard table holds, with the table's parameters. */
  function IncludedSections(switches: seq<(string, bool)>, standard: Dict<Dict<string>>): Dict<Dict<string>> {
    if switches == [] then []
    else
      var r := IncludedSections(switches[..|switches| - 1], standard);
      var x := switches[|switches| - 1];
      if x.1 && x.0 in Keys(standard) then Put(r, x.0, AsMap(standard)[x.0]) else r
  }

  /** The switch at `i` turns section `k` on. */
  predicate SwitchedOn(switches: seq<(string, bool)>, i: int, k: string) {
    0 <= i < |switches| && switches[i] == (k, true)
  }

  lemma IncludedSectionsSnoc(switches: seq<(string, bool)>, standard: Dict<Dict<string>>, k: string)
    requires switches != []
    ensures var x := switches[|switches| - 1];
      var r := IncludedSections(switches, standard);
      var q := IncludedSections(switches[..|switches| - 1], standard);
      var now := x.1 && x.0 in Keys(standard) && k == x.0;
      (k in Keys(r) <==> k in Keys(q) || now)
      && (k in Keys(r) ==> AsMap(r)[k] == if now then AsMap(standard)[k] else AsMap(q)[k])
  {
  }

  /** A section is included exactly when the table holds it and some switch turns it on;
      it then carries the table's parameters. */
  lemma {:induction false} IncludedSectionsSpec(switches: seq<(string, bool)>, standard: Dict<Dict<string>>, k: string)
    ensures k in Keys(IncludedSections(switches, standard)) <==>
      (k in Keys(standard) && exists i :: SwitchedOn(switches, i, k))
    ensures k in Keys(IncludedSections(switches, standard)) ==>
      AsMap(IncludedSections(switches, standard))[k] == AsMap(standard)[k]
  {
    if switches != [] {
      var n := |switches| - 1;
      var p := switches[..n];
      IncludedSectionsSpec(p, standard, k);
      IncludedSectionsSnoc(switches, standard, k);
      if switches[n] == (k, true) {
        assert SwitchedOn(switches, n, k);
      }
      if exists i :: SwitchedOn(p, i, k) {
        var i :| SwitchedOn(p, i, k);
        assert p[i] == switches[i];
        assert SwitchedOn(switches, i, k);
      }
      if exists i :: SwitchedOn(switches, i, k) {
        var i :| SwitchedOn(switches, i, k);
        if i < n {
          assert p[i] == switches[i];
          assert SwitchedOn(p, i, k);
        }
      }
    }
  }

  /** The selected entries split by category: `model` for every category but `Tasks`,
      `actual` for `Tasks`, both keyed by display name. */
  datatype Layers = Layers(model: Dict<Dict<string>>, actual: Dict<Dict<string>>)

  /** Whether the entry a lookup of `d` finds is of category `Tasks`; `None` when the
      lookup finds nothing. */
  function FoundIsTask(mapping: Mapping, d: string): Option<bool> {
    match FirstMatch(mapping, d)
    case None => None
    case Some(i) => Some(mapping[i].1.category == Some(TasksCategory))
  }

  /** What a selected name contributes: nothing when it is empty, finds no entry or finds
      an entry with an empty key. The entry's own display name finds it again. */
  function Resolve(mapping: Mapping, name: string): (r: Option<TaskEntry>)
    ensures r.None? <==> (name == "" || FirstMatch(mapping, name).None?
      || mapping[FirstMatch(mapping, name).value].0 == "")
    ensures r.Some? ==> (FirstMatch(mapping, name).Some?
      && r.value == mapping[FirstMatch(mapping, name).value].1
      && FirstMatch(mapping, r.value.display) == FirstMatch(mapping, name))
  {
    if name == "" then None
    else
      match FirstMatch(mapping, name)
      case None => None
      case Some(i) =>
        if mapping[i].0 == "" then None
        else
          FirstMatchCaseInsensitive(mapping, mapping[i].1.display, name);
          Some(mapping[i].1)
  }

  function AddLayer(l: Layers, e: TaskEntry): Layers {
    if e.category == Some(TasksCategory) then Layers(l.model, Put(l.actual, e.display, e.params))
    else Layers(Put(l.model, e.display, e.params), l.actual)
  }

  /** The layers of a selection, in selection order; a display name selected again keeps
      its first position. */
  function SelectedLayers(mapping: Mapping, selected: seq<string>): Layers {
    if selected == [] then Layers([], [])
    else
      var l := SelectedLayers(mapping, selected[..|selected| - 1]);
      match Resolve(mapping, selected[|selected| - 1])
      case None => l
      case Some(e) => AddLayer(l, e)
  }

  /** Every name in the model layer finds an entry of a category other than `Tasks`,
      every name in the `Tasks` layer one of category `Tasks`. */
  lemma {:induction false} LayersByCategory(mapping: Mapping, selected: seq<string>)
    ensures var l := SelectedLayers(mapping, selected);
      (forall d :: d in Keys(l.model) ==> FoundIsTask(mapping, d) == Some(false))
      && (forall d :: d in Keys(l.actual) ==> FoundIsTask(mapping, d) == Some(true))
  {
    if selected != [] {
      LayersByCategory(mapping, selected[..|selected| - 1]);
    }
  }

  /** No display name is in both layers. */
  lemma LayersDisjoint(mapping: Mapping, selected: seq<string>)
    ensures Keys(SelectedLayers(mapping, selected).model) !! Keys(SelectedLayers(mapping, selected).actual)
  {
    LayersByCategory(mapping, selected);
  }

  /** `task_params_by_name`: the model layer, then the `Tasks` layer. */
  function ByName(l: Layers): Dict<Dict<string>> {
    Update(l.model, l.actual)
  }

  /** Blocks of every category but `Tasks` come before the blocks of `Tasks`. */
  lemma ModelBlocksFirst(mapping: Mapping, selected: seq<string>, custom: set<string>)
    ensures var l := SelectedLayers(mapping, selected);
      ByName(l) == l.model + l.actual
      && TaskBlocks(ByName(l), custom) == TaskBlocks(l.model, custom) + TaskBlocks(l.actual, custom)
  {
    var l := SelectedLayers(mapping, selected);
    LayersDisjoint(mapping, selected);
    UpdateDisjoint(l.model, l.actual);
    TaskBlocksAppend(l.model, l.actual, custom);
  }

  lemma LayersSnoc(mapping: Mapping, s: seq<string>, y: string)
    ensures SelectedLayers(mapping, s + [y]) ==
      match Resolve(mapping, y)
      case None => SelectedLayers(mapping, s)
      case Some(e) => AddLayer(SelectedLayers(mapping, s), e)
  {
    assert (s + [y])[..|s|] == s;
  }

  lemma LayersStep(mapping: Mapping, s: seq<string>, i: int)
    requires 0 <= i < |s|
    ensures SelectedLayers(mapping, s[..i + 1]) ==
      match Resolve(mapping, s[i])
      case None => SelectedLayers(mapping, s[..i])
      case Some(e) => AddLayer(SelectedLayers(mapping, s[..i]), e)
  {
    assert s[..i + 1][..i] == s[..i];
  }

  /** Names that find nothing contribute nothing, wherever they stand. */
  lemma {:induction false} UnknownIgnored(mapping: Mapping, a: seq<string>, x: string, b: seq<string>)
    requires Resolve(mapping, x).None?
    ensures SelectedLayers(mapping, a + [x] + b) == SelectedLayers(mapping, a + b)
    decreases |b|
  {
    if b == [] {
      assert a + [x] + b == a + [x];
      assert a + b == a;
      LayersSnoc(mapping, a, x);
    } else {
      var p := b[..|b| - 1];
      var y := b[|b| - 1];
      assert b == p + [y];
      UnknownIgnored(mapping, a, x, p);
      assert a + [x] + b == (a + [x] + p) + [y];
      assert a + b == (a + p) + [y];
      LayersSnoc(mapping, a + [x] + p, y);
      LayersSnoc(mapping, a + p, y);
    }
  }

  /** Selections that agree name by name, ignoring case, select the same layers. */
  lemma {:induction false} LayersCaseInsensitive(mapping: Mapping, s: seq<string>, t: seq<string>)
    requires |s| == |t| && forall i :: 0 <= i < |s| ==> Lower(s[i]) == Lower(t[i])
    ensures SelectedLayers(mapping, s) == SelectedLayers(mapping, t)
  {
    if s != [] {
      var n := |s| - 1;
      LayersCaseInsensitive(mapping, s[..n], t[..n]);
      FirstMatchCaseInsensitive(mapping, s[n], t[n]);
      assert |Lower(s[n])| == |s[n]| && |Lower(t[n])| == |t[n]|;
    }
  }

  /** Each entry of the custom form with its key and value stripped. */
  function StrippedEntries(custom: seq<(string, string)>): (r: seq<(string, string)>)
    ensures |r| == |custom|
    ensures forall i :: 0 <= i < |r| ==> r[i] == (Strip(custom[i].0), Strip(custom[i].1))
  {
    seq(|custom|, i requires 0 <= i < |custom| => (Strip(custom[i].0), Strip(custom[i].1)))
  }

  /** Stores each entry with a non-empty key in turn; a later entry overwrites an
      earlier one with the same key. */
  function PutNonEmpty(es: seq<(string, string)>): Dict<string> {
    if es == [] then []
    else
      var r := PutNonEmpty(es[..|es| - 1]);
      var x := es[|es| - 1];
      if x.0 != "" then Put(r, x.0, x.1) else r
  }

  /** The custom layer: each entry with a non-empty stripped key, stored under that key
      with its stripped value. */
  function CustomLayer(custom: seq<(string, string)>): Dict<string> {
    PutNonEmpty(StrippedEntries(custom))
  }

  /** The entry at `i` has the non-empty key `k`. */
  predicate HasKey(es: seq<(string, string)>, i: int, k: string) {
    0 <= i < |es| && es[i].0 == k && k != ""
  }

  lemma PutNonEmptyStep(es: seq<(string, string)>, i: int)
    requires 0 <= i < |es|
    ensures es[i].0 != "" ==> PutNonEmpty(es[..i + 1]) == Put(PutNonEmpty(es[..i]), es[i].0, es[i].1)
    ensures es[i].0 == "" ==> PutNonEmpty(es[..i + 1]) == PutNonEmpty(es[..i])
  {
    assert es[..i + 1][..i] == es[..i];
  }

  lemma PutNonEmptySnoc(es: seq<(string, string)>, k: string)
    requires es != []
    ensures var x := es[|es| - 1];
      k in Keys(PutNonEmpty(es)) <==> k in Keys(PutNonEmpty(es[..|es| - 1])) || (x.0 != "" && k == x.0)
  {
  }

  /** Every key stored is the non-empty key of some entry. */
  lemma {:induction false} PutNonEmptyKeySound(es: seq<(string, string)>, k: string)
    requires k in Keys(PutNonEmpty(es))
    ensures exists i :: HasKey(es, i, k)
  {
    var n := |es| - 1;
    var p := es[..n];
    PutNonEmptySnoc(es, k);
    if k in Keys(PutNonEmpty(p)) {
      PutNonEmptyKeySound(p, k);
      var i :| HasKey(p, i, k);
      assert es[i] == p[i];
      assert HasKey(es, i, k);
    } else {
      assert HasKey(es, n, k);
    }
  }

  /** Every non-empty key of an entry is stored. */
  lemma {:induction false} PutNonEmptyKeyComplete(es: seq<(string, string)>, i: int)
    requires 0 <= i < |es| && es[i].0 != ""
    ensures es[i].0 in Keys(PutNonEmpty(es))
  {
    var n := |es| - 1;
    var k := es[i].0;
    if i < n {
      var p := es[..n];
      assert p[i] == es[i];
      PutNonEmptyKeyComplete(p, i);
      assert k in Keys(PutNonEmpty(p));
    }
    PutNonEmptySnoc(es, k);
  }

  /** The value stored under a key is that of the last entry with the key. */
  lemma {:induction false} PutNonEmptyLastWins(es: seq<(string, string)>, i: int)
    requires 0 <= i < |es| && es[i].0 != ""
    requires forall j :: i < j < |es| ==> es[j].0 != es[i].0
    ensures es[i].0 in AsMap(PutNonEmpty(es)) && AsMap(PutNonEmpty(es))[es[i].0] == es[i].1
  {
    var n := |es| - 1;
    var p := es[..n];
    var k := es[i].0;
    PutNonEmptyValueSnoc(es, k);
    if i < n {
      assert p[i] == es[i];
      forall j | i < j < |p|
        ensures p[j].0 != k
      {
        assert p[j] == es[j];
      }
      PutNonEmptyLastWins(p, i);
      assert es[n].0 != k;
    }
  }

  lemma PutNonEmptyValueSnoc(es: seq<(string, string)>, k: string)
    requires es != []
    ensures es[|es| - 1].0 != "" && es[|es| - 1].0 == k ==>
      k in AsMap(PutNonEmpty(es)) && AsMap(PutNonEmpty(es))[k] == es[|es| - 1].1
    ensures es[|es| - 1].0 != k && k in AsMap(PutNonEmpty(es[..|es| - 1])) ==>
      k in AsMap(PutNonEmpty(es)) && AsMap(PutNonEmpty(es))[k] == AsMap(PutNonEmpty(es[..|es| - 1]))[k]
  {
  }

  /** Every key of the custom layer is the non-empty stripped key of some entry, so it
      does not start or end with whitespace. */
  lemma CustomLayerKeySound(custom: seq<(string, string)>, k: string)
    requires k in Keys(CustomLayer(custom))
    ensures exists i :: 0 <= i < |custom| && Strip(custom[i].0) == k
    ensures k != "" && !IsPySpace(k[0]) && !IsPySpace(k[|k| - 1])
  {
    var es := StrippedEntries(custom);
    PutNonEmptyKeySound(es, k);
    var i :| HasKey(es, i, k);
    var key := Strip(custom[i].0);
    assert es[i].0 == key;
    assert key == [] || (!IsPySpace(key[0]) && !IsPySpace(key[|key| - 1]));
  }

  /** Every non-empty stripped key of an entry is a key of the custom layer. */
  lemma CustomLayerKeyComplete(custom: seq<(string, string)>, i: int)
    requires 0 <= i < |custom| && Strip(custom[i].0) != ""
    ensures Strip(custom[i].0) in Keys(CustomLayer(custom))
  {
    PutNonEmptyKeyComplete(StrippedEntries(custom), i);
  }

  /** The custom layer holds, under each key, the stripped value of the last entry whose
      stripped key it is. */
  lemma CustomLayerLastWins(custom: seq<(string, string)>, i: int)
    requires 0 <= i < |custom| && Strip(custom[i].0) != ""
    requires forall j :: i < j < |custom| ==> Strip(custom[j].0) != Strip(custom[i].0)
    ensures Strip(custom[i].0) in AsMap(CustomLayer(custom))
    ensures AsMap(CustomLayer(custom))[Strip(custom[i].0)] == Strip(custom[i].1)
  {
    PutNonEmptyLastWins(StrippedEntries(custom), i);
  }

  /** The union of the map views of `ds`, later dictionaries winning. */
  function MergedMap(ds: seq<(string, Dict<string>)>): map<string, string> {
    if ds == [] then map[] else MergedMap(ds[..|ds| - 1]) + AsMap(ds[|ds| - 1].1)
  }

  lemma MapUnionAssoc(a: map<string, string>, b: map<string, string>, c: map<string, string>)
    ensures (a + b) + c == a + (b + c)
  {
  }

  /** `base.update(p)` for each dictionary `p` of `ds` in turn. */
  function MergeInto(base: Dict<string>, ds: seq<(string, Dict<string>)>): (r: Dict<string>)
    ensures |r| <= |base| + SumSizes(ds)
    ensures AsMap(r) == AsMap(base) + MergedMap(ds)
  {
    if ds == [] then base
    else
      var q := MergeInto(base, ds[..|ds| - 1]);
      var r := Update(q, ds[|ds| - 1].1);
      MapUnionAssoc(AsMap(base), MergedMap(ds[..|ds| - 1]), AsMap(ds[|ds| - 1].1));
      r
  }

  // ---------------------------------------------------------------- the reply

  /** The reply to `/api/generate-incar`. */
  datatype Reply = Reply(content: string, paramCount: nat, params: Dict<string>)

  /** The reply assembled from the task layers, the included sections and the custom
      layer. The renderer pops `d_system` from the caller's sections, so the count and the
      merged map no longer see that section. */
  function Assemble(byName: Dict<Dict<string>>, sections: Dict<Dict<string>>, fc: Dict<string>): Reply {
    var remaining := FilterOut(sections, {SystemSection});
    Reply(Organized(byName, sections, fc),
      SumSizes(byName) + SumSizes(remaining) + |fc|,
      MergeInto(Update(MergeInto([], byName), fc), remaining))
  }

  /** What `generate_incar` answers for the selected names, the custom parameters and
      the section switches. */
  function Generate(mapping: Mapping, standard: Dict<Dict<string>>, selected: seq<string>,
                    custom: seq<(string, string)>, switches: seq<(string, bool)>): Reply
  {
    Assemble(ByName(SelectedLayers(mapping, selected)), IncludedSections(switches, standard),
      CustomLayer(custom))
  }

  /** The merged map has no more keys than the count says parameters. */
  lemma ParamsWithinCount(byName: Dict<Dict<string>>, sections: Dict<Dict<string>>, fc: Dict<string>)
    ensures var r := Assemble(byName, sections, fc);
      |Keys(r.params)| <= r.paramCount
  {
    KeysCount(Assemble(byName, sections, fc).params);
  }

  /** In the merged map the layers apply as tasks, then custom, then standard sections:
      a standard value overrides a custom one there, although the text shows the custom
      value. */
  lemma ParamsLayers(byName: Dict<Dict<string>>, sections: Dict<Dict<string>>, fc: Dict<string>)
    ensures AsMap(Assemble(byName, sections, fc).params)
      == MergedMap(byName) + AsMap(fc) + MergedMap(FilterOut(sections, {SystemSection}))
  {
    var remaining := FilterOut(sections, {SystemSection});
    MergeLayers(byName, fc, remaining);
  }

  lemma MergeLayers(byName: Dict<Dict<string>>, fc: Dict<string>, remaining: Dict<Dict<string>>)
    ensures AsMap(MergeInto(Update(MergeInto([], byName), fc), remaining))
      == MergedMap(byName) + AsMap(fc) + MergedMap(remaining)
  {
    var m := MergeInto([], byName);
    var none: map<string, string> := map[];
    assert AsMap(m) == none + MergedMap(byName);
    assert none + MergedMap(byName) == MergedMap(byName);
    var u := Update(m, fc);
    assert AsMap(u) == MergedMap(byName) + AsMap(fc);
  }

  // ---------------------------------------------------------------- the handler

  /** Each `base.update(p)` of the loop over `ds`. */
  method MergeLoop(base: Dict<string>, ds: seq<(string, Dict<string>)>) returns (r: Dict<string>)
    ensures r == MergeInto(base, ds)
  {
    r := base;
    var i := 0;
    while i < |ds|
      invariant 0 <= i <= |ds|
      invariant r == MergeInto(base, ds[..i])
    {
      assert ds[..i + 1][..i] == ds[..i];
      r := Update(r, ds[i].1);
      i := i + 1;
    }
    assert ds[..|ds|] == ds;
  }

  method CollectSections(switches: seq<(string, bool)>, standard: Dict<Dict<string>>)
    returns (sections: Dict<Dict<string>>)
    ensures sections == IncludedSections(switches, standard)
  {
    sections := [];
    var i := 0;
    while i < |switches|
      invariant 0 <= i <= |switches|
      invariant sections == IncludedSections(switches[..i], standard)
    {
      assert switches[..i + 1][..i] == switches[..i];
      if switches[i].1 && switches[i].0 in Keys(standard) {
        sections := Put(sections, switches[i].0, AsMap(standard)[switches[i].0]);
      }
      i := i + 1;
    }
    assert switches[..|switches|] == switches;
  }

  method CollectLayers(mapping: Mapping, selected: seq<string>) returns (l: Layers)
    ensures l == SelectedLayers(mapping, selected)
  {
    var model: Dict<Dict<string>> := [];
    var actual: Dict<Dict<string>> := [];
    var i := 0;
    while i < |selected|
      invariant 0 <= i <= |selected|
      invariant Layers(model, actual) == SelectedLayers(mapping, selected[..i])
    {
      var name := selected[i];
      LayersStep(mapping, selected, i);
      var found := ResolveName(mapping, name);
      if found.Some? {
        model, actual := AddFound(model, actual, found.value);
      }
      i := i + 1;
    }
    assert selected[..|selected|] == selected;
    l := Layers(model, actual);
  }

  /** A found entry goes into the `Tasks` layer or the model layer by its category. */
  method AddFound(model: Dict<Dict<string>>, actual: Dict<Dict<string>>, e: TaskEntry)
    returns (model': Dict<Dict<string>>, actual': Dict<Dict<string>>)
    ensures Layers(model', actual') == AddLayer(Layers(model, actual), e)
  {
    model', actual' := model, actual;
    if e.category == Some(TasksCategory) {
      actual' := Put(actual, e.display, e.params);
    } else {
      model' := Put(model, e.display, e.params);
    }
  }

  /** The entry a selected name contributes, if any. */
  method ResolveName(mapping: Mapping, name: string) returns (r: Option<TaskEntry>)
    ensures r == Resolve(mapping, name)
  {
    if name == "" {
      return None;
    }
    var found := FindTask(mapping, name);
    if found.Some? && mapping[found.value].0 != "" {
      r := Some(mapping[found.value].1);
    } else {
      r := None;
    }
  }

  method CollectCustom(custom: seq<(string, string)>) returns (fc: Dict<string>)
    ensures fc == CustomLayer(custom)
  {
    ghost var es := StrippedEntries(custom);
    fc := [];
    var i := 0;
    while i < |custom|
      invariant 0 <= i <= |custom|
      invariant fc == PutNonEmpty(es[..i])
    {
      PutNonEmptyStep(es, i);
      var key := Strip(custom[i].0);
      assert es[i] == (key, Strip(custom[i].1));
      if key != "" {
        fc := Put(fc, key, Strip(custom[i].1));
      }
      i := i + 1;
    }
    assert es[..|custom|] == es;
  }

  /** The count and the merged map, after the text is rendered. */
  method Respond(byName: Dict<Dict<string>>, sections: Dict<Dict<string>>, fc: Dict<string>)
    returns (reply: Reply)
    ensures reply == Assemble(byName, sections, fc)
  {
    var content, remaining := RenderOrganized(byName, sections, fc);
    var count: nat := SumSizes(byName) + SumSizes(remaining) + |fc|;
    var all := MergeAll(byName, fc, remaining);
    reply := Reply(content, count, all);
  }

  /** The tasks' parameters, then the custom ones, then the remaining sections'. */
  method MergeAll(byName: Dict<Dict<string>>, fc: Dict<string>, remaining: Dict<Dict<string>>)
    returns (all: Dict<string>)
    ensures all == MergeInto(Update(MergeInto([], byName), fc), remaining)
  {
    all := MergeLoop([], byName);
    all := Update(all, fc);
    all := MergeLoop(all, remaining);
  }

  /** `generate_incar`. */
  method GenerateIncar(mapping: Mapping, standard: Dict<Dict<string>>, selected: seq<string>,
                       custom: seq<(string, string)>, switches: seq<(string, bool)>)
    returns (reply: Reply)
    ensures reply == Generate(mapping, standard, selected, custom, switches)
  {
    var sections := CollectSections(switches, standard);
    var l := CollectLayers(mapping, selected);
    var byName := Update([], l.model);
    UpdateDisjoint([], l.model);
    assert [] + l.model == l.model;
    byName := Update(byName, l.actual);
    var fc := CollectCustom(custom);
    reply := Respond(byName, sections, fc);
  }

  /** The JSON body of the reply. */
  function Payload(r: Reply): (obj: Json.Object)
    ensures Keys(obj) == {"incar_content", "param_count", "params"}
  {
    var obj := [("incar_content", Json.Str(r.content)), ("param_count", Json.Num(r.paramCount)),
      ("params", Json.Obj(r.params))];
    assert obj[0].0 == "incar_content" && obj[1].0 == "param_count" && obj[2].0 == "params";
    obj
  }
}
