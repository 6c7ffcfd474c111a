/** The task table the server builds once at start-up: a readable display name for
    every task key of the task data, the tasks of the category configuration merged
    over them, the sorted list of display names and the normalised-name index. */
module Catalog {
  import opened Wrappers
  import opened Text
  import opened Dicts
  import opened Server

  /** The category configuration: category name, then task name, then parameters. */
  type Config = Dict<Dict<Dict<string>>>

  const TaskPrefix := "d_cal_"

  // ---------------------------------------------------------------- readable names

  /** The task key with every `d_cal_` removed. */
  function Stem(key: string): string {
    ReplaceAll(key, TaskPrefix, "")
  }

  /** The display name of a task key; `None` where the code raises, which is the `ml`
      branch when the stem holds `ml` only in another case, so that splitting on `ml`
      gives a single piece and there is no second one to capitalise. */
  function ReadableName(key: string): (r: Option<string>)
    ensures r.None? <==>
      !Contains(Lower(Stem(key)), "vdw") && Contains(Lower(Stem(key)), "ml") && !Contains(Stem(key), "ml")
  {
    var name := Stem(key);
    if Contains(Lower(name), "vdw") then
      Some(if Contains(name, "bj") then "vdW-D3-BJ" else if Contains(name, "zero") then "vdW-D3-Zero" else name)
    else if Contains(Lower(name), "ml") then
      var parts := SplitOn(name, "ml");
      SplitOnContains(name, "ml");
      if |parts| < 2 then None else Some("ML-" + Capitalize(parts[1]))
    else
      Some(Title(ReplaceAll(name, "_", " ")))
  }

  /** The three shapes of a display name: a vdW stem containing `bj` or `zero` gets a
      fixed name; an `ml` stem gets the `ML-` prefix; any other stem keeps its length,
      loses its underscores and is title-cased word by word. */
  lemma ReadableNameForms(key: string)
    ensures var name := Stem(key);
      Contains(Lower(name), "vdw") && Contains(name, "bj") ==> ReadableName(key) == Some("vdW-D3-BJ")
    ensures var name := Stem(key);
      Contains(Lower(name), "vdw") && !Contains(name, "bj") && Contains(name, "zero") ==>
        ReadableName(key) == Some("vdW-D3-Zero")
    ensures var name := Stem(key);
      Contains(Lower(name), "vdw") && !Contains(name, "bj") && !Contains(name, "zero") ==>
        ReadableName(key) == Some(name)
    ensures var name := Stem(key);
      !Contains(Lower(name), "vdw") && Contains(name, "ml") ==>
        Contains(Lower(name), "ml") && |SplitOn(name, "ml")| >= 2
        && ReadableName(key) == Some("ML-" + Capitalize(SplitOn(name, "ml")[1]))
    ensures var name := Stem(key);
      !Contains(Lower(name), "vdw") && !Contains(Lower(name), "ml") ==>
        ReadableName(key).Some? && |ReadableName(key).value| == |name|
        && forall i :: 0 <= i < |name| ==> ReadableName(key).value[i] != '_'
  {
    var name := Stem(key);
    SplitOnContains(name, "ml");
    if Contains(name, "ml") {
      var i :| 0 <= i <= |name| && OccursAt(name, "ml", i);
      assert Lower(name)[i..i + 2] == "ml";
      assert OccursAt(Lower(name), "ml", i);
    }
    if !Contains(Lower(name), "vdw") && !Contains(Lower(name), "ml") {
      var spaced := ReplaceAll(name, "_", " ");
      ReplaceAllShape(name);
      var r := Title(spaced);
      forall i | 0 <= i < |name|
        ensures r[i] != '_'
      {
        if IsLetter(spaced[i]) {
          assert IsLetter(r[i]);
        }
      }
    }
  }

  // ---------------------------------------------------------------- the task table

  /** The table built from the task data, one entry per key in the data's order, or
      `None` when a readable name cannot be formed. */
  function BaseMapping(tasks: Dict<Dict<string>>): (r: Option<Mapping>)
    ensures r.Some? ==> Keys(r.value) == Keys(tasks) && |r.value| == |tasks|
  {
    if tasks == [] then Some([])
    else
      var p := tasks[..|tasks| - 1];
      var x := tasks[|tasks| - 1];
      assert tasks == p + [x];
      KeysSnoc(p, x);
      match BaseMapping(p)
      case None => None
      case Some(m) =>
        match ReadableName(x.0)
        case None => None
        case Some(d) =>
          KeysSnoc(m, (x.0, TaskEntry(d, x.1, None)));
          Some(m + [(x.0, TaskEntry(d, x.1, None))])
  }

  /** The tasks of one category written into the table, each under its own name. */
  function MergeCategory(m: Mapping, category: string, entries: seq<(string, Dict<string>)>): (r: Mapping)
    ensures Keys(r) == Keys(m) + Keys(entries)
  {
    if entries == [] then m
    else
      var p := entries[..|entries| - 1];
      var x := entries[|entries| - 1];
      assert entries == p + [x];
      KeysSnoc(p, x);
      Put(MergeCategory(m, category, p), x.0, TaskEntry(x.0, x.1, Some(category)))
  }

  /** Every category of the configuration merged in turn. */
  function MergeConfig(m: Mapping, config: seq<(string, Dict<Dict<string>>)>): Mapping {
    if config == [] then m
    else
      var c := config[|config| - 1];
      MergeCategory(MergeConfig(m, config[..|config| - 1]), c.0, c.1)
  }

  /** The final task table, or `None` when start-up fails. */
  function TaskMapping(tasks: Dict<Dict<string>>, config: Config): Option<Mapping> {
    match BaseMapping(tasks)
    case None => None
    case Some(m) => Some(MergeConfig(m, config))
  }

  /** The names the configuration lists, over all categories. */
  function ConfigNames(config: seq<(string, Dict<Dict<string>>)>): set<string> {
    if config == [] then {} else ConfigNames(config[..|config| - 1]) + Keys(config[|config| - 1].1)
  }

  /** The table holds exactly the task keys of the data and the configured names. */
  lemma {:induction false} MergeConfigKeys(m: Mapping, config: seq<(string, Dict<Dict<string>>)>)
    ensures Keys(MergeConfig(m, config)) == Keys(m) + ConfigNames(config)
  {
    if config != [] {
      MergeConfigKeys(m, config[..|config| - 1]);
    }
  }

  /** A name configured in category `c` and in no later category ends up with its own
      name as display name, the configured parameters and category `c`. */
  lemma {:induction false} MergeCategoryEntry(m: Mapping, category: string, entries: Dict<Dict<string>>, name: string)
    requires name in Keys(entries)
    ensures name in AsMap(MergeCategory(m, category, entries))
    ensures AsMap(MergeCategory(m, category, entries))[name] ==
      TaskEntry(name, AsMap(entries)[name], Some(category))
  {
    var p := entries[..|entries| - 1];
    var x := entries[|entries| - 1];
    assert entries == p + [x];
    AsMapSnoc(p, x);
    KeysSnoc(p, x);
    if x.0 != name {
      MergeCategoryEntry(m, category, p, name);
    }
  }

  /** Names a category does not list keep their entry. */
  lemma {:induction false} MergeCategoryOthers(m: Mapping, category: string, entries: seq<(string, Dict<string>)>, k: string)
    requires k !in Keys(entries)
    ensures k in AsMap(MergeCategory(m, category, entries)) <==> k in AsMap(m)
    ensures k in AsMap(m) ==> AsMap(MergeCategory(m, category, entries))[k] == AsMap(m)[k]
  {
    if entries != [] {
      var p := entries[..|entries| - 1];
      var x := entries[|entries| - 1];
      assert entries == p + [x];
      KeysSnoc(p, x);
      MergeCategoryOthers(m, category, p, k);
    }
  }

  /** The entry of a configured name comes from the last category listing it. */
  lemma {:induction false} ConfiguredEntry(m: Mapping, config: seq<(string, Dict<Dict<string>>)>, ci: int, name: string)
    requires 0 <= ci < |config| && name in Keys(config[ci].1)
    requires forall cj :: ci < cj < |config| ==> name !in Keys(config[cj].1)
    ensures name in AsMap(MergeConfig(m, config))
    ensures AsMap(MergeConfig(m, config))[name] ==
      TaskEntry(name, AsMap(config[ci].1)[name], Some(config[ci].0))
  {
    var n := |config| - 1;
    var p := config[..n];
    if ci == n {
      MergeCategoryEntry(MergeConfig(m, p), config[n].0, config[n].1, name);
    } else {
      assert config[ci] == p[ci];
      ConfiguredEntry(m, p, ci, name);
      MergeCategoryOthers(MergeConfig(m, p), config[n].0, config[n].1, name);
    }
  }

  /** A task key no category lists keeps the entry built from the task data. */
  lemma {:induction false} UnconfiguredEntry(m: Mapping, config: seq<(string, Dict<Dict<string>>)>, k: string)
    requires k in AsMap(m) && k !in ConfigNames(config)
    ensures k in AsMap(MergeConfig(m, config)) && AsMap(MergeConfig(m, config))[k] == AsMap(m)[k]
  {
    if config != [] {
      var n := |config| - 1;
      UnconfiguredEntry(m, config[..n], k);
      MergeCategoryOthers(MergeConfig(m, config[..n]), config[n].0, config[n].1, k);
    }
  }

  /** The entries built from the task data carry the readable name and no category. */
  lemma {:induction false} BaseEntries(tasks: Dict<Dict<string>>, i: int)
    requires BaseMapping(tasks).Some? && 0 <= i < |tasks|
    ensures var m := BaseMapping(tasks).value;
      m[i].0 == tasks[i].0 && ReadableName(tasks[i].0).Some?
      && m[i].1 == TaskEntry(ReadableName(tasks[i].0).value, tasks[i].1, None)
  {
    var n := |tasks| - 1;
    var p := tasks[..n];
    if i < n {
      assert tasks[i] == p[i];
      BaseEntries(p, i);
    }
  }

  /** Start-up: one entry per task key, then the configured tasks, category by category. */
  method BuildTaskMapping(tasks: Dict<Dict<string>>, config: Config) returns (r: Option<Mapping>)
    ensures r == TaskMapping(tasks, config)
  {
    var base := BuildBase(tasks);
    if base.None? {
      return None;
    }
    var m := base.value;
    var c := 0;
    while c < |config|
      invariant 0 <= c <= |config|
      invariant MergeConfig(base.value, config[..c]) == m
    {
      assert config[..c + 1][..c] == config[..c];
      m := MergeCategoryLoop(m, config[c].0, config[c].1);
      c := c + 1;
    }
    assert config[..|config|] == config;
    r := Some(m);
  }

  /** The loop over the task data's keys. */
  method BuildBase(tasks: Dict<Dict<string>>) returns (r: Option<Mapping>)
    ensures r == BaseMapping(tasks)
  {
    var m: Mapping := [];
    var i := 0;
    while i < |tasks|
      invariant 0 <= i <= |tasks|
      invariant BaseMapping(tasks[..i]) == Some(m)
    {
      var key := tasks[i].0;
      BaseMappingStep(tasks, i);
      var name := ReadableName(key);
      if name.None? {
        FailurePersists(tasks, i + 1);
        return None;
      }
      m := m + [(key, TaskEntry(name.value, tasks[i].1, None))];
      i := i + 1;
    }
    assert tasks[..|tasks|] == tasks;
    r := Some(m);
  }

  lemma BaseMappingStep(tasks: Dict<Dict<string>>, i: int)
    requires 0 <= i < |tasks|
    ensures var b := BaseMapping(tasks[..i]);
      var d := ReadableName(tasks[i].0);
      BaseMapping(tasks[..i + 1]) ==
        if b.None? || d.None? then None else Some(b.value + [(tasks[i].0, TaskEntry(d.value, tasks[i].1, None))])
  {
    assert tasks[..i + 1][..i] == tasks[..i];
  }

  /** The loop over one category's tasks. */
  method MergeCategoryLoop(m: Mapping, category: string, entries: Dict<Dict<string>>) returns (r: Mapping)
    ensures r == MergeCategory(m, category, entries)
  {
    r := m;
    var j := 0;
    while j < |entries|
      invariant 0 <= j <= |entries|
      invariant r == MergeCategory(m, category, entries[..j])
    {
      MergeCategoryStep(m, category, entries, j);
      r := Put(r, entries[j].0, TaskEntry(entries[j].0, entries[j].1, Some(category)));
      j := j + 1;
    }
    assert entries[..|entries|] == entries;
  }

  lemma MergeCategoryStep(m: Mapping, category: string, entries: Dict<Dict<string>>, j: int)
    requires 0 <= j < |entries|
    ensures MergeCategory(m, category, entries[..j + 1]) ==
      Put(MergeCategory(m, category, entries[..j]), entries[j].0, TaskEntry(entries[j].0, entries[j].1, Some(category)))
  {
    assert entries[..j + 1][..j] == entries[..j];
  }

  /** Once a prefix of the task data fails, the whole does. */
  lemma {:induction false} FailurePersists(tasks: Dict<Dict<string>>, k: int)
    requires 0 <= k <= |tasks| && BaseMapping(tasks[..k]).None?
    ensures BaseMapping(tasks).None?
    decreases |tasks| - k
  {
    if k < |tasks| {
      assert tasks[..k + 1][..k] == tasks[..k];
      FailurePersists(tasks, k + 1);
    } else {
      assert tasks[..k] == tasks;
    }
  }

  // ---------------------------------------------------------------- derived lists

  /** The display names of the table in increasing key order. */
  function AvailableTasks(m: Mapping): (r: seq<string>)
    ensures |r| == |m|
  {
    var s := SortByKey(m);
    seq(|s|, i requires 0 <= i < |s| => s[i].1.display)
  }

  /** The `i`-th available task is the display name of the table's `i`-th smallest key. */
  lemma AvailableTasksOrder(m: Mapping, i: int)
    requires 0 <= i < |m|
    ensures var s := SortByKey(m);
      s[i].0 in Keys(m) && AvailableTasks(m)[i] == AsMap(m)[s[i].0].display
      && (forall j :: 0 <= j < |m| && j != i ==> (Less(s[i].0, s[j].0) <==> i < j))
  {
    var s := SortByKey(m);
    SortByKeyMap(m);
    AsMapAt(s, i);
    forall j | 0 <= j < |m| && j != i
      ensures Less(s[i].0, s[j].0) <==> i < j
    {
      if j < i {
        assert Less(s[j].0, s[i].0);
        LessAsymmetric(s[j].0, s[i].0);
      }
    }
  }

  /** A display name lower-cased, spaces made underscores and hyphens dropped. */
  function TaskKey(display: string): (r: string)
    ensures forall c :: c in r ==> c != ' ' && c != '-' && !IsUpper(c)
  {
    var lowered := Lower(display);
    var underscored := ReplaceAll(lowered, " ", "_");
    ReplaceAllChars(lowered, ' ', "_");
    ReplaceAllChars(underscored, '-', "");
    ReplaceAll(underscored, "-", "")
  }

  /** What one character of a display name becomes in its key: a hyphen is dropped,
      a space becomes `_`, any other character is lower-cased. */
  function KeyChar(c: char): string {
    if c == '-' then "" else if c == ' ' then "_" else [ToLower(c)]
  }

  /** The key of a display name, character by character. */
  function KeyChars(display: string): (r: string)
    ensures |r| <= |display|
  {
    if display == [] then [] else KeyChar(display[0]) + KeyChars(display[1..])
  }

  /** The chain of string operations computes the key character by character. */
  lemma {:induction false} TaskKeyChars(display: string)
    ensures TaskKey(display) == KeyChars(display)
    decreases |display|
  {
    if display != [] {
      TaskKeyChars(display[1..]);
      TaskKeyStep(display[0], display[1..]);
      assert display == [display[0]] + display[1..];
    }
  }

  /** One character of `TaskKeyChars`. */
  lemma TaskKeyStep(c: char, rest: string)
    ensures TaskKey([c] + rest) == KeyChar(c) + TaskKey(rest)
  {
    var l := ToLower(c);
    var u := if l == ' ' then "_" else [l];
    var tail := ReplaceAll(Lower(rest), " ", "_");
    assert ReplaceAll(Lower([c] + rest), " ", "_") == u + tail by {
      assert Lower([c] + rest) == [l] + Lower(rest);
      ReplaceOneCharFront(l, Lower(rest), ' ', "_");
    }
    assert ReplaceAll(u + tail, "-", "") == (if u[0] == '-' then "" else u) + ReplaceAll(tail, "-", "") by {
      assert u == [u[0]];
      ReplaceOneCharFront(u[0], tail, '-', "");
    }
    assert (if u[0] == '-' then "" else u) == KeyChar(c) by {
      assert IsUpper(c) ==> IsLetter(l);
    }
  }

  /** Replacing a one-character pattern treats the first character on its own. */
  lemma ReplaceOneCharFront(c: char, rest: string, p: char, rep: string)
    ensures ReplaceAll([c] + rest, [p], rep) == (if c == p then rep else [c]) + ReplaceAll(rest, [p], rep)
  {
    var s := [c] + rest;
    assert s[..1] == [c] && s[1..] == rest;
  }

  /** The index pairs, one per table entry in table order. */
  function TaskKeyPairs(m: Mapping): (r: seq<(string, string)>)
    ensures |r| == |m|
    ensures forall i :: 0 <= i < |m| ==> r[i] == (TaskKey(m[i].1.display), m[i].0)
  {
    seq(|m|, i requires 0 <= i < |m| => (TaskKey(m[i].1.display), m[i].0))
  }

  /** The normalised-name index, built by assigning each pair in turn. */
  function TaskKeys(m: Mapping): Dict<string> {
    Update([], TaskKeyPairs(m))
  }

  /** The index maps a normalised name to the key of the last entry whose display name
      normalises to it, and holds no other names. */
  lemma TaskKeysIndex(m: Mapping, i: int)
    requires 0 <= i < |m|
    requires forall j :: i < j < |m| ==> TaskKey(m[j].1.display) != TaskKey(m[i].1.display)
    ensures var idx := AsMap(TaskKeys(m));
      TaskKey(m[i].1.display) in idx && idx[TaskKey(m[i].1.display)] == m[i].0
  {
    var e := TaskKeyPairs(m);
    AsMapLast(e, i);
  }

  /** Every name in the index is the normalised display name of some entry. */
  lemma TaskKeysSound(m: Mapping, k: string)
    requires k in Keys(TaskKeys(m))
    ensures exists i :: 0 <= i < |m| && TaskKey(m[i].1.display) == k
  {
    var e := TaskKeyPairs(m);
    var i :| 0 <= i < |e| && e[i].0 == k;
  }
}
