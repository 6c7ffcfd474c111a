/** The selection rules of the main page: which tasks a click on a task button leaves
    selected. A button is "active" exactly when its task is in the selection, and
    `catalog` maps every task that has a button to the category it was created under. */
module Constraints {
  import opened Wrappers
  import opened Text

  const Functional := "Functional"
  const VdwGroup: seq<string> := ["D3-0", "D3-BJ", "D4"]
  const CalcGroup: seq<string> := ["Dimer", "Opt", "Frequency", "Single", "TSopt", "MD", "NEB"]

  /** The server-side helpers a multi-select click may start. */
  datatype Calculator = DftU | Magmom | NebImages

  /** JavaScript `Array.prototype.filter`. */
  function Filter(s: seq<string>, keep: string -> bool): (r: seq<string>)
    ensures |r| <= |s|
    ensures forall x :: x in r <==> x in s && keep(x)
  {
    if s == [] then []
    else
      assert s == [s[0]] + s[1..];
      var rest := Filter(s[1..], keep);
      var r := (if keep(s[0]) then [s[0]] else []) + rest;
      assert forall x :: x in r <==> (x == s[0] && keep(x)) || x in rest;
      r
  }

  /** Filters by two predicates that agree everywhere give the same result. */
  lemma {:induction false} FilterExt(s: seq<string>, p: string -> bool, q: string -> bool)
    requires forall x :: p(x) == q(x)
    ensures Filter(s, p) == Filter(s, q)
  {
    if s != [] {
      FilterExt(s[1..], p, q);
    }
  }

  lemma {:induction false} FilterAppend(a: seq<string>, b: seq<string>, keep: string -> bool)
    ensures Filter(a + b, keep) == Filter(a, keep) + Filter(b, keep)
  {
    if a != [] {
      assert (a + b)[0] == a[0];
      assert (a + b)[1..] == a[1..] + b;
      FilterAppend(a[1..], b, keep);
      var head := if keep(a[0]) then [a[0]] else [];
      assert Filter(a + b, keep) == head + Filter(a[1..] + b, keep);
    } else {
      assert a + b == b;
    }
  }

  /** Filtering by `p` and then by `q` is filtering by their conjunction `pq`. */
  lemma {:induction false} FilterFilter(s: seq<string>, p: string -> bool, q: string -> bool, pq: string -> bool)
    requires forall x :: pq(x) == (p(x) && q(x))
    ensures Filter(Filter(s, p), q) == Filter(s, pq)
  {
    if s != [] {
      FilterFilter(s[1..], p, q, pq);
      var head := if p(s[0]) then [s[0]] else [];
      FilterAppend(head, Filter(s[1..], p), q);
    }
  }

  /** A filter that keeps every element changes nothing. */
  lemma {:induction false} FilterKeepsAll(s: seq<string>, keep: string -> bool)
    requires forall i :: 0 <= i < |s| ==> keep(s[i])
    ensures Filter(s, keep) == s
  {
    if s != [] {
      FilterKeepsAll(s[1..], keep);
      assert s == [s[0]] + s[1..];
    }
  }

  lemma {:induction false} FilterNoDups(s: seq<string>, keep: string -> bool)
    requires NoDups(s)
    ensures NoDups(Filter(s, keep))
  {
    if s != [] {
      FilterNoDups(s[1..], keep);
      var t := Filter(s[1..], keep);
      assert s[0] !in s[1..];
      assert s[0] !in t;
    }
  }

  lemma AppendNoDups(s: seq<string>, x: string)
    requires NoDups(s) && x !in s
    ensures NoDups(s + [x])
  {
  }

  /** The tasks still selected after the buttons of `category` are cleared
      (tasks without a button are dropped too). */
  function KeepOutside(catalog: map<string, string>, category: string): string -> bool {
    t => t in catalog && catalog[t] != category
  }

  function IsVdw(t: string): bool { t in VdwGroup }
  function NotVdw(t: string): bool { !IsVdw(t) }
  function NotNcore(t: string): bool { t != "NCORE" }
  function NotFrequency(t: string): bool { t != "Frequency" }

  /** Every task other than `name`. */
  function Other(name: string): string -> bool {
    t => t != name
  }

  /** The group members other than `name` whose buttons exist. */
  function RivalOf(catalog: map<string, string>, name: string): string -> bool {
    t => !(t in CalcGroup && t != name && t in catalog)
  }

  /** Adding `name` through the multi-select branch: append it, then drop the member
      of the Frequency/NCORE pair it conflicts with, then the other members of the
      calculation-type group. */
  function AddMulti(tasks: seq<string>, name: string, catalog: map<string, string>): (r: seq<string>)
    ensures forall t :: t in r <==>
      (t in tasks + [name]
       && !(name == "Frequency" && "NCORE" in catalog && t == "NCORE")
       && !(name == "NCORE" && "Frequency" in catalog && t == "Frequency")
       && !(name in CalcGroup && t in CalcGroup && t != name && t in catalog))
  {
    var s0 := tasks + [name];
    var s1 := if name == "Frequency" && "NCORE" in catalog then Filter(s0, NotNcore) else s0;
    var s2 := if name == "NCORE" && "Frequency" in catalog then Filter(s1, NotFrequency) else s1;
    if name in CalcGroup then Filter(s2, RivalOf(catalog, name)) else s2
  }

  /** `selectTask(name, button, category)`: the selection after one click. */
  function Select(tasks: seq<string>, name: string, category: string, catalog: map<string, string>): (r: seq<string>)
    ensures category == Functional ==>
      |r| >= 1 && r[|r| - 1] == name
      && r[..|r| - 1] == Filter(tasks, KeepOutside(catalog, Functional))
      && (forall t :: t in r[..|r| - 1] <==> t in tasks && t in catalog && catalog[t] != Functional)
    ensures category != Functional && IsVdw(name) ==>
      |r| >= 1 && r[|r| - 1] == name
      && r[..|r| - 1] == Filter(tasks, NotVdw)
      && (forall t :: t in r[..|r| - 1] <==> t in tasks && !IsVdw(t))
    ensures category != Functional && !IsVdw(name) && name in tasks ==>
      r == Filter(tasks, Other(name))
      && |r| < |tasks| && forall t :: t in r <==> t in tasks && t != name
    ensures category != Functional && !IsVdw(name) && name !in tasks ==>
      r == AddMulti(tasks, name, catalog)
  {
    if category == Functional then
      var r := Filter(tasks, KeepOutside(catalog, Functional)) + [name];
      assert r[..|r| - 1] == Filter(tasks, KeepOutside(catalog, Functional));
      r
    else if IsVdw(name) then
      var r := Filter(tasks, NotVdw) + [name];
      assert r[..|r| - 1] == Filter(tasks, NotVdw);
      r
    else if name in tasks then
      var r := Filter(tasks, Other(name));
      assert |r| < |tasks| by { FilterShrinks(tasks, Other(name), name); }
      r
    else
      AddMulti(tasks, name, catalog)
  }

  /** Filtering out something that is present makes the sequence shorter. */
  lemma {:induction false} FilterShrinks(s: seq<string>, keep: string -> bool, x: string)
    requires x in s && !keep(x)
    ensures |Filter(s, keep)| < |s|
  {
    if s[0] != x {
      FilterShrinks(s[1..], keep, x);
    }
  }

  /** The helper a click starts: only an add through the multi-select branch does. */
  function Trigger(tasks: seq<string>, name: string, category: string): (r: Option<Calculator>)
    ensures r.Some? ==> category != Functional && !IsVdw(name) && name !in tasks
    ensures r == Some(DftU) <==> category != Functional && name !in tasks && name == "DFT+U"
    ensures r == Some(Magmom) <==> category != Functional && name !in tasks && name == "ISPIN"
    ensures r == Some(NebImages) <==> category != Functional && name !in tasks && name == "NEB"
  {
    if category == Functional || IsVdw(name) || name in tasks then None
    else if name == "DFT+U" then Some(DftU)
    else if name == "ISPIN" then Some(Magmom)
    else if name == "NEB" then Some(NebImages)
    else None
  }

  /** `clearCategory(category)`. */
  function Clear(tasks: seq<string>, category: string, catalog: map<string, string>): (r: seq<string>)
    ensures forall t :: t in r <==> t in tasks && t in catalog && catalog[t] != category
  {
    Filter(tasks, KeepOutside(catalog, category))
  }

  /** Clearing works task by task and keeps the survivors in their order: clearing a
      concatenation clears each part, and a single task survives exactly when it has
      a button outside the category. */
  lemma {:induction false} ClearKeepsOrder(a: seq<string>, b: seq<string>, category: string, catalog: map<string, string>)
    ensures Clear(a + b, category, catalog) == Clear(a, category, catalog) + Clear(b, category, catalog)
    ensures forall t :: Clear([t], category, catalog) == (if t in catalog && catalog[t] != category then [t] else [])
  {
    FilterAppend(a, b, KeepOutside(catalog, category));
    forall t
      ensures Clear([t], category, catalog) == (if t in catalog && catalog[t] != category then [t] else [])
    {
      FilterSingleton(t, KeepOutside(catalog, category));
    }
  }

  /** `[t]` when `keep` keeps it, nothing otherwise. */
  function Kept(t: string, keep: string -> bool): seq<string> {
    if keep(t) then [t] else []
  }

  lemma FilterSingleton(t: string, keep: string -> bool)
    ensures Filter([t], keep) == Kept(t, keep)
  {
    assert [t][1..] == [];
  }


  /** The start-up selection: the default buttons that exist, in order. */
  const Defaults: seq<string> := ["PBE", "NCORE", "LAPACK", "WRITE"]

  function DefaultSelection(catalog: map<string, string>): (r: seq<string>)
    ensures forall t :: t in r <==> t in Defaults && t in catalog
    ensures r == IfButton("PBE", catalog)
      + (IfButton("NCORE", catalog) + (IfButton("LAPACK", catalog) + IfButton("WRITE", catalog)))
  {
    DefaultsInOrder(catalog);
    Filter(Defaults, HasButton(catalog))
  }

  lemma DefaultsInOrder(catalog: map<string, string>)
    ensures Filter(Defaults, HasButton(catalog)) == IfButton("PBE", catalog)
      + (IfButton("NCORE", catalog) + (IfButton("LAPACK", catalog) + IfButton("WRITE", catalog)))
  {
    var keep := HasButton(catalog);
    FilterFour(Defaults, keep);
    assert forall t :: Kept(t, keep) == IfButton(t, catalog);
  }

  /** `Filter` on four elements keeps each of them in place or drops it. */
  lemma FilterFour(s: seq<string>, keep: string -> bool)
    requires |s| == 4
    ensures Filter(s, keep) == Kept(s[0], keep) + (Kept(s[1], keep) + (Kept(s[2], keep) + Kept(s[3], keep)))
  {
    var k0, k1, k2, k3 := Kept(s[0], keep), Kept(s[1], keep), Kept(s[2], keep), Kept(s[3], keep);
    assert Filter(s[3..], keep) == k3 by {
      FilterCons(s[3..], keep);
      assert s[3..][1..] == [];
    }
    assert Filter(s[2..], keep) == k2 + k3 by {
      FilterCons(s[2..], keep);
      assert s[2..][1..] == s[3..];
    }
    assert Filter(s[1..], keep) == k1 + (k2 + k3) by {
      FilterCons(s[1..], keep);
      assert s[1..][1..] == s[2..];
    }
    assert Filter(s, keep) == k0 + (k1 + (k2 + k3)) by {
      FilterCons(s, keep);
    }
  }

  lemma FilterCons(s: seq<string>, keep: string -> bool)
    requires s != []
    ensures Filter(s, keep) == Kept(s[0], keep) + Filter(s[1..], keep)
  {
  }

  /** `[t]` when `t` has a button, nothing otherwise. */
  function IfButton(t: string, catalog: map<string, string>): seq<string> {
    if t in catalog then [t] else []
  }

  /** The tasks that have a button. */
  function HasButton(catalog: map<string, string>): string -> bool {
    t => t in catalog
  }

  // ---------------------------------------------------------------- properties

  /** What the catalog built from the task configuration satisfies: the fixed
      groups and the default System buttons are not Functional tasks. */
  predicate CatalogShape(catalog: map<string, string>) {
    forall t :: t in catalog && catalog[t] == Functional ==>
      !IsVdw(t) && t !in CalcGroup && t != "NCORE" && t != "LAPACK" && t != "WRITE"
  }

  predicate IsFunctionalTask(catalog: map<string, string>, t: string) {
    t in catalog && catalog[t] == Functional
  }

  /** The invariant the selection rules keep: every selected task has a button, no
      task twice, at most one functional, at most one vdW correction, at most one
      calculation type, and never both Frequency and NCORE. */
  predicate Consistent(tasks: seq<string>, catalog: map<string, string>) {
    (forall t :: t in tasks ==> t in catalog)
    && NoDups(tasks)
    && (forall a, b :: a in tasks && b in tasks && IsFunctionalTask(catalog, a) && IsFunctionalTask(catalog, b) ==> a == b)
    && (forall a, b :: a in tasks && b in tasks && a in VdwGroup && b in VdwGroup ==> a == b)
    && (forall a, b :: a in tasks && b in tasks && a in CalcGroup && b in CalcGroup ==> a == b)
    && !("Frequency" in tasks && "NCORE" in tasks)
  }

  /** Dropping tasks from a consistent selection keeps it consistent. */
  lemma SubsetConsistent(tasks: seq<string>, r: seq<string>, catalog: map<string, string>)
    requires Consistent(tasks, catalog) && NoDups(r)
    requires forall t :: t in r ==> t in tasks
    ensures Consistent(r, catalog)
  {
  }

  lemma FilterConsistent(tasks: seq<string>, keep: string -> bool, catalog: map<string, string>)
    requires Consistent(tasks, catalog)
    ensures Consistent(Filter(tasks, keep), catalog)
  {
    FilterNoDups(tasks, keep);
    SubsetConsistent(tasks, Filter(tasks, keep), catalog);
  }

  lemma DefaultsDistinct()
    ensures NoDups(Defaults)
  {
  }

  /** Any duplicate-free choice among the default buttons is consistent. */
  lemma DefaultsOnly(r: seq<string>, catalog: map<string, string>)
    requires CatalogShape(catalog) && NoDups(r)
    requires forall t :: t in r ==> t in catalog && (t == "PBE" || t == "NCORE" || t == "LAPACK" || t == "WRITE")
    ensures Consistent(r, catalog)
  {
  }

  lemma {:induction false} DefaultsConsistent(catalog: map<string, string>)
    requires CatalogShape(catalog)
    ensures Consistent(DefaultSelection(catalog), catalog)
  {
    DefaultsDistinct();
    FilterNoDups(Defaults, HasButton(catalog));
    DefaultsOnly(DefaultSelection(catalog), catalog);
  }

  lemma {:induction false} ClearConsistent(tasks: seq<string>, category: string, catalog: map<string, string>)
    requires Consistent(tasks, catalog)
    ensures Consistent(Clear(tasks, category, catalog), catalog)
  {
    FilterConsistent(tasks, KeepOutside(catalog, category), catalog);
  }

  /** Appending a functional after all functionals were dropped keeps consistency. */
  lemma AppendFunctionalConsistent(f: seq<string>, name: string, catalog: map<string, string>)
    requires Consistent(f, catalog) && CatalogShape(catalog)
    requires IsFunctionalTask(catalog, name)
    requires forall t :: t in f ==> !IsFunctionalTask(catalog, t)
    ensures Consistent(f + [name], catalog)
  {
    AppendNoDups(f, name);
  }

  lemma AppendVdwConsistent(f: seq<string>, name: string, catalog: map<string, string>)
    requires Consistent(f, catalog) && name in catalog && !IsFunctionalTask(catalog, name)
    requires IsVdw(name) && forall t :: t in f ==> !IsVdw(t)
    ensures Consistent(f + [name], catalog)
  {
    AppendNoDups(f, name);
  }

  /** Every click keeps the selection consistent, provided the clicked button's
      category is the one the catalog records for it. */
  lemma {:induction false} SelectConsistent(tasks: seq<string>, name: string, category: string, catalog: map<string, string>)
    requires Consistent(tasks, catalog) && CatalogShape(catalog)
    requires name in catalog && catalog[name] == category
    ensures Consistent(Select(tasks, name, category, catalog), catalog)
  {
    if category == Functional {
      var f := Filter(tasks, KeepOutside(catalog, Functional));
      FilterConsistent(tasks, KeepOutside(catalog, Functional), catalog);
      AppendFunctionalConsistent(f, name, catalog);
    } else if IsVdw(name) {
      var f := Filter(tasks, NotVdw);
      FilterConsistent(tasks, NotVdw, catalog);
      AppendVdwConsistent(f, name, catalog);
    } else if name in tasks {
      FilterConsistent(tasks, Other(name), catalog);
    } else {
      AddMultiConsistent(tasks, name, catalog);
    }
  }

  lemma {:induction false} AddMultiConsistent(tasks: seq<string>, name: string, catalog: map<string, string>)
    requires Consistent(tasks, catalog) && CatalogShape(catalog)
    requires name in catalog && catalog[name] != Functional && !IsVdw(name) && name !in tasks
    ensures Consistent(AddMulti(tasks, name, catalog), catalog)
  {
    var s0 := tasks + [name];
    AppendNoDups(tasks, name);
    var s1 := if name == "Frequency" && "NCORE" in catalog then Filter(s0, NotNcore) else s0;
    if name == "Frequency" && "NCORE" in catalog { FilterNoDups(s0, NotNcore); }
    var s2 := if name == "NCORE" && "Frequency" in catalog then Filter(s1, NotFrequency) else s1;
    if name == "NCORE" && "Frequency" in catalog { FilterNoDups(s1, NotFrequency); }
    var r := if name in CalcGroup then Filter(s2, RivalOf(catalog, name)) else s2;
    if name in CalcGroup { FilterNoDups(s2, RivalOf(catalog, name)); }
    assert r == AddMulti(tasks, name, catalog);
    AddMultiShape(tasks, name, catalog);
  }

  lemma AddMultiShape(tasks: seq<string>, name: string, catalog: map<string, string>)
    requires Consistent(tasks, catalog) && CatalogShape(catalog)
    requires name in catalog && catalog[name] != Functional && !IsVdw(name) && name !in tasks
    requires NoDups(AddMulti(tasks, name, catalog))
    ensures Consistent(AddMulti(tasks, name, catalog), catalog)
  {
    var r := AddMulti(tasks, name, catalog);
    assert forall t :: t in r ==> t in tasks || t == name;
  }

  /** Re-selecting the active functional changes nothing. */
  lemma {:induction false} FunctionalIdempotent(tasks: seq<string>, name: string, catalog: map<string, string>)
    requires name in catalog && catalog[name] == Functional
    ensures Select(Select(tasks, name, Functional, catalog), name, Functional, catalog)
         == Select(tasks, name, Functional, catalog)
  {
    var keep := KeepOutside(catalog, Functional);
    var f := Filter(tasks, keep);
    FilterAppend(f, [name], keep);
    FilterFilter(tasks, keep, keep, keep);
  }

  /** Re-selecting the active vdW correction keeps it selected (moved to the end)
      instead of toggling it off. */
  lemma {:induction false} VdwIdempotent(tasks: seq<string>, name: string, category: string, catalog: map<string, string>)
    requires category != Functional && IsVdw(name)
    ensures name in Select(tasks, name, category, catalog)
    ensures Select(Select(tasks, name, category, catalog), name, category, catalog)
         == Select(tasks, name, category, catalog)
  {
    var keep := NotVdw;
    var f := Filter(tasks, keep);
    var once := f + [name];
    assert Select(tasks, name, category, catalog) == once;
    FilterAppend(f, [name], keep);
    assert Filter([name], keep) == [];
    FilterFilter(tasks, keep, keep, keep);
    assert Select(once, name, category, catalog) == Filter(once, keep) + [name];
  }

  /** A multi-select task that takes part in no conflict toggles: on and off again
      restores the selection exactly. */
  lemma {:induction false} ToggleRoundTrip(tasks: seq<string>, name: string, category: string, catalog: map<string, string>)
    requires category != Functional && !IsVdw(name) && name !in tasks
    requires name !in CalcGroup && name != "NCORE"
    ensures Select(tasks, name, category, catalog) == tasks + [name]
    ensures Select(Select(tasks, name, category, catalog), name, category, catalog) == tasks
  {
    var keep := Other(name);
    FilterAppend(tasks, [name], keep);
    FilterKeepsAll(tasks, keep);
  }

  /** After a multi-select add, Frequency and NCORE are never both selected. */
  lemma ConflictPair(tasks: seq<string>, name: string, catalog: map<string, string>)
    requires forall t :: t in tasks ==> t in catalog
    requires !("Frequency" in tasks && "NCORE" in tasks)
    requires name in catalog
    ensures !("Frequency" in AddMulti(tasks, name, catalog) && "NCORE" in AddMulti(tasks, name, catalog))
  {
  }

  /** After adding a calculation type, it is the only one selected. */
  lemma GroupExclusive(tasks: seq<string>, name: string, catalog: map<string, string>)
    requires name in CalcGroup
    requires forall t :: t in tasks ==> t in catalog
    ensures name in AddMulti(tasks, name, catalog)
    ensures forall t :: t in AddMulti(tasks, name, catalog) && t in CalcGroup ==> t == name
  {
  }

  function OutsideGroup(t: string): bool { t !in CalcGroup }
  function OutsideGroupNorNcore(t: string): bool { t !in CalcGroup && t != "NCORE" }

  /** The rivals of `name` are all inside the group: dropping them and then the
      tasks inside the group is dropping the tasks inside the group. */
  lemma {:induction false} RivalsThenOutside(s: seq<string>, catalog: map<string, string>, name: string)
    ensures Filter(Filter(s, RivalOf(catalog, name)), OutsideGroup) == Filter(s, OutsideGroup)
  {
    var both := (t: string) => RivalOf(catalog, name)(t) && OutsideGroup(t);
    FilterFilter(s, RivalOf(catalog, name), OutsideGroup, both);
    FilterExt(s, both, OutsideGroup);
  }

  /** Adding a calculation type other than Frequency keeps the tasks outside the
      group exactly as they were, in their order. */
  lemma {:induction false} GroupKeepsOrder(tasks: seq<string>, name: string, catalog: map<string, string>)
    requires name in CalcGroup && name != "Frequency"
    ensures Filter(AddMulti(tasks, name, catalog), OutsideGroup) == Filter(tasks, OutsideGroup)
  {
    var s0 := tasks + [name];
    assert name != "NCORE";
    assert AddMulti(tasks, name, catalog) == Filter(s0, RivalOf(catalog, name));
    RivalsThenOutside(s0, catalog, name);
    FilterAppend(tasks, [name], OutsideGroup);
    assert Filter([name], OutsideGroup) == [];
  }

  /** Adding Frequency keeps the tasks outside the group in their order, less NCORE. */
  lemma {:induction false} FrequencyKeepsOrder(tasks: seq<string>, catalog: map<string, string>)
    requires "NCORE" in catalog
    ensures Filter(AddMulti(tasks, "Frequency", catalog), OutsideGroup) == Filter(tasks, OutsideGroupNorNcore)
  {
    var s0 := tasks + ["Frequency"];
    var s1 := Filter(s0, NotNcore);
    assert AddMulti(tasks, "Frequency", catalog) == Filter(s1, RivalOf(catalog, "Frequency"));
    RivalsThenOutside(s1, catalog, "Frequency");
    FilterFilter(s0, NotNcore, OutsideGroup, OutsideGroupNorNcore);
    FilterAppend(tasks, ["Frequency"], OutsideGroupNorNcore);
    assert Filter(["Frequency"], OutsideGroupNorNcore) == [];
  }
}
