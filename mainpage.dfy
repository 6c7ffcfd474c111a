/** The main page's module-level state and the handlers that change it: the task
    selection, the parameters loaded for it, the cached calculator results, the section
    checkboxes, the custom-parameter rows and the preview. Responses from the server
    arrive as arguments. */
module MainPage {
  import opened Wrappers
  import opened Dicts
  import opened Json
  import opened Constraints
  import opened Client
  import opened Text
  import Calculators
  import Render
  import Server

  // ---------------------------------------------------------------- section checkboxes

  /** The checkbox list `displayStandardParameters` builds: one checked box per
      standard section, in the order the sections arrive, the system section skipped. */
  function SectionBoxes(keys: seq<string>): (r: seq<(string, bool)>)
    ensures |r| <= |keys|
    ensures forall i :: 0 <= i < |r| ==> r[i].1 && r[i].0 != Render.SystemSection && r[i].0 in keys
    ensures forall k :: k in keys && k != Render.SystemSection ==> (k, true) in r
  {
    if keys == [] then []
    else
      var p := keys[..|keys| - 1];
      var k := keys[|keys| - 1];
      assert keys == p + [k];
      var b := SectionBoxes(p);
      if k == Render.SystemSection then b else b + [(k, true)]
  }

  /** The boxes follow the sections one by one, in order: the boxes of two lists of
      sections in a row are the boxes of each, and a single section gets one checked box
      unless it is the system section. */
  lemma {:induction false} SectionBoxesInOrder(a: seq<string>, b: seq<string>)
    ensures SectionBoxes(a + b) == SectionBoxes(a) + SectionBoxes(b)
    ensures forall k :: SectionBoxes([k]) == (if k == Render.SystemSection then [] else [(k, true)])
    decreases |b|
  {
    if b == [] {
      assert a + b == a;
    } else {
      var p := b[..|b| - 1];
      assert (a + b)[..|a + b| - 1] == a + p;
      assert (a + b)[|a + b| - 1] == b[|b| - 1];
      SectionBoxesInOrder(a, p);
    }
    forall k
      ensures SectionBoxes([k]) == (if k == Render.SystemSection then [] else [(k, true)])
    {
      assert [k][..0] == [];
    }
  }

  /** The boxes `generateINCAR` reads: those whose section key is non-empty. */
  function Flags(boxes: seq<(string, bool)>): (r: seq<(string, bool)>)
    ensures |r| <= |boxes|
  {
    if boxes == [] then []
    else
      var p := boxes[..|boxes| - 1];
      var x := boxes[|boxes| - 1];
      Flags(p) + if x.0 != [] then [x] else []
  }

  lemma FlagsStep(boxes: seq<(string, bool)>, i: int)
    requires 0 <= i < |boxes|
    ensures boxes[i].0 != [] ==> Flags(boxes[..i + 1]) == Flags(boxes[..i]) + [boxes[i]]
    ensures boxes[i].0 == [] ==> Flags(boxes[..i + 1]) == Flags(boxes[..i])
  {
    assert boxes[..i + 1][..i] == boxes[..i];
  }

  /** Every box read has a non-empty key and is one of the page's boxes. */
  lemma {:induction false} FlagsFrom(boxes: seq<(string, bool)>)
    ensures forall j :: 0 <= j < |Flags(boxes)| ==> Flags(boxes)[j].0 != [] && Flags(boxes)[j] in boxes
  {
    if boxes != [] {
      var p := boxes[..|boxes| - 1];
      FlagsFrom(p);
      assert boxes == p + [boxes[|boxes| - 1]];
    }
  }

  /** One more box sets its key, when non-empty, and leaves every other key alone. */
  lemma FlagsSnocKey(boxes: seq<(string, bool)>, k: string)
    requires boxes != []
    ensures var x := boxes[|boxes| - 1];
      x.0 != [] && x.0 == k ==> k in AsMap(Flags(boxes)) && AsMap(Flags(boxes))[k] == x.1
    ensures var x := boxes[|boxes| - 1];
      var before := AsMap(Flags(boxes[..|boxes| - 1]));
      x.0 != k ==>
        (k in AsMap(Flags(boxes)) <==> k in before) && (k in before ==> AsMap(Flags(boxes))[k] == before[k])
  {
    var p := boxes[..|boxes| - 1];
    var x := boxes[|boxes| - 1];
    if x.0 != [] {
      assert Flags(boxes) == Flags(p) + [x];
      AsMapSnoc(Flags(p), x);
    } else {
      assert Flags(boxes) == Flags(p);
    }
  }

  /** The `include_sections` object: each box's state assigned under its key. */
  function SectionFlags(boxes: seq<(string, bool)>): Dict<bool> {
    Update([], Flags(boxes))
  }

  /** A section is in the object when a box carries its non-empty key, and its value
      is the state of the last such box. */
  lemma {:induction false} SectionFlagsLastWins(boxes: seq<(string, bool)>, k: string, i: int)
    requires k != [] && IsLastWith(boxes, k, i)
    ensures k in AsMap(SectionFlags(boxes)) && AsMap(SectionFlags(boxes))[k] == boxes[i].1
  {
    FlagsLastWins(boxes, k, i);
  }

  lemma {:induction false} FlagsLastWins(boxes: seq<(string, bool)>, k: string, i: int)
    requires k != [] && IsLastWith(boxes, k, i)
    ensures k in AsMap(Flags(boxes)) && AsMap(Flags(boxes))[k] == boxes[i].1
  {
    var n := |boxes| - 1;
    var p := boxes[..n];
    FlagsSnocKey(boxes, k);
    if i < n {
      forall j | i < j < n
        ensures p[j].0 != k
      {
        assert p[j] == boxes[j];
      }
      assert IsLastWith(p, k, i);
      FlagsLastWins(p, k, i);
      var before := AsMap(Flags(p));
      assert boxes[n].0 != k && k in before && before[k] == boxes[i].1;
    } else {
      assert boxes[n].0 == k;
    }
  }

  /** Only boxes with a non-empty key reach the object. */
  lemma FlagsKeys(boxes: seq<(string, bool)>, k: string)
    requires k in Keys(SectionFlags(boxes))
    ensures k != [] && exists i :: 0 <= i < |boxes| && boxes[i].0 == k
  {
    FlagsFrom(boxes);
    var j :| 0 <= j < |Flags(boxes)| && Flags(boxes)[j].0 == k;
    var x := Flags(boxes)[j];
    var i :| 0 <= i < |boxes| && boxes[i] == x;
  }

  /** Every box unchecked, as the reset leaves them. */
  function Unchecked(boxes: seq<(string, bool)>): (r: seq<(string, bool)>)
    ensures |r| == |boxes| && forall i :: 0 <= i < |r| ==> r[i] == (boxes[i].0, false)
  {
    seq(|boxes|, i requires 0 <= i < |boxes| => (boxes[i].0, false))
  }

  /** After the reset every section in the request is switched off. */
  lemma UncheckedFlagsOff(boxes: seq<(string, bool)>, k: string)
    requires k in AsMap(SectionFlags(Unchecked(boxes)))
    ensures !AsMap(SectionFlags(Unchecked(boxes)))[k]
  {
    var e := Flags(Unchecked(boxes));
    FlagsFrom(Unchecked(boxes));
    AsMapLastWins(e, k);
    var i :| IsLastWith(e, k, i) && AsMap(e)[k] == e[i].1;
    assert e[i] in Unchecked(boxes);
  }

  /** The rows the reset leaves: the first one, emptied, when there is one. */
  function ResetRows(rows: seq<Row>): (r: seq<Row>)
    ensures |r| <= 1 && (r == [] <==> rows == [])
  {
    if rows == [] then [] else [Row("", "")]
  }

  /** After the reset a request carries no custom parameter, whatever the caches hold. */
  lemma ResetRequestEmpty(rows: seq<Row>, dftu: Option<DftUValues>, magmom: Option<string>, images: Option<string>)
    ensures CustomParams(ResetRows(rows), dftu, magmom, images, []) == []
  {
    var r := ResetRows(rows);
    assert Accepted(r) == [] by {
      if r != [] {
        assert r[..0] == [];
      }
    }
    assert RowOverrides(r) == [] by {
      if r != [] {
        assert r[..0] == [];
      }
    }
    assert Derived(dftu, magmom, images, []) == [];
  }

  /** A reply of the server is shown in full: its text, its parameter count and its
      number of lines. */
  lemma DisplayReply(mapping: Server.Mapping, standard: Dict<Dict<string>>, selected: seq<string>,
                     custom: seq<(string, string)>, switches: seq<(string, bool)>)
    ensures var r := Server.Generate(mapping, standard, selected, custom, switches);
      Display(Server.Payload(r)) == Shown(r.content, NatToString(r.paramCount), CountChar(r.content, '\n') + 1)
  {
    GeneratedNonEmpty(mapping, standard, selected, custom, switches);
    DisplayPayload(Server.Generate(mapping, standard, selected, custom, switches));
  }

  lemma GeneratedNonEmpty(mapping: Server.Mapping, standard: Dict<Dict<string>>, selected: seq<string>,
                          custom: seq<(string, string)>, switches: seq<(string, bool)>)
    ensures Server.Generate(mapping, standard, selected, custom, switches).content != []
  {
    var r := Server.Generate(mapping, standard, selected, custom, switches);
    assert |r.content| > 0;
  }

  lemma DisplayPayload(r: Server.Reply)
    requires r.content != []
    ensures Display(Server.Payload(r)) == Shown(r.content, NatToString(r.paramCount), CountChar(r.content, '\n') + 1)
  {
    var obj := Server.Payload(r);
    assert obj[0] == ("incar_content", Str(r.content)) && obj[1] == ("param_count", Num(r.paramCount));
    AsMapAt(obj, 0);
    AsMapAt(obj, 1);
    assert "error" !in Keys(obj);
  }

  // ---------------------------------------------------------------- task parameters

  /** The parameters joined from the responses that arrived, in arrival order; a
      failed request (`None`) adds nothing. */
  function Joined(arrivals: seq<Option<Dict<string>>>): Dict<string> {
    if arrivals == [] then []
    else
      var r := Joined(arrivals[..|arrivals| - 1]);
      var x := arrivals[|arrivals| - 1];
      if x.Some? then Update(r, x.value) else r
  }

  predicate Answers(arrivals: seq<Option<Dict<string>>>, i: int, k: string) {
    0 <= i < |arrivals| && arrivals[i].Some? && k in Keys(arrivals[i].value)
  }

  /** One more arrival adds the keys of its response, if it has one. */
  lemma JoinedSnocKey(arrivals: seq<Option<Dict<string>>>, k: string)
    requires arrivals != []
    ensures k in Keys(Joined(arrivals)) <==>
      k in Keys(Joined(arrivals[..|arrivals| - 1])) || Answers(arrivals, |arrivals| - 1, k)
  {
  }

  /** A key is joined exactly when some response that arrived holds it; by
      `JoinedLastWins` it takes the value of the last such response. */
  lemma {:induction false} JoinedKeysSound(arrivals: seq<Option<Dict<string>>>, k: string)
    requires k in Keys(Joined(arrivals))
    ensures exists i :: Answers(arrivals, i, k)
  {
    var n := |arrivals| - 1;
    JoinedSnocKey(arrivals, k);
    if Answers(arrivals, n, k) {
    } else {
      var p := arrivals[..n];
      JoinedKeysSound(p, k);
      var i :| Answers(p, i, k);
      assert Answers(arrivals, i, k);
    }
  }

  lemma {:induction false} JoinedKeysComplete(arrivals: seq<Option<Dict<string>>>, k: string, i: int)
    requires Answers(arrivals, i, k)
    ensures k in Keys(Joined(arrivals))
  {
    var n := |arrivals| - 1;
    var p := arrivals[..n];
    if i < n {
      assert Answers(p, i, k);
      JoinedKeysComplete(p, k, i);
    }
    JoinedSnocKey(arrivals, k);
  }

  lemma {:induction false} JoinedLastWins(arrivals: seq<Option<Dict<string>>>, k: string, i: int)
    requires Answers(arrivals, i, k)
    requires forall j :: i < j < |arrivals| ==> !Answers(arrivals, j, k)
    ensures k in AsMap(Joined(arrivals)) && AsMap(Joined(arrivals))[k] == AsMap(arrivals[i].value)[k]
  {
    var n := |arrivals| - 1;
    var p := arrivals[..n];
    JoinedSnocMap(arrivals);
    if i < n {
      assert Answers(p, i, k);
      forall j | i < j < n
        ensures !Answers(p, j, k)
      {
        assert p[j] == arrivals[j] && !Answers(arrivals, j, k);
      }
      JoinedLastWins(p, k, i);
      assert !Answers(arrivals, n, k);
    }
  }

  lemma JoinedSnocMap(arrivals: seq<Option<Dict<string>>>)
    requires arrivals != []
    ensures var x := arrivals[|arrivals| - 1];
      AsMap(Joined(arrivals)) ==
        if x.Some? then AsMap(Joined(arrivals[..|arrivals| - 1])) + AsMap(x.value)
        else AsMap(Joined(arrivals[..|arrivals| - 1]))
  {
  }

  /** `currentParams` after `loadTaskParameters(names)` once `arrivals` came back:
      emptied for no names, the joined parameters once every request has answered,
      otherwise what it was. */
  function LoadedParams(names: seq<string>, arrivals: seq<Option<Dict<string>>>, previous: Dict<string>): Dict<string> {
    if names == [] then []
    else if |arrivals| >= |names| then Joined(arrivals[..|names|])
    else previous
  }

  lemma JoinedStep(arrivals: seq<Option<Dict<string>>>, i: int)
    requires 0 <= i < |arrivals|
    ensures Joined(arrivals[..i + 1]) ==
      if arrivals[i].Some? then Update(Joined(arrivals[..i]), arrivals[i].value) else Joined(arrivals[..i])
  {
    assert arrivals[..i + 1][..i] == arrivals[..i];
  }

  // ---------------------------------------------------------------- the page

  lemma FilterStep(s: seq<string>, k: int, keep: string -> bool)
    requires 0 <= k < |s|
    ensures keep(s[k]) ==> Filter(s[..k + 1], keep) == Filter(s[..k], keep) + [s[k]]
    ensures !keep(s[k]) ==> Filter(s[..k + 1], keep) == Filter(s[..k], keep)
  {
    assert s[..k + 1] == s[..k] + [s[k]];
    FilterAppend(s[..k], [s[k]], keep);
    assert [s[k]][1..] == [];
  }

  class Session {
    /** The category each task button was created under. */
    var catalog: map<string, string>
    /** `selectedTasks`. */
    var tasks: seq<string>
    /** `currentParams`. */
    var currentParams: Dict<string>
    /** `window.dftuParams`, `window.magmomValue`, `window.nebImages`. */
    var dftu: Option<DftUValues>
    var magmom: Option<string>
    var images: Option<string>
    /** The standard-section checkboxes in page order: section key and state. */
    var boxes: seq<(string, bool)>
    /** The custom-parameter rows in page order. */
    var rows: seq<Row>
    /** The preview box and the download button. */
    var preview: string
    var downloadEnabled: bool

    /** The selection is consistent with the selection rules over a catalog of the
        expected shape. */
    predicate Valid()
      reads this
    {
      Consistent(tasks, catalog) && CatalogShape(catalog)
    }

    /** The page once its buttons exist and the standard sections have arrived. */
    constructor (catalog: map<string, string>, sectionKeys: seq<string>, rows: seq<Row>)
      ensures this.catalog == catalog && tasks == [] && currentParams == []
      ensures dftu == None && magmom == None && images == None
      ensures boxes == SectionBoxes(sectionKeys) && this.rows == rows
      ensures preview == [] && !downloadEnabled
      ensures CatalogShape(catalog) ==> Valid()
    {
      this.catalog := catalog;
      tasks := [];
      currentParams := [];
      dftu, magmom, images := None, None, None;
      boxes := SectionBoxes(sectionKeys);
      this.rows := rows;
      preview := [];
      downloadEnabled := false;
    }

    /** The start-up selection: each default button that exists is pushed in order. */
    method InitializeDefaults()
      modifies this`tasks
      ensures tasks == old(tasks) + DefaultSelection(catalog)
      ensures old(tasks) == [] && CatalogShape(catalog) ==> Valid()
    {
      var pushed := DefaultButtons(catalog);
      if tasks == [] && CatalogShape(catalog) {
        DefaultsConsistent(catalog);
        assert [] + pushed == pushed;
      }
      tasks := tasks + pushed;
    }

    /** The default loop: the names whose button exists, in order. */
    static method DefaultButtons(catalog: map<string, string>) returns (pushed: seq<string>)
      ensures pushed == DefaultSelection(catalog)
    {
      pushed := [];
      var k := 0;
      while k < |Defaults|
        invariant 0 <= k <= |Defaults|
        invariant pushed == Filter(Defaults[..k], HasButton(catalog))
      {
        var name := Defaults[k];
        FilterStep(Defaults, k, HasButton(catalog));
        if name in catalog {
          pushed := pushed + [name];
        }
        k := k + 1;
      }
      assert Defaults[..|Defaults|] == Defaults;
    }

    /** `selectTask(name, button, category)`: the selection rules, and the calculator
        the click starts. */
    method SelectTask(name: string, category: string) returns (started: Option<Calculator>)
      modifies this`tasks
      ensures tasks == Select(old(tasks), name, category, catalog)
      ensures started == Trigger(old(tasks), name, category)
      ensures old(Valid()) && name in catalog && catalog[name] == category ==> Valid()
    {
      ghost var before := tasks;
      started := None;
      if category == Functional {
        tasks := Filter(tasks, KeepOutside(catalog, Functional));
        tasks := tasks + [name];
      } else if name in VdwGroup {
        tasks := Filter(tasks, NotVdw);
        tasks := tasks + [name];
      } else if name in tasks {
        tasks := Filter(tasks, Other(name));
      } else {
        tasks := tasks + [name];
        if name == "Frequency" && "NCORE" in catalog {
          tasks := Filter(tasks, NotNcore);
        }
        if name == "NCORE" && "Frequency" in catalog {
          tasks := Filter(tasks, NotFrequency);
        }
        if name in CalcGroup {
          tasks := Filter(tasks, RivalOf(catalog, name));
        }
        if name == "DFT+U" {
          started := Some(DftU);
        } else if name == "ISPIN" {
          started := Some(Magmom);
        } else if name == "NEB" {
          started := Some(NebImages);
        }
      }
      if Consistent(before, catalog) && CatalogShape(catalog) && name in catalog && catalog[name] == category {
        SelectConsistent(before, name, category, catalog);
      }
    }

    /** `clearCategory(category)`. */
    method ClearCategory(category: string)
      modifies this`tasks
      ensures tasks == Clear(old(tasks), category, catalog)
      ensures old(Valid()) ==> Valid()
    {
      if Valid() {
        ClearConsistent(tasks, category, catalog);
      }
      tasks := Filter(tasks, KeepOutside(catalog, category));
    }

    /** `loadTaskParameters(names)` after the responses `arrivals` came back, in
        arrival order: each response is spread over the parameters joined so far and
        counted, a failed one only counted; the count reaching the number of names
        publishes the joined parameters. */
    method LoadTaskParameters(names: seq<string>, arrivals: seq<Option<Dict<string>>>)
      modifies this`currentParams
      ensures currentParams == LoadedParams(names, arrivals, old(currentParams))
    {
      if |names| == 0 {
        currentParams := [];
        return;
      }
      var allParams: Dict<string> := [];
      var loadedCount := 0;
      while loadedCount < |arrivals|
        invariant 0 <= loadedCount <= |arrivals|
        invariant allParams == Joined(arrivals[..loadedCount])
        invariant currentParams == if loadedCount >= |names| then Joined(arrivals[..|names|]) else old(currentParams)
      {
        JoinedStep(arrivals, loadedCount);
        var response := arrivals[loadedCount];
        if response.Some? {
          allParams := Update(allParams, response.value);
        }
        loadedCount := loadedCount + 1;
        if loadedCount == |names| {
          currentParams := allParams;
        }
      }
    }

    /** A DFT+U reply: cached on success, otherwise the cache is kept. */
    method ReceiveDftU(reply: Calculators.DftUReply)
      modifies this`dftu
      ensures dftu == if reply.DftUOk? then Some(DftUValues(reply.ldaul, reply.ldauu, reply.ldauj)) else old(dftu)
    {
      if reply.DftUOk? {
        dftu := Some(DftUValues(reply.ldaul, reply.ldauu, reply.ldauj));
      }
    }

    /** A MAGMOM reply: cached on success, otherwise the cache is kept. */
    method ReceiveMagmom(reply: Calculators.MagmomReply)
      modifies this`magmom
      ensures magmom == if reply.MagmomOk? then Some(reply.magmom) else old(magmom)
    {
      if reply.MagmomOk? {
        magmom := Some(reply.magmom);
      }
    }

    /** A NEB reply: the IMAGES value cached on success, otherwise the cache is kept. */
    method ReceiveNebImages(reply: Calculators.NebReply)
      modifies this`images
      ensures images == if reply.NebOk? then Some(reply.images) else old(images)
    {
      if reply.NebOk? {
        images := Some(reply.images);
      }
    }

    /** The row loop of `generateINCAR`: every row with both boxes filled is assigned. */
    method RowParams() returns (custom: Dict<string>)
      ensures custom == RowOverrides(rows)
    {
      custom := [];
      var i := 0;
      while i < |rows|
        invariant 0 <= i <= |rows|
        invariant custom == RowOverrides(rows[..i])
      {
        assert rows[..i + 1][..i] == rows[..i];
        var row := rows[i];
        if row.key != [] && row.value != [] {
          custom := Put(custom, row.key, row.value);
        }
        i := i + 1;
      }
      assert rows[..|rows|] == rows;
    }

    /** The cached values `generateINCAR` writes over the rows' parameters. */
    static method AddDerived(base: Dict<string>, dftu: Option<DftUValues>, magmom: Option<string>,
                             images: Option<string>, tasks: seq<string>) returns (custom: Dict<string>)
      ensures custom == Update(base, Derived(dftu, magmom, images, tasks))
    {
      ghost var a := if dftu.Some? && "DFT+U" in tasks
        then [("LDAUL", dftu.value.ldaul), ("LDAUU", dftu.value.ldauu), ("LDAUJ", dftu.value.ldauj)]
        else [];
      ghost var b := if magmom.Some? && magmom.value != [] && "ISPIN" in tasks then [("MAGMOM", magmom.value)] else [];
      ghost var c := if images.Some? && images.value != [] && "NEB" in tasks then [("IMAGES", images.value)] else [];
      assert Derived(dftu, magmom, images, tasks) == (a + b) + c;
      custom := base;
      if dftu.Some? && "DFT+U" in tasks {
        var v := dftu.value;
        custom := Update(custom, [("LDAUL", v.ldaul), ("LDAUU", v.ldauu), ("LDAUJ", v.ldauj)]);
      }
      assert custom == Update(base, a);
      if magmom.Some? && magmom.value != [] && "ISPIN" in tasks {
        UpdateSnoc(base, a, ("MAGMOM", magmom.value));
        custom := Put(custom, "MAGMOM", magmom.value);
      } else {
        assert b == [];
        assert a + b == a;
      }
      assert custom == Update(base, a + b);
      if images.Some? && images.value != [] && "NEB" in tasks {
        UpdateSnoc(base, a + b, ("IMAGES", images.value));
        custom := Put(custom, "IMAGES", images.value);
      } else {
        assert c == [];
        assert (a + b) + c == a + b;
      }
    }

    /** The checkbox loop of `generateINCAR`. */
    method IncludeFlags() returns (switches: Dict<bool>)
      ensures switches == SectionFlags(boxes)
    {
      var page := boxes;
      switches := [];
      var i := 0;
      while i < |page|
        invariant 0 <= i <= |page|
        invariant switches == Update([], Flags(page[..i]))
      {
        var box := page[i];
        FlagsStep(page, i);
        if box.0 != [] {
          UpdateSnoc([], Flags(page[..i]), box);
          switches := Put(switches, box.0, box.1);
        }
        i := i + 1;
      }
      assert page[..|page|] == page;
    }

    /** The request body `generateINCAR` sends: the selection, the section switches
        and the custom parameters with the cached values written over the rows. */
    method GenerateRequest() returns (selected: seq<string>, switches: Dict<bool>, custom: Dict<string>)
      ensures selected == tasks
      ensures switches == SectionFlags(boxes)
      ensures custom == CustomParams(rows, dftu, magmom, images, tasks)
    {
      switches := IncludeFlags();
      var base := RowParams();
      custom := AddDerived(base, dftu, magmom, images, tasks);
      selected := tasks;
    }

    /** `displayINCAR(data)`: the preview shows the outcome's text; the download button
        is enabled for a shown text, disabled for an error or an empty result, and left
        as it was when the content is not text (the line count throws first). */
    method ShowResponse(data: Object) returns (outcome: Outcome)
      modifies this`preview, this`downloadEnabled
      ensures outcome == Display(data)
      ensures preview == PreviewText(outcome)
      ensures downloadEnabled == match outcome
        case Shown(_, _, _) => true
        case NotText(_) => old(downloadEnabled)
        case _ => false
    {
      outcome := Display(data);
      preview := PreviewText(outcome);
      match outcome
      case ApiError(_) =>
        downloadEnabled := false;
      case EmptyResult =>
        downloadEnabled := false;
      case Shown(_, _, _) =>
        downloadEnabled := true;
      case NotText(_) =>
    }

    /** The checkbox loop of the reset. */
    method UncheckAll()
      modifies this`boxes
      ensures boxes == Unchecked(old(boxes))
    {
      var i := 0;
      while i < |boxes|
        invariant 0 <= i <= |boxes| == |old(boxes)|
        invariant forall j :: 0 <= j < i ==> boxes[j] == (old(boxes)[j].0, false)
        invariant forall j :: i <= j < |boxes| ==> boxes[j] == old(boxes)[j]
      {
        boxes := boxes[i := (boxes[i].0, false)];
        i := i + 1;
      }
    }

    /** `resetForm()` once the confirmation was answered: on confirmation the
        selection, the checkboxes, the rows, the preview, the download button and the
        loaded parameters are cleared; the calculator caches are not. */
    method ResetForm(confirmed: bool)
      modifies this`tasks, this`boxes, this`rows, this`preview, this`downloadEnabled, this`currentParams
      ensures !confirmed ==>
        tasks == old(tasks) && boxes == old(boxes) && rows == old(rows)
        && preview == old(preview) && downloadEnabled == old(downloadEnabled) && currentParams == old(currentParams)
      ensures confirmed ==>
        tasks == [] && boxes == Unchecked(old(boxes)) && rows == ResetRows(old(rows))
        && preview == [] && !downloadEnabled && currentParams == []
      ensures CatalogShape(catalog) && confirmed ==> Valid()
    {
      if !confirmed {
        return;
      }
      tasks := [];
      UncheckAll();
      if rows != [] {
        rows := [Row("", "")];
      }
      preview := [];
      downloadEnabled := false;
      currentParams := [];
    }
  }
}
