/** The main page's request assembly and response interpretation, as functions of the
    page state they read. */
module Client {
  import opened Wrappers
  import opened Dicts
  import opened Text
  import opened Json

  /** A custom-parameter input row: the key box and the value box. */
  datatype Row = Row(key: string, value: string)

  /** The DFT+U values the page keeps after a successful calculation. */
  datatype DftUValues = DftUValues(ldaul: string, ldauu: string, ldauj: string)

  /** The pairs `generateINCAR` takes from the rows, in row order: both boxes filled. */
  function Accepted(rows: seq<Row>): (r: seq<(string, string)>)
    ensures |r| <= |rows|
    ensures forall i :: 0 <= i < |r| ==> r[i].0 != [] && r[i].1 != []
    ensures forall p :: p in r ==> Row(p.0, p.1) in rows
    ensures forall i :: 0 <= i < |rows| && rows[i].key != [] && rows[i].value != [] ==>
      (rows[i].key, rows[i].value) in r
  {
    if rows == [] then []
    else
      var p := rows[..|rows| - 1];
      var last := rows[|rows| - 1];
      assert forall i :: 0 <= i < |p| ==> rows[i] == p[i];
      Accepted(p) + if last.key != [] && last.value != [] then [(last.key, last.value)] else []
  }

  /** The custom-parameter object built from the rows, one assignment per accepted row. */
  function RowOverrides(rows: seq<Row>): Dict<string> {
    if rows == [] then []
    else
      var last := rows[|rows| - 1];
      var d := RowOverrides(rows[..|rows| - 1]);
      if last.key != [] && last.value != [] then Put(d, last.key, last.value) else d
  }

  /** The object holds exactly the keys of the accepted rows, and each key's value
      is the one a plain assignment of the accepted pairs in order leaves; by
      `Dicts.AsMapLastWins`, that is the value of the last row carrying the key. */
  lemma {:induction false} RowOverridesView(rows: seq<Row>)
    ensures Keys(RowOverrides(rows)) == Keys(Accepted(rows))
    ensures AsMap(RowOverrides(rows)) == AsMap(Accepted(rows))
  {
    if rows != [] {
      var p := rows[..|rows| - 1];
      var last := rows[|rows| - 1];
      RowOverridesView(p);
      var d := RowOverrides(p);
      var a := Accepted(p);
      if last.key != [] && last.value != [] {
        var x := (last.key, last.value);
        var r := Put(d, x.0, x.1);
        assert RowOverrides(rows) == r;
        assert Accepted(rows) == a + [x];
        KeysSnoc(a, x);
        AsMapSnoc(a, x);
        calc {
          AsMap(r);
          AsMap(d)[x.0 := x.1];
          AsMap(a)[x.0 := x.1];
          AsMap(a + [x]);
        }
      } else {
        assert RowOverrides(rows) == d;
        assert Accepted(rows) == a;
      }
    }
  }

  /** A later row with the same key overwrites an earlier one. */
  lemma LaterRowWins(rows: seq<Row>, row: Row)
    requires row.key != [] && row.value != []
    ensures row.key in AsMap(RowOverrides(rows + [row]))
    ensures AsMap(RowOverrides(rows + [row]))[row.key] == row.value
  {
    assert (rows + [row])[..|rows|] == rows;
  }

  /** A row with an empty box is skipped. */
  lemma EmptyRowSkipped(rows: seq<Row>, row: Row)
    requires row.key == [] || row.value == []
    ensures RowOverrides(rows + [row]) == RowOverrides(rows)
    ensures Accepted(rows + [row]) == Accepted(rows)
  {
    assert (rows + [row])[..|rows|] == rows;
  }

  const DerivedKeys: set<string> := {"LDAUL", "LDAUU", "LDAUJ", "MAGMOM", "IMAGES"}

  /** The cached values `generateINCAR` writes over the rows, in the order it writes
      them: the DFT+U values when DFT+U is selected, MAGMOM when ISPIN is selected,
      IMAGES when NEB is selected; a cached string counts only when non-empty, as
      JavaScript truthiness has it, while the DFT+U object always does. */
  function Derived(dftu: Option<DftUValues>, magmom: Option<string>, images: Option<string>,
                   tasks: seq<string>): seq<(string, string)>
  {
    (if dftu.Some? && "DFT+U" in tasks
     then [("LDAUL", dftu.value.ldaul), ("LDAUU", dftu.value.ldauu), ("LDAUJ", dftu.value.ldauj)]
     else [])
    + (if magmom.Some? && magmom.value != [] && "ISPIN" in tasks then [("MAGMOM", magmom.value)] else [])
    + (if images.Some? && images.value != [] && "NEB" in tasks then [("IMAGES", images.value)] else [])
  }

  lemma AsMapPair<V>(k1: string, v1: V, k2: string, v2: V)
    ensures AsMap([(k1, v1), (k2, v2)]) == map[k1 := v1][k2 := v2]
  {
    assert [(k1, v1), (k2, v2)][..1] == [(k1, v1)];
    assert [(k1, v1)][..0] == [];
  }

  /** The same cached values as a map, key by key. */
  function DerivedMap(dftu: Option<DftUValues>, magmom: Option<string>, images: Option<string>,
                      tasks: seq<string>): map<string, string>
  {
    var ma := if dftu.Some? && "DFT+U" in tasks
      then map["LDAUL" := dftu.value.ldaul]["LDAUU" := dftu.value.ldauu]["LDAUJ" := dftu.value.ldauj]
      else map[];
    var mb := if magmom.Some? && magmom.value != [] && "ISPIN" in tasks then ma["MAGMOM" := magmom.value] else ma;
    if images.Some? && images.value != [] && "NEB" in tasks then mb["IMAGES" := images.value] else mb
  }

  lemma DerivedAsMap(dftu: Option<DftUValues>, magmom: Option<string>, images: Option<string>, tasks: seq<string>)
    ensures AsMap(Derived(dftu, magmom, images, tasks)) == DerivedMap(dftu, magmom, images, tasks)
  {
    var a := if dftu.Some? && "DFT+U" in tasks
      then [("LDAUL", dftu.value.ldaul), ("LDAUU", dftu.value.ldauu), ("LDAUJ", dftu.value.ldauj)]
      else [];
    var b := if magmom.Some? && magmom.value != [] && "ISPIN" in tasks then [("MAGMOM", magmom.value)] else [];
    var c := if images.Some? && images.value != [] && "NEB" in tasks then [("IMAGES", images.value)] else [];
    assert Derived(dftu, magmom, images, tasks) == (a + b) + c;
    var ma := if dftu.Some? && "DFT+U" in tasks
      then map["LDAUL" := dftu.value.ldaul]["LDAUU" := dftu.value.ldauu]["LDAUJ" := dftu.value.ldauj]
      else map[];
    if a != [] {
      var v := dftu.value;
      var ab := [("LDAUL", v.ldaul), ("LDAUU", v.ldauu)];
      AsMapPair("LDAUL", v.ldaul, "LDAUU", v.ldauu);
      assert a == ab + [("LDAUJ", v.ldauj)];
      AsMapSnoc(ab, ("LDAUJ", v.ldauj));
      calc {
        AsMap(a);
        AsMap(ab)["LDAUJ" := v.ldauj];
        ma;
      }
    } else {
      assert AsMap(a) == ma;
    }
    var mb := if b != [] then ma["MAGMOM" := magmom.value] else ma;
    if b != [] {
      assert a + b == a + [b[0]];
      AsMapSnoc(a, b[0]);
    } else {
      assert a + b == a;
    }
    assert AsMap(a + b) == mb;
    if c != [] {
      assert (a + b) + c == (a + b) + [c[0]];
      AsMapSnoc(a + b, c[0]);
    } else {
      assert (a + b) + c == a + b;
    }
  }

  /** The `custom_params` object `generateINCAR` sends: the row overrides with the
      cached values written over them (`Object.assign` and plain assignments). */
  function CustomParams(rows: seq<Row>, dftu: Option<DftUValues>, magmom: Option<string>,
                        images: Option<string>, tasks: seq<string>): (r: Dict<string>)
    ensures Keys(r) == Keys(Accepted(rows)) + Keys(Derived(dftu, magmom, images, tasks))
    ensures AsMap(r) == AsMap(Accepted(rows)) + AsMap(Derived(dftu, magmom, images, tasks))
  {
    RowOverridesView(rows);
    Update(RowOverrides(rows), Derived(dftu, magmom, images, tasks))
  }

  /** The key-to-value view of `CustomParams`: the rows' view with the cached values
      written over it. */
  lemma CustomParamsView(rows: seq<Row>, dftu: Option<DftUValues>, magmom: Option<string>,
                         images: Option<string>, tasks: seq<string>)
    ensures AsMap(CustomParams(rows, dftu, magmom, images, tasks))
         == AsMap(Accepted(rows)) + DerivedMap(dftu, magmom, images, tasks)
  {
    DerivedAsMap(dftu, magmom, images, tasks);
  }

  /** Writing the cached values over any map. */
  lemma DerivedOver(base: map<string, string>, dftu: Option<DftUValues>, magmom: Option<string>,
                    images: Option<string>, tasks: seq<string>)
    ensures var m := base + DerivedMap(dftu, magmom, images, tasks);
      && (dftu.Some? && "DFT+U" in tasks ==>
            "LDAUL" in m && m["LDAUL"] == dftu.value.ldaul
            && "LDAUU" in m && m["LDAUU"] == dftu.value.ldauu
            && "LDAUJ" in m && m["LDAUJ"] == dftu.value.ldauj)
      && (magmom.Some? && magmom.value != [] && "ISPIN" in tasks ==> "MAGMOM" in m && m["MAGMOM"] == magmom.value)
      && (images.Some? && images.value != [] && "NEB" in tasks ==> "IMAGES" in m && m["IMAGES"] == images.value)
      && (!("ISPIN" in tasks && magmom.Some? && magmom.value != []) ==> ("MAGMOM" in m <==> "MAGMOM" in base))
      && (!("NEB" in tasks && images.Some? && images.value != []) ==> ("IMAGES" in m <==> "IMAGES" in base))
      && (forall k :: k in base && k !in DerivedKeys ==> k in m && m[k] == base[k])
  {
  }

  /** The cached values overwrite rows with the same key whenever their task is
      selected and the cache is set. */
  lemma CachedValuesWin(rows: seq<Row>, dftu: Option<DftUValues>, magmom: Option<string>,
                        images: Option<string>, tasks: seq<string>)
    ensures dftu.Some? && "DFT+U" in tasks ==>
      var m := AsMap(CustomParams(rows, dftu, magmom, images, tasks));
      "LDAUL" in m && m["LDAUL"] == dftu.value.ldaul
      && "LDAUU" in m && m["LDAUU"] == dftu.value.ldauu
      && "LDAUJ" in m && m["LDAUJ"] == dftu.value.ldauj
    ensures magmom.Some? && magmom.value != [] && "ISPIN" in tasks ==>
      var m := AsMap(CustomParams(rows, dftu, magmom, images, tasks));
      "MAGMOM" in m && m["MAGMOM"] == magmom.value
    ensures images.Some? && images.value != [] && "NEB" in tasks ==>
      var m := AsMap(CustomParams(rows, dftu, magmom, images, tasks));
      "IMAGES" in m && m["IMAGES"] == images.value
  {
    CustomParamsView(rows, dftu, magmom, images, tasks);
    DerivedOver(AsMap(Accepted(rows)), dftu, magmom, images, tasks);
  }

  /** Without its task selected (or its cache set) a cached key is present only if a
      row sets it; every key other than the cached ones keeps its last row's value. */
  lemma RowValuesKept(rows: seq<Row>, dftu: Option<DftUValues>, magmom: Option<string>,
                      images: Option<string>, tasks: seq<string>)
    ensures !("ISPIN" in tasks && magmom.Some? && magmom.value != []) ==>
      ("MAGMOM" in AsMap(CustomParams(rows, dftu, magmom, images, tasks)) <==> "MAGMOM" in Keys(Accepted(rows)))
    ensures !("NEB" in tasks && images.Some? && images.value != []) ==>
      ("IMAGES" in AsMap(CustomParams(rows, dftu, magmom, images, tasks)) <==> "IMAGES" in Keys(Accepted(rows)))
    ensures forall k :: k in Keys(Accepted(rows)) && k !in DerivedKeys ==>
      k in AsMap(CustomParams(rows, dftu, magmom, images, tasks))
      && AsMap(CustomParams(rows, dftu, magmom, images, tasks))[k] == AsMap(Accepted(rows))[k]
  {
    CustomParamsView(rows, dftu, magmom, images, tasks);
    DerivedOver(AsMap(Accepted(rows)), dftu, magmom, images, tasks);
  }

  /** What `displayINCAR` does with a response. */
  datatype Outcome =
    | ApiError(message: string)
    | EmptyResult
    | Shown(text: string, paramCount: string, lines: nat)
    | NotText(shown: string)

  /** `displayINCAR(data)`: an `error` field wins, then a missing or empty
      `incar_content`; otherwise the text is shown with the parameter count and the
      number of lines. (A content that is truthy but not a string makes `split`
      throw after the preview was written.) */
  function Display(data: Object): (r: Outcome)
    ensures r.ApiError? <==> Truthy(Get(data, "error"))
    ensures r.ApiError? ==> r.message == "Error: " + Show(Get(data, "error"))
    ensures r.EmptyResult? <==> !Truthy(Get(data, "error")) && !Truthy(Get(data, "incar_content"))
    ensures r.Shown? ==> Get(data, "incar_content") == Some(Str(r.text)) && r.text != []
    ensures r.Shown? ==> r.lines == CountChar(r.text, '\n') + 1 && r.paramCount == Show(Get(data, "param_count"))
    ensures (!Truthy(Get(data, "error")) && Get(data, "incar_content").Some?
             && Get(data, "incar_content").value.Str? && Get(data, "incar_content").value.s != []) ==> r.Shown?
  {
    var err := Get(data, "error");
    var content := Get(data, "incar_content");
    if Truthy(err) then ApiError("Error: " + Show(err))
    else if !Truthy(content) then EmptyResult
    else match content.value
      case Str(text) =>
        SplitCount(text, '\n');
        Shown(text, Show(Get(data, "param_count")), |SplitOn(text, "\n")|)
      case _ => NotText(Show(content))
  }

  /** The preview box's text after an outcome, when the outcome writes it. */
  function PreviewText(o: Outcome): string {
    match o
    case ApiError(m) => m
    case EmptyResult => "Error: No INCAR content generated"
    case Shown(t, _, _) => t
    case NotText(s) => s
  }

  /** The label `displayStandardParameters` gives a section checkbox: the first `d_`
      removed, every `_` a space, upper case. */
  function SectionLabel(section: string): (r: string)
    ensures |r| <= |section|
    ensures "d_" <= section ==> r == Upper(ReplaceAll(section[2..], "_", " "))
    ensures forall i :: 0 <= i < |r| ==> !IsLower(r[i]) && r[i] != '_'
  {
    var dropped := ReplaceFirst(section, "d_", "");
    ReplaceFirstShorter(section, "d_", "");
    assert "d_" <= section ==> dropped == section[2..];
    var spaced := ReplaceAll(dropped, "_", " ");
    ReplaceAllShape(dropped);
    Upper(spaced)
  }

  lemma {:induction false} ReplaceFirstShorter(s: string, pat: string, rep: string)
    requires |pat| > 0 && |rep| <= |pat|
    ensures |ReplaceFirst(s, pat, rep)| <= |s|
    decreases |s|
  {
    if |s| >= |pat| && s[..|pat|] == pat {
    } else if s != [] {
      ReplaceFirstShorter(s[1..], pat, rep);
    }
  }

  /** `task.replace(/[\s-]/g, '_').toLowerCase()`: the button id of a task. */
  function ButtonId(task: string): (r: string)
    ensures |r| == |task| + 4 && r[..4] == "btn-"
    ensures forall i :: 0 <= i < |task| ==>
      r[i + 4] == if IsJsSpace(task[i]) || task[i] == '-' then '_' else ToLower(task[i])
  {
    "btn-" + seq(|task|, i requires 0 <= i < |task| =>
      if IsJsSpace(task[i]) || task[i] == '-' then '_' else ToLower(task[i]))
  }

  /** The ids the conflict rules look up are those of the NCORE and Frequency buttons. */
  lemma ConflictButtonIds()
    ensures ButtonId("NCORE") == "btn-ncore"
    ensures ButtonId("Frequency") == "btn-frequency"
  {
  }
}
