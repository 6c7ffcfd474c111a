/** The INCAR text the server renders: the organised layout with a block per task, per
    standard section and for the custom parameters, and the flat sorted listing. */
module Render {
  import opened Text
  import opened Dicts

  /** The section the system line stands for; the renderer pops it from the sections. */
  const SystemSection := "d_system"

  const SystemLine := "SYSTEM = Generated By Q_robot"
  const Generator := "Q-robot INCAR Generator"
  const FlatHeader := "# INCAR file generated by " + Generator

  datatype Kind = TaskKind(name: string) | StandardKind(section: string) | CustomKind

  /** A block of the organised text: a header line, one `key = value` line per entry,
      then a blank line. */
  datatype Block = Block(kind: Kind, entries: Dict<string>)

  /** `section.replace('d_', '').replace('_', ' ').title()`. */
  function SectionTitle(section: string): string {
    Title(ReplaceAll(ReplaceAll(section, "d_", ""), "_", " "))
  }

  function Header(k: Kind): string {
    match k
    case TaskKind(name) => "# Task: " + name
    case StandardKind(section) => "# Standard Parameters - " + SectionTitle(section)
    case CustomKind => "# Custom Parameters"
  }

  function EntryLine(key: string, value: string): string {
    key + " = " + value
  }

  function EntryLines(d: seq<(string, string)>): (r: seq<string>)
    ensures |r| == |d|
    ensures forall i :: 0 <= i < |d| ==> r[i] == EntryLine(d[i].0, d[i].1)
  {
    if d == [] then []
    else EntryLines(d[..|d| - 1]) + [EntryLine(d[|d| - 1].0, d[|d| - 1].1)]
  }

  function BlockLines(b: Block): seq<string> {
    [Header(b.kind)] + EntryLines(b.entries) + [""]
  }

  function AllBlockLines(bs: seq<Block>): seq<string> {
    if bs == [] then [] else AllBlockLines(bs[..|bs| - 1]) + BlockLines(bs[|bs| - 1])
  }

  lemma ConcatAssoc<T>(x: seq<T>, y: seq<T>, z: seq<T>)
    ensures (x + y) + z == x + (y + z)
  {
  }

  lemma AllBlockLinesSnoc(bs: seq<Block>, x: Block)
    ensures AllBlockLines(bs + [x]) == AllBlockLines(bs) + BlockLines(x)
  {
    assert (bs + [x])[..|bs|] == bs;
  }

  lemma {:induction false} AllBlockLinesAppend(a: seq<Block>, b: seq<Block>)
    ensures AllBlockLines(a + b) == AllBlockLines(a) + AllBlockLines(b)
    decreases |b|
  {
    if b == [] {
      assert a + b == a;
    } else {
      var p, last := b[..|b| - 1], b[|b| - 1];
      assert b == p + [last];
      assert a + b == (a + p) + [last];
      AllBlockLinesSnoc(a + p, last);
      AllBlockLinesSnoc(p, last);
      AllBlockLinesAppend(a, p);
      var x, y, z := AllBlockLines(a), AllBlockLines(p), BlockLines(last);
      assert AllBlockLines(a + b) == (x + y) + z;
      assert AllBlockLines(b) == y + z;
      ConcatAssoc(x, y, z);
    }
  }

  /** Every key defined by some task (`task_param_keys`). */
  function TaskKeyUnion(byName: seq<(string, Dict<string>)>): (r: set<string>)
    ensures forall i, k :: 0 <= i < |byName| && k in Keys(byName[i].1) ==> k in r
  {
    if byName == [] then {}
    else TaskKeyUnion(byName[..|byName| - 1]) + Keys(byName[|byName| - 1].1)
  }

  /** `task_param_keys` holds nothing but keys of the tasks. */
  lemma {:induction false} TaskKeyUnionSound(byName: seq<(string, Dict<string>)>)
    ensures forall k :: k in TaskKeyUnion(byName) ==> exists i :: 0 <= i < |byName| && k in Keys(byName[i].1)
  {
    if byName != [] {
      var p := byName[..|byName| - 1];
      TaskKeyUnionSound(p);
      assert forall i :: 0 <= i < |p| ==> p[i] == byName[i];
    }
  }

  /** The entries a block shows: the parameters less `drop`, sorted by key. */
  function BlockEntries(d: Dict<string>, drop: set<string>): (e: Dict<string>)
    ensures SortedByKey(e)
    ensures Keys(e) == Keys(d) - drop && AsMap(e) == AsMap(d) - drop
    ensures e == [] <==> Keys(d) - drop == {}
  {
    var f := FilterOut(d, drop);
    FilterOutMap(d, drop);
    SortByKeyMap(f);
    var e := SortByKey(f);
    assert e != [] ==> e[0].0 in Keys(e);
    e
  }

  /** The block a task contributes: none when its parameters less `custom` are empty. */
  function TaskBlockOf(x: (string, Dict<string>), custom: set<string>): (bs: seq<Block>)
    ensures |bs| <= 1
    ensures |bs| == 1 <==> Keys(x.1) - custom != {}
    ensures forall b :: b in bs ==>
      b.kind == TaskKind(x.0) && b.entries != [] && SortedByKey(b.entries)
      && Keys(b.entries) == Keys(x.1) - custom && AsMap(b.entries) == AsMap(x.1) - custom
  {
    var e := BlockEntries(x.1, custom);
    if e == [] then [] else [Block(TaskKind(x.0), e)]
  }

  /** The block a section contributes: none when its parameters less `drop` are empty. */
  function StandardBlockOf(x: (string, Dict<string>), drop: set<string>): (bs: seq<Block>)
    ensures |bs| <= 1
    ensures |bs| == 1 <==> Keys(x.1) - drop != {}
    ensures forall b :: b in bs ==>
      b.kind == StandardKind(x.0) && b.entries != [] && SortedByKey(b.entries)
      && Keys(b.entries) == Keys(x.1) - drop && AsMap(b.entries) == AsMap(x.1) - drop
  {
    var e := BlockEntries(x.1, drop);
    if e == [] then [] else [Block(StandardKind(x.0), e)]
  }

  /** One block per task whose parameters, less the custom keys, are not empty;
      tasks are not deduplicated against each other. */
  function TaskBlocks(byName: seq<(string, Dict<string>)>, custom: set<string>): (bs: seq<Block>)
    ensures |bs| <= |byName|
    ensures forall i :: 0 <= i < |bs| ==>
      bs[i].kind.TaskKind? && bs[i].entries != [] && SortedByKey(bs[i].entries)
      && Keys(bs[i].entries) !! custom
  {
    if byName == [] then []
    else TaskBlocks(byName[..|byName| - 1], custom) + TaskBlockOf(byName[|byName| - 1], custom)
  }

  /** One block per section, in the order given, whose parameters less `drop` are not
      empty. */
  function StandardBlocks(sections: seq<(string, Dict<string>)>, drop: set<string>): (bs: seq<Block>)
    ensures |bs| <= |sections|
    ensures forall i :: 0 <= i < |bs| ==>
      bs[i].kind.StandardKind? && bs[i].entries != [] && SortedByKey(bs[i].entries)
      && Keys(bs[i].entries) !! drop && bs[i].kind.section in Keys(sections)
  {
    if sections == [] then []
    else
      var p := sections[..|sections| - 1];
      var x := sections[|sections| - 1];
      assert sections == p + [x];
      KeysSnoc(p, x);
      StandardBlocks(p, drop) + StandardBlockOf(x, drop)
  }

  function CustomBlocks(custom: Dict<string>): seq<Block> {
    if custom == [] then [] else [Block(CustomKind, SortByKey(custom))]
  }

  /** The sections that are rendered: `d_system` popped, the rest in key order. */
  function RenderedSections(sections: Dict<Dict<string>>): Dict<Dict<string>> {
    SortByKey(FilterOut(sections, {SystemSection}))
  }

  /** The blocks of `_generate_incar_content_organized`: tasks in the given order less
      the custom keys, then the sections in key order less every task key and custom
      key, then the custom parameters. */
  function Layout(byName: Dict<Dict<string>>, sections: Dict<Dict<string>>, custom: Dict<string>): seq<Block> {
    TaskBlocks(byName, Keys(custom))
    + StandardBlocks(RenderedSections(sections), TaskKeyUnion(byName) + Keys(custom))
    + CustomBlocks(custom)
  }

  function Lines(byName: Dict<Dict<string>>, sections: Dict<Dict<string>>, custom: Dict<string>): seq<string> {
    [SystemLine, ""] + AllBlockLines(Layout(byName, sections, custom))
  }

  /** The organised INCAR text: the lines joined by newlines, trailing whitespace
      removed. It starts with the SYSTEM line and never ends in whitespace. */
  function Organized(byName: Dict<Dict<string>>, sections: Dict<Dict<string>>, custom: Dict<string>): (r: string)
    ensures SystemLine <= r
    ensures !IsPySpace(r[|r| - 1])
  {
    StripFromSystem(AllBlockLines(Layout(byName, sections, custom)));
    RStrip(JoinWith(Lines(byName, sections, custom), "\n"))
  }

  // ---------------------------------------------------------------- text lemmas

  lemma JoinFirst(lines: seq<string>, sep: string)
    requires |lines| >= 2
    ensures JoinWith(lines, sep) == lines[0] + sep + JoinWith(lines[1..], sep)
  {
  }

  /** Stripping trailing whitespace keeps every prefix that ends in a non-space. */
  lemma RStripKeeps(s: string, p: string)
    requires p <= s && p != [] && !IsPySpace(p[|p| - 1])
    ensures p <= RStrip(s)
  {
    var r := RStrip(s);
    assert s[|p| - 1] == p[|p| - 1];
    assert |r| >= |p|;
    assert r == s[..|r|];
  }

  lemma StripFromSystem(rest: seq<string>)
    ensures var r := RStrip(JoinWith([SystemLine, ""] + rest, "\n"));
      SystemLine <= r && !IsPySpace(r[|r| - 1])
  {
    var lines := [SystemLine, ""] + rest;
    var joined := JoinWith(lines, "\n");
    JoinFirst(lines, "\n");
    RStripKeeps(joined, SystemLine);
  }

  lemma HeaderStart(k: Kind)
    ensures |Header(k)| > 0 && Header(k)[0] == '#'
  {
  }

  /** The first three lines of the organised text when some block is rendered. */
  lemma {:induction false} LinesStart(byName: Dict<Dict<string>>, sections: Dict<Dict<string>>, custom: Dict<string>)
    requires Layout(byName, sections, custom) != []
    ensures var lines := Lines(byName, sections, custom);
      |lines| >= 3 && lines[0] == SystemLine && lines[1] == [] && |lines[2]| > 0 && lines[2][0] == '#'
  {
    var bs := Layout(byName, sections, custom);
    AllBlockLinesAppend([bs[0]], bs[1..]);
    assert bs == [bs[0]] + bs[1..];
    assert [bs[0]][..0] == [];
    assert AllBlockLines([bs[0]]) == BlockLines(bs[0]);
    HeaderStart(bs[0].kind);
  }

  lemma JoinStart(lines: seq<string>)
    requires |lines| >= 3 && lines[1] == [] && |lines[2]| > 0
    ensures lines[0] + "\n\n" + [lines[2][0]] <= JoinWith(lines, "\n")
  {
    JoinFirst(lines, "\n");
    JoinFirst(lines[1..], "\n");
    assert lines[1..][1..] == lines[2..];
    assert lines[2..][0] == lines[2];
    if |lines| == 3 {
      assert JoinWith(lines[2..], "\n") == lines[2];
    } else {
      JoinFirst(lines[2..], "\n");
    }
  }

  lemma StripStart(lines: seq<string>)
    requires |lines| >= 3 && lines[0] == SystemLine && lines[1] == [] && |lines[2]| > 0 && lines[2][0] == '#'
    ensures SystemLine + "\n\n#" <= RStrip(JoinWith(lines, "\n"))
  {
    JoinStart(lines);
    var p := SystemLine + "\n\n#";
    assert p == lines[0] + "\n\n" + [lines[2][0]];
    RStripKeeps(JoinWith(lines, "\n"), p);
  }

  /** When any block is rendered, the SYSTEM line is followed by a blank line and the
      first block's header. */
  lemma BlankLineAfterSystem(byName: Dict<Dict<string>>, sections: Dict<Dict<string>>, custom: Dict<string>)
    requires Layout(byName, sections, custom) != []
    ensures SystemLine + "\n\n#" <= Organized(byName, sections, custom)
  {
    LinesStart(byName, sections, custom);
    StripStart(Lines(byName, sections, custom));
  }

  // ---------------------------------------------------------------- the renderer

  /** Appends one `key = value` line per entry, in order. */
  method AppendEntries(lines: seq<string>, d: seq<(string, string)>) returns (r: seq<string>)
    ensures r == lines + EntryLines(d)
  {
    r := lines;
    var i := 0;
    while i < |d|
      invariant 0 <= i <= |d|
      invariant r == lines + EntryLines(d[..i])
    {
      assert d[..i + 1][..i] == d[..i];
      r := r + [EntryLine(d[i].0, d[i].1)];
      i := i + 1;
    }
    assert d[..|d|] == d;
  }

  /** Appends one block: its header, its entries, a blank line. */
  method AppendBlock(lines: seq<string>, b: Block) returns (r: seq<string>)
    ensures r == lines + BlockLines(b)
  {
    r := AppendEntries(lines + [Header(b.kind)], b.entries);
    r := r + [""];
  }

  lemma AppendOneBlock(bs: seq<Block>, b: Block)
    ensures AllBlockLines(bs + [b]) == AllBlockLines(bs) + BlockLines(b)
  {
    assert (bs + [b])[..|bs|] == bs;
  }

  /** The union of the keys of every task's parameters. */
  method CollectTaskKeys(byName: seq<(string, Dict<string>)>) returns (keys: set<string>)
    ensures keys == TaskKeyUnion(byName)
  {
    keys := {};
    var i := 0;
    while i < |byName|
      invariant 0 <= i <= |byName|
      invariant keys == TaskKeyUnion(byName[..i])
    {
      assert byName[..i + 1][..i] == byName[..i];
      keys := keys + Keys(byName[i].1);
      i := i + 1;
    }
    assert byName[..|byName|] == byName;
  }

  lemma TaskBlocksStep(byName: seq<(string, Dict<string>)>, i: int, custom: set<string>)
    requires 0 <= i < |byName|
    ensures TaskBlocks(byName[..i + 1], custom) == TaskBlocks(byName[..i], custom) + TaskBlockOf(byName[i], custom)
  {
    assert byName[..i + 1][..i] == byName[..i];
  }

  lemma StandardBlocksStep(sections: seq<(string, Dict<string>)>, j: int, drop: set<string>)
    requires 0 <= j < |sections|
    ensures StandardBlocks(sections[..j + 1], drop) == StandardBlocks(sections[..j], drop) + StandardBlockOf(sections[j], drop)
  {
    assert sections[..j + 1][..j] == sections[..j];
  }

  /** Appends the block list `bs`, which holds at most one block. */
  method AppendOptionalBlock(lines: seq<string>, prior: seq<Block>, bs: seq<Block>) returns (r: seq<string>)
    requires |bs| <= 1
    requires lines == AllBlockLines(prior)
    ensures r == AllBlockLines(prior + bs)
  {
    r := lines;
    if bs != [] {
      r := AppendBlock(r, bs[0]);
      assert bs == [bs[0]];
      AppendOneBlock(prior, bs[0]);
    } else {
      assert prior + bs == prior;
    }
  }

  /** The task blocks, appended in the order of `byName`. */
  method AppendTaskBlocks(byName: seq<(string, Dict<string>)>, custom: set<string>)
    returns (r: seq<string>)
    ensures r == AllBlockLines(TaskBlocks(byName, custom))
  {
    r := [];
    var i := 0;
    while i < |byName|
      invariant 0 <= i <= |byName|
      invariant r == AllBlockLines(TaskBlocks(byName[..i], custom))
    {
      TaskBlocksStep(byName, i, custom);
      r := AppendOptionalBlock(r, TaskBlocks(byName[..i], custom), TaskBlockOf(byName[i], custom));
      i := i + 1;
    }
    assert byName[..|byName|] == byName;
  }

  /** The standard-section blocks, appended in the order of `sections`. */
  method AppendStandardBlocks(sections: seq<(string, Dict<string>)>, drop: set<string>)
    returns (r: seq<string>)
    ensures r == AllBlockLines(StandardBlocks(sections, drop))
  {
    r := [];
    var j := 0;
    while j < |sections|
      invariant 0 <= j <= |sections|
      invariant r == AllBlockLines(StandardBlocks(sections[..j], drop))
    {
      StandardBlocksStep(sections, j, drop);
      r := AppendOptionalBlock(r, StandardBlocks(sections[..j], drop), StandardBlockOf(sections[j], drop));
      j := j + 1;
    }
    assert sections[..|sections|] == sections;
  }

  /** `_generate_incar_content_organized`: builds the lines block by block and returns
      the text together with the caller's section dictionary after `pop('d_system')`. */
  method RenderOrganized(byName: Dict<Dict<string>>, sections: Dict<Dict<string>>, custom: Dict<string>)
    returns (content: string, remaining: Dict<Dict<string>>)
    ensures content == Organized(byName, sections, custom)
    ensures remaining == FilterOut(sections, {SystemSection})
  {
    var customKeys := Keys(custom);
    var taskKeys := CollectTaskKeys(byName);
    var taskLines := AppendTaskBlocks(byName, customKeys);
    remaining := FilterOut(sections, {SystemSection});
    var standardLines := AppendStandardBlocks(SortByKey(remaining), taskKeys + customKeys);
    var customLines := AppendOptionalBlock([], [], CustomBlocks(custom));
    var lines := [SystemLine, ""] + (taskLines + standardLines + customLines);
    AllBlockLines3(TaskBlocks(byName, customKeys),
      StandardBlocks(RenderedSections(sections), taskKeys + customKeys), CustomBlocks(custom));
    content := RStrip(JoinWith(lines, "\n"));
  }

  lemma AllBlockLines3(a: seq<Block>, b: seq<Block>, c: seq<Block>)
    ensures AllBlockLines(a + b + c) == AllBlockLines(a) + AllBlockLines(b) + AllBlockLines(c)
  {
    AllBlockLinesAppend(a, b);
    AllBlockLinesAppend(a + b, c);
  }

  // ---------------------------------------------------------------- layout properties

  /** Task blocks of two task lists in a row are the blocks of each, in a row. */
  lemma {:induction false} TaskBlocksAppend(a: seq<(string, Dict<string>)>, b: seq<(string, Dict<string>)>, custom: set<string>)
    ensures TaskBlocks(a + b, custom) == TaskBlocks(a, custom) + TaskBlocks(b, custom)
    decreases |b|
  {
    if b == [] {
      assert a + b == a;
    } else {
      var p := b[..|b| - 1];
      assert (a + b)[..|a + b| - 1] == a + p;
      assert (a + b)[|a + b| - 1] == b[|b| - 1];
      TaskBlocksAppend(a, p, custom);
    }
  }

  /** Each task whose parameters, less `custom`, are not empty has its own block, even
      when another task's block already holds the same keys. */
  lemma {:induction false} TaskBlocksComplete(byName: seq<(string, Dict<string>)>, custom: set<string>)
    ensures forall i, b :: 0 <= i < |byName| && b in TaskBlockOf(byName[i], custom) ==> b in TaskBlocks(byName, custom)
    ensures forall i :: 0 <= i < |byName| && Keys(byName[i].1) - custom != {} ==>
      TaskBlockOf(byName[i], custom)[0] in TaskBlocks(byName, custom)
  {
    forall i, b | 0 <= i < |byName| && b in TaskBlockOf(byName[i], custom)
      ensures b in TaskBlocks(byName, custom)
    {
      var q := byName[..i + 1];
      var before, own := TaskBlocks(byName[..i], custom), TaskBlockOf(byName[i], custom);
      assert TaskBlocks(q, custom) == before + own by {
        assert q[..i] == byName[..i] && q[i] == byName[i];
      }
      TaskBlocksPrefix(byName, custom, i + 1);
      InPrefixPart(b, before, own, TaskBlocks(byName, custom));
    }
    forall i | 0 <= i < |byName| && Keys(byName[i].1) - custom != {}
      ensures TaskBlockOf(byName[i], custom)[0] in TaskBlocks(byName, custom)
    {
      assert TaskBlockOf(byName[i], custom)[0] in TaskBlockOf(byName[i], custom);
    }
  }

  /** Two tasks that both define a key the custom parameters do not override both
      write it: the organised text holds two different blocks with that key. */
  lemma SharedKeyTwice(byName: Dict<Dict<string>>, custom: set<string>, i: int, j: int, k: string)
    requires 0 <= i < j < |byName| && k !in custom
    requires k in Keys(byName[i].1) && k in Keys(byName[j].1)
    ensures exists b1, b2 ::
              b1 in TaskBlocks(byName, custom) && b2 in TaskBlocks(byName, custom)
              && b1 != b2 && k in Keys(b1.entries) && k in Keys(b2.entries)
  {
    TaskBlocksComplete(byName, custom);
    assert k in Keys(byName[i].1) - custom && k in Keys(byName[j].1) - custom;
    var b1, b2 := TaskBlockOf(byName[i], custom)[0], TaskBlockOf(byName[j], custom)[0];
    assert b1.kind.name != b2.kind.name;
  }

  lemma InPrefixPart<T>(x: T, a: seq<T>, c: seq<T>, whole: seq<T>)
    requires x in c && a + c <= whole
    ensures x in whole
  {
    var k :| 0 <= k < |c| && c[k] == x;
    assert (a + c)[|a| + k] == x;
  }

  /** The blocks of the first `k` tasks begin the blocks of all of them. */
  lemma {:induction false} TaskBlocksPrefix(byName: seq<(string, Dict<string>)>, custom: set<string>, k: nat)
    requires k <= |byName|
    ensures TaskBlocks(byName[..k], custom) <= TaskBlocks(byName, custom)
    decreases |byName|
  {
    if k < |byName| {
      var p := byName[..|byName| - 1];
      assert p[..k] == byName[..k];
      TaskBlocksPrefix(p, custom, k);
    } else {
      assert byName[..k] == byName;
    }
  }

  /** Every task block is the block of one of the tasks. */
  lemma {:induction false} TaskBlocksSound(byName: seq<(string, Dict<string>)>, custom: set<string>)
    ensures forall b :: b in TaskBlocks(byName, custom) ==>
      exists i :: 0 <= i < |byName| && b in TaskBlockOf(byName[i], custom)
  {
    if byName != [] {
      var n := |byName| - 1;
      var p := byName[..n];
      TaskBlocksSound(p, custom);
      assert forall i :: 0 <= i < n ==> p[i] == byName[i];
    }
  }

  /** Section blocks of two section lists in a row are the blocks of each, in a row. */
  lemma {:induction false} StandardBlocksAppend(a: seq<(string, Dict<string>)>, b: seq<(string, Dict<string>)>, drop: set<string>)
    ensures StandardBlocks(a + b, drop) == StandardBlocks(a, drop) + StandardBlocks(b, drop)
    decreases |b|
  {
    if b == [] {
      assert a + b == a;
    } else {
      var p := b[..|b| - 1];
      assert (a + b)[..|a + b| - 1] == a + p;
      assert (a + b)[|a + b| - 1] == b[|b| - 1];
      StandardBlocksAppend(a, p, drop);
    }
  }

  /** The section blocks, in section order: those before section `j`, the block of
      section `j` when anything of it is left, then those after; so each section whose
      parameters less `drop` are not empty has exactly its own block in that place. */
  lemma StandardBlocksComplete(sections: seq<(string, Dict<string>)>, drop: set<string>, j: int)
    requires 0 <= j < |sections|
    ensures StandardBlocks(sections, drop) ==
      StandardBlocks(sections[..j], drop) + StandardBlockOf(sections[j], drop) + StandardBlocks(sections[j + 1..], drop)
    ensures Keys(sections[j].1) - drop != {} ==> StandardBlockOf(sections[j], drop)[0] in StandardBlocks(sections, drop)
  {
    var x := sections[j];
    assert sections == (sections[..j] + [x]) + sections[j + 1..];
    StandardBlocksAppend(sections[..j] + [x], sections[j + 1..], drop);
    StandardBlocksAppend(sections[..j], [x], drop);
    var one: seq<(string, Dict<string>)> := [x];
    assert StandardBlocks(one, drop) == StandardBlockOf(x, drop) by {
      assert one[..0] == [];
    }
  }

  lemma SortedLastAbove<V>(s: seq<(string, V)>, k: string)
    requires SortedByKey(s) && s != [] && k in Keys(s[..|s| - 1])
    ensures Less(k, s[|s| - 1].0)
  {
    var p := s[..|s| - 1];
    var m :| 0 <= m < |p| && p[m].0 == k;
    assert s[m] == p[m];
  }

  /** Sections taken in increasing key order give blocks in strictly increasing
      section order. */
  lemma {:induction false} StandardBlocksOrdered(sections: seq<(string, Dict<string>)>, drop: set<string>)
    requires SortedByKey(sections)
    ensures var bs := StandardBlocks(sections, drop);
      forall i, j :: 0 <= i < j < |bs| ==> Less(bs[i].kind.section, bs[j].kind.section)
  {
    if sections != [] {
      var n := |sections| - 1;
      var p := sections[..n];
      assert SortedByKey(p);
      StandardBlocksOrdered(p, drop);
      StandardBlocksStep(sections, n, drop);
      assert sections[..n + 1] == sections;
      var t := StandardBlocks(p, drop);
      var bs := t + StandardBlockOf(sections[n], drop);
      forall i, j | 0 <= i < j < |bs| ensures Less(bs[i].kind.section, bs[j].kind.section) {
        if j >= |t| {
          assert bs[j].kind.section == sections[n].0;
          assert bs[i].kind.section in Keys(p);
          SortedLastAbove(sections, bs[i].kind.section);
        }
      }
    }
  }

  /** Standard sections appear in increasing key order, each at most once, `d_system`
      never, and only sections that were included. */
  lemma RenderedSectionsOrder(sections: Dict<Dict<string>>, drop: set<string>)
    ensures var bs := StandardBlocks(RenderedSections(sections), drop);
      (forall i, j :: 0 <= i < j < |bs| ==> Less(bs[i].kind.section, bs[j].kind.section))
      && forall i :: 0 <= i < |bs| ==> bs[i].kind.section != SystemSection && bs[i].kind.section in Keys(sections)
  {
    var f := FilterOut(sections, {SystemSection});
    SortByKeyMap(f);
    StandardBlocksOrdered(SortByKey(f), drop);
  }

  /** Positions in a three-part concatenation. */
  lemma Concat3At(t: seq<Block>, st: seq<Block>, c: seq<Block>, i: int)
    requires 0 <= i < |t + st + c|
    ensures i < |t| ==> (t + st + c)[i] == t[i]
    ensures |t| <= i < |t| + |st| ==> (t + st + c)[i] == st[i - |t|]
    ensures |t| + |st| <= i ==> (t + st + c)[i] == c[i - |t| - |st|]
  {
  }

  /** The three parts of the layout. */
  lemma LayoutParts(byName: Dict<Dict<string>>, sections: Dict<Dict<string>>, custom: Dict<string>)
    returns (t: seq<Block>, st: seq<Block>, c: seq<Block>)
    ensures t == TaskBlocks(byName, Keys(custom))
    ensures st == StandardBlocks(RenderedSections(sections), TaskKeyUnion(byName) + Keys(custom))
    ensures c == CustomBlocks(custom)
    ensures Layout(byName, sections, custom) == t + st + c
  {
    t := TaskBlocks(byName, Keys(custom));
    st := StandardBlocks(RenderedSections(sections), TaskKeyUnion(byName) + Keys(custom));
    c := CustomBlocks(custom);
  }

  /** Custom parameters win over everything: no task or standard block holds a custom
      key, and the custom block, present exactly when there are custom parameters, comes
      last and holds each of them once, with its value. */
  lemma CustomPrecedence(byName: Dict<Dict<string>>, sections: Dict<Dict<string>>, custom: Dict<string>)
    ensures var bs := Layout(byName, sections, custom);
      (forall i :: 0 <= i < |bs| && !bs[i].kind.CustomKind? ==> Keys(bs[i].entries) !! Keys(custom))
      && (forall i :: 0 <= i < |bs| && bs[i].kind.CustomKind? ==> i == |bs| - 1)
      && (custom == [] <==> (bs == [] || !bs[|bs| - 1].kind.CustomKind?))
      && (custom != [] ==> AsMap(bs[|bs| - 1].entries) == AsMap(custom))
  {
    var t, st, c := LayoutParts(byName, sections, custom);
    CustomLast(t, st, custom);
  }

  /** Task and section blocks that avoid the custom keys, followed by the custom block:
      only the custom block may hold those keys, it is the last block, present exactly
      when there are custom parameters, and it carries their values. */
  lemma CustomLast(t: seq<Block>, st: seq<Block>, custom: Dict<string>)
    requires forall i :: 0 <= i < |t| ==> t[i].kind.TaskKind? && Keys(t[i].entries) !! Keys(custom)
    requires forall i :: 0 <= i < |st| ==> st[i].kind.StandardKind? && Keys(st[i].entries) !! Keys(custom)
    ensures var bs := t + st + CustomBlocks(custom);
      (forall i :: 0 <= i < |bs| && !bs[i].kind.CustomKind? ==> Keys(bs[i].entries) !! Keys(custom))
      && (forall i :: 0 <= i < |bs| && bs[i].kind.CustomKind? ==> i == |bs| - 1)
      && (custom == [] <==> (bs == [] || !bs[|bs| - 1].kind.CustomKind?))
      && (custom != [] ==> AsMap(bs[|bs| - 1].entries) == AsMap(custom))
  {
    var c := CustomBlocks(custom);
    var bs := t + st + c;
    forall i | 0 <= i < |bs|
      ensures !bs[i].kind.CustomKind? ==> Keys(bs[i].entries) !! Keys(custom)
      ensures bs[i].kind.CustomKind? ==> i == |bs| - 1
    {
      Concat3At(t, st, c, i);
    }
    if bs != [] {
      Concat3At(t, st, c, |bs| - 1);
    }
    if custom != [] {
      SortByKeyMap(custom);
    }
  }

  /** Task parameters win over standard ones: no standard block holds a key that any
      selected task defines. */
  lemma TaskPrecedence(byName: Dict<Dict<string>>, sections: Dict<Dict<string>>, custom: Dict<string>)
    ensures var bs := Layout(byName, sections, custom);
      forall i, j :: 0 <= i < |bs| && bs[i].kind.StandardKind? && 0 <= j < |byName| ==>
        Keys(bs[i].entries) !! Keys(byName[j].1)
  {
    var t, st, c := LayoutParts(byName, sections, custom);
    StandardAvoid(t, st, c, TaskKeyUnion(byName));
  }

  /** When the section blocks avoid the keys `k`, every section block of the layout
      does. */
  lemma StandardAvoid(t: seq<Block>, st: seq<Block>, c: seq<Block>, k: set<string>)
    requires forall i :: 0 <= i < |t| ==> t[i].kind.TaskKind?
    requires forall i :: 0 <= i < |st| ==> Keys(st[i].entries) !! k
    requires forall i :: 0 <= i < |c| ==> c[i].kind.CustomKind?
    ensures var bs := t + st + c;
      forall i :: 0 <= i < |bs| && bs[i].kind.StandardKind? ==> Keys(bs[i].entries) !! k
  {
    var bs := t + st + c;
    forall i | 0 <= i < |bs| && bs[i].kind.StandardKind?
      ensures Keys(bs[i].entries) !! k
    {
      Concat3At(t, st, c, i);
    }
  }

  /** Every emitted block has a header and at least one entry, in increasing key order. */
  lemma BlocksSortedNonEmpty(byName: Dict<Dict<string>>, sections: Dict<Dict<string>>, custom: Dict<string>)
    ensures var bs := Layout(byName, sections, custom);
      forall i :: 0 <= i < |bs| ==> bs[i].entries != [] && SortedByKey(bs[i].entries)
  {
    var t, st, c := LayoutParts(byName, sections, custom);
    var bs := t + st + c;
    forall i | 0 <= i < |bs| ensures bs[i].entries != [] && SortedByKey(bs[i].entries) {
      Concat3At(t, st, c, i);
    }
  }

  /** A block among `bs` has its header and each of its `key = value` lines in the text
      of `bs`. */
  lemma {:induction false} BlockLinesShown(bs: seq<Block>, b: Block)
    requires b in bs
    ensures Header(b.kind) in AllBlockLines(bs)
    ensures forall m :: 0 <= m < |b.entries| ==> EntryLine(b.entries[m].0, b.entries[m].1) in AllBlockLines(bs)
    decreases |bs|
  {
    var p := bs[..|bs| - 1];
    var x := bs[|bs| - 1];
    assert bs == p + [x];
    var all := AllBlockLines(bs);
    assert all == AllBlockLines(p) + BlockLines(x);
    if b == x {
      var n := |AllBlockLines(p)|;
      assert all[n] == Header(b.kind);
      forall m | 0 <= m < |b.entries|
        ensures EntryLine(b.entries[m].0, b.entries[m].1) in all
      {
        assert all[n + 1 + m] == EntryLines(b.entries)[m];
      }
    } else {
      BlockLinesShown(p, b);
      forall m | 0 <= m < |b.entries|
        ensures EntryLine(b.entries[m].0, b.entries[m].1) in all
      {
        var line := EntryLine(b.entries[m].0, b.entries[m].1);
        var q :| 0 <= q < |AllBlockLines(p)| && AllBlockLines(p)[q] == line;
        assert all[q] == line;
      }
      var h :| 0 <= h < |AllBlockLines(p)| && AllBlockLines(p)[h] == Header(b.kind);
      assert all[h] == Header(b.kind);
    }
  }

  /** A block of the layout puts its header, and the line `k = v` of each of its
      parameters `k` with value `v`, in the INCAR text. */
  lemma LayoutBlockShown(byName: Dict<Dict<string>>, sections: Dict<Dict<string>>, custom: Dict<string>, b: Block, k: string)
    requires b in Layout(byName, sections, custom) && k in Keys(b.entries)
    ensures Header(b.kind) in Lines(byName, sections, custom)
    ensures EntryLine(k, AsMap(b.entries)[k]) in Lines(byName, sections, custom)
  {
    var bs := Layout(byName, sections, custom);
    BlockLinesShown(bs, b);
    var m :| 0 <= m < |b.entries| && b.entries[m].0 == k;
    AsMapAt(b.entries, m);
    assert EntryLine(k, AsMap(b.entries)[k]) in AllBlockLines(bs);
  }

  /** A selected task shows up in the INCAR text: for each of its parameters `k` that the
      custom parameters do not override, the text holds the task's header and the line
      `k = v` with the task's value. */
  lemma TaskShown(byName: Dict<Dict<string>>, sections: Dict<Dict<string>>, custom: Dict<string>, i: int, k: string)
    requires 0 <= i < |byName| && k in Keys(byName[i].1) && k !in Keys(custom)
    ensures Header(TaskKind(byName[i].0)) in Lines(byName, sections, custom)
    ensures EntryLine(k, AsMap(byName[i].1)[k]) in Lines(byName, sections, custom)
  {
    var t, st, c := LayoutParts(byName, sections, custom);
    TaskBlocksComplete(byName, Keys(custom));
    assert k in Keys(byName[i].1) - Keys(custom);
    var b := TaskBlockOf(byName[i], Keys(custom))[0];
    assert b in t;
    LayoutBlockShown(byName, sections, custom, b, k);
  }

  /** Where a section other than `d_system` stands among the rendered sections. */
  lemma RenderedSectionAt(sections: Dict<Dict<string>>, section: string) returns (j: int)
    requires section in Keys(sections) && section != SystemSection
    ensures 0 <= j < |RenderedSections(sections)|
    ensures RenderedSections(sections)[j] == (section, AsMap(sections)[section])
  {
    var rendered := RenderedSections(sections);
    var f := FilterOut(sections, {SystemSection});
    FilterOutMap(sections, {SystemSection});
    SortByKeyMap(f);
    assert section in AsMap(rendered);
    j :| 0 <= j < |rendered| && rendered[j].0 == section;
    AsMapAt(rendered, j);
  }

  /** An enabled section other than `d_system` shows up in the INCAR text: for each of
      its parameters `k` that neither a task nor the custom parameters define, the text
      holds the section's header and the line `k = v` with the section's value. */
  lemma SectionShown(byName: Dict<Dict<string>>, sections: Dict<Dict<string>>, custom: Dict<string>, section: string, k: string)
    requires section in Keys(sections) && section != SystemSection
    requires k in Keys(AsMap(sections)[section]) && k !in TaskKeyUnion(byName) && k !in Keys(custom)
    ensures Header(StandardKind(section)) in Lines(byName, sections, custom)
    ensures EntryLine(k, AsMap(AsMap(sections)[section])[k]) in Lines(byName, sections, custom)
  {
    var t, st, c := LayoutParts(byName, sections, custom);
    var rendered := RenderedSections(sections);
    var drop := TaskKeyUnion(byName) + Keys(custom);
    var j := RenderedSectionAt(sections, section);
    assert k in Keys(rendered[j].1) - drop;
    StandardBlocksComplete(rendered, drop, j);
    var b := StandardBlockOf(rendered[j], drop)[0];
    assert b in t + st + c;
    LayoutBlockShown(byName, sections, custom, b, k);
  }

  // ---------------------------------------------------------------- flat text

  function FlatLines(params: Dict<string>): seq<string> {
    [FlatHeader, ""] + EntryLines(SortByKey(params))
  }

  /** `_generate_incar_content`: a header, a blank line, then `key = value` per entry in
      key order. */
  function FlatContent(params: Dict<string>): string {
    JoinWith(FlatLines(params), "\n")
  }

  lemma FlatHeaderOneLine()
    ensures '\n' !in FlatHeader
  {
    assert '\n' !in "# INCAR file generated by ";
    assert '\n' !in Generator;
  }

  predicate NoNewline(d: seq<(string, string)>) {
    forall i :: 0 <= i < |d| ==> '\n' !in d[i].0 && '\n' !in d[i].1
  }

  lemma {:induction false} EntryLinesNoNewline(d: seq<(string, string)>)
    requires NoNewline(d)
    ensures forall i :: 0 <= i < |EntryLines(d)| ==> '\n' !in EntryLines(d)[i]
  {
    if d != [] {
      var p := d[..|d| - 1];
      EntryLinesNoNewline(p);
    }
  }

  /** With keys and values free of newlines, the flat text has exactly one line per
      parameter after the header and the blank line. */
  lemma FlatLineCount(params: Dict<string>)
    requires NoNewline(params)
    ensures CountChar(FlatContent(params), '\n') == |params| + 1
    ensures |SplitOn(FlatContent(params), "\n")| == |params| + 2
  {
    var s := SortByKey(params);
    assert NoNewline(s) by {
      forall i | 0 <= i < |s| ensures '\n' !in s[i].0 && '\n' !in s[i].1 {
        assert s[i] in multiset(params);
      }
    }
    EntryLinesNoNewline(s);
    var lines := FlatLines(params);
    forall i | 0 <= i < |lines| ensures CountChar(lines[i], '\n') == 0 {
      if i == 0 {
        FlatHeaderOneLine();
      } else if i >= 2 {
        assert lines[i] == EntryLines(s)[i - 2];
      }
      CountCharAbsent(lines[i], '\n');
    }
    CountJoin(lines, '\n');
    SplitCount(FlatContent(params), '\n');
  }
}
