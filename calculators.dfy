/** The pure cores of the three calculators the page can ask for: DFT+U columns and
    MAGMOM counts from the chemical symbols of the first readable POSCAR, and the NEB
    image count from the names of the working directory's folders. Reading files and
    listing directories are inputs here. */
module Calculators {
  import opened Wrappers
  import opened Text
  import opened Dicts

  // ---------------------------------------------------------------- the structure file

  /** What trying one candidate POSCAR path gives: no such file, a file that fails to
      read, or the chemical symbols of its atoms. */
  datatype PoscarRead = Missing | Unreadable | Symbols(symbols: seq<string>)

  /** The candidate paths, tried in this order; the attempts are given in the same order. */
  const PoscarPaths: seq<string> := ["POSCAR", "./POSCAR", "../POSCAR", "../../POSCAR"]

  const PoscarMissing := "POSCAR file not found"

  /** The symbols of the first candidate that reads. */
  function FirstStructure(attempts: seq<PoscarRead>): (r: Option<seq<string>>)
    ensures r.None? <==> forall k :: 0 <= k < |attempts| ==> !attempts[k].Symbols?
  {
    if attempts == [] then None
    else if attempts[0].Symbols? then Some(attempts[0].symbols)
    else FirstStructure(attempts[1..])
  }

  /** When the first `k` candidates do not read and candidate `k` does, its symbols
      are the ones used. */
  lemma {:induction false} FirstStructureAt(attempts: seq<PoscarRead>, k: int)
    requires 0 <= k < |attempts| && attempts[k].Symbols?
    requires forall m :: 0 <= m < k ==> !attempts[m].Symbols?
    ensures FirstStructure(attempts) == Some(attempts[k].symbols)
  {
    if k > 0 {
      assert attempts[1..][k - 1] == attempts[k];
      FirstStructureAt(attempts[1..], k - 1);
    }
  }

  // ---------------------------------------------------------------- distinct symbols

  /** The distinct symbols in order of first occurrence. */
  function Distinct(s: seq<string>): (r: seq<string>)
    ensures NoDups(r)
    ensures forall x :: x in r <==> x in s
  {
    if s == [] then []
    else
      var p := s[..|s| - 1];
      var x := s[|s| - 1];
      assert s == p + [x];
      var d := Distinct(p);
      if x in d then d else d + [x]
  }

  lemma DistinctStep(s: seq<string>, i: int)
    requires 0 <= i < |s|
    ensures var d := Distinct(s[..i]);
      Distinct(s[..i + 1]) == if s[i] in d then d else d + [s[i]]
  {
    assert s[..i + 1][..i] == s[..i];
  }

  /** The position of the first occurrence of `x`. */
  function FirstIndex(s: seq<string>, x: string): (k: nat)
    requires x in s
    ensures k < |s| && s[k] == x && forall m :: 0 <= m < k ==> s[m] != x
  {
    if s[0] == x then 0 else 1 + FirstIndex(s[1..], x)
  }

  lemma FirstIndexPrefix(s: seq<string>, n: int, x: string)
    requires 0 <= n <= |s| && x in s[..n]
    ensures FirstIndex(s, x) == FirstIndex(s[..n], x)
  {
    assert forall m :: 0 <= m < n ==> s[..n][m] == s[m];
  }

  /** Every element of `r` occurs in `s`, and `r` lists them in the order of their
      first occurrences in `s`. */
  predicate InFirstOrder(s: seq<string>, r: seq<string>) {
    (forall x :: x in r ==> x in s) &&
    forall i, j :: 0 <= i < j < |r| ==> FirstIndex(s, r[i]) < FirstIndex(s, r[j])
  }

  /** The distinct symbols keep the order of their first occurrences. */
  lemma {:induction false} DistinctOrder(s: seq<string>)
    ensures InFirstOrder(s, Distinct(s))
  {
    if s != [] {
      var n := |s| - 1;
      DistinctOrder(s[..n]);
      var r := Distinct(s);
      forall i, j | 0 <= i < j < |r|
        ensures FirstIndex(s, r[i]) < FirstIndex(s, r[j])
      {
        DistinctOrderStep(s, i, j);
      }
    }
  }

  lemma DistinctOrderStep(s: seq<string>, i: int, j: int)
    requires s != []
    requires InFirstOrder(s[..|s| - 1], Distinct(s[..|s| - 1]))
    requires 0 <= i < j < |Distinct(s)|
    ensures FirstIndex(s, Distinct(s)[i]) < FirstIndex(s, Distinct(s)[j])
  {
    var n := |s| - 1;
    var p := s[..n];
    var x := s[n];
    var d := Distinct(p);
    var r := Distinct(s);
    assert r == if x in d then d else d + [x];
    assert r[i] == d[i] && d[i] in p;
    FirstIndexPrefix(s, n, r[i]);
    if j < |d| {
      assert r[j] == d[j] && d[j] in p;
      FirstIndexPrefix(s, n, r[j]);
      assert FirstIndex(p, d[i]) < FirstIndex(p, d[j]);
    } else {
      assert r[j] == x && x !in p;
      assert FirstIndex(p, d[i]) < n;
    }
  }

  // ---------------------------------------------------------------- DFT+U

  datatype DftUReply = DftUOk(ldaul: string, ldauu: string, ldauj: string) | DftUFailed(error: string)

  /** LDAUL of an element: 2 when the U table has it, -1 otherwise. */
  function LdauL(e: string, u: map<string, string>): string {
    if e in u then "2" else "-1"
  }

  /** LDAUU of an element: its U value, 0 without one. */
  function LdauU(e: string, u: map<string, string>): string {
    if e in u then u[e] else "0"
  }

  /** LDAUJ of an element: its J value when it has a U value and a J value, 0 otherwise. */
  function LdauJ(e: string, u: map<string, string>, j: map<string, string>): string {
    if e in u && e in j then j[e] else "0"
  }

  /** The three columns, one entry per distinct element. */
  function Column(d: seq<string>, f: string -> string): (r: seq<string>)
    ensures |r| == |d|
  {
    seq(|d|, i requires 0 <= i < |d| => f(d[i]))
  }

  const Separator := "  "

  /** `/api/calculate-dftu`. */
  function DftUReplyOf(attempts: seq<PoscarRead>, u: map<string, string>, j: map<string, string>): DftUReply {
    match FirstStructure(attempts)
    case None => DftUFailed(PoscarMissing)
    case Some(elements) =>
      var d := Distinct(elements);
      DftUOk(JoinWith(Column(d, e => LdauL(e, u)), Separator),
             JoinWith(Column(d, e => LdauU(e, u)), Separator),
             JoinWith(Column(d, e => LdauJ(e, u, j)), Separator))
  }

  /** The element loop: one entry in each column per element not seen before. */
  method DftUColumns(elements: seq<string>, u: map<string, string>, j: map<string, string>)
    returns (unique: seq<string>, ldaul: seq<string>, ldauu: seq<string>, ldauj: seq<string>)
    ensures unique == Distinct(elements)
    ensures |ldaul| == |unique| && |ldauu| == |unique| && |ldauj| == |unique|
    ensures forall i :: 0 <= i < |unique| ==>
      ldaul[i] == LdauL(unique[i], u) && ldauu[i] == LdauU(unique[i], u) && ldauj[i] == LdauJ(unique[i], u, j)
  {
    unique, ldaul, ldauu, ldauj := [], [], [], [];
    var k := 0;
    while k < |elements|
      invariant 0 <= k <= |elements|
      invariant unique == Distinct(elements[..k])
      invariant |ldaul| == |unique| && |ldauu| == |unique| && |ldauj| == |unique|
      invariant forall i :: 0 <= i < |unique| ==>
        ldaul[i] == LdauL(unique[i], u) && ldauu[i] == LdauU(unique[i], u) && ldauj[i] == LdauJ(unique[i], u, j)
    {
      var element := elements[k];
      if element !in unique {
        unique := unique + [element];
        ldaul, ldauu, ldauj := AppendColumns(element, u, j, ldaul, ldauu, ldauj);
      }
      assert unique == Distinct(elements[..k + 1]) by {
        DistinctStep(elements, k);
      }
      k := k + 1;
    }
    assert elements[..|elements|] == elements;
  }

  /** One element's entry appended to each of the three columns. */
  method AppendColumns(element: string, u: map<string, string>, j: map<string, string>,
                       ldaul: seq<string>, ldauu: seq<string>, ldauj: seq<string>)
    returns (ldaul': seq<string>, ldauu': seq<string>, ldauj': seq<string>)
    ensures ldaul' == ldaul + [LdauL(element, u)]
    ensures ldauu' == ldauu + [LdauU(element, u)]
    ensures ldauj' == ldauj + [LdauJ(element, u, j)]
  {
    if element in u {
      ldaul' := ldaul + ["2"];
      ldauu' := ldauu + [u[element]];
      ldauj' := ldauj + [if element in j then j[element] else "0"];
    } else {
      ldaul' := ldaul + ["-1"];
      ldauu' := ldauu + ["0"];
      ldauj' := ldauj + ["0"];
    }
  }

  /** The handler: the first readable POSCAR, its columns joined by two spaces. */
  method CalculateDftU(attempts: seq<PoscarRead>, u: map<string, string>, j: map<string, string>)
    returns (r: DftUReply)
    ensures r == DftUReplyOf(attempts, u, j)
  {
    var k := 0;
    while k < |attempts|
      invariant 0 <= k <= |attempts|
      invariant forall m :: 0 <= m < k ==> !attempts[m].Symbols?
    {
      if attempts[k].Symbols? {
        FirstStructureAt(attempts, k);
        var unique, ldaul, ldauu, ldauj := DftUColumns(attempts[k].symbols, u, j);
        assert ldaul == Column(unique, e => LdauL(e, u));
        assert ldauu == Column(unique, e => LdauU(e, u));
        assert ldauj == Column(unique, e => LdauJ(e, u, j));
        return DftUOk(JoinWith(ldaul, Separator), JoinWith(ldauu, Separator), JoinWith(ldauj, Separator));
      }
      k := k + 1;
    }
    r := DftUFailed(PoscarMissing);
  }

  // ---------------------------------------------------------------- MAGMOM

  datatype MagmomReply = MagmomOk(magmom: string) | MagmomFailed(error: string)

  /** Counting one more symbol: a symbol seen before has its count raised in place, a
      new symbol is appended with count 1. */
  function Tally(d: Dict<nat>, x: string): Dict<nat> {
    if x in Keys(d) then Put(d, x, AsMap(d)[x] + 1) else Put(d, x, 1)
  }

  /** The element counts. */
  function Counts(s: seq<string>): Dict<nat> {
    if s == [] then [] else Tally(Counts(s[..|s| - 1]), s[|s| - 1])
  }

  /** Each symbol's count is its number of occurrences, and only symbols that occur
      are counted. */
  lemma {:induction false} CountsAreOccurrences(s: seq<string>)
    ensures forall x :: x in AsMap(Counts(s)) <==> x in s
    ensures forall x :: x in AsMap(Counts(s)) ==> AsMap(Counts(s))[x] == multiset(s)[x]
  {
    if s != [] {
      var p := s[..|s| - 1];
      var x := s[|s| - 1];
      assert s == p + [x];
      CountsAreOccurrences(p);
      assert multiset(s) == multiset(p) + multiset{x};
    }
  }

  /** The counted symbols come in order of first occurrence. */
  lemma {:induction false} CountsOrder(s: seq<string>)
    ensures |Counts(s)| == |Distinct(s)|
    ensures forall i :: 0 <= i < |Counts(s)| ==> Counts(s)[i].0 == Distinct(s)[i]
  {
    if s != [] {
      var p := s[..|s| - 1];
      var x := s[|s| - 1];
      assert s == p + [x];
      CountsOrder(p);
      CountsAreOccurrences(p);
    }
  }

  lemma CountsStep(s: seq<string>, i: int)
    requires 0 <= i < |s|
    ensures Counts(s[..i + 1]) == Tally(Counts(s[..i]), s[i])
  {
    assert s[..i + 1][..i] == s[..i];
  }

  /** The counting loop. */
  method CountSymbols(symbols: seq<string>) returns (counts: Dict<nat>)
    ensures counts == Counts(symbols)
  {
    counts := [];
    var k := 0;
    while k < |symbols|
      invariant 0 <= k <= |symbols|
      invariant counts == Counts(symbols[..k])
    {
      CountsStep(symbols, k);
      counts := Tally(counts, symbols[k]);
      k := k + 1;
    }
    assert symbols[..|symbols|] == symbols;
  }

  /** `count*moment`, the moment 0.0 for an element the table lacks. */
  function MagmomTerm(symbol: string, count: nat, mag: map<string, string>): string {
    NatToString(count) + "*" + (if symbol in mag then mag[symbol] else "0.0")
  }

  function MagmomTerms(counts: Dict<nat>, mag: map<string, string>): (r: seq<string>)
    ensures |r| == |counts|
  {
    seq(|counts|, i requires 0 <= i < |counts| => MagmomTerm(counts[i].0, counts[i].1, mag))
  }

  /** `/api/calculate-magmom`. */
  function MagmomReplyOf(attempts: seq<PoscarRead>, mag: map<string, string>): MagmomReply {
    match FirstStructure(attempts)
    case None => MagmomFailed(PoscarMissing)
    case Some(symbols) => MagmomOk(JoinWith(MagmomTerms(Counts(symbols), mag), Separator))
  }

  /** The `i`-th term names the `i`-th distinct element with its number of atoms. */
  lemma MagmomTermsMeaning(symbols: seq<string>, mag: map<string, string>, i: int)
    requires 0 <= i < |Distinct(symbols)|
    ensures |MagmomTerms(Counts(symbols), mag)| == |Distinct(symbols)|
    ensures var e := Distinct(symbols)[i];
      MagmomTerms(Counts(symbols), mag)[i] == MagmomTerm(e, multiset(symbols)[e], mag)
  {
    CountsOrder(symbols);
    CountsAreOccurrences(symbols);
    var c := Counts(symbols);
    AsMapAt(c, i);
  }

  /** The term loop over the counts in their order. */
  method FormatTerms(counts: Dict<nat>, mag: map<string, string>) returns (terms: seq<string>)
    ensures terms == MagmomTerms(counts, mag)
  {
    terms := [];
    var i := 0;
    while i < |counts|
      invariant 0 <= i <= |counts|
      invariant terms == MagmomTerms(counts, mag)[..i]
    {
      terms := terms + [MagmomTerm(counts[i].0, counts[i].1, mag)];
      i := i + 1;
    }
  }

  /** The handler: the first readable POSCAR, its counts as `count*moment` terms. */
  method CalculateMagmom(attempts: seq<PoscarRead>, mag: map<string, string>) returns (r: MagmomReply)
    ensures r == MagmomReplyOf(attempts, mag)
  {
    var k := 0;
    while k < |attempts|
      invariant 0 <= k <= |attempts|
      invariant forall m :: 0 <= m < k ==> !attempts[m].Symbols?
    {
      if attempts[k].Symbols? {
        FirstStructureAt(attempts, k);
        var counts := CountSymbols(attempts[k].symbols);
        var terms := FormatTerms(counts, mag);
        return MagmomOk(JoinWith(terms, Separator));
      }
      k := k + 1;
    }
    r := MagmomFailed(PoscarMissing);
  }

  // ---------------------------------------------------------------- NEB images

  datatype NebReply = NebOk(images: string, folderCount: nat) | NebFailed(error: string)

  const NoImageFolders := "No image folders found (00, 01, 02...)"

  /** A folder name of exactly two characters, both digits. */
  predicate IsImageFolder(f: string) {
    |f| == 2 && IsDigit(f[0]) && IsDigit(f[1])
  }

  function ImageFolders(folders: seq<string>): (r: seq<string>)
    ensures |r| <= |folders|
    ensures forall f :: f in r <==> f in folders && IsImageFolder(f)
    ensures forall f :: multiset(r)[f] == if IsImageFolder(f) then multiset(folders)[f] else 0
  {
    if folders == [] then []
    else
      var p := folders[..|folders| - 1];
      var f := folders[|folders| - 1];
      assert folders == p + [f];
      ImageFolders(p) + if IsImageFolder(f) then [f] else []
  }

  /** `/api/calculate-neb-images`: the image folders less the two end points, never
      below zero; no image folder at all is a failure. */
  function NebImagesOf(folders: seq<string>): (r: NebReply)
    ensures r.NebOk? <==> exists f :: f in folders && IsImageFolder(f)
    ensures r.NebOk? ==> r.folderCount == |ImageFolders(folders)|
    ensures r.NebOk? ==> forall i :: 0 <= i < |r.images| ==> IsDigit(r.images[i])
    ensures r.NebOk? ==> ParseNat(r.images) == (if r.folderCount >= 2 then r.folderCount - 2 else 0)
    ensures r.NebFailed? ==> r.error == NoImageFolders
  {
    var images := ImageFolders(folders);
    if images != [] then
      var n := |images| - 2;
      var count := if n < 0 then 0 else n;
      ParseNatToString(count);
      assert images[0] in images;
      NebOk(NatToString(count), |images|)
    else
      NebFailed(NoImageFolders)
  }

  /** Entries of the working directory that are not image folders (an `INCAR`, a
      `POSCAR`, a three-digit folder) never change the reply. */
  lemma {:induction false} NebIgnoresOtherEntries(folders: seq<string>, other: seq<string>)
    requires forall i :: 0 <= i < |other| ==> !IsImageFolder(other[i])
    ensures ImageFolders(folders + other) == ImageFolders(folders)
    ensures NebImagesOf(folders + other) == NebImagesOf(folders)
    decreases |other|
  {
    if other == [] {
      assert folders + other == folders;
    } else {
      var p := other[..|other| - 1];
      assert folders + other == (folders + p) + [other[|other| - 1]];
      NebIgnoresOtherEntries(folders, p);
      assert ImageFolders(folders + other) == ImageFolders(folders + p);
    }
  }
}
