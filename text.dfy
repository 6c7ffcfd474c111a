/** String operations of Python and JavaScript that the generator relies on,
    restricted to ASCII: case mapping, whitespace stripping, replacement,
    splitting and joining, decimal formatting and code-point ordering. */
module Text {

  // ---------------------------------------------------------------- characters

  /** Whitespace as Python's `strip`, `rstrip` and `isspace` see it, ASCII part only:
      tab through carriage return, the separators 0x1C-0x1F, and space. */
  predicate IsPySpace(c: char) {
    c == ' ' || '\t' <= c <= '\r' || '\U{1C}' <= c <= '\U{1F}'
  }

  /** Whitespace as the JavaScript regular-expression class `\s` sees it, ASCII part only. */
  predicate IsJsSpace(c: char) {
    c == ' ' || '\t' <= c <= '\r'
  }

  predicate IsUpper(c: char) { 'A' <= c <= 'Z' }
  predicate IsLower(c: char) { 'a' <= c <= 'z' }
  /** A cased character in the sense of Python's `title()`. */
  predicate IsLetter(c: char) { IsUpper(c) || IsLower(c) }
  predicate IsDigit(c: char) { '0' <= c <= '9' }

  function ToLower(c: char): (r: char)
    ensures !IsUpper(r) && (IsLetter(r) <==> IsLetter(c))
    ensures !IsUpper(c) ==> r == c
  {
    if IsUpper(c) then (c as int + 32) as char else c
  }

  function ToUpper(c: char): (r: char)
    ensures !IsLower(r) && (IsLetter(r) <==> IsLetter(c))
    ensures !IsLower(c) ==> r == c
  {
    if IsLower(c) then (c as int - 32) as char else c
  }

  // ---------------------------------------------------------------- case mapping

  /** Python `lower()` and JavaScript `toLowerCase()`. */
  function Lower(s: string): (r: string)
    ensures |r| == |s|
    ensures forall i :: 0 <= i < |s| ==> r[i] == ToLower(s[i])
  {
    seq(|s|, i requires 0 <= i < |s| => ToLower(s[i]))
  }

  /** JavaScript `toUpperCase()`. */
  function Upper(s: string): (r: string)
    ensures |r| == |s|
    ensures forall i :: 0 <= i < |s| ==> r[i] == ToUpper(s[i])
  {
    seq(|s|, i requires 0 <= i < |s| => ToUpper(s[i]))
  }

  /** Python `title()`: a letter is upper-cased when the character before it is not a
      letter and lower-cased otherwise; every other character is kept. */
  function Title(s: string): (r: string)
    ensures |r| == |s|
    ensures forall i :: 0 <= i < |s| && !IsLetter(s[i]) ==> r[i] == s[i]
  {
    seq(|s|, i requires 0 <= i < |s| =>
      if !IsLetter(s[i]) then s[i]
      else if i > 0 && IsLetter(s[i - 1]) then ToLower(s[i])
      else ToUpper(s[i]))
  }

  /** In a title-cased string every word (maximal run of letters) starts with an
      upper-case letter and continues in lower case. */
  lemma TitleWords(s: string, i: int)
    requires 0 <= i < |s| && IsLetter(s[i])
    ensures i == 0 || !IsLetter(Title(s)[i - 1]) ==> IsUpper(Title(s)[i])
    ensures i > 0 && IsLetter(Title(s)[i - 1]) ==> IsLower(Title(s)[i])
  {
    var r := Title(s);
    assert r[i] == if i > 0 && IsLetter(s[i - 1]) then ToLower(s[i]) else ToUpper(s[i]);
    if i > 0 {
      assert r[i - 1] == if !IsLetter(s[i - 1]) then s[i - 1]
        else if i - 1 > 0 && IsLetter(s[i - 2]) then ToLower(s[i - 1]) else ToUpper(s[i - 1]);
    }
  }

  /** Python `capitalize()`: the first character upper-cased, the rest lower-cased. */
  function Capitalize(s: string): (r: string)
    ensures |r| == |s|
    ensures |s| > 0 ==> r[0] == ToUpper(s[0]) && r[1..] == Lower(s[1..])
  {
    if s == [] then [] else [ToUpper(s[0])] + Lower(s[1..])
  }

  // ---------------------------------------------------------------- stripping

  /** Python `rstrip()`: the longest prefix that does not end in whitespace. */
  function RStrip(s: string): (r: string)
    ensures r <= s
    ensures r == [] || !IsPySpace(r[|r| - 1])
    ensures forall i :: |r| <= i < |s| ==> IsPySpace(s[i])
  {
    if s == [] || !IsPySpace(s[|s| - 1]) then s else RStrip(s[..|s| - 1])
  }

  /** Python `lstrip()`: the longest suffix that does not start with whitespace. */
  function LStrip(s: string): (r: string)
    ensures |r| <= |s| && r == s[|s| - |r|..]
    ensures r == [] || !IsPySpace(r[0])
    ensures forall i :: 0 <= i < |s| - |r| ==> IsPySpace(s[i])
  {
    if s == [] || !IsPySpace(s[0]) then s else LStrip(s[1..])
  }

  /** Python `strip()`. */
  /** `r` is `s[i..i + |r|]` and everything of `s` outside it is whitespace. */
  predicate StripsTo(s: string, i: int, r: string) {
    0 <= i <= |s| - |r| && r == s[i..i + |r|]
    && (forall k :: 0 <= k < i ==> IsPySpace(s[k]))
    && (forall k :: i + |r| <= k < |s| ==> IsPySpace(s[k]))
  }

  /** Python `s.strip()`: the text between the leading and the trailing whitespace. */
  function Strip(s: string): (r: string)
    ensures r == [] || (!IsPySpace(r[0]) && !IsPySpace(r[|r| - 1]))
    ensures exists i :: StripsTo(s, i, r)
  {
    var l := LStrip(s);
    var r := RStrip(l);
    assert r != [] ==> r[0] == l[0];
    StripSlice(s, l, r);
    r
  }

  /** Whitespace dropped from the front of `s` and then from the back of what is left
      surrounds a slice of `s`. */
  lemma StripSlice(s: string, l: string, r: string)
    requires |l| <= |s| && l == s[|s| - |l|..]
    requires forall k :: 0 <= k < |s| - |l| ==> IsPySpace(s[k])
    requires r <= l && forall k :: |r| <= k < |l| ==> IsPySpace(l[k])
    ensures StripsTo(s, |s| - |l|, r)
  {
    var i := |s| - |l|;
    assert r == s[i..i + |r|] by {
      assert r == l[..|r|];
    }
    forall k | i + |r| <= k < |s|
      ensures IsPySpace(s[k])
    {
      assert s[k] == l[k - i];
    }
  }

  /** Stripping leaves nothing exactly when the text is all whitespace. */
  lemma StripEmpty(s: string)
    ensures Strip(s) == [] <==> forall i :: 0 <= i < |s| ==> IsPySpace(s[i])
  {
    var l := LStrip(s);
    var r := RStrip(l);
    assert r == [] ==> forall i :: 0 <= i < |s| ==> IsPySpace(s[i]) by {
      if r == [] {
        assert l == [];
      }
    }
    assert (forall i :: 0 <= i < |s| ==> IsPySpace(s[i])) ==> r == [] by {
      if r != [] {
        var k := |s| - |l|;
        assert s[k] == l[0];
      }
    }
  }

  // ---------------------------------------------------------------- substrings

  /** `pat` occurs in `s` starting at index `i`. */
  predicate OccursAt(s: string, pat: string, i: int) {
    0 <= i && i + |pat| <= |s| && s[i..i + |pat|] == pat
  }

  /** `pat` occurs in `s` (Python `pat in s`). */
  predicate Contains(s: string, pat: string) {
    exists i :: 0 <= i <= |s| && OccursAt(s, pat, i)
  }

  lemma ContainsTail(s: string, pat: string)
    requires |s| > 0 && Contains(s[1..], pat)
    ensures Contains(s, pat)
  {
    var i :| 0 <= i <= |s[1..]| && OccursAt(s[1..], pat, i);
    assert 0 <= i && i + |pat| <= |s| - 1;
    assert s[i + 1..i + 1 + |pat|] == s[1..][i..i + |pat|];
    assert OccursAt(s, pat, i + 1);
  }

  /** Replacement of every non-overlapping occurrence, scanning left to right
      (Python `str.replace`, JavaScript `replace` with a global pattern). */
  function ReplaceAll(s: string, pat: string, rep: string): (r: string)
    requires |pat| > 0
    ensures !Contains(s, pat) ==> r == s
    decreases |s|
  {
    if |s| < |pat| then s
    else if s[..|pat|] == pat then
      assert OccursAt(s, pat, 0);
      rep + ReplaceAll(s[|pat|..], pat, rep)
    else
      var rest := ReplaceAll(s[1..], pat, rep);
      assert !Contains(s, pat) ==> !Contains(s[1..], pat) by {
        if Contains(s[1..], pat) { ContainsTail(s, pat); }
      }
      [s[0]] + rest
  }

  /** Replacement of the first occurrence only (JavaScript `replace` with a string pattern). */
  function ReplaceFirst(s: string, pat: string, rep: string): (r: string)
    requires |pat| > 0
    ensures !Contains(s, pat) ==> r == s
    ensures pat <= s ==> r == rep + s[|pat|..]
    decreases |s|
  {
    if |s| < |pat| then s
    else if s[..|pat|] == pat then
      assert OccursAt(s, pat, 0);
      rep + s[|pat|..]
    else
      var rest := ReplaceFirst(s[1..], pat, rep);
      assert !Contains(s, pat) ==> !Contains(s[1..], pat) by {
        if Contains(s[1..], pat) { ContainsTail(s, pat); }
      }
      [s[0]] + rest
  }

  /** The replacement of every occurrence is Python's `rep.join(s.split(pat))`: the
      pieces between the occurrences, glued with the replacement. */
  lemma {:induction false} ReplaceAllSplitJoin(s: string, pat: string, rep: string)
    requires |pat| > 0
    ensures ReplaceAll(s, pat, rep) == JoinWith(SplitOn(s, pat), rep)
    decreases |s|
  {
    if |s| < |pat| {
    } else if s[..|pat|] == pat {
      var rest := SplitOn(s[|pat|..], pat);
      ReplaceAllSplitJoin(s[|pat|..], pat, rep);
      var q := [""] + rest;
      assert q[1..] == rest;
      assert SplitOn(s, pat) == q;
      assert JoinWith(q, rep) == "" + rep + JoinWith(rest, rep);
    } else {
      var rest := SplitOn(s[1..], pat);
      ReplaceAllSplitJoin(s[1..], pat, rep);
      assert SplitOn(s, pat) == [[s[0]] + rest[0]] + rest[1..];
      JoinConsFirst(s[0], rest, rep);
    }
  }

  lemma OccursShift(s: string, pat: string, j: int)
    requires |s| > 0 && 0 <= j
    ensures OccursAt(s[1..], pat, j) <==> OccursAt(s, pat, j + 1)
  {
    if j + |pat| <= |s| - 1 {
      assert s[1..][j..j + |pat|] == s[j + 1..j + 1 + |pat|];
    }
  }

  /** Replacing the first occurrence: when `pat` first occurs at `i`, the text before
      `i` is kept, the occurrence becomes `rep` and the text after it is kept. */
  lemma {:induction false} ReplaceFirstAt(s: string, pat: string, rep: string, i: int)
    requires |pat| > 0 && OccursAt(s, pat, i)
    requires forall j :: 0 <= j < i ==> !OccursAt(s, pat, j)
    ensures ReplaceFirst(s, pat, rep) == s[..i] + rep + s[i + |pat|..]
    decreases i
  {
    if i == 0 {
      ReplaceFirstFront(s, pat, rep);
    } else {
      var t := s[1..];
      assert ReplaceFirst(s, pat, rep) == [s[0]] + ReplaceFirst(t, pat, rep) by {
        assert !OccursAt(s, pat, 0);
      }
      assert ReplaceFirst(t, pat, rep) == t[..i - 1] + rep + t[i - 1 + |pat|..] by {
        ReplaceFirstSkip(s, pat, rep, i);
        ReplaceFirstAt(t, pat, rep, i - 1);
      }
      ReplaceFirstGlue(s, rep, t[..i - 1], t[i - 1 + |pat|..], i, |pat|);
    }
  }

  lemma ReplaceFirstFront(s: string, pat: string, rep: string)
    requires |pat| > 0 && OccursAt(s, pat, 0)
    ensures ReplaceFirst(s, pat, rep) == s[..0] + rep + s[|pat|..]
  {
    assert s[..|pat|] == pat;
    assert s[..0] == [];
  }

  lemma ReplaceFirstGlue(s: string, rep: string, x: string, y: string, i: int, n: int)
    requires 0 < i && 0 <= n && i + n <= |s|
    requires x == s[1..][..i - 1] && y == s[1..][i - 1 + n..]
    ensures [s[0]] + (x + rep + y) == s[..i] + rep + s[i + n..]
  {
    assert [s[0]] + x == s[..i];
    assert y == s[i + n..];
  }

  /** One step of `ReplaceFirstAt`: in the tail, the first occurrence is one place
      further left. */
  lemma ReplaceFirstSkip(s: string, pat: string, rep: string, i: int)
    requires |pat| > 0 && 0 < i && OccursAt(s, pat, i)
    requires forall j :: 0 <= j < i ==> !OccursAt(s, pat, j)
    ensures OccursAt(s[1..], pat, i - 1)
    ensures forall j :: 0 <= j < i - 1 ==> !OccursAt(s[1..], pat, j)
  {
    OccursShift(s, pat, i - 1);
    forall j | 0 <= j < i - 1
      ensures !OccursAt(s[1..], pat, j)
    {
      OccursShift(s, pat, j);
    }
  }

  /** Replacing every `_` by a space keeps the length and leaves no `_`. */
  lemma {:induction false} ReplaceAllShape(s: string)
    ensures |ReplaceAll(s, "_", " ")| == |s|
    ensures forall i :: 0 <= i < |s| ==> ReplaceAll(s, "_", " ")[i] != '_'
    decreases |s|
  {
    if s != [] {
      ReplaceAllShape(s[1..]);
      if s[..1] == "_" {
        assert ReplaceAll(s, "_", " ") == " " + ReplaceAll(s[1..], "_", " ");
      } else {
        assert ReplaceAll(s, "_", " ") == [s[0]] + ReplaceAll(s[1..], "_", " ");
      }
    }
  }

  /** Every character left by replacing a one-character pattern is a character of
      the text other than the pattern, or a character of the replacement. */
  lemma {:induction false} ReplaceAllChars(s: string, p: char, rep: string)
    ensures forall c :: c in ReplaceAll(s, [p], rep) ==> (c in s && c != p) || c in rep
    decreases |s|
  {
    if s != [] {
      ReplaceAllChars(s[1..], p, rep);
      var rest := ReplaceAll(s[1..], [p], rep);
      assert forall c :: c in s[1..] ==> c in s;
      if s[..1] == [p] {
        assert ReplaceAll(s, [p], rep) == rep + rest;
      } else {
        assert s[0] != p;
        assert ReplaceAll(s, [p], rep) == [s[0]] + rest;
      }
    }
  }

  /** An occurrence that is not at the front is an occurrence in the tail. */
  lemma ContainsShift(s: string, pat: string)
    requires |s| >= |pat| > 0 && s[..|pat|] != pat && Contains(s, pat)
    ensures Contains(s[1..], pat)
  {
    var i :| 0 <= i <= |s| && OccursAt(s, pat, i);
    assert i > 0;
    assert s[1..][i - 1..i - 1 + |pat|] == s[i..i + |pat|];
    assert OccursAt(s[1..], pat, i - 1);
  }

  // ---------------------------------------------------------------- split and join

  /** Python `sep.join(parts)` and JavaScript `parts.join(sep)`. */
  function JoinWith(parts: seq<string>, sep: string): string
  {
    if |parts| == 0 then ""
    else if |parts| == 1 then parts[0]
    else parts[0] + sep + JoinWith(parts[1..], sep)
  }

  /** Python `s.split(sep)` and JavaScript `s.split(sep)` for a non-empty separator. */
  function SplitOn(s: string, sep: string): (r: seq<string>)
    requires |sep| > 0
    ensures |r| >= 1
    decreases |s|
  {
    if |s| < |sep| then [s]
    else if s[..|sep|] == sep then [""] + SplitOn(s[|sep|..], sep)
    else
      var rest := SplitOn(s[1..], sep);
      [[s[0]] + rest[0]] + rest[1..]
  }

  /** Splitting yields more than one piece exactly when the separator occurs. */
  lemma {:induction false} SplitOnContains(s: string, sep: string)
    requires |sep| > 0
    ensures |SplitOn(s, sep)| >= 2 <==> Contains(s, sep)
    decreases |s|
  {
    if |s| < |sep| {
      assert !Contains(s, sep);
    } else if s[..|sep|] == sep {
      assert OccursAt(s, sep, 0);
    } else {
      SplitOnContains(s[1..], sep);
      if Contains(s[1..], sep) {
        ContainsTail(s, sep);
      }
      if Contains(s, sep) {
        ContainsShift(s, sep);
      }
    }
  }

  /** Number of occurrences of `c` in `s`. */
  function CountChar(s: string, c: char): nat
  {
    if s == [] then 0 else (if s[0] == c then 1 else 0) + CountChar(s[1..], c)
  }

  lemma JoinConsFirst(x: char, parts: seq<string>, sep: string)
    requires |parts| >= 1
    ensures JoinWith([[x] + parts[0]] + parts[1..], sep) == [x] + JoinWith(parts, sep)
  {
    var q := [[x] + parts[0]] + parts[1..];
    if |parts| > 1 {
      assert q[1..] == parts[1..];
    }
  }

  /** Splitting and joining again with the same separator gives back the text. */
  lemma {:induction false} JoinSplit(s: string, sep: string)
    requires |sep| > 0
    ensures JoinWith(SplitOn(s, sep), sep) == s
    decreases |s|
  {
    if |s| < |sep| {
    } else if s[..|sep|] == sep {
      var rest := SplitOn(s[|sep|..], sep);
      JoinSplit(s[|sep|..], sep);
      var q := [""] + rest;
      assert q[1..] == rest;
      assert SplitOn(s, sep) == q;
      assert JoinWith(q, sep) == "" + sep + JoinWith(rest, sep);
      assert s == sep + s[|sep|..];
    } else {
      var rest := SplitOn(s[1..], sep);
      JoinSplit(s[1..], sep);
      assert SplitOn(s, sep) == [[s[0]] + rest[0]] + rest[1..];
      JoinConsFirst(s[0], rest, sep);
      assert s == [s[0]] + s[1..];
    }
  }

  /** Splitting on one character yields one piece more than the character occurs. */
  lemma {:induction false} SplitCount(s: string, c: char)
    ensures |SplitOn(s, [c])| == CountChar(s, c) + 1
    decreases |s|
  {
    if |s| < 1 {
    } else if s[..1] == [c] {
      SplitCount(s[1..], c);
      assert s[0] == c;
    } else {
      SplitCount(s[1..], c);
      assert s[0] != c;
    }
  }

  lemma {:induction false} CountCharAbsent(s: string, c: char)
    requires c !in s
    ensures CountChar(s, c) == 0
  {
    if s != [] {
      assert s[1..] <= s[1..] && forall i :: 0 <= i < |s[1..]| ==> s[1..][i] == s[i + 1];
      CountCharAbsent(s[1..], c);
    }
  }

  lemma CountCharAppend(a: string, b: string, c: char)
    ensures CountChar(a + b, c) == CountChar(a, c) + CountChar(b, c)
  {
    if a == [] {
      assert a + b == b;
    } else {
      assert (a + b)[1..] == a[1..] + b;
      CountCharAppend(a[1..], b, c);
    }
  }

  /** Joining lines that contain no `c` with the one-character separator `c` puts
      exactly one `c` between consecutive lines. */
  lemma {:induction false} CountJoin(lines: seq<string>, c: char)
    requires |lines| >= 1
    requires forall i :: 0 <= i < |lines| ==> CountChar(lines[i], c) == 0
    ensures CountChar(JoinWith(lines, [c]), c) == |lines| - 1
  {
    if |lines| > 1 {
      CountJoin(lines[1..], c);
      CountCharAppend(lines[0] + [c], JoinWith(lines[1..], [c]), c);
      CountCharAppend(lines[0], [c], c);
    }
  }

  // ---------------------------------------------------------------- numbers

  function DigitChar(d: nat): (c: char)
    requires d < 10
    ensures IsDigit(c)
  {
    ('0' as int + d) as char
  }

  /** Python `str(n)` / JavaScript `String(n)` for a non-negative integer. */
  function NatToString(n: nat): (r: string)
    ensures |r| >= 1
    ensures forall i :: 0 <= i < |r| ==> IsDigit(r[i])
    ensures r[0] == '0' ==> |r| == 1
    decreases n
  {
    if n < 10 then [DigitChar(n)] else NatToString(n / 10) + [DigitChar(n % 10)]
  }

  /** Python `str(i)` for an integer of either sign. */
  function IntToString(i: int): string
  {
    if i < 0 then "-" + NatToString(-i) else NatToString(i)
  }

  /** The value of a string of decimal digits. */
  function ParseNat(s: string): nat
    requires forall i :: 0 <= i < |s| ==> IsDigit(s[i])
  {
    if s == [] then 0
    else
      assert IsDigit(s[|s| - 1]);
      ParseNat(s[..|s| - 1]) * 10 + (s[|s| - 1] as int - '0' as int)
  }

  /** Formatting a number in decimal and reading it back gives the number. */
  lemma {:induction false} ParseNatToString(n: nat)
    ensures ParseNat(NatToString(n)) == n
    decreases n
  {
    var s := NatToString(n);
    if n >= 10 {
      ParseNatToString(n / 10);
      assert s[..|s| - 1] == NatToString(n / 10);
    }
  }

  // ---------------------------------------------------------------- ordering

  /** Code-point lexicographic order, the order of Python's `sorted` on strings. */
  predicate Less(a: string, b: string)
  {
    if |a| == 0 then |b| > 0
    else if |b| == 0 then false
    else if a[0] != b[0] then a[0] < b[0]
    else Less(a[1..], b[1..])
  }

  lemma {:induction false} LessIrreflexive(a: string)
    ensures !Less(a, a)
  {
    if |a| > 0 { LessIrreflexive(a[1..]); }
  }

  lemma {:induction false} LessAsymmetric(a: string, b: string)
    ensures !(Less(a, b) && Less(b, a))
  {
    if |a| > 0 && |b| > 0 && a[0] == b[0] { LessAsymmetric(a[1..], b[1..]); }
  }

  lemma {:induction false} LessTotal(a: string, b: string)
    requires a != b
    ensures Less(a, b) || Less(b, a)
  {
    if |a| > 0 && |b| > 0 && a[0] == b[0] {
      assert a == [a[0]] + a[1..] && b == [b[0]] + b[1..];
      LessTotal(a[1..], b[1..]);
    }
  }

  lemma {:induction false} LessTransitive(a: string, b: string, c: string)
    requires Less(a, b) && Less(b, c)
    ensures Less(a, c)
  {
    if |a| > 0 && |b| > 0 && |c| > 0 && a[0] == b[0] && b[0] == c[0] {
      LessTransitive(a[1..], b[1..], c[1..]);
    }
  }

  /** No string occurs twice. */
  predicate NoDups(s: seq<string>) {
    forall i, j :: 0 <= i < j < |s| ==> s[i] != s[j]
  }
}
