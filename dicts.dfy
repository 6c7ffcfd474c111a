/** Insertion-ordered dictionaries with string keys, as Python's `dict` and
    JavaScript's plain objects behave: setting an existing key replaces its value
    where it stands, setting a new key appends it, and iteration follows that order. */
module Dicts {
  import opened Text

  predicate DistinctKeys<V>(d: seq<(string, V)>) {
    forall i, j :: 0 <= i < j < |d| ==> d[i].0 != d[j].0
  }

  /** A dictionary: its entries in iteration order, no key twice. */
  type Dict<V> = d: seq<(string, V)> | DistinctKeys(d) witness []

  function Keys<V>(e: seq<(string, V)>): set<string> {
    set i | 0 <= i < |e| :: e[i].0
  }

  lemma KeysSnoc<V>(e: seq<(string, V)>, x: (string, V))
    ensures Keys(e + [x]) == Keys(e) + {x.0}
  {
    var f := e + [x];
    assert forall i :: 0 <= i < |e| ==> f[i] == e[i];
    assert f[|e|] == x;
  }

  /** The key-to-value view of a sequence of pairs; when a key occurs more than once
      the last pair wins, as when the pairs are assigned one after the other. */
  function AsMap<V>(e: seq<(string, V)>): (m: map<string, V>)
    ensures m.Keys == Keys(e)
  {
    if e == [] then map[]
    else
      var p := e[..|e| - 1];
      assert e == p + [e[|e| - 1]];
      KeysSnoc(p, e[|e| - 1]);
      AsMap(p)[e[|e| - 1].0 := e[|e| - 1].1]
  }

  lemma AsMapSnoc<V>(e: seq<(string, V)>, x: (string, V))
    ensures AsMap(e + [x]) == AsMap(e)[x.0 := x.1]
  {
    assert (e + [x])[..|e|] == e;
  }

  /** The last pair with a given key decides its value in the map view. */
  lemma {:induction false} AsMapLast<V>(e: seq<(string, V)>, i: int)
    requires 0 <= i < |e|
    requires forall j :: i < j < |e| ==> e[j].0 != e[i].0
    ensures e[i].0 in AsMap(e) && AsMap(e)[e[i].0] == e[i].1
    decreases |e|
  {
    var p := e[..|e| - 1];
    if i < |e| - 1 {
      AsMapLast(p, i);
      assert e == p + [e[|e| - 1]];
      AsMapSnoc(p, e[|e| - 1]);
    }
  }

  /** In a dictionary every entry's value is the map view's value of its key. */
  lemma AsMapAt<V>(d: Dict<V>, i: int)
    requires 0 <= i < |d|
    ensures d[i].0 in AsMap(d) && AsMap(d)[d[i].0] == d[i].1
  {
    AsMapLast(d, i);
  }

  /** `i` is the last position of `e` whose key is `k`. */
  predicate IsLastWith<V>(e: seq<(string, V)>, k: string, i: int) {
    0 <= i < |e| && e[i].0 == k && forall j :: i < j < |e| ==> e[j].0 != k
  }

  /** Every key in the map view takes its value from the last pair that carries it. */
  lemma {:induction false} AsMapLastWins<V>(e: seq<(string, V)>, k: string)
    requires k in AsMap(e)
    ensures exists i :: IsLastWith(e, k, i) && AsMap(e)[k] == e[i].1
    decreases |e|
  {
    var p := e[..|e| - 1];
    var x := e[|e| - 1];
    assert e == p + [x];
    AsMapSnoc(p, x);
    if x.0 == k {
      AsMapLast(e, |e| - 1);
      assert IsLastWith(e, k, |e| - 1);
    } else {
      AsMapLastWins(p, k);
      var i :| IsLastWith(p, k, i) && AsMap(p)[k] == p[i].1;
      assert IsLastWith(e, k, i);
    }
  }

  /** Two dictionaries holding the same pairs have the same map view. */
  lemma SamePairsSameMap<V>(a: Dict<V>, b: Dict<V>)
    requires multiset(a) == multiset(b)
    ensures AsMap(a) == AsMap(b)
  {
    forall k | k in AsMap(a) ensures k in AsMap(b) && AsMap(b)[k] == AsMap(a)[k] {
      var i :| 0 <= i < |a| && a[i].0 == k;
      AsMapAt(a, i);
      assert a[i] in multiset(b);
      var j :| 0 <= j < |b| && b[j] == a[i];
      AsMapAt(b, j);
    }
    forall k | k in AsMap(b) ensures k in AsMap(a) {
      var j :| 0 <= j < |b| && b[j].0 == k;
      assert b[j] in multiset(a);
    }
  }

  /** A dictionary has as many keys as entries. */
  lemma {:induction false} KeysCount<V>(d: Dict<V>)
    ensures |Keys(d)| == |d|
  {
    if d != [] {
      var p := d[..|d| - 1];
      KeysCount(p);
      assert d == p + [d[|d| - 1]];
      KeysSnoc(p, d[|d| - 1]);
      assert d[|d| - 1].0 !in Keys(p);
    }
  }

  // ---------------------------------------------------------------- assignment

  /** The entries of `d` with the value of key `k` replaced by `v`, positions unchanged. */
  function Replace<V>(d: Dict<V>, k: string, v: V): (r: Dict<V>)
    ensures |r| == |d| && forall i :: 0 <= i < |d| ==> r[i].0 == d[i].0
  {
    var r := seq(|d|, i requires 0 <= i < |d| => if d[i].0 == k then (k, v) else d[i]);
    assert forall i :: 0 <= i < |d| ==> r[i].0 == d[i].0;
    r
  }

  lemma ReplaceKeys<V>(d: Dict<V>, k: string, v: V)
    ensures Keys(Replace(d, k, v)) == Keys(d)
  {
    var r := Replace(d, k, v);
    forall j | j in Keys(r) ensures j in Keys(d) {
      var i :| 0 <= i < |r| && r[i].0 == j;
      assert d[i].0 == j;
    }
    forall j | j in Keys(d) ensures j in Keys(r) {
      var i :| 0 <= i < |d| && d[i].0 == j;
      assert r[i].0 == j;
    }
  }

  lemma ReplaceMap<V>(d: Dict<V>, k: string, v: V)
    requires k in Keys(d)
    ensures Keys(Replace(d, k, v)) == Keys(d)
    ensures AsMap(Replace(d, k, v)) == AsMap(d)[k := v]
  {
    var r := Replace(d, k, v);
    ReplaceKeys(d, k, v);
    var m := AsMap(d)[k := v];
    assert AsMap(r).Keys == m.Keys;
    forall j | j in AsMap(r) ensures AsMap(r)[j] == m[j] {
      var i :| 0 <= i < |r| && r[i].0 == j;
      AsMapAt(r, i);
      AsMapAt(d, i);
      if j == k {
        assert r[i] == (k, v);
      } else {
        assert r[i] == d[i];
      }
    }
  }

  /** Python `d[k] = v`. */
  function Put<V>(d: Dict<V>, k: string, v: V): (r: Dict<V>)
    ensures Keys(r) == Keys(d) + {k}
    ensures AsMap(r) == AsMap(d)[k := v]
    ensures k in Keys(d) ==> |r| == |d| && forall i :: 0 <= i < |d| ==> r[i].0 == d[i].0
    ensures k !in Keys(d) ==> r == d + [(k, v)]
  {
    if k in Keys(d) then
      ReplaceMap(d, k, v);
      Replace(d, k, v)
    else
      KeysSnoc(d, (k, v));
      AsMapSnoc(d, (k, v));
      d + [(k, v)]
  }

  lemma UnionAssign<V>(a: map<string, V>, b: map<string, V>, k: string, v: V)
    ensures (a + b)[k := v] == a + b[k := v]
  {
  }

  /** Python `d.update(e)`: the pairs of `e` assigned into `d` in order. */
  function Update<V>(d: Dict<V>, e: seq<(string, V)>): (r: Dict<V>)
    ensures Keys(r) == Keys(d) + Keys(e)
    ensures AsMap(r) == AsMap(d) + AsMap(e)
    ensures |r| <= |d| + |e|
  {
    if e == [] then d
    else
      var p := e[..|e| - 1];
      var x := e[|e| - 1];
      assert e == p + [x];
      var u := Update(d, p);
      KeysSnoc(p, x);
      AsMapSnoc(p, x);
      var r := Put(u, x.0, x.1);
      assert Keys(r) == Keys(u) + {x.0};
      assert AsMap(r) == AsMap(u)[x.0 := x.1];
      UnionAssign(AsMap(d), AsMap(p), x.0, x.1);
      r
  }

  /** Updating with one more pair is one more assignment. */
  lemma UpdateSnoc<V>(d: Dict<V>, e: seq<(string, V)>, x: (string, V))
    ensures Update(d, e + [x]) == Put(Update(d, e), x.0, x.1)
  {
    assert (e + [x])[..|e|] == e;
  }

  lemma KeysAppend<V>(a: seq<(string, V)>, b: seq<(string, V)>)
    ensures Keys(a + b) == Keys(a) + Keys(b)
  {
    var c := a + b;
    assert forall i :: 0 <= i < |a| ==> c[i] == a[i];
    assert forall i :: 0 <= i < |b| ==> c[|a| + i] == b[i];
    forall k | k in Keys(c) ensures k in Keys(a) + Keys(b) {
      var i :| 0 <= i < |c| && c[i].0 == k;
      if i >= |a| { assert b[i - |a|] == c[i]; }
    }
  }

  /** Updating with a dictionary of new keys only appends its entries. */
  lemma {:induction false} UpdateDisjoint<V>(d: Dict<V>, e: Dict<V>)
    requires Keys(d) !! Keys(e)
    ensures Update(d, e) == d + e
  {
    if e != [] {
      var p := e[..|e| - 1];
      var x := e[|e| - 1];
      assert e == p + [x];
      KeysSnoc(p, x);
      UpdateDisjoint(d, p);
      KeysAppend(d, p);
      assert x.0 !in Keys(p);
    }
  }

  /** The entries whose keys are not in `drop`, in their order (a dict comprehension
      with a membership filter; with a single key, Python `d.pop(k)`). */
  function FilterOut<V>(d: Dict<V>, drop: set<string>): (r: Dict<V>)
    ensures Keys(r) == Keys(d) - drop
    ensures |r| <= |d|
  {
    if d == [] then []
    else
      var p := d[..|d| - 1];
      var x := d[|d| - 1];
      assert d == p + [x];
      KeysSnoc(p, x);
      var q := FilterOut(p, drop);
      if x.0 in drop then q
      else
        KeysSnoc(q, x);
        assert x.0 !in Keys(q);
        q + [x]
  }

  lemma MapMinusAssign<V>(m: map<string, V>, k: string, v: V, drop: set<string>)
    ensures k in drop ==> m[k := v] - drop == m - drop
    ensures k !in drop ==> m[k := v] - drop == (m - drop)[k := v]
  {
  }

  /** Filtering keys out of a dictionary removes exactly them from its map view. */
  lemma {:induction false} FilterOutMap<V>(d: Dict<V>, drop: set<string>)
    ensures AsMap(FilterOut(d, drop)) == AsMap(d) - drop
  {
    if d != [] {
      var p := d[..|d| - 1];
      var x := d[|d| - 1];
      assert d == p + [x];
      FilterOutMap(p, drop);
      AsMapSnoc(p, x);
      MapMinusAssign(AsMap(p), x.0, x.1, drop);
      var q := FilterOut(p, drop);
      if x.0 !in drop {
        AsMapSnoc(q, x);
      }
    }
  }

  // ---------------------------------------------------------------- sorting

  predicate SortedByKey<V>(d: seq<(string, V)>) {
    forall i, j :: 0 <= i < j < |d| ==> Less(d[i].0, d[j].0)
  }

  /** Every key of `s` comes after `k`. */
  predicate KeysAbove<V>(k: string, s: seq<(string, V)>) {
    forall j :: 0 <= j < |s| ==> Less(k, s[j].0)
  }

  lemma KeysAboveInsert<V>(k: string, a: seq<(string, V)>, x: (string, V), r: seq<(string, V)>)
    requires KeysAbove(k, a) && Less(k, x.0)
    requires multiset(r) == multiset(a) + multiset{x}
    ensures KeysAbove(k, r)
  {
    forall j | 0 <= j < |r| ensures Less(k, r[j].0) {
      assert r[j] in multiset(r);
      if r[j] != x {
        assert r[j] in multiset(a);
        var m :| 0 <= m < |a| && a[m] == r[j];
      }
    }
  }

  lemma SortedHead<V>(s: seq<(string, V)>)
    requires SortedByKey(s) && s != []
    ensures KeysAbove(s[0].0, s[1..])
  {
    assert forall j :: 0 <= j < |s[1..]| ==> s[1..][j] == s[j + 1];
  }

  function InsertByKey<V>(x: (string, V), s: seq<(string, V)>): (r: seq<(string, V)>)
    requires SortedByKey(s) && x.0 !in Keys(s)
    ensures SortedByKey(r)
    ensures multiset(r) == multiset(s) + multiset{x}
    ensures |r| == |s| + 1
  {
    if s == [] then [x]
    else
      assert s[0].0 in Keys(s);
      LessTotal(x.0, s[0].0);
      assert s == [s[0]] + s[1..];
      if Less(x.0, s[0].0) then
        assert KeysAbove(x.0, s) by {
          forall j | 0 < j < |s| ensures Less(x.0, s[j].0) {
            LessTransitive(x.0, s[0].0, s[j].0);
          }
        }
        [x] + s
      else
        assert Keys(s[1..]) <= Keys(s);
        var rest := InsertByKey(x, s[1..]);
        SortedHead(s);
        KeysAboveInsert(s[0].0, s[1..], x, rest);
        [s[0]] + rest
  }

  lemma SortedDistinct<V>(s: seq<(string, V)>)
    requires SortedByKey(s)
    ensures DistinctKeys(s)
  {
    forall i, j | 0 <= i < j < |s| ensures s[i].0 != s[j].0 {
      if s[i].0 == s[j].0 { LessIrreflexive(s[i].0); }
    }
  }

  /** Sequences holding the same pairs have the same keys. */
  lemma SamePairsSameKeys<V>(a: seq<(string, V)>, b: seq<(string, V)>)
    requires multiset(a) == multiset(b)
    ensures Keys(a) == Keys(b)
  {
    forall k | k in Keys(a) ensures k in Keys(b) {
      var i :| 0 <= i < |a| && a[i].0 == k;
      assert a[i] in multiset(b);
    }
    forall k | k in Keys(b) ensures k in Keys(a) {
      var i :| 0 <= i < |b| && b[i].0 == k;
      assert b[i] in multiset(a);
    }
  }

  /** Python `sorted(d.items())`: the entries in increasing key order. */
  function SortByKey<V>(d: Dict<V>): (r: Dict<V>)
    ensures SortedByKey(r)
    ensures multiset(r) == multiset(d)
    ensures |r| == |d|
  {
    if d == [] then []
    else
      var p := d[..|d| - 1];
      var x := d[|d| - 1];
      assert d == p + [x];
      var s := SortByKey(p);
      SamePairsSameKeys(s, p);
      assert x.0 !in Keys(p);
      var r := InsertByKey(x, s);
      SortedDistinct(r);
      r
  }

  /** Sorting keeps the keys and the key-to-value view. */
  lemma SortByKeyMap<V>(d: Dict<V>)
    ensures Keys(SortByKey(d)) == Keys(d)
    ensures AsMap(SortByKey(d)) == AsMap(d)
  {
    SamePairsSameKeys(SortByKey(d), d);
    SamePairsSameMap(SortByKey(d), d);
  }

  /** Total number of entries of the dictionaries held in `d`. */
  function SumSizes<V>(d: seq<(string, Dict<V>)>): nat {
    if d == [] then 0 else SumSizes(d[..|d| - 1]) + |d[|d| - 1].1|
  }
}
