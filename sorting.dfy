/**
 * The panel's sort: Python's stable `list.sort(key=..., reverse=...)` over
 * image paths, driven by one of the six sort modes of the panel's combo box.
 */
module Sorting {
  import opened Text
  import opened Paths

  /** A sort key: a lower-cased base name, or a file timestamp. */
  datatype SortKey = ByName(name: string) | ByTime(time: real)

  /** Python's `<` on the keys of one sort (names by code point, times numerically). */
  predicate KeyLt(a: SortKey, b: SortKey) {
    match (a, b)
    case (ByName(x), ByName(y)) => LexLt(x, y)
    case (ByTime(s), ByTime(t)) => s < t
    case (ByName(_), ByTime(_)) => true
    case (ByTime(_), ByName(_)) => false
  }

  lemma KeyLtIrreflexive(a: SortKey)
    ensures !KeyLt(a, a)
  {
    if a.ByName? {
      LexLtIrreflexive(a.name);
    }
  }

  lemma KeyLtTransitive(a: SortKey, b: SortKey, c: SortKey)
    requires KeyLt(a, b) && KeyLt(b, c)
    ensures KeyLt(a, c)
  {
    if a.ByName? && b.ByName? && c.ByName? {
      LexLtTransitive(a.name, b.name, c.name);
    }
  }

  lemma KeyLtTotal(a: SortKey, b: SortKey)
    ensures a == b || KeyLt(a, b) || KeyLt(b, a)
  {
    if a.ByName? && b.ByName? {
      LexLtTotal(a.name, b.name);
    }
  }

  /**
   * `a` may stand before `b` in the result: `a <= b` for an ascending sort,
   * `a >= b` for a reversed one.
   */
  predicate InOrder(a: SortKey, b: SortKey, desc: bool) {
    if desc then !KeyLt(a, b) else !KeyLt(b, a)
  }

  lemma InOrderReflexive(a: SortKey, desc: bool)
    ensures InOrder(a, a, desc)
  {
    KeyLtIrreflexive(a);
  }

  lemma InOrderTotal(a: SortKey, b: SortKey, desc: bool)
    ensures InOrder(a, b, desc) || InOrder(b, a, desc)
  {
    if KeyLt(a, b) && KeyLt(b, a) {
      KeyLtTransitive(a, b, a);
      KeyLtIrreflexive(a);
    }
  }

  lemma InOrderTransitive(a: SortKey, b: SortKey, c: SortKey, desc: bool)
    requires InOrder(a, b, desc) && InOrder(b, c, desc)
    ensures InOrder(a, c, desc)
  {
    KeyLtTotal(a, b);
    if desc {
      if KeyLt(a, c) {
        if KeyLt(b, a) {
          KeyLtTransitive(b, a, c);
        }
      }
    } else {
      if KeyLt(c, a) {
        if KeyLt(a, b) {
          KeyLtTransitive(c, a, b);
        }
      }
    }
  }

  /**
   * `x` placed in front of the first element it may stand before, so that it
   * stays ahead of every element with an equal key.
   */
  function Insert(x: string, s: seq<string>, key: string -> SortKey, desc: bool): (r: seq<string>)
    ensures |r| == |s| + 1
    ensures multiset(r) == multiset(s) + multiset{x}
  {
    if s == [] then [x]
    else if InOrder(key(x), key(s[0]), desc) then [x] + s
    else
      assert s == [s[0]] + s[1..];
      [s[0]] + Insert(x, s[1..], key, desc)
  }

  /** The stable sort of `s` by `key`, descending when `desc` is set. */
  function SortBy(s: seq<string>, key: string -> SortKey, desc: bool): (r: seq<string>)
    ensures |r| == |s|
    ensures multiset(r) == multiset(s)
  {
    if s == [] then []
    else
      assert s == [s[0]] + s[1..];
      Insert(s[0], SortBy(s[1..], key, desc), key, desc)
  }

  /** Every element may stand before every later one. */
  ghost predicate Sorted(s: seq<string>, key: string -> SortKey, desc: bool) {
    forall i, j :: 0 <= i < j < |s| ==> InOrder(key(s[i]), key(s[j]), desc)
  }

  /** An element that may stand before `x` and before all of `s` may stand before all of the insertion. */
  lemma InsertBounded(y: string, x: string, s: seq<string>, key: string -> SortKey, desc: bool)
    requires InOrder(key(y), key(x), desc)
    requires forall k :: 0 <= k < |s| ==> InOrder(key(y), key(s[k]), desc)
    ensures forall j :: 0 <= j <= |s| ==> InOrder(key(y), key(Insert(x, s, key, desc)[j]), desc)
  {
    var t := Insert(x, s, key, desc);
    forall j | 0 <= j < |t|
      ensures InOrder(key(y), key(t[j]), desc)
    {
      assert t[j] in multiset(t);
      if t[j] != x {
        assert t[j] in multiset(s);
        var k :| 0 <= k < |s| && s[k] == t[j];
      }
    }
  }

  /** Inserting in front of the first element keeps a sorted sequence sorted. */
  lemma InsertFrontSorted(x: string, s: seq<string>, key: string -> SortKey, desc: bool)
    requires Sorted(s, key, desc)
    requires s != [] && InOrder(key(x), key(s[0]), desc)
    ensures Sorted([x] + s, key, desc)
  {
    var r := [x] + s;
    forall i, j | 0 <= i < j < |r|
      ensures InOrder(key(r[i]), key(r[j]), desc)
    {
      assert r[j] == s[j - 1];
      if i > 0 {
        assert r[i] == s[i - 1];
      } else if j > 1 {
        InOrderTransitive(key(x), key(s[0]), key(s[j - 1]), desc);
      }
    }
  }

  lemma {:induction false} InsertSorted(x: string, s: seq<string>, key: string -> SortKey, desc: bool)
    requires Sorted(s, key, desc)
    ensures Sorted(Insert(x, s, key, desc), key, desc)
    decreases |s|
  {
    if s != [] {
      if InOrder(key(x), key(s[0]), desc) {
        InsertFrontSorted(x, s, key, desc);
      } else {
        var t := Insert(x, s[1..], key, desc);
        var r := [s[0]] + t;
        InsertSorted(x, s[1..], key, desc);
        InOrderTotal(key(x), key(s[0]), desc);
        forall k | 0 <= k < |s[1..]|
          ensures InOrder(key(s[0]), key(s[1..][k]), desc)
        {
          assert s[1..][k] == s[k + 1];
        }
        InsertBounded(s[0], x, s[1..], key, desc);
        forall i, j | 0 <= i < j < |r|
          ensures InOrder(key(r[i]), key(r[j]), desc)
        {
          assert r[j] == t[j - 1];
          if i > 0 {
            assert r[i] == t[i - 1];
            assert InOrder(key(t[i - 1]), key(t[j - 1]), desc);
          } else {
            assert InOrder(key(s[0]), key(t[j - 1]), desc);
          }
        }
      }
    }
  }

  /** The result is ordered by key: non-decreasing, or non-increasing when reversed. */
  lemma {:induction false} SortBySorted(s: seq<string>, key: string -> SortKey, desc: bool)
    ensures Sorted(SortBy(s, key, desc), key, desc)
    decreases |s|
  {
    if s != [] {
      SortBySorted(s[1..], key, desc);
      InsertSorted(s[0], SortBy(s[1..], key, desc), key, desc);
    }
  }

  /** The elements of `s` whose key is `k`, in their order. */
  function WithKey(s: seq<string>, key: string -> SortKey, k: SortKey): (r: seq<string>)
    ensures |r| <= |s|
  {
    if s == [] then []
    else (if key(s[0]) == k then [s[0]] else []) + WithKey(s[1..], key, k)
  }

  lemma WithKeyCons(y: string, s: seq<string>, key: string -> SortKey, k: SortKey)
    ensures WithKey([y] + s, key, k) == (if key(y) == k then [y] else []) + WithKey(s, key, k)
  {
    assert ([y] + s)[1..] == s;
  }

  lemma {:induction false} InsertWithKey(x: string, s: seq<string>, key: string -> SortKey, desc: bool, k: SortKey)
    ensures WithKey(Insert(x, s, key, desc), key, k) == (if key(x) == k then [x] else []) + WithKey(s, key, k)
    decreases |s|
  {
    if s == [] {
      WithKeyCons(x, [], key, k);
    } else if InOrder(key(x), key(s[0]), desc) {
      WithKeyCons(x, s, key, k);
    } else {
      InsertWithKey(x, s[1..], key, desc, k);
      InOrderReflexive(key(x), desc);
      PassedWithKey(x, s, Insert(x, s[1..], key, desc), key, k);
    }
  }

  /** `x` moving past an element of a different key does not reorder either key's elements. */
  lemma PassedWithKey(x: string, s: seq<string>, t: seq<string>, key: string -> SortKey, k: SortKey)
    requires s != [] && key(s[0]) != key(x)
    requires WithKey(t, key, k) == (if key(x) == k then [x] else []) + WithKey(s[1..], key, k)
    ensures WithKey([s[0]] + t, key, k) == (if key(x) == k then [x] else []) + WithKey(s, key, k)
  {
    WithKeyCons(s[0], t, key, k);
    WithKeyCons(s[0], s[1..], key, k);
    assert s == [s[0]] + s[1..];
    var px: seq<string> := if key(x) == k then [x] else [];
    var p0: seq<string> := if key(s[0]) == k then [s[0]] else [];
    var w := WithKey(s[1..], key, k);
    assert p0 == [] || px == [];
    assert p0 + (px + w) == px + (p0 + w);
  }

  /** Stability: the elements with any one key keep their relative order. */
  lemma {:induction false} SortByStable(s: seq<string>, key: string -> SortKey, desc: bool, k: SortKey)
    ensures WithKey(SortBy(s, key, desc), key, k) == WithKey(s, key, k)
    decreases |s|
  {
    if s != [] {
      SortByStable(s[1..], key, desc, k);
      InsertWithKey(s[0], SortBy(s[1..], key, desc), key, desc, k);
    }
  }

  /** Distinct elements of `s` have distinct keys. */
  ghost predicate KeysDistinct(s: seq<string>, key: string -> SortKey) {
    forall x, y :: x in s && y in s && key(x) == key(y) ==> x == y
  }

  lemma InOrderAntisymmetric(a: SortKey, b: SortKey, desc: bool)
    requires InOrder(a, b, desc) && InOrder(b, a, desc)
    ensures a == b
  {
    KeyLtTotal(a, b);
  }

  lemma SortedTail(u: seq<string>, key: string -> SortKey, desc: bool)
    requires u != [] && Sorted(u, key, desc)
    ensures Sorted(u[1..], key, desc)
  {
    forall i, j | 0 <= i < j < |u[1..]| ensures InOrder(key(u[1..][i]), key(u[1..][j]), desc) {
      assert u[1..][i] == u[i + 1] && u[1..][j] == u[j + 1];
    }
  }

  /** A sorted sequence starts with an element that may stand before every element. */
  lemma SortedHead(u: seq<string>, x: string, key: string -> SortKey, desc: bool)
    requires u != [] && Sorted(u, key, desc) && x in u
    ensures InOrder(key(u[0]), key(x), desc)
  {
    var i :| 0 <= i < |u| && u[i] == x;
    if i == 0 {
      InOrderReflexive(key(x), desc);
    }
  }

  /** Two sorted arrangements of the same elements with distinct keys are the same. */
  lemma {:induction false} SortedUnique(u: seq<string>, v: seq<string>, key: string -> SortKey, desc: bool)
    requires Sorted(u, key, desc) && Sorted(v, key, desc)
    requires multiset(u) == multiset(v)
    requires KeysDistinct(u, key)
    ensures u == v
    decreases |u|
  {
    assert |u| == |multiset(u)| == |v|;
    if u != [] {
      assert v[0] in multiset(u) && u[0] in multiset(v);
      SortedHead(u, v[0], key, desc);
      SortedHead(v, u[0], key, desc);
      InOrderAntisymmetric(key(u[0]), key(v[0]), desc);
      assert u[0] == v[0];
      assert u == [u[0]] + u[1..] && v == [v[0]] + v[1..];
      assert multiset(u[1..]) == multiset(u) - multiset{u[0]};
      assert multiset(v[1..]) == multiset(v) - multiset{v[0]};
      assert KeysDistinct(u[1..], key) by {
        forall x, y | x in u[1..] && y in u[1..] && key(x) == key(y) ensures x == y {
          assert x in u && y in u;
        }
      }
      SortedTail(u, key, desc);
      SortedTail(v, key, desc);
      SortedUnique(u[1..], v[1..], key, desc);
    }
  }

  /** `s` back to front. */
  function Reversed(s: seq<string>): (r: seq<string>)
    ensures |r| == |s|
    ensures multiset(r) == multiset(s)
  {
    if s == [] then []
    else
      assert s == [s[0]] + s[1..];
      Reversed(s[1..]) + [s[0]]
  }

  lemma {:induction false} ReversedAt(s: seq<string>, i: nat)
    requires i < |s|
    ensures Reversed(s)[i] == s[|s| - 1 - i]
    decreases |s|
  {
    if i < |s| - 1 {
      ReversedAt(s[1..], i);
    }
  }

  /** Distinct keys survive any rearrangement of the same paths. */
  lemma KeysDistinctPermuted(s: seq<string>, t: seq<string>, key: string -> SortKey)
    requires KeysDistinct(s, key) && multiset(s) == multiset(t)
    ensures KeysDistinct(t, key)
  {
    forall x, y | x in t && y in t && key(x) == key(y)
      ensures x == y
    {
      assert x in multiset(t) && y in multiset(t);
      assert x in multiset(s) && y in multiset(s);
    }
  }

  /** An ascending sequence read back to front is descending. */
  lemma ReversedDescends(a: seq<string>, key: string -> SortKey)
    requires Sorted(a, key, false)
    ensures Sorted(Reversed(a), key, true)
  {
    var ra := Reversed(a);
    forall i, j | 0 <= i < j < |ra|
      ensures InOrder(key(ra[i]), key(ra[j]), true)
    {
      ReversedAt(a, i);
      ReversedAt(a, j);
    }
  }

  /**
   * When no two paths share a key, sorting the ascending order again in
   * reverse gives exactly the ascending order back to front.
   */
  lemma ReverseSortReverses(s: seq<string>, key: string -> SortKey)
    requires KeysDistinct(s, key)
    ensures SortBy(SortBy(s, key, false), key, true) == Reversed(SortBy(s, key, false))
  {
    var a := SortBy(s, key, false);
    var d := SortBy(a, key, true);
    SortBySorted(s, key, false);
    SortBySorted(a, key, true);
    KeysDistinctPermuted(s, d, key);
    ReversedDescends(a, key);
    SortedUnique(d, Reversed(a), key, true);
  }

  /** The six entries of the sort combo box, in their order. */
  datatype SortMode =
    | NameAscending        // "Name (A–Z)"
    | NameDescending       // "Name (Z–A)"
    | ModifiedNewestFirst  // "Geändert (neu→alt)"
    | ModifiedOldestFirst  // "Geändert (alt→neu)"
    | CreatedNewestFirst   // "Erstellt (neu→alt)"
    | CreatedOldestFirst   // "Erstellt (alt→neu)"

  /**
   * The timestamps the file system reports; a path missing from a map is one
   * whose timestamp could not be read.
   */
  datatype FileTimes = FileTimes(modified: map<string, real>, created: map<string, real>)

  predicate Descending(mode: SortMode) {
    mode == NameDescending || mode == ModifiedNewestFirst || mode == CreatedNewestFirst
  }

  predicate ByTimestamp(mode: SortMode) {
    !(mode == NameAscending || mode == NameDescending)
  }

  /** The timestamps a time mode sorts by. */
  function Stamps(mode: SortMode, fs: FileTimes): map<string, real> {
    if mode == ModifiedNewestFirst || mode == ModifiedOldestFirst then fs.modified else fs.created
  }

  /**
   * `safe_mtime` / `safe_ctime`: the timestamp the file system reports, or 0
   * when it cannot be read.
   */
  function TimeOf(stamps: map<string, real>, p: string): (t: real)
    ensures p in stamps ==> t == stamps[p]
    ensures p !in stamps ==> t == 0.0
  {
    if p in stamps then stamps[p] else 0.0
  }

  /** The key of path `p` under `mode`. */
  function KeyOf(mode: SortMode, fs: FileTimes, p: string): SortKey {
    if ByTimestamp(mode) then ByTime(TimeOf(Stamps(mode, fs), p)) else ByName(Lower(Basename(p)))
  }

  function KeyFn(mode: SortMode, fs: FileTimes): string -> SortKey {
    p => KeyOf(mode, fs, p)
  }

  /**
   * A name mode orders paths by their lower-cased base names, a time mode by
   * the chosen timestamp, with 0 for one that cannot be read.
   */
  lemma KeyOrder(mode: SortMode, fs: FileTimes, p: string, q: string)
    ensures !ByTimestamp(mode) ==>
      (KeyLt(KeyOf(mode, fs, p), KeyOf(mode, fs, q)) <==> LexLt(Lower(Basename(p)), Lower(Basename(q))))
    ensures mode == ModifiedNewestFirst || mode == ModifiedOldestFirst ==>
      (KeyLt(KeyOf(mode, fs, p), KeyOf(mode, fs, q)) <==> TimeOf(fs.modified, p) < TimeOf(fs.modified, q))
    ensures mode == CreatedNewestFirst || mode == CreatedOldestFirst ==>
      (KeyLt(KeyOf(mode, fs, p), KeyOf(mode, fs, q)) <==> TimeOf(fs.created, p) < TimeOf(fs.created, q))
  {
  }

  /** The entries of the sort combo box, as `sort_images` reads them back. */
  function ComboText(mode: SortMode): string {
    match mode
    case NameAscending => "Name (A–Z)"
    case NameDescending => "Name (Z–A)"
    case ModifiedNewestFirst => "Geändert (neu→alt)"
    case ModifiedOldestFirst => "Geändert (alt→neu)"
    case CreatedNewestFirst => "Erstellt (neu→alt)"
    case CreatedOldestFirst => "Erstellt (alt→neu)"
  }

  /** What a combo text sorts by. */
  datatype KeyRule = BaseNameRule | ModifiedRule | CreatedRule

  /**
   * The key and the `reverse` flag `sort_images` derives from the combo text:
   * the leading word picks the key, the letter range or arrow picks the
   * direction, and any other text sorts by name, ascending.
   */
  function RuleOf(text: string): (r: (KeyRule, bool))
    ensures StartsWith(text, "Name") ==> r == (BaseNameRule, Contains(text, "Z–A"))
    ensures !StartsWith(text, "Name") && StartsWith(text, "Geändert") ==>
      r == (ModifiedRule, Contains(text, "neu→alt"))
    ensures !StartsWith(text, "Name") && !StartsWith(text, "Geändert") && StartsWith(text, "Erstellt") ==>
      r == (CreatedRule, Contains(text, "neu→alt"))
    ensures !StartsWith(text, "Name") && !StartsWith(text, "Geändert") && !StartsWith(text, "Erstellt") ==>
      r == (BaseNameRule, false)
    ensures r.0 != BaseNameRule ==> (r.1 <==> Contains(text, "neu→alt"))
  {
    if StartsWith(text, "Name") then (BaseNameRule, Contains(text, "Z–A"))
    else if StartsWith(text, "Geändert") then (ModifiedRule, Contains(text, "neu→alt"))
    else if StartsWith(text, "Erstellt") then (CreatedRule, Contains(text, "neu→alt"))
    else (BaseNameRule, false)
  }

  /** The key a rule gives path `p`. */
  function RuleKey(rule: KeyRule, fs: FileTimes, p: string): SortKey {
    match rule
    case BaseNameRule => ByName(Lower(Basename(p)))
    case ModifiedRule => ByTime(TimeOf(fs.modified, p))
    case CreatedRule => ByTime(TimeOf(fs.created, p))
  }

  /** `Name (A–Z)`: by lower-cased base name, ascending. */
  lemma NameAscendingRule()
    ensures RuleOf(ComboText(NameAscending)) == (BaseNameRule, false)
  {
    var s := "Name (A" + ['–'] + "Z)";
    assert ComboText(NameAscending) == s;
    assert StartsWith(s, "Name");
    assert s[6] == 'A';
    NotContained("Name (A", '–', "Z)", "Z–A", 1);
  }

  /** `Name (Z–A)`: by lower-cased base name, reversed. */
  lemma NameDescendingRule()
    ensures RuleOf(ComboText(NameDescending)) == (BaseNameRule, true)
  {
    var t := ComboText(NameDescending);
    assert StartsWith(t, "Name");
    assert OccursAt(t, "Z–A", 6);
  }

  /** `Geändert (neu→alt)`: by modification time, newest first. */
  lemma ModifiedNewestRule()
    ensures RuleOf(ComboText(ModifiedNewestFirst)) == (ModifiedRule, true)
  {
    var s := ComboText(ModifiedNewestFirst);
    assert s[0] != 'N';
    assert StartsWith(s, "Geändert");
    assert OccursAt(s, "neu→alt", 10);
  }

  /** `Geändert (alt→neu)`: by modification time, oldest first. */
  lemma ModifiedOldestRule()
    ensures RuleOf(ComboText(ModifiedOldestFirst)) == (ModifiedRule, false)
  {
    var t := "Geändert (alt" + ['→'] + "neu)";
    assert ComboText(ModifiedOldestFirst) == t;
    assert t[0] != 'N';
    assert StartsWith(t, "Geändert");
    assert t[10] == 'a';
    NotContained("Geändert (alt", '→', "neu)", "neu→alt", 3);
  }

  /** `Erstellt (neu→alt)`: by creation time, newest first. */
  lemma CreatedNewestRule()
    ensures RuleOf(ComboText(CreatedNewestFirst)) == (CreatedRule, true)
  {
    var s := ComboText(CreatedNewestFirst);
    assert s[0] != 'N' && s[0] != 'G';
    assert StartsWith(s, "Erstellt");
    assert OccursAt(s, "neu→alt", 10);
  }

  /** `Erstellt (alt→neu)`: by creation time, oldest first. */
  lemma CreatedOldestRule()
    ensures RuleOf(ComboText(CreatedOldestFirst)) == (CreatedRule, false)
  {
    var t := "Erstellt (alt" + ['→'] + "neu)";
    assert ComboText(CreatedOldestFirst) == t;
    assert t[0] != 'N' && t[0] != 'G';
    assert StartsWith(t, "Erstellt");
    assert t[10] == 'a';
    NotContained("Erstellt (alt", '→', "neu)", "neu→alt", 3);
  }

  /**
   * Each of the six entries, read as `sort_images` reads it, sorts by the key
   * and in the direction its mode stands for.
   */
  lemma ComboTextRule(mode: SortMode, fs: FileTimes, p: string)
    ensures RuleOf(ComboText(mode)).1 == Descending(mode)
    ensures RuleKey(RuleOf(ComboText(mode)).0, fs, p) == KeyOf(mode, fs, p)
  {
    match mode
    case NameAscending => NameAscendingRule();
    case NameDescending => NameDescendingRule();
    case ModifiedNewestFirst => ModifiedNewestRule();
    case ModifiedOldestFirst => ModifiedOldestRule();
    case CreatedNewestFirst => CreatedNewestRule();
    case CreatedOldestFirst => CreatedOldestRule();
  }

  /**
   * With timestamps that are never negative, a file whose timestamp cannot be
   * read sorts as the oldest: oldest-first puts nothing but epoch files before
   * it, newest-first nothing but epoch files after it.
   */
  lemma UnreadableSortsAsOldest(s: seq<string>, mode: SortMode, fs: FileTimes)
    requires ByTimestamp(mode)
    requires forall p :: p in Stamps(mode, fs) ==> Stamps(mode, fs)[p] >= 0.0
    ensures var r := SortBy(s, KeyFn(mode, fs), Descending(mode));
      var stamps := Stamps(mode, fs);
      && (!Descending(mode) ==> forall i, j :: 0 <= i < j < |r| && r[j] !in stamps ==> TimeOf(stamps, r[i]) == 0.0)
      && (Descending(mode) ==> forall i, j :: 0 <= i < j < |r| && r[i] !in stamps ==> TimeOf(stamps, r[j]) == 0.0)
  {
    SortBySorted(s, KeyFn(mode, fs), Descending(mode));
  }
}
