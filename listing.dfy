/** What the SQL queries of the back office do to a table, independently of
    the table: keep the rows a `WHERE` clause accepts, order them
    `ORDER BY <timestamp> DESC`, apply `LIMIT … OFFSET …`, and read a keyed
    table in primary-key order. */
module Listing {

  /** The rows of `s` that satisfy `p`, in their original order (a `WHERE` clause). */
  function Filter<T(==)>(s: seq<T>, p: T -> bool): (r: seq<T>)
    ensures |r| <= |s|
    ensures forall i :: 0 <= i < |r| ==> r[i] in s && p(r[i])
    ensures forall i :: 0 <= i < |s| && p(s[i]) ==> s[i] in r
  {
    if s == [] then [] else Filter(s[..|s| - 1], p) + (if p(s[|s| - 1]) then [s[|s| - 1]] else [])
  }

  lemma {:induction false} FilterConcat<T>(s: seq<T>, t: seq<T>, p: T -> bool)
    ensures Filter(s + t, p) == Filter(s, p) + Filter(t, p)
    decreases |t|
  {
    if t != [] {
      assert (s + t)[..|s + t| - 1] == s + t[..|t| - 1];
      FilterConcat(s, t[..|t| - 1], p);
    } else {
      assert s + t == s;
    }
  }

  lemma {:induction false} FilterAll<T>(s: seq<T>, p: T -> bool)
    requires forall i :: 0 <= i < |s| ==> p(s[i])
    ensures Filter(s, p) == s
  {
    if s != [] {
      FilterAll(s[..|s| - 1], p);
      assert s[..|s| - 1] + [s[|s| - 1]] == s;
    }
  }

  /** Two conditions that agree on every row keep the same rows. */
  lemma {:induction false} FilterSame<T>(s: seq<T>, p1: T -> bool, p2: T -> bool)
    requires forall i :: 0 <= i < |s| ==> p1(s[i]) == p2(s[i])
    ensures Filter(s, p1) == Filter(s, p2)
  {
    if s != [] {
      FilterSame(s[..|s| - 1], p1, p2);
    }
  }

  /** Keeping some rows of a sequence whose keys increase leaves keys that increase. */
  lemma {:induction false} FilterIncreasing<T>(s: seq<T>, p: T -> bool, key: T -> int)
    requires forall k, l :: 0 <= k < l < |s| ==> key(s[k]) < key(s[l])
    ensures forall k, l :: 0 <= k < l < |Filter(s, p)| ==> key(Filter(s, p)[k]) < key(Filter(s, p)[l])
    decreases |s|
  {
    if s != [] {
      var init := s[..|s| - 1];
      FilterIncreasing(init, p, key);
      var f := Filter(init, p);
      forall i | 0 <= i < |f| ensures key(f[i]) < key(s[|s| - 1]) {
        var j :| 0 <= j < |init| && init[j] == f[i];
      }
    }
  }

  /** `s` is ordered newest first by `key` (`ORDER BY key DESC`). */
  ghost predicate NewestFirst<T>(s: seq<T>, key: T -> int)
  {
    forall i, j :: 0 <= i < j < |s| ==> key(s[i]) >= key(s[j])
  }

  /** Inserts `x` into a newest-first sequence, before every element with an
      equal or smaller key. */
  function InsertByKey<T(==)>(x: T, s: seq<T>, key: T -> int): (r: seq<T>)
    ensures multiset(r) == multiset(s) + multiset{x}
  {
    if s == [] || key(x) >= key(s[0]) then [x] + s
    else
      assert s == [s[0]] + s[1..];
      [s[0]] + InsertByKey(x, s[1..], key)
  }

  lemma {:induction false} InsertByKeyBounded<T>(x: T, s: seq<T>, key: T -> int, bound: int)
    requires key(x) <= bound && forall i :: 0 <= i < |s| ==> key(s[i]) <= bound
    ensures forall i :: 0 <= i < |InsertByKey(x, s, key)| ==> key(InsertByKey(x, s, key)[i]) <= bound
  {
    if s != [] && key(x) < key(s[0]) {
      InsertByKeyBounded(x, s[1..], key, bound);
    }
  }

  lemma {:induction false} InsertByKeyNewestFirst<T>(x: T, s: seq<T>, key: T -> int)
    requires NewestFirst(s, key)
    ensures NewestFirst(InsertByKey(x, s, key), key)
  {
    if s != [] && key(x) < key(s[0]) {
      InsertByKeyNewestFirst(x, s[1..], key);
      InsertByKeyBounded(x, s[1..], key, key(s[0]));
    }
  }

  /** The rows of `s` ordered newest first by `key`; rows with equal keys
      keep their original relative order. */
  function SortNewestFirst<T(==)>(s: seq<T>, key: T -> int): (r: seq<T>)
    ensures NewestFirst(r, key)
    ensures multiset(r) == multiset(s)
  {
    if s == [] then []
    else
      var rest := SortNewestFirst(s[1..], key);
      assert s == [s[0]] + s[1..];
      InsertByKeyNewestFirst(s[0], rest, key);
      InsertByKey(s[0], rest, key)
  }

  lemma SortedMembers<T>(s: seq<T>, key: T -> int)
    ensures |SortNewestFirst(s, key)| == |s|
    ensures forall i :: 0 <= i < |SortNewestFirst(s, key)| ==> SortNewestFirst(s, key)[i] in s
    ensures forall i :: 0 <= i < |s| ==> s[i] in SortNewestFirst(s, key)
  {
    var r := SortNewestFirst(s, key);
    assert |multiset(r)| == |multiset(s)|;
    forall i | 0 <= i < |r| ensures r[i] in s {
      assert r[i] in multiset(r);
    }
    forall i | 0 <= i < |s| ensures s[i] in r {
      assert s[i] in multiset(s);
    }
  }

  /** The index SQLite's `OFFSET` starts at: a negative offset counts as
      zero, and an offset past the end gives no rows. */
  function PageStart(n: nat, offset: int): (start: nat)
    ensures start <= n
  {
    if offset < 0 then 0 else if offset > n then n else offset
  }

  /** SQLite's `LIMIT limit OFFSET offset`: a negative limit means no limit. */
  function Page<T>(s: seq<T>, limit: int, offset: int): (r: seq<T>)
    ensures limit >= 0 ==> |r| <= limit
    ensures PageStart(|s|, offset) + |r| <= |s|
    ensures forall i :: 0 <= i < |r| ==> r[i] == s[PageStart(|s|, offset) + i]
    ensures limit < 0 || PageStart(|s|, offset) + limit >= |s| ==> PageStart(|s|, offset) + |r| == |s|
    ensures limit >= 0 && PageStart(|s|, offset) + limit < |s| ==> |r| == limit
  {
    var start := PageStart(|s|, offset);
    var end := if limit < 0 || start + limit > |s| then |s| else start + limit;
    s[start..end]
  }

  /** A page of a newest-first listing is itself newest first. */
  lemma PageNewestFirst<T>(s: seq<T>, key: T -> int, limit: int, offset: int)
    requires NewestFirst(s, key)
    ensures NewestFirst(Page(s, limit, offset), key)
  {
    var r, start := Page(s, limit, offset), PageStart(|s|, offset);
    forall i, j | 0 <= i < j < |r| ensures key(r[i]) >= key(r[j]) {
      assert r[i] == s[start + i] && r[j] == s[start + j];
    }
  }

  /** `ORDER BY key DESC LIMIT limit OFFSET offset` over the rows `s`: the
      rows ordered newest first, of which the page skips `offset` and keeps
      at most `limit`; when the page covers everything, it holds every row. */
  function OrderedPage<T(==)>(s: seq<T>, key: T -> int, limit: int, offset: int): (r: seq<T>)
    ensures r == Page(SortNewestFirst(s, key), limit, offset)
    ensures limit >= 0 ==> |r| <= limit
    ensures forall i :: 0 <= i < |r| ==> r[i] in s
    ensures NewestFirst(r, key)
    ensures offset <= 0 && (limit < 0 || limit >= |s|) ==> forall k :: 0 <= k < |s| ==> s[k] in r
  {
    var ordered := SortNewestFirst(s, key);
    SortedMembers(s, key);
    PageNewestFirst(ordered, key, limit, offset);
    var r := Page(ordered, limit, offset);
    assert forall i :: 0 <= i < |r| ==> r[i] in ordered;
    assert offset <= 0 && (limit < 0 || limit >= |s|) ==> r == ordered;
    r
  }

  /** A page of the rows of `s` that satisfy `p` holds only such rows, and
      all of them when it covers every one. */
  lemma FilteredPage<T>(s: seq<T>, p: T -> bool, key: T -> int, limit: int, offset: int, r: seq<T>)
    requires r == OrderedPage(Filter(s, p), key, limit, offset)
    ensures forall i :: 0 <= i < |r| ==> r[i] in s && p(r[i])
    ensures offset <= 0 && (limit < 0 || limit >= |Filter(s, p)|) ==>
      forall k :: 0 <= k < |s| && p(s[k]) ==> s[k] in r
  {
    var matching := Filter(s, p);
    forall i | 0 <= i < |r| ensures r[i] in s && p(r[i]) {
      assert r[i] in matching;
    }
    if offset <= 0 && (limit < 0 || limit >= |matching|) {
      forall k | 0 <= k < |s| && p(s[k]) ensures s[k] in r {
        var j :| 0 <= j < |matching| && matching[j] == s[k];
      }
    }
  }

  /** A first page holds the newest rows: a row left off it is no newer
      than any row on it. */
  lemma FirstPageNewest<T>(s: seq<T>, key: T -> int, limit: int)
    ensures var r := OrderedPage(s, key, limit, 0);
      forall k, i :: 0 <= k < |s| && s[k] !in r && 0 <= i < |r| ==> key(s[k]) <= key(r[i])
  {
    var sorted := SortNewestFirst(s, key);
    var r := OrderedPage(s, key, limit, 0);
    SortedMembers(s, key);
    forall k, i | 0 <= k < |s| && s[k] !in r && 0 <= i < |r| ensures key(s[k]) <= key(r[i]) {
      var j :| 0 <= j < |sorted| && sorted[j] == s[k];
      if j < |r| {
        assert false;
      }
      assert r[i] == sorted[i];
    }
  }

  lemma NoMembersIsEmpty(keys: set<int>)
    requires forall x :: x !in keys
    ensures keys == {}
  {
    assert forall x :: x in keys <==> x in {};
  }

  lemma NonEmptyHasMember(keys: set<int>)
    requires keys != {}
    ensures exists x :: x in keys
  {
    if forall x :: x !in keys {
      NoMembersIsEmpty(keys);
      assert false;
    }
  }

  lemma {:induction false} LeastKeyExists(keys: set<int>)
    requires keys != {}
    ensures exists k :: k in keys && forall j :: j in keys ==> k <= j
    decreases |keys|
  {
    NonEmptyHasMember(keys);
    var x :| x in keys;
    if keys == {x} {
      assert forall j :: j in keys ==> x <= j;
    } else {
      var rest := keys - {x};
      LeastKeyExists(rest);
      var k :| k in rest && forall j :: j in rest ==> k <= j;
      var least := if x < k then x else k;
      assert least in keys;
      assert forall j :: j in keys ==> least <= j by {
        forall j | j in keys ensures least <= j {
          if j != x { assert j in rest; }
        }
      }
    }
  }

  function MinKey(keys: set<int>): (k: int)
    requires keys != {}
    ensures k in keys && forall j :: j in keys ==> k <= j
  {
    LeastKeyExists(keys);
    var k :| k in keys && forall j :: j in keys ==> k <= j;
    k
  }

  /** `SELECT * FROM table WHERE p ORDER BY key DESC`: exactly the rows of
      `m` that satisfy `p`, newest first. */
  function OrderedRows<T(==)>(m: map<int, T>, p: T -> bool, key: T -> int): (r: seq<T>)
    ensures multiset(r) == multiset(Filter(Rows(m), p))
    ensures NewestFirst(r, key)
    ensures forall i :: 0 <= i < |r| ==> r[i] in m.Values && p(r[i])
    ensures forall k :: k in m && p(m[k]) ==> m[k] in r
  {
    MatchingSortedRowsSound(m, p, key);
    MatchingSortedRowsComplete(m, p, key);
    SortNewestFirst(Filter(Rows(m), p), key)
  }

  /** The keys of a table in ascending order, each once. */
  ghost function RowKeys<T>(m: map<int, T>): (ks: seq<int>)
    ensures |ks| == |m|
    ensures forall i :: 0 <= i < |ks| ==> ks[i] in m
    ensures forall i, j :: 0 <= i < j < |ks| ==> ks[i] < ks[j]
    decreases |m|
  {
    if |m| == 0 then []
    else
      var k := MinKey(m.Keys);
      var rest := m - {k};
      assert rest.Keys == m.Keys - {k};
      var later := RowKeys(rest);
      assert forall i :: 0 <= i < |later| ==> later[i] in m.Keys && later[i] != k;
      assert forall i :: 0 <= i < |later| ==> k < later[i];
      [k] + later
  }

  /** Every row of the sorted matching rows is a row of the table that
      satisfies `p`. */
  lemma MatchingSortedRowsSound<T>(m: map<int, T>, p: T -> bool, key: T -> int)
    ensures forall i :: 0 <= i < |SortNewestFirst(Filter(Rows(m), p), key)| ==>
      SortNewestFirst(Filter(Rows(m), p), key)[i] in m.Values && p(SortNewestFirst(Filter(Rows(m), p), key)[i])
  {
    var matching := Filter(Rows(m), p);
    var r := SortNewestFirst(matching, key);
    SortedMembers(matching, key);
    forall i | 0 <= i < |r| ensures r[i] in m.Values && p(r[i]) {
      var j :| 0 <= j < |matching| && matching[j] == r[i];
      var l :| 0 <= l < |Rows(m)| && Rows(m)[l] == matching[j];
    }
  }

  /** Every row of the table that satisfies `p` is among the sorted
      matching rows. */
  lemma MatchingSortedRowsComplete<T>(m: map<int, T>, p: T -> bool, key: T -> int)
    ensures forall k :: k in m && p(m[k]) ==> m[k] in SortNewestFirst(Filter(Rows(m), p), key)
  {
    var rows := Rows(m);
    var matching := Filter(rows, p);
    SortedMembers(matching, key);
    forall k | k in m && p(m[k]) ensures m[k] in SortNewestFirst(matching, key) {
      var l :| 0 <= l < |rows| && rows[l] == m[k];
      assert m[k] in matching;
    }
  }

  /** A keyed table read without `ORDER BY`: its rows in ascending key
      (rowid) order, the row of each key once. */
  function Rows<T(==)>(m: map<int, T>): (r: seq<T>)
    ensures |r| == |m|
    ensures forall i :: 0 <= i < |r| ==> r[i] in m.Values
    ensures forall k :: k in m ==> m[k] in r
    decreases |m|
  {
    if |m| == 0 then []
    else
      var k := MinKey(m.Keys);
      var rest := m - {k};
      assert rest.Keys == m.Keys - {k};
      assert |rest| == |m| - 1;
      var r := [m[k]] + Rows(rest);
      assert forall j :: j in m && j != k ==> j in rest && rest[j] == m[j];
      r
  }

  /** `Rows` lists the row of each key once, in ascending key order. */
  lemma {:induction false} RowsInKeyOrder<T>(m: map<int, T>)
    ensures forall i :: 0 <= i < |Rows(m)| ==> Rows(m)[i] == m[RowKeys(m)[i]]
    decreases |m|
  {
    if |m| != 0 {
      var k := MinKey(m.Keys);
      var rest := m - {k};
      assert rest.Keys == m.Keys - {k};
      RowsInKeyOrder(rest);
      var rows, keys := Rows(rest), RowKeys(rest);
      var all, allKeys := Rows(m), RowKeys(m);
      assert all == [m[k]] + rows;
      assert allKeys == [k] + keys;
      forall i | 1 <= i < |all| ensures all[i] == m[allKeys[i]] {
        assert all[i] == rows[i - 1];
        assert allKeys[i] == keys[i - 1];
      }
    }
  }

  // ----- totals over a map -----

  /** Some key of a non-empty map. */
  ghost function AnyKeyOf<K, V>(m: map<K, V>): (k: K)
    requires |m| != 0
    ensures k in m
  {
    var k :| k in m;
    k
  }

  /** The sum of a map's values. */
  ghost function MapTotal<K>(m: map<K, int>): int
    decreases |m|
  {
    if |m| == 0 then 0
    else
      var k := AnyKeyOf(m);
      m[k] + MapTotal(m - {k})
  }

  /** The total can be split at any key. */
  lemma {:induction false} MapTotalRemove<K>(m: map<K, int>, k: K)
    requires k in m
    ensures MapTotal(m) == m[k] + MapTotal(m - {k})
    decreases |m|
  {
    var first := AnyKeyOf(m);
    if first != k {
      assert (m - {first}) - {k} == (m - {k}) - {first};
      MapTotalRemove(m - {first}, k);
      MapTotalRemove(m - {k}, first);
    }
  }

  /** A map of zeros totals zero. */
  lemma {:induction false} MapTotalZero<K>(m: map<K, int>)
    requires forall k :: k in m ==> m[k] == 0
    ensures MapTotal(m) == 0
    decreases |m|
  {
    if |m| > 0 {
      MapTotalZero(m - {AnyKeyOf(m)});
    }
  }

  /** Setting one key changes the total by the change at that key. */
  lemma MapTotalSet<K>(m: map<K, int>, k: K, v: int)
    ensures MapTotal(m[k := v]) == MapTotal(m) - (if k in m then m[k] else 0) + v
  {
    MapTotalRemove(m[k := v], k);
    if k in m {
      MapTotalRemove(m, k);
      assert m[k := v] - {k} == m - {k};
    } else {
      assert m[k := v] - {k} == m;
    }
  }
}
