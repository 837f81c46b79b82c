/**
 * The table operations the count scripts perform with pandas, on sequences
 * of rows: boolean filtering, `groupby(...).size()`, `groupby(...).nunique()`,
 * `drop_duplicates()` and a left `merge` followed by `fillna`.
 */
module Tables {

  /** A row as `csv.DictReader` yields it: column name to cell text. */
  datatype CsvRow = CsvRow(cells: map<string, string>)

  predicate NoDuplicates<T(==)>(s: seq<T>) {
    forall i, j | 0 <= i < j < |s| :: s[i] != s[j]
  }

  /** The key of every row, in row order. */
  function Keys<R, K>(rows: seq<R>, key: R -> K): (ks: seq<K>)
    ensures |ks| == |rows|
    ensures forall i | 0 <= i < |rows| :: ks[i] == key(rows[i])
  {
    seq(|rows|, i requires 0 <= i < |rows| => key(rows[i]))
  }

  /** `df[p(df)]`: the rows satisfying `p`, in order, each as often as before. */
  function Filter<T(==,!new)>(s: seq<T>, p: T -> bool): (r: seq<T>)
    ensures |r| <= |s|
    ensures forall x :: multiset(r)[x] == if p(x) then multiset(s)[x] else 0
    ensures forall i | 0 <= i < |r| :: p(r[i])
  {
    if s == [] then []
    else
      assert s == [s[0]] + s[1..];
      (if p(s[0]) then [s[0]] else []) + Filter(s[1..], p)
  }

  /** `a` is `b` with some entries left out, in `b`'s order. */
  predicate Subsequence<T(==)>(a: seq<T>, b: seq<T>)
    decreases |b|
  {
    a == [] || (b != [] && ((a[0] == b[0] && Subsequence(a[1..], b[1..])) || Subsequence(a, b[1..])))
  }

  /** The kept rows keep their order: a filter's result is a subsequence of its input. */
  lemma {:induction false} FilterKeepsOrder<T(!new)>(s: seq<T>, p: T -> bool)
    ensures Subsequence(Filter(s, p), s)
  {
    if s != [] {
      var rest := Filter(s[1..], p);
      FilterKeepsOrder(s[1..], p);
      if p(s[0]) {
        assert Filter(s, p) == [s[0]] + rest;
        assert Filter(s, p)[1..] == rest;
      } else {
        assert Filter(s, p) == rest;
      }
    }
  }

  /** Filtering a row appended at the end appends it to the result when it passes. */
  lemma {:induction false} FilterSnoc<T(!new)>(s: seq<T>, x: T, p: T -> bool)
    ensures Filter(s + [x], p) == Filter(s, p) + if p(x) then [x] else []
  {
    if s == [] {
      assert s + [x] == [x];
      assert Filter([x], p) == (if p(x) then [x] else []) + Filter([], p);
    } else {
      var head: seq<T> := if p(s[0]) then [s[0]] else [];
      var tail: seq<T> := if p(x) then [x] else [];
      assert (s + [x])[0] == s[0];
      assert (s + [x])[1..] == s[1..] + [x];
      assert Filter(s + [x], p) == head + Filter(s[1..] + [x], p);
      FilterSnoc(s[1..], x, p);
      assert Filter(s, p) == head + Filter(s[1..], p);
      ConcatAssoc(head, Filter(s[1..], p), tail);
    }
  }

  /** Filtering one more row of a prefix appends it to the result when it passes. */
  lemma FilterPrefix<T(!new)>(s: seq<T>, i: nat, p: T -> bool)
    requires i < |s|
    ensures Filter(s[..i + 1], p) == Filter(s[..i], p) + if p(s[i]) then [s[i]] else []
  {
    assert s[..i + 1] == s[..i] + [s[i]];
    FilterSnoc(s[..i], s[i], p);
  }

  lemma ConcatAssoc<T>(a: seq<T>, b: seq<T>, c: seq<T>)
    ensures a + (b + c) == (a + b) + c
  {
  }

  /** The loop `for x in items: out.append(f(x))`. */
  method MapRows<S, T>(items: seq<S>, f: S -> T) returns (out: seq<T>)
    ensures |out| == |items|
    ensures forall i | 0 <= i < |items| :: out[i] == f(items[i])
  {
    out := [];
    for i := 0 to |items|
      invariant |out| == i
      invariant forall k | 0 <= k < i :: out[k] == f(items[k])
    {
      out := out + [f(items[i])];
    }
  }

  /** The loop `for row in rows: if keep(row): kept.append(row)`. */
  method FilterRows<T(!new)>(rows: seq<T>, keep: T -> bool) returns (kept: seq<T>)
    ensures kept == Filter(rows, keep)
  {
    kept := [];
    for i := 0 to |rows|
      invariant kept == Filter(rows[..i], keep)
    {
      FilterPrefix(rows, i, keep);
      if keep(rows[i]) {
        kept := kept + [rows[i]];
      }
    }
    assert rows[..|rows|] == rows;
  }

  /**
   * A number of files passes a coverage fraction `num/den` of the expected count:
   * `n >= (num/den) * expected`, compared exactly.
   */
  predicate Covered(n: nat, expected: nat, num: nat, den: nat) {
    den * n >= num * expected
  }

  /**
   * Keep exactly the rows whose group (rows with the same key) holds enough
   * rows: the group count, the threshold comparison and the inner merge.
   */
  function CoverageFilter<R(==,!new), K(==)>(rows: seq<R>, key: R -> K, expected: nat, num: nat, den: nat): (r: seq<R>)
    ensures forall x :: multiset(r)[x] ==
                        if Covered(multiset(Keys(rows, key))[key(x)], expected, num, den)
                        then multiset(rows)[x] else 0
  {
    var counts := multiset(Keys(rows, key));
    Filter(rows, x => Covered(counts[key(x)], expected, num, den))
  }

  /**
   * The coverage filter followed by `drop_duplicates()`: each row of a
   * well-covered group once, and no row of a group below the threshold.
   */
  function CoveredDistinct<R(==,!new), K(==)>(rows: seq<R>, key: R -> K, expected: nat, num: nat, den: nat): (r: seq<R>)
    ensures NoDuplicates(r)
    ensures forall x :: x in r <==> x in rows && Covered(multiset(Keys(rows, key))[key(x)], expected, num, den)
  {
    var kept := CoverageFilter(rows, key, expected, num, den);
    assert forall x :: x in kept <==> multiset(kept)[x] > 0;
    assert forall x :: x in rows <==> multiset(rows)[x] > 0;
    Dedup(kept)
  }

  /** `drop_duplicates()`: the first occurrence of every row, in order. */
  function Dedup<T(==,!new)>(s: seq<T>): (r: seq<T>)
    ensures NoDuplicates(r)
    ensures forall x :: x in r <==> x in s
    ensures |r| <= |s|
  {
    if s == [] then []
    else
      var r := Dedup(s[..|s| - 1]);
      assert forall x :: x in s <==> x in s[..|s| - 1] || x == s[|s| - 1] by {
        assert s == s[..|s| - 1] + [s[|s| - 1]];
      }
      if s[|s| - 1] in r then r else r + [s[|s| - 1]]
  }

  /** `groupby(key).size()`: one entry per key that occurs, holding its number of occurrences. */
  function GroupSizes<K(==)>(keys: seq<K>): (m: map<K, nat>)
    ensures m.Keys == set k | k in keys
    ensures forall k | k in m :: m[k] == multiset(keys)[k] >= 1
  {
    if keys == [] then map[]
    else
      var init := keys[..|keys| - 1];
      var k := keys[|keys| - 1];
      var m := GroupSizes(init);
      assert keys == init + [k];
      m[k := if k in m then m[k] + 1 else 1]
  }

  /**
   * `d[k] = v` for each pair in order: a dictionary filled in a loop, where
   * a later pair overwrites an earlier one with the same key.
   */
  function Store<K(==), V>(pairs: seq<(K, V)>): (r: map<K, V>)
  {
    if pairs == [] then map[]
    else Store(pairs[..|pairs| - 1])[pairs[|pairs| - 1].0 := pairs[|pairs| - 1].1]
  }

  /** The dictionary has a key exactly for each pair. */
  lemma {:induction false} StoreKeys<K, V>(pairs: seq<(K, V)>)
    ensures forall k | k in Store(pairs) :: exists i | 0 <= i < |pairs| :: pairs[i].0 == k
    ensures forall i | 0 <= i < |pairs| :: pairs[i].0 in Store(pairs)
  {
    if pairs != [] {
      var init := pairs[..|pairs| - 1];
      StoreKeys(init);
      forall k | k in Store(pairs)
        ensures exists i | 0 <= i < |pairs| :: pairs[i].0 == k
      {
        if k != pairs[|pairs| - 1].0 {
          assert k in Store(init);
          var i :| 0 <= i < |init| && init[i].0 == k;
          assert pairs[i] == init[i];
        }
      }
      forall i | 0 <= i < |pairs|
        ensures pairs[i].0 in Store(pairs)
      {
        if i < |init| {
          assert init[i] == pairs[i];
        }
      }
    }
  }

  /** A key holds the value of the last pair with that key. */
  lemma {:induction false} StoreLast<K, V>(pairs: seq<(K, V)>, i: nat)
    requires i < |pairs|
    requires forall j | i < j < |pairs| :: pairs[j].0 != pairs[i].0
    ensures pairs[i].0 in Store(pairs) && Store(pairs)[pairs[i].0] == pairs[i].1
  {
    var init := pairs[..|pairs| - 1];
    if i < |init| {
      assert init[i] == pairs[i];
      StoreLast(init, i);
    }
  }

  /** A key's value comes from a pair with that key. */
  lemma {:induction false} StoreValue<K, V>(pairs: seq<(K, V)>, k: K)
    requires k in Store(pairs)
    ensures exists i | 0 <= i < |pairs| :: pairs[i] == (k, Store(pairs)[k])
  {
    var init := pairs[..|pairs| - 1];
    var last := pairs[|pairs| - 1];
    if last.0 != k {
      StoreValue(init, k);
      var i :| 0 <= i < |init| && init[i] == (k, Store(init)[k]);
      assert pairs[i] == init[i];
    } else {
      assert pairs[|pairs| - 1] == (k, Store(pairs)[k]);
    }
  }

  /** The values paired with key `k`. */
  function ValuesWith<K(==,!new), V(==,!new)>(pairs: seq<(K, V)>, k: K): (r: set<V>) {
    set p | p in pairs && p.0 == k :: p.1
  }

  /** Every value seen. */
  function AllValues<K(==,!new), V(==,!new)>(pairs: seq<(K, V)>): (r: set<V>) {
    set p | p in pairs :: p.1
  }

  /** The values seen with each key. */
  function ValueSets<K(==,!new), V(==,!new)>(pairs: seq<(K, V)>): (m: map<K, set<V>>)
    ensures m.Keys == set p | p in pairs :: p.0
    ensures forall k | k in m :: m[k] == ValuesWith(pairs, k)
  {
    if pairs == [] then map[]
    else
      var init := pairs[..|pairs| - 1];
      var p := pairs[|pairs| - 1];
      var m := ValueSets(init);
      assert forall q :: q in pairs <==> q in init || q == p by {
        assert pairs == init + [p];
      }
      m[p.0 := if p.0 in m then m[p.0] + {p.1} else {p.1}]
  }

  /**
   * `groupby(key)[value].nunique()`: for every key that occurs, the number of
   * distinct values seen with it, between one and the number of distinct values overall.
   */
  function DistinctCounts<K(==,!new), V(==,!new)>(pairs: seq<(K, V)>): (m: map<K, nat>)
    ensures m.Keys == set p | p in pairs :: p.0
    ensures forall k | k in m :: m[k] == |ValuesWith(pairs, k)|
    ensures forall k | k in m :: 1 <= m[k] <= |AllValues(pairs)|
  {
    var vs := ValueSets(pairs);
    var m := map k | k in vs :: |vs[k]|;
    assert forall k | k in m :: 1 <= m[k] <= |AllValues(pairs)| by {
      forall k | k in m
        ensures 1 <= m[k] <= |AllValues(pairs)|
      {
        var q :| q in pairs && q.0 == k;
        assert q.1 in vs[k];
        SubsetCard(vs[k], AllValues(pairs));
      }
    }
    m
  }

  lemma SubsetCard<V>(a: set<V>, b: set<V>)
    requires a <= b
    ensures |a| <= |b|
  {
    if a != {} {
      var x :| x in a;
      SubsetCard(a - {x}, b - {x});
    }
  }

  /** Adding a row never lowers the distinct count of any key, and adds no key but its own. */
  lemma DistinctCountsMonotone<K(!new), V(!new)>(pairs: seq<(K, V)>, p: (K, V))
    ensures forall k | k in DistinctCounts(pairs) ::
      k in DistinctCounts(pairs + [p]) && DistinctCounts(pairs)[k] <= DistinctCounts(pairs + [p])[k]
    ensures DistinctCounts(pairs + [p]).Keys == DistinctCounts(pairs).Keys + {p.0}
  {
    var ext := pairs + [p];
    forall k | k in DistinctCounts(pairs)
      ensures k in DistinctCounts(ext) && DistinctCounts(pairs)[k] <= DistinctCounts(ext)[k]
    {
      SubsetCard(ValuesWith(pairs, k), ValuesWith(ext, k));
    }
    assert forall q :: q in ext <==> q in pairs || q == p;
  }

  /** Seeing a value again with the same key leaves every distinct count as it was. */
  lemma DistinctCountsRepeat<K(!new), V(!new)>(pairs: seq<(K, V)>, p: (K, V))
    requires p in pairs
    ensures DistinctCounts(pairs + [p]) == DistinctCounts(pairs)
  {
    var x, y := DistinctCounts(pairs + [p]), DistinctCounts(pairs);
    SameRows(pairs, p);
    forall k | k in x
      ensures x[k] == y[k]
    {
      SameValues(pairs, p, k);
    }
  }

  /** A row seen before adds no key. */
  lemma SameRows<K(!new), V(!new)>(pairs: seq<(K, V)>, p: (K, V))
    requires p in pairs
    ensures (set q | q in pairs + [p] :: q.0) == (set q | q in pairs :: q.0)
  {
    assert forall q :: q in pairs + [p] <==> q in pairs;
  }

  /** A row seen before adds no value to any key. */
  lemma SameValues<K(!new), V(!new)>(pairs: seq<(K, V)>, p: (K, V), k: K)
    requires p in pairs
    ensures ValuesWith(pairs + [p], k) == ValuesWith(pairs, k)
  {
    assert forall q :: q in pairs + [p] <==> q in pairs;
  }

  /**
   * `merge(keys, table, how="left")` followed by `fillna(fill)`, for a table
   * with one value per key: one row per left key, in order, with the table's
   * value or `fill`.
   */
  function LeftJoin<K(==), V>(keys: seq<K>, table: map<K, V>, fill: V): (r: seq<(K, V)>)
    ensures |r| == |keys|
    ensures forall i | 0 <= i < |keys| :: r[i].0 == keys[i]
    ensures forall i | 0 <= i < |keys| :: r[i].1 == if keys[i] in table then table[keys[i]] else fill
  {
    seq(|keys|, i requires 0 <= i < |keys| => (keys[i], if keys[i] in table then table[keys[i]] else fill))
  }

  /** The joined rows carry exactly the left keys: table entries for other keys are dropped. */
  lemma LeftJoinKeys<K, V>(keys: seq<K>, table: map<K, V>, fill: V)
    ensures forall k :: (exists row | row in LeftJoin(keys, table, fill) :: row.0 == k) <==> k in keys
    ensures NoDuplicates(keys) ==> NoDuplicates(Keys(LeftJoin(keys, table, fill), (row: (K, V)) => row.0))
  {
    var r := LeftJoin(keys, table, fill);
    forall k | k in keys
      ensures exists row | row in r :: row.0 == k
    {
      var i :| 0 <= i < |keys| && keys[i] == k;
      assert r[i] in r;
    }
  }
}
