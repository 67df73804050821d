/**
 * Frequency tables: pandas `value_counts()` and `groupby(...).size().nlargest(n)` over one column,
 * and their `head(n)` prefixes. Entries with equal counts may come in any order; the model claims
 * nothing about that order.
 */
module Counting {
  import opened Seqs
  import opened Sorting

  /** The number of rows whose value is `v`: the size of `v`'s group. */
  function Count<T(==)>(s: seq<T>, v: T): nat {
    multiset(s)[v]
  }

  /** Orders values of `s` by non-increasing count. */
  function ByCountDesc<T(==)>(s: seq<T>): (T, T) -> bool {
    (a, b) => Count(s, a) >= Count(s, b)
  }

  lemma ByCountDescIsPreorder<T(!new)>(s: seq<T>)
    ensures TotalPreorder(ByCountDesc(s))
  {
  }

  /** A count table: its keys are distinct and each entry carries its key's exact count in `s`. */
  ghost predicate Tallies<T>(s: seq<T>, table: seq<(T, nat)>) {
    && (forall i :: 0 <= i < |table| ==> table[i].0 in s && table[i].1 == Count(s, table[i].0))
    && (forall i, j :: 0 <= i < j < |table| ==> table[i].0 != table[j].0)
  }

  /** The entries come in non-increasing order of count. */
  ghost predicate Descending<T>(table: seq<(T, nat)>) {
    forall i, j :: 0 <= i < j < |table| ==> table[i].1 >= table[j].1
  }

  ghost predicate IsKey<T>(table: seq<(T, nat)>, v: T) {
    exists i :: 0 <= i < |table| && table[i].0 == v
  }

  /** The distinct values of `s`, most frequent first. */
  function RankedValues<T(==,!new)>(s: seq<T>): (keys: seq<T>)
    ensures NoDuplicates(keys)
    ensures forall v :: v in keys <==> v in s
    ensures SortedBy(keys, ByCountDesc(s))
  {
    var d := Distinct(s);
    ByCountDescIsPreorder(s);
    var keys := Sort(d, ByCountDesc(s));
    NoDuplicatesPermutation(d, keys);
    assert forall v :: v in keys <==> v in multiset(d);
    keys
  }

  /** `s.value_counts()`: every distinct value of `s` once, with its count, most frequent first. */
  function ValueCounts<T(==,!new)>(s: seq<T>): (table: seq<(T, nat)>)
    ensures Tallies(s, table)
    ensures Descending(table)
    ensures forall v :: v in s <==> IsKey(table, v)
  {
    var keys := RankedValues(s);
    var table := seq(|keys|, i requires 0 <= i < |keys| => (keys[i], Count(s, keys[i])));
    assert forall i, j :: 0 <= i < j < |table| ==> ByCountDesc(s)(keys[i], keys[j]);
    assert forall v :: v in s ==> IsKey(table, v) by {
      forall v | v in s
        ensures IsKey(table, v)
      {
        var i :| 0 <= i < |keys| && keys[i] == v;
        assert table[i].0 == v;
      }
    }
    table
  }

  /** A prefix of a complete ranked table is a ranked table, and outranks everything it leaves out. */
  lemma HeadOfRanking<T(!new)>(s: seq<T>, all: seq<(T, nat)>, m: nat)
    requires Tallies(s, all) && Descending(all)
    requires forall v :: v in s ==> IsKey(all, v)
    requires m <= |all|
    ensures Tallies(s, all[..m]) && Descending(all[..m])
    ensures forall v, i :: v in s && !IsKey(all[..m], v) && 0 <= i < m ==> Count(s, v) <= all[..m][i].1
  {
    var table := all[..m];
    forall v, i | v in s && !IsKey(table, v) && 0 <= i < m
      ensures Count(s, v) <= table[i].1
    {
      var k :| 0 <= k < |all| && all[k].0 == v;
      assert table[i] == all[i];
    }
  }

  /** The total of a table's count column. */
  function SumCounts<T>(table: seq<(T, nat)>): nat
    decreases |table|
  {
    if |table| == 0 then 0 else SumCounts(table[..|table| - 1]) + table[|table| - 1].1
  }

  /** The number of rows of `s` whose value is one of the table's keys, counting by key. */
  function RowsUnder<T(==)>(table: seq<(T, nat)>, s: seq<T>): nat
    decreases |table|
  {
    if |table| == 0 then 0 else RowsUnder(table[..|table| - 1], s) + Count(s, table[|table| - 1].0)
  }

  /** How many entries of the table have key `v`. */
  function KeyEntries<T(==)>(table: seq<(T, nat)>, v: T): nat
    decreases |table|
  {
    if |table| == 0 then 0 else KeyEntries(table[..|table| - 1], v) + (if table[|table| - 1].0 == v then 1 else 0)
  }

  lemma {:induction false} StoredCountsAreRows<T(!new)>(s: seq<T>, table: seq<(T, nat)>)
    requires Tallies(s, table)
    ensures SumCounts(table) == RowsUnder(table, s)
    decreases |table|
  {
    if |table| > 0 {
      StoredCountsAreRows(s, table[..|table| - 1]);
    }
  }

  /** One more row of value `v` adds one for every entry keyed `v`. */
  lemma {:induction false} RowsUnderSnoc<T>(table: seq<(T, nat)>, s: seq<T>, v: T)
    ensures RowsUnder(table, s + [v]) == RowsUnder(table, s) + KeyEntries(table, v)
    decreases |table|
  {
    if |table| > 0 {
      RowsUnderSnoc(table[..|table| - 1], s, v);
      assert multiset(s + [v]) == multiset(s) + multiset{v};
    }
  }

  /** A key of a table with distinct keys has exactly one entry. */
  lemma {:induction false} KeyHasOneEntry<T>(table: seq<(T, nat)>, v: T)
    requires forall i, j :: 0 <= i < j < |table| ==> table[i].0 != table[j].0
    requires IsKey(table, v)
    ensures KeyEntries(table, v) == 1
    decreases |table|
  {
    var n := |table| - 1;
    var front := table[..n];
    if table[n].0 == v {
      assert !IsKey(front, v);
      KeyAbsent(front, v);
    } else {
      var i :| 0 <= i < |table| && table[i].0 == v;
      assert front[i].0 == v;
      KeyHasOneEntry(front, v);
    }
  }

  lemma {:induction false} KeyAbsent<T>(table: seq<(T, nat)>, v: T)
    requires !IsKey(table, v)
    ensures KeyEntries(table, v) == 0
    decreases |table|
  {
    if |table| > 0 {
      var n := |table| - 1;
      assert table[n].0 != v;
      assert !IsKey(table[..n], v);
      KeyAbsent(table[..n], v);
    }
  }

  /** Over a table with distinct keys covering every value of `rows`, the key counts add up to `|rows|`. */
  lemma {:induction false} KeysCoverRows<T(!new)>(table: seq<(T, nat)>, rows: seq<T>)
    requires forall i, j :: 0 <= i < j < |table| ==> table[i].0 != table[j].0
    requires forall v :: v in rows ==> IsKey(table, v)
    ensures RowsUnder(table, rows) == |rows|
    decreases |rows|
  {
    if |rows| == 0 {
      RowsUnderEmpty(table, rows);
    } else {
      var n := |rows| - 1;
      assert rows == rows[..n] + [rows[n]];
      KeysCoverRows(table, rows[..n]);
      RowsUnderSnoc(table, rows[..n], rows[n]);
      KeyHasOneEntry(table, rows[n]);
    }
  }

  lemma {:induction false} RowsUnderEmpty<T>(table: seq<(T, nat)>, rows: seq<T>)
    requires |rows| == 0
    ensures RowsUnder(table, rows) == 0
    decreases |table|
  {
    if |table| > 0 {
      RowsUnderEmpty(table[..|table| - 1], rows);
    }
  }

  /** The counts of `value_counts` partition the rows: they add up to the number of rows. */
  lemma ValueCountsCoverRows<T(!new)>(s: seq<T>)
    ensures SumCounts(ValueCounts(s)) == |s|
  {
    var table := ValueCounts(s);
    StoredCountsAreRows(s, table);
    KeysCoverRows(table, s);
  }

  /**
   * The `n` most frequent values of `s` with their counts (`value_counts().head(n)`, and
   * `size().nlargest(n)` over a grouping key): at most `n` entries, fewer only when `s` has fewer
   * distinct values, and no value left out is more frequent than one kept.
   */
  function Top<T(==,!new)>(s: seq<T>, n: nat): (table: seq<(T, nat)>)
    ensures |table| <= n
    ensures Tallies(s, table)
    ensures Descending(table)
    ensures |table| < n ==> forall v :: v in s ==> IsKey(table, v)
    ensures forall v, i :: v in s && !IsKey(table, v) && 0 <= i < |table| ==> Count(s, v) <= table[i].1
  {
    var all := ValueCounts(s);
    var table := if |all| <= n then all else all[..n];
    HeadOfRanking(s, all, |table|);
    table
  }

  /** One column of a table: `key` applied to every row, in row order. */
  function Project<A, K>(data: seq<A>, key: A -> K): (col: seq<K>)
    ensures |col| == |data|
    ensures forall i :: 0 <= i < |data| ==> col[i] == key(data[i])
  {
    seq(|data|, i requires 0 <= i < |data| => key(data[i]))
  }

  /** The rows whose grouping key is `k`. */
  function Group<A(!new), K(==)>(data: seq<A>, key: A -> K, k: K): seq<A> {
    Filter(data, x => key(x) == k)
  }

  /** Counting a projected column counts the rows of the corresponding group. */
  lemma {:induction false} CountIsGroupSize<A(!new), K>(data: seq<A>, key: A -> K, k: K)
    ensures Count(Project(data, key), k) == |Group(data, key, k)|
    decreases |data|
  {
    if |data| > 0 {
      var n := |data| - 1;
      CountIsGroupSize(data[..n], key, k);
      var col := Project(data, key);
      assert col == Project(data[..n], key) + [key(data[n])];
      FilterSnoc(data, x => key(x) == k);
    }
  }

  /**
   * `groupby(key).size().nlargest(n)`, equally `key column.value_counts().head(n)`: the `n`
   * largest groups of `data` under `key`, with their sizes.
   */
  function TopGroups<A(!new), K(==,!new)>(data: seq<A>, key: A -> K, n: nat): (table: seq<(K, nat)>)
    ensures |table| <= n
    ensures forall i :: 0 <= i < |table| ==> table[i].1 == |Group(data, key, table[i].0)| > 0
    ensures forall i, j :: 0 <= i < j < |table| ==> table[i].0 != table[j].0
    ensures Descending(table)
    ensures |table| < n ==> forall x :: x in data ==> IsKey(table, key(x))
    ensures forall x, i :: x in data && !IsKey(table, key(x)) && 0 <= i < |table| ==>
      |Group(data, key, key(x))| <= table[i].1
  {
    var col := Project(data, key);
    var table := Top(col, n);
    forall k
      ensures Count(col, k) == |Group(data, key, k)|
    {
      CountIsGroupSize(data, key, k);
    }
    assert forall x :: x in data ==> key(x) in col;
    table
  }
}
