/**
 * `df.groupby(key)[column].sum()` followed by a sort: one entry per
 * distinct non-missing key, holding the sum of the column over the rows
 * with that key (missing values count as 0, rows with a missing key are
 * dropped), and the percentage-of-total column.
 */
module Grouping {
  import opened Wrappers

  datatype Entry<K> = Entry(key: K, value: real)

  /** The keys listed. */
  function Keys<K>(es: seq<Entry<K>>): set<K> {
    if es == [] then {} else {es[0].key} + Keys(es[1..])
  }

  /** No key is listed twice. */
  predicate DistinctKeys<K(==)>(es: seq<Entry<K>>) {
    es == [] || (es[0].key !in Keys(es[1..]) && DistinctKeys(es[1..]))
  }

  /** The keys that occur (non-missing) among the rows. */
  function KeySet<R, K>(rows: seq<R>, key: R -> Option<K>): set<K> {
    if rows == [] then {}
    else (if key(rows[0]).Some? then {key(rows[0]).value} else {}) + KeySet(rows[1..], key)
  }

  /** The sum of `val` over the rows whose key is `k`. */
  function KeyTotal<R, K(==)>(rows: seq<R>, key: R -> Option<K>, val: R -> real, k: K): real {
    if rows == [] then 0.0
    else (if key(rows[0]) == Some(k) then val(rows[0]) else 0.0) + KeyTotal(rows[1..], key, val, k)
  }

  /** The sum of `val` over the rows that have a key at all. */
  function KeyedTotal<R, K>(rows: seq<R>, key: R -> Option<K>, val: R -> real): real {
    if rows == [] then 0.0
    else (if key(rows[0]).Some? then val(rows[0]) else 0.0) + KeyedTotal(rows[1..], key, val)
  }

  /** The value listed for `k` (the first entry with that key), 0 when absent. */
  function ValueOf<K(==)>(es: seq<Entry<K>>, k: K): real {
    if es == [] then 0.0
    else if es[0].key == k then es[0].value
    else ValueOf(es[1..], k)
  }

  /** The sum of the values column. */
  function Sum<K>(es: seq<Entry<K>>): real {
    if es == [] then 0.0 else es[0].value + Sum(es[1..])
  }

  /** Adds `v` to the entry for `k`, appending a new entry when there is none. */
  function AddTo<K(==,!new)>(es: seq<Entry<K>>, k: K, v: real): (r: seq<Entry<K>>)
    ensures Keys(r) == Keys(es) + {k}
    ensures DistinctKeys(es) ==> DistinctKeys(r)
    ensures forall k' :: ValueOf(r, k') == ValueOf(es, k') + (if k' == k then v else 0.0)
    ensures Sum(r) == Sum(es) + v
  {
    if es == [] then [Entry(k, v)]
    else if es[0].key == k then
      var r := [Entry(k, es[0].value + v)] + es[1..];
      assert r[1..] == es[1..];
      r
    else
      var r := [es[0]] + AddTo(es[1..], k, v);
      assert r[1..] == AddTo(es[1..], k, v);
      r
  }

  /** The grouped sums, one entry per distinct key (in no particular order). */
  function GroupTotals<R, K(==,!new)>(rows: seq<R>, key: R -> Option<K>, val: R -> real): (r: seq<Entry<K>>)
    ensures DistinctKeys(r)
    ensures Keys(r) == KeySet(rows, key)
    ensures forall k :: ValueOf(r, k) == KeyTotal(rows, key, val, k)
    ensures Sum(r) == KeyedTotal(rows, key, val)
  {
    if rows == [] then []
    else
      var rest := GroupTotals(rows[1..], key, val);
      match key(rows[0])
      case None => rest
      case Some(k) => AddTo(rest, k, val(rows[0]))
  }

  /** A key is listed exactly when some entry carries it. */
  lemma {:induction false} KeysAt<K>(es: seq<Entry<K>>, k: K)
    ensures k in Keys(es) <==> exists i :: 0 <= i < |es| && es[i].key == k
  {
    if es != [] {
      KeysAt(es[1..], k);
      if k in Keys(es[1..]) {
        var i :| 0 <= i < |es[1..]| && es[1..][i].key == k;
        assert es[i + 1].key == k;
      }
      if exists i :: 0 <= i < |es| && es[i].key == k {
        var i :| 0 <= i < |es| && es[i].key == k;
        if i > 0 { assert es[1..][i - 1].key == k; }
      }
    }
  }

  /** A key occurs among the rows exactly when some row carries it. */
  lemma {:induction false} KeySetAt<R, K>(rows: seq<R>, key: R -> Option<K>, k: K)
    ensures k in KeySet(rows, key) <==> exists i :: 0 <= i < |rows| && key(rows[i]) == Some(k)
  {
    if rows != [] {
      KeySetAt(rows[1..], key, k);
      if k in KeySet(rows[1..], key) {
        var i :| 0 <= i < |rows[1..]| && key(rows[1..][i]) == Some(k);
        assert rows[i + 1] == rows[1..][i];
      }
      if exists i :: 0 <= i < |rows| && key(rows[i]) == Some(k) {
        var i :| 0 <= i < |rows| && key(rows[i]) == Some(k);
        if i > 0 { assert rows[1..][i - 1] == rows[i]; }
      }
    }
  }

  /** `DistinctKeys` in index form: no two positions share a key. */
  lemma {:induction false} DistinctKeysAt<K>(es: seq<Entry<K>>, i: nat, j: nat)
    requires DistinctKeys(es) && i < j < |es|
    ensures es[i].key != es[j].key
  {
    if i == 0 {
      KeysAt(es[1..], es[j].key);
      assert es[1..][j - 1] == es[j];
    } else {
      DistinctKeysAt(es[1..], i - 1, j - 1);
    }
  }

  /** In a list with distinct keys, each entry's value is the one listed for its key. */
  lemma {:induction false} EntryValue<K>(es: seq<Entry<K>>, i: nat)
    requires DistinctKeys(es) && i < |es|
    ensures ValueOf(es, es[i].key) == es[i].value
  {
    if i > 0 {
      KeysAt(es[1..], es[i].key);
      assert es[1..][i - 1] == es[i];
      EntryValue(es[1..], i - 1);
    }
  }

  /** After a reordering, each entry still carries the value listed for its key. */
  lemma ReorderedValues<K>(es: seq<Entry<K>>, s: seq<Entry<K>>, i: nat)
    requires DistinctKeys(es) && multiset(s) == multiset(es) && i < |s|
    ensures s[i].value == ValueOf(es, s[i].key)
  {
    assert s[i] in multiset(es);
    var j :| 0 <= j < |es| && es[j] == s[i];
    EntryValue(es, j);
  }

  /** Non-decreasing by `rank`. */
  predicate SortedBy<K>(es: seq<Entry<K>>, rank: Entry<K> -> real) {
    forall i, j :: 0 <= i < j < |es| ==> rank(es[i]) <= rank(es[j])
  }

  function InsertBy<K>(x: Entry<K>, es: seq<Entry<K>>, rank: Entry<K> -> real): (r: seq<Entry<K>>)
    requires SortedBy(es, rank)
    ensures |r| == |es| + 1
    ensures r[0] == x || (es != [] && r[0] == es[0])
    ensures SortedBy(r, rank)
  {
    if es == [] then [x]
    else if rank(x) <= rank(es[0]) then [x] + es
    else [es[0]] + InsertBy(x, es[1..], rank)
  }

  lemma {:induction false} InsertByMultiset<K>(x: Entry<K>, es: seq<Entry<K>>, rank: Entry<K> -> real)
    requires SortedBy(es, rank)
    ensures multiset(InsertBy(x, es, rank)) == multiset{x} + multiset(es)
  {
    if es != [] && rank(x) > rank(es[0]) {
      var rest := InsertBy(x, es[1..], rank);
      InsertByMultiset(x, es[1..], rank);
      assert InsertBy(x, es, rank) == [es[0]] + rest;
      assert multiset([es[0]] + rest) == multiset{es[0]} + multiset(rest);
      assert es == [es[0]] + es[1..];
      assert multiset(es) == multiset{es[0]} + multiset(es[1..]);
    }
  }

  lemma {:induction false} InsertByKeys<K>(x: Entry<K>, es: seq<Entry<K>>, rank: Entry<K> -> real)
    requires SortedBy(es, rank)
    ensures Keys(InsertBy(x, es, rank)) == {x.key} + Keys(es)
    ensures Sum(InsertBy(x, es, rank)) == x.value + Sum(es)
  {
    var r := InsertBy(x, es, rank);
    if es != [] {
      if rank(x) <= rank(es[0]) {
        assert r[1..] == es;
      } else {
        InsertByKeys(x, es[1..], rank);
        assert r[1..] == InsertBy(x, es[1..], rank);
      }
    }
  }

  lemma {:induction false} InsertByDistinct<K>(x: Entry<K>, es: seq<Entry<K>>, rank: Entry<K> -> real)
    requires SortedBy(es, rank)
    requires DistinctKeys(es) && x.key !in Keys(es)
    ensures DistinctKeys(InsertBy(x, es, rank))
  {
    var r := InsertBy(x, es, rank);
    if es != [] {
      if rank(x) <= rank(es[0]) {
        assert r[1..] == es;
      } else {
        InsertByDistinct(x, es[1..], rank);
        InsertByKeys(x, es[1..], rank);
        assert r[1..] == InsertBy(x, es[1..], rank);
      }
    }
  }

  /** Sorts by `rank` (insertion sort); entries of equal rank end up in some order. */
  function SortBy<K>(es: seq<Entry<K>>, rank: Entry<K> -> real): (r: seq<Entry<K>>)
    ensures |r| == |es|
    ensures SortedBy(r, rank)
  {
    if es == [] then [] else InsertBy(es[0], SortBy(es[1..], rank), rank)
  }

  /** Sorting only reorders: same entries, same keys, same sum. */
  lemma {:induction false} SortByContents<K>(es: seq<Entry<K>>, rank: Entry<K> -> real)
    ensures multiset(SortBy(es, rank)) == multiset(es)
    ensures Keys(SortBy(es, rank)) == Keys(es)
    ensures DistinctKeys(es) ==> DistinctKeys(SortBy(es, rank))
    ensures Sum(SortBy(es, rank)) == Sum(es)
  {
    if es != [] {
      var rest := SortBy(es[1..], rank);
      SortByContents(es[1..], rank);
      InsertByMultiset(es[0], rest, rank);
      InsertByKeys(es[0], rest, rank);
      if DistinctKeys(es) {
        InsertByDistinct(es[0], rest, rank);
      }
      assert es == [es[0]] + es[1..];
    }
  }

  /**
   * The grouped sums in rank order: one entry per distinct key that occurs,
   * each holding the sum over that key's rows, all together summing to the
   * keyed rows' total.
   */
  lemma {:induction false} RankedGroups<R, K(!new)>(rows: seq<R>, key: R -> Option<K>, val: R -> real, rank: Entry<K> -> real)
    ensures DistinctKeys(SortBy(GroupTotals(rows, key, val), rank))
    ensures Keys(SortBy(GroupTotals(rows, key, val), rank)) == KeySet(rows, key)
    ensures Sum(SortBy(GroupTotals(rows, key, val), rank)) == KeyedTotal(rows, key, val)
    ensures forall i :: 0 <= i < |SortBy(GroupTotals(rows, key, val), rank)| ==>
      SortBy(GroupTotals(rows, key, val), rank)[i].value ==
      KeyTotal(rows, key, val, SortBy(GroupTotals(rows, key, val), rank)[i].key)
  {
    var g := GroupTotals(rows, key, val);
    var s := SortBy(g, rank);
    SortByContents(g, rank);
    forall i | 0 <= i < |s|
      ensures s[i].value == KeyTotal(rows, key, val, s[i].key)
    {
      ReorderedValues(g, s, i);
    }
  }

  /** Rank for a descending sort on the values column. */
  function ByValueDescending<K>(e: Entry<K>): real { -e.value }

  /** Rank for an ascending sort on an integer key. */
  function ByKeyAscending(e: Entry<int>): real { e.key as real }

  /** One row of a table with a `Percentage` column. */
  datatype Share<K> = Share(key: K, value: real, percent: Option<real>)

  /**
   * `value / grand * 100` for each entry; the division by a zero grand
   * total yields no number, modelled as `None`.
   */
  function SharesOf<K>(es: seq<Entry<K>>, grand: real): (r: seq<Share<K>>)
    ensures |r| == |es|
    ensures forall i :: 0 <= i < |es| ==> r[i].key == es[i].key && r[i].value == es[i].value
    ensures forall i :: 0 <= i < |es| ==>
      r[i].percent == if grand == 0.0 then None else Some(es[i].value / grand * 100.0)
  {
    if es == [] then []
    else
      var p := if grand == 0.0 then None else Some(es[0].value / grand * 100.0);
      [Share(es[0].key, es[0].value, p)] + SharesOf(es[1..], grand)
  }

  /** The table with its percentage column, against the sum of its own values. */
  function WithPercentages<K>(es: seq<Entry<K>>): seq<Share<K>> {
    SharesOf(es, Sum(es))
  }

  function PercentTotal<K>(ss: seq<Share<K>>): real {
    if ss == [] then 0.0 else ss[0].percent.GetOr(0.0) + PercentTotal(ss[1..])
  }

  lemma {:induction false} SharesSum<K>(es: seq<Entry<K>>, grand: real)
    requires grand != 0.0
    ensures PercentTotal(SharesOf(es, grand)) == Sum(es) / grand * 100.0
  {
    if es != [] {
      SharesSum(es[1..], grand);
      var a, b := es[0].value, Sum(es[1..]);
      assert a / grand * 100.0 + b / grand * 100.0 == (a + b) / grand * 100.0;
    }
  }

  /** The percentage column sums to 100 whenever the grand total is nonzero. */
  lemma PercentagesSumTo100<K>(es: seq<Entry<K>>)
    requires Sum(es) != 0.0
    ensures PercentTotal(WithPercentages(es)) == 100.0
  {
    SharesSum(es, Sum(es));
    assert Sum(es) / Sum(es) == 1.0;
  }
}
