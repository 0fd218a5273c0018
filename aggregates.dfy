/**
 * The grouped views of the filtered rows: daily and hourly sales, sales
 * and units per zip with their percentage of the total, the price sums per
 * product and per address, and the number of rows per product.
 */
module Aggregates {
  import opened Wrappers
  import opened Records
  import opened Selection
  import opened Grouping

  function DayKey(r: Record): Option<int> { r.day }
  function HourKey(r: Record): Option<int> { r.hour }
  function ZipKey(r: Record): Option<string> { r.zip }
  function ProductKey(r: Record): Option<string> { r.product }
  function AddressKey(r: Record): Option<string> { r.address }

  /** pandas' `sum()` skips missing values. */
  function TotalOrZero(r: Record): real { r.total.GetOr(0.0) }
  function CountOrZero(r: Record): real { r.count.GetOr(0.0) }
  function PriceOrZero(r: Record): real { r.price.GetOr(0.0) }
  function One(r: Record): real { 1.0 }

  /** `t` lists every key of `rows` once, each with the sum of `val` over the rows carrying that key. */
  predicate GroupedSums<K(==)>(t: seq<Entry<K>>, rows: seq<Record>, key: Record -> Option<K>, val: Record -> real) {
    && DistinctKeys(t)
    && Keys(t) == KeySet(rows, key)
    && forall i :: 0 <= i < |t| ==> t[i].value == KeyTotal(rows, key, val, t[i].key)
  }

  predicate AscendingKeys(t: seq<Entry<int>>) {
    forall i, j :: 0 <= i < j < |t| ==> t[i].key < t[j].key
  }

  predicate LargestFirst<K>(t: seq<Entry<K>>) {
    forall i, j :: 0 <= i < j < |t| ==> t[i].value >= t[j].value
  }

  /** A grouped sum listed in ascending key order (the order `groupby` yields, used for charting). */
  function AscendingByKey(rows: seq<Record>, key: Record -> Option<int>, val: Record -> real): (r: seq<Entry<int>>)
    ensures GroupedSums(r, rows, key, val)
    ensures AscendingKeys(r)
  {
    var s := SortBy(GroupTotals(rows, key, val), ByKeyAscending);
    RankedGroups(rows, key, val, ByKeyAscending);
    forall i, j | 0 <= i < j < |s|
      ensures s[i].key < s[j].key
    {
      DistinctKeysAt(s, i, j);
    }
    s
  }

  /** A grouped sum sorted by `sort_values(ascending=False)` on the summed column. */
  function DescendingByValue<K(==,!new)>(rows: seq<Record>, key: Record -> Option<K>, val: Record -> real): (r: seq<Entry<K>>)
    ensures GroupedSums(r, rows, key, val)
    ensures LargestFirst(r)
    ensures Sum(r) == KeyedTotal(rows, key, val)
  {
    var s := SortBy(GroupTotals(rows, key, val), ByValueDescending);
    RankedGroups(rows, key, val, ByValueDescending);
    s
  }

  /** `df.groupby('Day')['Total'].sum()`: sales per day of the month, days ascending. */
  function DailySales(rows: seq<Record>): (t: seq<Entry<int>>)
    ensures GroupedSums(t, rows, DayKey, TotalOrZero) && AscendingKeys(t)
  {
    AscendingByKey(rows, DayKey, TotalOrZero)
  }

  /** `df.groupby('Hour')['Total'].sum()`: sales per hour of the day, hours ascending. */
  function HourlySales(rows: seq<Record>): (t: seq<Entry<int>>)
    ensures GroupedSums(t, rows, HourKey, TotalOrZero) && AscendingKeys(t)
  {
    AscendingByKey(rows, HourKey, TotalOrZero)
  }

  /**
   * A per-zip table: every zip of `rows` once, with the sum of `val` over
   * its rows, largest first, and that sum as a percentage of the sum over
   * all zipped rows (missing when that grand total is zero).
   */
  predicate ZipShareTable(t: seq<Share<string>>, rows: seq<Record>, val: Record -> real) {
    var grand := KeyedTotal(rows, ZipKey, val);
    && (forall i :: 0 <= i < |t| ==> t[i].key in KeySet(rows, ZipKey))
    && (forall z :: z in KeySet(rows, ZipKey) ==> exists i :: 0 <= i < |t| && t[i].key == z)
    && (forall i, j :: 0 <= i < j < |t| ==> t[i].key != t[j].key)
    && (forall i :: 0 <= i < |t| ==> t[i].value == KeyTotal(rows, ZipKey, val, t[i].key))
    && (forall i, j :: 0 <= i < j < |t| ==> t[i].value >= t[j].value)
    && (forall i :: 0 <= i < |t| ==> (t[i].percent.Some? <==> grand != 0.0))
    && (grand != 0.0 ==> forall i :: 0 <= i < |t| ==> t[i].percent.value == t[i].value / grand * 100.0)
    && (grand != 0.0 ==> PercentTotal(t) == 100.0)
  }

  /** Total sales by zip, largest first, with the percentage of all sales. */
  function ZipSales(rows: seq<Record>): (t: seq<Share<string>>)
    ensures ZipShareTable(t, rows, TotalOrZero)
  {
    ZipTableCorrect(rows, TotalOrZero);
    WithPercentages(DescendingByValue(rows, ZipKey, TotalOrZero))
  }

  /** Units sold by zip, largest first, with the percentage of all units. */
  function ZipCounts(rows: seq<Record>): (t: seq<Share<string>>)
    ensures ZipShareTable(t, rows, CountOrZero)
  {
    ZipTableCorrect(rows, CountOrZero);
    WithPercentages(DescendingByValue(rows, ZipKey, CountOrZero))
  }

  /** Sum of `Price Each` by product, largest first. */
  function ProductPriceSums(rows: seq<Record>): (t: seq<Entry<string>>)
    ensures GroupedSums(t, rows, ProductKey, PriceOrZero) && LargestFirst(t)
  {
    DescendingByValue(rows, ProductKey, PriceOrZero)
  }

  /** Sum of `Price Each` by purchase address, largest first. */
  function AddressPriceSums(rows: seq<Record>): (t: seq<Entry<string>>)
    ensures GroupedSums(t, rows, AddressKey, PriceOrZero) && LargestFirst(t)
  {
    DescendingByValue(rows, AddressKey, PriceOrZero)
  }

  /** `df.Product.value_counts()`: rows per product, largest first. */
  function ProductCounts(rows: seq<Record>): (t: seq<Entry<string>>)
    ensures GroupedSums(t, rows, ProductKey, One) && LargestFirst(t)
  {
    DescendingByValue(rows, ProductKey, One)
  }

  /** Both zip tables meet `ZipShareTable`. */
  lemma ZipTableCorrect(rows: seq<Record>, val: Record -> real)
    ensures ZipShareTable(WithPercentages(DescendingByValue(rows, ZipKey, val)), rows, val)
  {
    var es := DescendingByValue(rows, ZipKey, val);
    var t := WithPercentages(es);
    forall z | z in KeySet(rows, ZipKey)
      ensures exists i :: 0 <= i < |t| && t[i].key == z
    {
      KeysAt(es, z);
      var i :| 0 <= i < |es| && es[i].key == z;
      assert t[i].key == z;
    }
    forall i | 0 <= i < |t|
      ensures t[i].key in KeySet(rows, ZipKey)
    {
      KeysAt(es, t[i].key);
    }
    ZipTableDistinct(rows, val);
    ZipTableValues(rows, val);
  }

  /** A zip table lists exactly the zips that occur, each once. */
  lemma ZipTableKeys(rows: seq<Record>, val: Record -> real, z: string)
    ensures
      var t := WithPercentages(DescendingByValue(rows, ZipKey, val));
      (exists i :: 0 <= i < |t| && t[i].key == z) <==> (exists j :: 0 <= j < |rows| && rows[j].zip == Some(z))
  {
    var es := DescendingByValue(rows, ZipKey, val);
    var t := WithPercentages(es);
    KeysAt(es, z);
    KeySetAt(rows, ZipKey, z);
    if exists i :: 0 <= i < |es| && es[i].key == z {
      var i :| 0 <= i < |es| && es[i].key == z;
      assert t[i].key == z;
    }
  }

  lemma ZipTableDistinct(rows: seq<Record>, val: Record -> real)
    ensures
      var t := WithPercentages(DescendingByValue(rows, ZipKey, val));
      forall i, j :: 0 <= i < j < |t| ==> t[i].key != t[j].key
  {
    var es := DescendingByValue(rows, ZipKey, val);
    forall i, j | 0 <= i < j < |es|
      ensures es[i].key != es[j].key
    {
      DistinctKeysAt(es, i, j);
    }
  }

  /**
   * A zip table's values are the per-zip sums, listed largest first; each
   * percentage is the value over the grand total times 100, and the
   * percentages add up to 100 whenever the grand total is nonzero.
   */
  lemma ZipTableValues(rows: seq<Record>, val: Record -> real)
    ensures
      var t := WithPercentages(DescendingByValue(rows, ZipKey, val));
      var grand := KeyedTotal(rows, ZipKey, val);
      && (forall i :: 0 <= i < |t| ==> t[i].value == KeyTotal(rows, ZipKey, val, t[i].key))
      && (forall i, j :: 0 <= i < j < |t| ==> t[i].value >= t[j].value)
      && (forall i :: 0 <= i < |t| ==> (t[i].percent.Some? <==> grand != 0.0))
      && (grand != 0.0 ==> forall i :: 0 <= i < |t| ==> t[i].percent.value == t[i].value / grand * 100.0)
      && (grand != 0.0 ==> PercentTotal(t) == 100.0)
  {
    var es := DescendingByValue(rows, ZipKey, val);
    if Sum(es) != 0.0 {
      PercentagesSumTo100(es);
    }
  }

  /** Each product count is the number of rows naming that product. */
  lemma {:induction false} CountIsRowCount(rows: seq<Record>, p: string)
    ensures KeyTotal(rows, ProductKey, One, p) == |Select(rows, (r: Record) => r.product == Some(p))| as real
  {
    if rows != [] {
      CountIsRowCount(rows[1..], p);
    }
  }

  lemma ProductCountsCountRows(rows: seq<Record>)
    ensures forall i :: 0 <= i < |ProductCounts(rows)| ==>
      ProductCounts(rows)[i].value == |Select(rows, (r: Record) => r.product == Some(ProductCounts(rows)[i].key))| as real
  {
    var t := ProductCounts(rows);
    forall i | 0 <= i < |t|
      ensures t[i].value == |Select(rows, (r: Record) => r.product == Some(t[i].key))| as real
    {
      CountIsRowCount(rows, t[i].key);
    }
  }
}
