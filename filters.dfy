/**
 * The two sidebar range filters, applied hour first, then price.  Both are
 * inclusive on both ends, and a missing value never passes (a comparison
 * with NaN is false).
 */
module RangeFilters {
  import opened Wrappers
  import opened Records
  import opened Selection

  /** The hour slider's full range, its initial value. */
  const DefaultHourLow := 0
  const DefaultHourHigh := 24

  /** `Hour.between(lo, hi, inclusive='both')` for one row. */
  predicate InHourRange(r: Record, lo: int, hi: int) {
    r.hour.Some? && lo <= r.hour.value <= hi
  }

  function HourMask(lo: int, hi: int): Record -> bool {
    r => InHourRange(r, lo, hi)
  }

  /** The rows whose hour lies in `[lo, hi]`. */
  function HourFilter(rows: seq<Record>, lo: int, hi: int): (r: seq<Record>)
    ensures forall i :: 0 <= i < |r| ==> r[i] in rows && r[i].hour.Some? && lo <= r[i].hour.value <= hi
    ensures forall i :: 0 <= i < |rows| && InHourRange(rows[i], lo, hi) ==> rows[i] in r
  {
    Select(rows, HourMask(lo, hi))
  }

  /** `(Price Each >= lo) & (Price Each <= hi)` for one row. */
  predicate InPriceRange(r: Record, lo: real, hi: real) {
    r.price.Some? && lo <= r.price.value <= hi
  }

  function PriceMask(lo: real, hi: real): Record -> bool {
    r => InPriceRange(r, lo, hi)
  }

  /** The rows whose price lies in `[lo, hi]`. */
  function PriceFilter(rows: seq<Record>, lo: real, hi: real): (r: seq<Record>)
    ensures forall i :: 0 <= i < |r| ==> r[i] in rows && r[i].price.Some? && lo <= r[i].price.value <= hi
    ensures forall i :: 0 <= i < |rows| && InPriceRange(rows[i], lo, hi) ==> rows[i] in r
  {
    Select(rows, PriceMask(lo, hi))
  }

  predicate HasPrice(r: Record) { r.price.Some? }

  /**
   * The price slider's bounds: the least and greatest present price
   * (`min()` and `max()` skip missing values); `None` when no row has a price.
   */
  function PriceBounds(rows: seq<Record>): (b: Option<(real, real)>)
    ensures b.None? <==> forall i :: 0 <= i < |rows| ==> rows[i].price.None?
    ensures b.Some? ==> forall i :: 0 <= i < |rows| && rows[i].price.Some? ==>
              b.value.0 <= rows[i].price.value <= b.value.1
    ensures b.Some? ==> exists i :: 0 <= i < |rows| && rows[i].price == Some(b.value.0)
    ensures b.Some? ==> exists i :: 0 <= i < |rows| && rows[i].price == Some(b.value.1)
  {
    if rows == [] then None
    else
      var rest := PriceBounds(rows[1..]);
      assert forall i :: 1 <= i < |rows| ==> rows[i] == rows[1..][i - 1];
      match rows[0].price
      case None =>
        if rest.Some? then
          var i0 :| 0 <= i0 < |rows[1..]| && rows[1..][i0].price == Some(rest.value.0);
          var i1 :| 0 <= i1 < |rows[1..]| && rows[1..][i1].price == Some(rest.value.1);
          assert rows[i0 + 1].price == Some(rest.value.0);
          assert rows[i1 + 1].price == Some(rest.value.1);
          rest
        else rest
      case Some(p) =>
        match rest
        case None => Some((p, p))
        case Some((lo, hi)) =>
          var i0 :| 0 <= i0 < |rows[1..]| && rows[1..][i0].price == Some(lo);
          var i1 :| 0 <= i1 < |rows[1..]| && rows[1..][i1].price == Some(hi);
          assert rows[i0 + 1].price == Some(lo);
          assert rows[i1 + 1].price == Some(hi);
          Some((if p < lo then p else lo, if p > hi then p else hi))
  }

  /** Hour filtering twice with the same bounds equals filtering once. */
  lemma HourFilterIdempotent(rows: seq<Record>, lo: int, hi: int)
    ensures HourFilter(HourFilter(rows, lo, hi), lo, hi) == HourFilter(rows, lo, hi)
  {
    SelectIdempotent(rows, HourMask(lo, hi));
  }

  /** Hour filtering keeps the surviving rows in their original order. */
  lemma HourFilterOrder(rows: seq<Record>, lo: int, hi: int)
    ensures Embeds(KeptPositions(rows, HourMask(lo, hi)), HourFilter(rows, lo, hi), rows)
    ensures forall i :: 0 <= i < |rows| ==> (i in KeptPositions(rows, HourMask(lo, hi)) <==> InHourRange(rows[i], lo, hi))
  {
    SelectIsOrderedSubsequence(rows, HourMask(lo, hi));
  }

  /** With the default range 0..24 the hour filter drops exactly the rows without a parsed date. */
  lemma DefaultHourRangeKeepsDated(rows: seq<Record>)
    requires forall i :: 0 <= i < |rows| ==> rows[i].hour.Some? ==> 0 <= rows[i].hour.value <= 23
    ensures HourFilter(rows, DefaultHourLow, DefaultHourHigh) == Select(rows, (r: Record) => r.hour.Some?)
  {
    SelectSameMask(rows, HourMask(DefaultHourLow, DefaultHourHigh), (r: Record) => r.hour.Some?);
  }

  /** Price filtering twice with the same bounds equals filtering once. */
  lemma PriceFilterIdempotent(rows: seq<Record>, lo: real, hi: real)
    ensures PriceFilter(PriceFilter(rows, lo, hi), lo, hi) == PriceFilter(rows, lo, hi)
  {
    SelectIdempotent(rows, PriceMask(lo, hi));
  }

  /** Price filtering keeps the surviving rows in their original order. */
  lemma PriceFilterOrder(rows: seq<Record>, lo: real, hi: real)
    ensures Embeds(KeptPositions(rows, PriceMask(lo, hi)), PriceFilter(rows, lo, hi), rows)
  {
    SelectIsOrderedSubsequence(rows, PriceMask(lo, hi));
  }

  /** Narrowing the price range never adds rows: the narrow result is a selection of the wide one. */
  lemma PriceFilterMonotone(rows: seq<Record>, lo: real, hi: real, lo': real, hi': real)
    requires lo <= lo' && hi' <= hi
    ensures PriceFilter(rows, lo', hi') == PriceFilter(PriceFilter(rows, lo, hi), lo', hi')
    ensures |PriceFilter(rows, lo', hi')| <= |PriceFilter(rows, lo, hi)|
  {
    SelectNarrower(rows, PriceMask(lo, hi), PriceMask(lo', hi'));
  }

  /** At the slider's initial bounds, the price filter drops only the rows without a price. */
  lemma DefaultPriceRangeKeepsPriced(rows: seq<Record>)
    requires PriceBounds(rows).Some?
    ensures
      var (lo, hi) := PriceBounds(rows).value;
      PriceFilter(rows, lo, hi) == Select(rows, HasPrice)
  {
    var (lo, hi) := PriceBounds(rows).value;
    SelectSameMask(rows, PriceMask(lo, hi), HasPrice);
  }
}
