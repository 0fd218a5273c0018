/**
 * The dashboard script end to end: enrich the rows, apply the hour filter
 * and then the price filter, and compute every grouped view of what is
 * left.  The slider, select box and text box values arrive as parameters.
 */
module Dashboard {
  import opened Wrappers
  import opened Records
  import opened Selection
  import opened RangeFilters
  import opened Grouping
  import opened Aggregates
  import opened TextSearch

  /** Everything the page shows that is computed from the rows. */
  datatype View = View(
    filtered: seq<Record>,
    dailySales: seq<Entry<int>>,
    hourlySales: seq<Entry<int>>,
    salesByZip: seq<Share<string>>,
    countByZip: seq<Share<string>>,
    priceByProduct: seq<Entry<string>>,
    productCounts: seq<Entry<string>>,
    priceByAddress: seq<Entry<string>>,
    searchResult: seq<Record>)

  /**
   * The rows the tables and charts are computed from: the hour filter and
   * then the price filter act as one selection by both ranges.
   */
  function FilteredRows(raw: seq<Row>, hourLo: int, hourHi: int, priceLo: real, priceHi: real): (rows: seq<Record>)
    ensures rows == Select(EnrichAll(raw), RangesMask(hourLo, hourHi, priceLo, priceHi))
    ensures forall i :: 0 <= i < |rows| ==> rows[i] in EnrichAll(raw) && InRanges(rows[i], hourLo, hourHi, priceLo, priceHi)
    ensures forall i :: 0 <= i < |raw| && InRanges(EnrichAll(raw)[i], hourLo, hourHi, priceLo, priceHi) ==>
      EnrichAll(raw)[i] in rows
  {
    var enriched := EnrichAll(raw);
    SelectThenSelect(enriched, HourMask(hourLo, hourHi), PriceMask(priceLo, priceHi), RangesMask(hourLo, hourHi, priceLo, priceHi));
    PriceFilter(HourFilter(enriched, hourLo, hourHi), priceLo, priceHi)
  }

  /**
   * The price slider's initial bounds on the hour-filtered rows: missing
   * exactly when none of them has a price, and otherwise wide enough that
   * the price filter drops only the rows without a price.
   */
  function DefaultPriceRange(raw: seq<Row>, hourLo: int, hourHi: int): (b: Option<(real, real)>)
    ensures var hourly := HourFilter(EnrichAll(raw), hourLo, hourHi);
      b.None? <==> forall i :: 0 <= i < |hourly| ==> hourly[i].price.None?
    ensures b.Some? ==>
      PriceFilter(HourFilter(EnrichAll(raw), hourLo, hourHi), b.value.0, b.value.1) ==
      Select(HourFilter(EnrichAll(raw), hourLo, hourHi), HasPrice)
  {
    var hourly := HourFilter(EnrichAll(raw), hourLo, hourHi);
    var b := PriceBounds(hourly);
    if b.Some? then
      DefaultPriceRangeKeepsPriced(hourly);
      b
    else b
  }

  /** Every view on the page is computed from the same range-filtered rows. */
  function BuildView(raw: seq<Row>, hourLo: int, hourHi: int, priceLo: real, priceHi: real,
                     filterType: string, searchInput: string): (v: View)
    ensures v.filtered == Select(EnrichAll(raw), RangesMask(hourLo, hourHi, priceLo, priceHi))
    ensures GroupedSums(v.dailySales, v.filtered, DayKey, TotalOrZero) && AscendingKeys(v.dailySales)
    ensures GroupedSums(v.hourlySales, v.filtered, HourKey, TotalOrZero) && AscendingKeys(v.hourlySales)
    ensures ZipShareTable(v.salesByZip, v.filtered, TotalOrZero)
    ensures ZipShareTable(v.countByZip, v.filtered, CountOrZero)
    ensures GroupedSums(v.priceByProduct, v.filtered, ProductKey, PriceOrZero) && LargestFirst(v.priceByProduct)
    ensures GroupedSums(v.productCounts, v.filtered, ProductKey, One) && LargestFirst(v.productCounts)
    ensures GroupedSums(v.priceByAddress, v.filtered, AddressKey, PriceOrZero) && LargestFirst(v.priceByAddress)
    ensures forall i :: 0 <= i < |v.searchResult| ==> v.searchResult[i] in v.filtered
  {
    var rows := FilteredRows(raw, hourLo, hourHi, priceLo, priceHi);
    View(rows,
         DailySales(rows), HourlySales(rows),
         ZipSales(rows), ZipCounts(rows),
         ProductPriceSums(rows), ProductCounts(rows), AddressPriceSums(rows),
         FilterDataframe(rows, filterType, searchInput))
  }

  /** Both range conditions at once. */
  predicate InRanges(r: Record, hourLo: int, hourHi: int, priceLo: real, priceHi: real) {
    InHourRange(r, hourLo, hourHi) && InPriceRange(r, priceLo, priceHi)
  }

  function RangesMask(hourLo: int, hourHi: int, priceLo: real, priceHi: real): Record -> bool {
    r => InRanges(r, hourLo, hourHi, priceLo, priceHi)
  }

  /**
   * The filtered rows are exactly the enriched rows with a parsed date, an
   * hour in [hourLo, hourHi] and a price in [priceLo, priceHi], kept in
   * input order.
   */
  lemma FilteredRowsAreConjunction(raw: seq<Row>, hourLo: int, hourHi: int, priceLo: real, priceHi: real)
    ensures Embeds(KeptPositions(EnrichAll(raw), RangesMask(hourLo, hourHi, priceLo, priceHi)),
                   FilteredRows(raw, hourLo, hourHi, priceLo, priceHi), EnrichAll(raw))
  {
    SelectIsOrderedSubsequence(EnrichAll(raw), RangesMask(hourLo, hourHi, priceLo, priceHi));
  }

  /** Every row that reaches the tables has a parsed date, hence a day and an hour. */
  lemma FilteredRowsAreDated(raw: seq<Row>, hourLo: int, hourHi: int, priceLo: real, priceHi: real)
    ensures forall r :: r in FilteredRows(raw, hourLo, hourHi, priceLo, priceHi) ==>
      r.date.Some? && r.day == Some(r.date.value.day as int) && r.hour == Some(r.date.value.hour as int)
  {
    var enriched := EnrichAll(raw);
    var hourly := HourFilter(enriched, hourLo, hourHi);
    forall r | r in FilteredRows(raw, hourLo, hourHi, priceLo, priceHi)
      ensures r.date.Some? && r.day == Some(r.date.value.day as int) && r.hour == Some(r.date.value.hour as int)
    {
      assert r in hourly;
      assert r in enriched;
      var i :| 0 <= i < |raw| && enriched[i] == r;
    }
  }

  /**
   * With the sliders left at their initial values, the tables hold exactly
   * the rows that have a parsed date and a price.
   */
  lemma DefaultSlidersKeepDatedPriced(raw: seq<Row>)
    requires DefaultPriceRange(raw, DefaultHourLow, DefaultHourHigh).Some?
    ensures
      var (lo, hi) := DefaultPriceRange(raw, DefaultHourLow, DefaultHourHigh).value;
      FilteredRows(raw, DefaultHourLow, DefaultHourHigh, lo, hi) ==
      Select(EnrichAll(raw), (r: Record) => r.hour.Some? && r.price.Some?)
  {
    var rows := EnrichAll(raw);
    var (lo, hi) := DefaultPriceRange(raw, DefaultHourLow, DefaultHourHigh).value;
    DefaultHourRangeKeepsDated(rows);
    DefaultPriceRangeKeepsPriced(HourFilter(rows, DefaultHourLow, DefaultHourHigh));
    SelectThenSelect(rows, (r: Record) => r.hour.Some?, HasPrice, (r: Record) => r.hour.Some? && r.price.Some?);
  }

  /**
   * The search result is drawn from the range-filtered rows in their order:
   * for a product or address search it keeps the positions the search mask
   * picks, and for any other filter type it is the filtered rows unchanged.
   */
  lemma SearchWithinFiltered(raw: seq<Row>, hourLo: int, hourHi: int, priceLo: real, priceHi: real,
                             filterType: string, searchInput: string)
    ensures
      var v := BuildView(raw, hourLo, hourHi, priceLo, priceHi, filterType, searchInput);
      if filterType == ProductName || filterType == AddressOrZip then
        Embeds(KeptPositions(v.filtered, SearchMask(filterType, searchInput)), v.searchResult, v.filtered)
      else
        v.searchResult == v.filtered
  {
    var rows := FilteredRows(raw, hourLo, hourHi, priceLo, priceHi);
    if filterType == ProductName || filterType == AddressOrZip {
      FilterDataframeOrder(rows, filterType, searchInput);
    }
  }
}
