/**
 * One sales row as read from the monthly CSV, and the enriched row the
 * dashboard works on: `Total`, `Zip`, `Day` and `Hour` derived from it.
 * The numeric and date parsers run before the model: a cell they cannot
 * parse is already `None` here.
 */
module Records {
  import opened Wrappers
  import ZipCode

  type Month = m: int | 1 <= m <= 12 witness 1
  type DayOfMonth = d: int | 1 <= d <= 31 witness 1
  type HourOfDay = h: int | 0 <= h <= 23
  type MinuteOfHour = m: int | 0 <= m <= 59

  /** A parsed `Order Date` (format `%m/%d/%y %H:%M`). */
  datatype Timestamp = Timestamp(year: int, month: Month, day: DayOfMonth, hour: HourOfDay, minute: MinuteOfHour)

  /** A CSV row after `Quantity Ordered` was renamed to `Count` and the numeric columns coerced. */
  datatype Row = Row(
    product: Option<string>,
    count: Option<real>,
    price: Option<real>,
    orderDate: Option<Timestamp>,
    address: Option<string>)

  /** A row with the derived columns. */
  datatype Record = Record(
    product: Option<string>,
    count: Option<real>,
    price: Option<real>,
    address: Option<string>,
    date: Option<Timestamp>,
    total: Option<real>,
    zip: Option<string>,
    day: Option<int>,
    hour: Option<int>)

  /** `Count * Price Each`: missing when either factor is missing. */
  function Total(count: Option<real>, price: Option<real>): (t: Option<real>)
    ensures t.Some? <==> count.Some? && price.Some?
    ensures t.Some? ==> t.value == count.value * price.value
  {
    match (count, price)
    case (Some(c), Some(p)) => Some(c * p)
    case _ => None
  }

  /** Derives `Total`, `Zip`, `Date`, `Day` and `Hour` for one row. */
  function Enrich(row: Row): (r: Record)
    ensures r.product == row.product && r.count == row.count && r.price == row.price
    ensures r.address == row.address && r.date == row.orderDate
    ensures r.total.Some? <==> row.count.Some? && row.price.Some?
    ensures r.total.Some? ==> r.total.value == row.count.value * row.price.value
    ensures r.zip == ZipCode.ExtractZip(row.address)
    ensures r.day.Some? <==> row.orderDate.Some?
    ensures r.hour.Some? <==> row.orderDate.Some?
    ensures r.day.Some? ==> r.day.value == row.orderDate.value.day && 1 <= r.day.value <= 31
    ensures r.hour.Some? ==> r.hour.value == row.orderDate.value.hour && 0 <= r.hour.value <= 23
  {
    Record(
      row.product, row.count, row.price, row.address, row.orderDate,
      Total(row.count, row.price),
      ZipCode.ExtractZip(row.address),
      match row.orderDate case Some(d) => Some(d.day as int) case None => None,
      match row.orderDate case Some(d) => Some(d.hour as int) case None => None)
  }

  /** Enriches every row, keeping the row order. */
  function EnrichAll(rows: seq<Row>): (rs: seq<Record>)
    ensures |rs| == |rows|
    ensures forall i :: 0 <= i < |rows| ==> rs[i] == Enrich(rows[i])
  {
    seq(|rows|, i requires 0 <= i < |rows| => Enrich(rows[i]))
  }

  /**
   * The worked example: 3 units at 10.00 ordered on 01/15/20 14:30 to
   * "500 Elm St, Boston, MA 02110" give a total of 30, zip 02110, day 15
   * and hour 14.
   */
  lemma EnrichExample()
    ensures
      var r := Enrich(Row(Some("USB-C Charging Cable"), Some(3.0), Some(10.0),
                          Some(Timestamp(2020, 1, 15, 14, 30)),
                          Some("500 Elm St, Boston, MA 02110")));
      r.total == Some(30.0) && r.zip == Some("02110") && r.day == Some(15) && r.hour == Some(14)
  {
    var s := "500 Elm St, Boston, MA 02110";
    assert s[23..28] == "02110";
    assert ZipCode.MatchesAt(s, 23, 5);
    forall j | 0 <= j < 23
      ensures ZipCode.MatchLengthAt(s, j).None?
    {
      ZipCode.NoMatchAcrossNonDigit(s, j, if j < 3 then 3 else j);
    }
    ZipCode.LeftmostMatchFound(s, 23);
  }

  /** A row whose count does not parse keeps its place but has no total. */
  lemma MalformedCountHasNoTotal(row: Row)
    requires row.count.None?
    ensures Enrich(row).total.None?
  {
  }
}
