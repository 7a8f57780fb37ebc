/** One row of the sales table, with the cells that may be missing in the
    CSV (`customer_region`, `customer_rating`, `payment_method`) as options. */
module Records {
  import opened Wrappers

  /** A parsed `order_date`: a calendar date without time of day. */
  datatype Date = Date(year: int, month: int, day: int)

  /** Chronological order of dates: year, then month, then day. */
  predicate DateLe(a: Date, b: Date) {
    a.year < b.year
    || (a.year == b.year && (a.month < b.month || (a.month == b.month && a.day <= b.day)))
  }

  /** The `month_year` bucket (`%Y-%m`), kept as the pair it is printed from.
      For four-digit years the string order of `%Y-%m` is this pair's
      lexicographic order. */
  datatype Month = Month(year: int, month: int)

  predicate MonthBefore(a: Month, b: Month) {
    a.year < b.year || (a.year == b.year && a.month < b.month)
  }

  datatype Row = Row(
    orderId: string,
    orderDate: Date,
    productId: string,
    productName: string,
    category: string,
    amount: int,              // total_amount in cents
    customerId: string,
    region: Option<string>,   // customer_region
    rating: Option<int>,      // customer_rating; 0 means "no rating"
    payment: Option<string>)  // payment_method

  /** The derived `month_year` column. */
  function MonthOf(r: Row): Month {
    Month(r.orderDate.year, r.orderDate.month)
  }

  function OrderIdOf(r: Row): string {
    r.orderId
  }

  function CategoryOf(r: Row): string {
    r.category
  }

  function ProductNameOf(r: Row): string {
    r.productName
  }

  /** Total revenue of a table: the sum of `total_amount`. */
  function Revenue(rows: seq<Row>): int {
    if |rows| == 0 then 0 else rows[0].amount + Revenue(rows[1..])
  }

  /** Revenue adds up over any split of the table into two parts. */
  lemma {:induction false} RevenueAppend(a: seq<Row>, b: seq<Row>)
    ensures Revenue(a + b) == Revenue(a) + Revenue(b)
  {
    if |a| == 0 {
      assert a + b == b;
    } else {
      assert (a + b)[1..] == a[1..] + b;
      RevenueAppend(a[1..], b);
    }
  }
}
