/** Worked examples of the cleaning pass and the dashboard figures on small
    concrete tables. */
module Scenarios {
  import opened Wrappers
  import opened Orders
  import opened Sorting
  import opened Grouping
  import opened Stats
  import opened Records
  import opened Cleaning
  import opened Filtering
  import opened Aggregates
  import opened Dashboard

  /** A sale on 15 January 2024, paid by card, with one line per order
      unless two sales share an order id. */
  function Sale(orderId: string, productId: string, amount: int, customerId: string,
                region: Option<string>, rating: Option<int>): Row
  {
    Row(orderId, Date(2024, 1, 15), productId, productId, "Electronics", amount,
        customerId, region, rating, Some("Card"))
  }

  /** A product rated {missing, 4}: the missing rating becomes 4. */
  lemma ProductMedianFillsGap()
    ensures FillRatings([Sale("o1", "P", 100, "c1", Some("West"), None),
                         Sale("o2", "P", 100, "c2", Some("West"), Some(4))])[0].rating == Some(4)
  {
    var rows := [Sale("o1", "P", 100, "c1", Some("West"), None),
                 Sale("o2", "P", 100, "c2", Some("West"), Some(4))];
    var r := FillRatings(rows);
    assert RatingFilledAt(rows, r, 0);
    assert OfProduct(rows, "P") == rows;
    assert KnownRatings(rows) == [4];
    MedianOfConstant([4], 4);
  }

  /** Customer `c` has regions {missing, West, West}; customer `d` has
      none on file. */
  const RegionGaps: seq<Row> := [
    Sale("o1", "P", 100, "c", None, Some(5)),
    Sale("o2", "P", 100, "c", Some("West"), Some(5)),
    Sale("o3", "P", 100, "c", Some("West"), Some(5)),
    Sale("o4", "P", 100, "d", None, Some(5))]

  /** `c`'s missing region becomes West, `d`'s becomes "Unknown". */
  lemma CustomerModeFillsGap()
    ensures FillRegions(RegionGaps)[0].region == Some("West")
    ensures FillRegions(RegionGaps)[3].region == Some(Unknown)
  {
    var rows := RegionGaps;
    assert OfCustomer(rows, "c") == rows[..3];
    assert CustomerRegions(rows, "c") == ["West", "West"];
    assert OfCustomer(rows, "d") == [rows[3]];
    assert CustomerRegions(rows, "d") == [];
  }

  /** Two lines of one order, 100.00 and 50.00: the average order value is
      150.00. */
  lemma OneOrderTwoLines()
    ensures AvgOrderValue([Sale("o1", "P", 10000, "c", Some("West"), Some(5)),
                           Sale("o1", "Q", 5000, "c", Some("West"), Some(5))]) == 15000.0
  {
    var rows := [Sale("o1", "P", 10000, "c", Some("West"), Some(5)),
                 Sale("o1", "Q", 5000, "c", Some("West"), Some(5))];
    OneOrder(rows, "o1");
    assert Revenue(rows) == 15000;
  }

  /** When every line belongs to one order, the average order value is the
      revenue. */
  lemma OneOrder(rows: seq<Row>, id: string)
    requires |rows| > 0 && forall x :: x in rows ==> x.orderId == id
    ensures AvgOrderValue(rows) == Revenue(rows) as real
  {
    OneOrderId(rows, id);
    SingleShare(AvgOrderValue(rows), Revenue(rows));
  }

  lemma OneOrderId(rows: seq<Row>, id: string)
    requires |rows| > 0 && forall x :: x in rows ==> x.orderId == id
    ensures |KeySet(rows, OrderIdOf)| == 1
  {
    assert KeySet(rows, OrderIdOf) == {id} by {
      assert rows[0] in rows;
    }
  }

  lemma SingleShare(r: real, total: int)
    requires IsMeanOf(r, total, 1)
    ensures r == total as real
  {
  }

  /** Ratings 5, 5, 4, unrated (0) and 3. */
  const Ratings: seq<Row> := [
    Sale("o1", "P", 100, "c", Some("West"), Some(5)),
    Sale("o2", "P", 100, "c", Some("West"), Some(5)),
    Sale("o3", "P", 100, "c", Some("West"), Some(4)),
    Sale("o4", "P", 100, "c", Some("West"), Some(0)),
    Sale("o5", "P", 100, "c", Some("West"), Some(3))]

  lemma RatingsPresent()
    ensures forall x :: x in Ratings ==> x.rating in {Some(5), Some(4), Some(0), Some(3)}
    ensures Ratings[0].rating == Some(5) && Ratings[2].rating == Some(4) && Ratings[4].rating == Some(3)
  {
  }

  lemma RatingValues()
    ensures RatedValues(Ratings) == [5, 5, 4, 3]
  {
  }

  /** A histogram over ratings 3, 4 and 5 has one bar for each, in order. */
  lemma ThreeBars(h: seq<(int, int)>)
    requires StrictlyAscending(h, IntLess) && Keys(h) == {3, 4, 5}
    ensures |h| == 3 && h[0].0 == 3 && h[1].0 == 4 && h[2].0 == 5
  {
    IntLessIsStrictTotalOrder();
    DistinctKeysCount(h, IntLess);
    KeysIndex(h, 3);
    KeysIndex(h, 4);
    KeysIndex(h, 5);
  }

  /** Any table whose counted ratings are 5, 5, 4, 3 in this order, with
      nothing else in the rating column but 0, has the histogram 3:1, 4:1,
      5:2. */
  lemma HistogramOf(view: seq<Row>)
    requires forall x :: x in view ==> x.rating in {Some(5), Some(4), Some(0), Some(3)}
    requires exists x :: x in view && x.rating == Some(3)
    requires exists x :: x in view && x.rating == Some(4)
    requires exists x :: x in view && x.rating == Some(5)
    requires RatedValues(view) == [5, 5, 4, 3]
    ensures RatingCounts(view) == [(3, 1), (4, 1), (5, 2)]
  {
    var h := RatingCounts(view);
    HistogramKeys(view);
    ThreeBars(h);
    CountsOf(view);
    assert h[0].1 == 1 && h[1].1 == 1 && h[2].1 == 2;
    BarsAre(h);
  }

  lemma BarsAre(h: seq<(int, int)>)
    requires |h| == 3 && h[0].0 == 3 && h[1].0 == 4 && h[2].0 == 5
    requires h[0].1 == 1 && h[1].1 == 1 && h[2].1 == 2
    ensures h == [(3, 1), (4, 1), (5, 2)]
  {
  }

  lemma HistogramKeys(view: seq<Row>)
    requires forall x :: x in view ==> x.rating in {Some(5), Some(4), Some(0), Some(3)}
    requires exists x :: x in view && x.rating == Some(3)
    requires exists x :: x in view && x.rating == Some(4)
    requires exists x :: x in view && x.rating == Some(5)
    ensures Keys(RatingCounts(view)) == {3, 4, 5}
  {
  }

  lemma CountsOf(view: seq<Row>)
    requires RatedValues(view) == [5, 5, 4, 3]
    ensures |RatedAs(view, 3)| == 1 && |RatedAs(view, 4)| == 1 && |RatedAs(view, 5)| == 2
  {
    var m := multiset([5, 5, 4, 3]);
    assert m == multiset{3, 4, 5, 5};
    assert m[3] == 1 && m[4] == 1 && m[5] == 2;
    RatedCount(view, m, 3);
    RatedCount(view, m, 4);
    RatedCount(view, m, 5);
  }

  lemma RatedCount(view: seq<Row>, m: multiset<int>, v: int)
    requires v > 0 && multiset(RatedValues(view)) == m
    ensures |RatedAs(view, v)| == m[v]
  {
    RatedValuesMultiplicity(view, v);
  }

  /** The histogram is 3:1, 4:1, 5:2. */
  lemma RatingHistogram()
    ensures RatingCounts(Ratings) == [(3, 1), (4, 1), (5, 2)]
  {
    RatingsPresent();
    RatingValues();
    assert Ratings[0] in Ratings && Ratings[2] in Ratings && Ratings[4] in Ratings;
    HistogramOf(Ratings);
  }

  /** The unrated row is left out of the average: (5 + 5 + 4 + 3) / 4. */
  lemma RatingAverage()
    ensures AvgRating(Ratings) == Some(4.25)
  {
    RatingValues();
    assert IntSum([5, 5, 4, 3]) == 17;
  }

  /** No row passes the filter: the callback takes its empty branch. */
  lemma NothingSelected()
    ensures UpdateDashboard(Filter(None, None, Some({"North"}), None),
                            [Sale("o1", "P", 100, "c", Some("West"), Some(5))]) == NoData
  {
    var f := Filter(None, None, Some({"North"}), None);
    var rows := [Sale("o1", "P", 100, "c", Some("West"), Some(5))];
    assert !Keeps(f, rows[0]);
  }

  lemma MedianOfOne()
    ensures RoundedMedian([1]) == 1
  {
    MedianOfConstant([1], 1);
  }

  lemma MedianOfFiveOne()
    ensures RoundedMedian([5, 1]) == 3
  {
    IntLessIsStrictTotalOrder();
    SortedUnique(Sort([5, 1], IntLess), [1, 5], IntLess);
  }

  lemma MedianOfFiveOneOne()
    ensures RoundedMedian([5, 1, 1]) == 1
  {
    IntLessIsStrictTotalOrder();
    SortedUnique(Sort([5, 1, 1], IntLess), [1, 1, 5], IntLess);
  }

  /** Product B rated 5, product A rated 1 and once unrated, product C
      unrated; A's gap comes before C's. */
  const GapsAC: seq<Row> := [
    Sale("o1", "B", 100, "c", Some("West"), Some(5)),
    Sale("o2", "A", 100, "c", Some("West"), Some(1)),
    Sale("o3", "A", 100, "c", Some("West"), None),
    Sale("o4", "C", 100, "c", Some("West"), None)]

  /** The same rows with C's gap first. */
  const GapsCA: seq<Row> := [
    Sale("o1", "B", 100, "c", Some("West"), Some(5)),
    Sale("o2", "A", 100, "c", Some("West"), Some(1)),
    Sale("o4", "C", 100, "c", Some("West"), None),
    Sale("o3", "A", 100, "c", Some("West"), None)]

  /** Product C's only row is unrated. */
  lemma NoMedianForCAC(rows: seq<Row>)
    requires |rows| == 4
    requires rows[0].productId == "B" && rows[0].rating == Some(5)
    requires rows[1].productId == "A" && rows[1].rating == Some(1)
    requires rows[2].productId == "A" && rows[2].rating == None
    requires rows[3].productId == "C" && rows[3].rating == None
    ensures ProductMedian(rows, "C").None?
  {
    assert rows[3..][1..] == [] && rows[2..][1..] == rows[3..] && rows[1..][1..] == rows[2..];
    assert OfProduct(rows[3..], "C") == [rows[3]];
    assert OfProduct(rows[2..], "C") == [rows[3]];
    assert OfProduct(rows[1..], "C") == [rows[3]];
    assert OfProduct(rows, "C") == [rows[3]];
    KnownRatingOfOne(rows[3]);
  }

  lemma ProductMediansAC(rows: seq<Row>)
    requires |rows| == 4
    requires rows[0].productId == "B" && rows[0].rating == Some(5)
    requires rows[1].productId == "A" && rows[1].rating == Some(1)
    requires rows[2].productId == "A" && rows[2].rating == None
    requires rows[3].productId == "C" && rows[3].rating == None
    ensures ProductMedian(rows, "A") == Some(1)
  {
    assert rows[3..][1..] == [] && rows[2..][1..] == rows[3..] && rows[1..][1..] == rows[2..];
    assert OfProduct(rows[3..], "A") == [];
    assert OfProduct(rows[2..], "A") == [rows[2]];
    assert OfProduct(rows[1..], "A") == [rows[1], rows[2]];
    assert OfProduct(rows, "A") == [rows[1], rows[2]];
    assert [rows[1], rows[2]][1..] == [rows[2]] && [rows[2]][1..] == [];
    assert KnownRatings([rows[2]]) == [];
    assert KnownRatings([rows[1], rows[2]]) == [1];
    MedianOfOne();
  }

  lemma KnownRatingOfOne(x: Row)
    ensures KnownRatings([x]) == if x.rating.Some? then [x.rating.value] else []
  {
    assert [x][1..] == [];
  }

  /** The known ratings of a four-row table, row by row. */
  lemma KnownRatingsOfFour(s: seq<Row>)
    requires |s| == 4
    ensures KnownRatings(s) == KnownRatings([s[0]]) + KnownRatings([s[1]]) + KnownRatings([s[2]]) + KnownRatings([s[3]])
  {
    assert s == [s[0]] + ([s[1]] + ([s[2]] + [s[3]]));
    KnownRatingsAppend([s[2]], [s[3]]);
    KnownRatingsAppend([s[1]], [s[2]] + [s[3]]);
    KnownRatingsAppend([s[0]], [s[1]] + ([s[2]] + [s[3]]));
  }

  lemma KnownRatingsOfColumn(s: seq<Row>, a: Option<int>, b: Option<int>, c: Option<int>, d: Option<int>)
    requires |s| == 4 && s[0].rating == a && s[1].rating == b && s[2].rating == c && s[3].rating == d
    ensures KnownRatings(s) ==
      (if a.Some? then [a.value] else []) + (if b.Some? then [b.value] else []) +
      (if c.Some? then [c.value] else []) + (if d.Some? then [d.value] else [])
  {
    KnownRatingsOfFour(s);
    KnownRatingOfOne(s[0]);
    KnownRatingOfOne(s[1]);
    KnownRatingOfOne(s[2]);
    KnownRatingOfOne(s[3]);
  }

  /** The rows before C's gap after the loop has passed them: 5, 1, and A's
      gap filled with A's median 1. */
  lemma FillACHead(rows: seq<Row>)
    requires |rows| == 4
    requires rows[0].productId == "B" && rows[0].rating == Some(5)
    requires rows[1].productId == "A" && rows[1].rating == Some(1)
    requires rows[2].productId == "A" && rows[2].rating == None
    requires rows[3].productId == "C" && rows[3].rating == None
    ensures FillRatings(rows)[0].rating == Some(5)
    ensures FillRatings(rows)[1].rating == Some(1)
    ensures FillRatings(rows)[2].rating == Some(1)
  {
    var r := FillRatings(rows);
    ProductMediansAC(rows);
    assert RatingFilledAt(rows, r, 0);
    assert RatingFilledAt(rows, r, 1);
    assert RatingFilledAt(rows, r, 2);
  }

  /** The column the loop sees at C's gap when A's gap came first: 5, 1,
      A's filled 1, and C's own gap. */
  lemma SeenAfterA(rows: seq<Row>, r: seq<Row>)
    requires |rows| == |r| == 4
    requires r[0].rating == Some(5) && r[1].rating == Some(1) && r[2].rating == Some(1)
    requires rows[3].rating == None
    ensures ColumnMedian(r[..3] + rows[3..]) == Some(1)
  {
    var seen := r[..3] + rows[3..];
    assert seen[0] == r[0] && seen[1] == r[1] && seen[2] == r[2] && seen[3] == rows[3];
    KnownRatingsOfColumn(seen, Some(5), Some(1), Some(1), None);
    assert KnownRatings(seen) == [5, 1, 1];
    MedianOfFiveOneOne();
  }

  /** The column the loop sees at C's gap when it comes first: 5, 1 and two
      gaps. */
  lemma SeenBeforeA(rows: seq<Row>, r: seq<Row>)
    requires |rows| == |r| == 4
    requires r[0].rating == Some(5) && r[1].rating == Some(1)
    requires rows[2].rating == None && rows[3].rating == None
    ensures ColumnMedian(r[..2] + rows[2..]) == Some(3)
  {
    var seen := r[..2] + rows[2..];
    assert seen[0] == r[0] && seen[1] == r[1] && seen[2] == rows[2] && seen[3] == rows[3];
    KnownRatingsOfColumn(seen, Some(5), Some(1), None, None);
    assert KnownRatings(seen) == [5, 1];
    MedianOfFiveOne();
  }

  /** A's gap is filled from A's median; C's gap, visited after it, sees
      the column 5, 1, 1 and gets 1. */
  lemma FillAC(rows: seq<Row>)
    requires |rows| == 4
    requires rows[0].productId == "B" && rows[0].rating == Some(5)
    requires rows[1].productId == "A" && rows[1].rating == Some(1)
    requires rows[2].productId == "A" && rows[2].rating == None
    requires rows[3].productId == "C" && rows[3].rating == None
    ensures FillRatings(rows)[2].rating == Some(1)
    ensures FillRatings(rows)[3].rating == Some(1)
  {
    var r := FillRatings(rows);
    FillACHead(rows);
    NoMedianForCAC(rows);
    SeenAfterA(rows, r);
    assert RatingFilledAt(rows, r, 3);
  }

  /** Product C's only row is unrated. */
  lemma NoMedianForCCA(rows: seq<Row>)
    requires |rows| == 4
    requires rows[0].productId == "B" && rows[0].rating == Some(5)
    requires rows[1].productId == "A" && rows[1].rating == Some(1)
    requires rows[2].productId == "C" && rows[2].rating == None
    requires rows[3].productId == "A" && rows[3].rating == None
    ensures ProductMedian(rows, "C").None?
  {
    assert rows[3..][1..] == [] && rows[2..][1..] == rows[3..] && rows[1..][1..] == rows[2..];
    assert OfProduct(rows[3..], "C") == [];
    assert OfProduct(rows[2..], "C") == [rows[2]];
    assert OfProduct(rows[1..], "C") == [rows[2]];
    assert OfProduct(rows, "C") == [rows[2]];
    KnownRatingOfOne(rows[2]);
  }

  lemma ProductMediansCA(rows: seq<Row>)
    requires |rows| == 4
    requires rows[0].productId == "B" && rows[0].rating == Some(5)
    requires rows[1].productId == "A" && rows[1].rating == Some(1)
    requires rows[2].productId == "C" && rows[2].rating == None
    requires rows[3].productId == "A" && rows[3].rating == None
    ensures ProductMedian(rows, "A") == Some(1)
  {
    assert rows[3..][1..] == [] && rows[2..][1..] == rows[3..] && rows[1..][1..] == rows[2..];
    assert OfProduct(rows[3..], "A") == [rows[3]];
    assert OfProduct(rows[2..], "A") == [rows[3]];
    assert OfProduct(rows[1..], "A") == [rows[1], rows[3]];
    assert OfProduct(rows, "A") == [rows[1], rows[3]];
    assert [rows[1], rows[3]][1..] == [rows[3]] && [rows[3]][1..] == [];
    assert KnownRatings([rows[3]]) == [];
    assert KnownRatings([rows[1], rows[3]]) == [1];
    MedianOfOne();
  }

  /** C's gap, visited first, sees the column 5, 1 and gets 3. */
  lemma FillCA(rows: seq<Row>)
    requires |rows| == 4
    requires rows[0].productId == "B" && rows[0].rating == Some(5)
    requires rows[1].productId == "A" && rows[1].rating == Some(1)
    requires rows[2].productId == "C" && rows[2].rating == None
    requires rows[3].productId == "A" && rows[3].rating == None
    ensures FillRatings(rows)[2].rating == Some(3)
    ensures FillRatings(rows)[3].rating == Some(1)
  {
    var r := FillRatings(rows);
    ProductMediansCA(rows);
    NoMedianForCCA(rows);
    assert RatingFilledAt(rows, r, 0) && RatingFilledAt(rows, r, 1);
    SeenBeforeA(rows, r);
    assert RatingFilledAt(rows, r, 2);
    assert RatingFilledAt(rows, r, 3);
  }

  lemma OrderAC()
    ensures FillRatings(GapsAC)[3].rating == Some(1)
  {
    FillAC(GapsAC);
  }

  lemma OrderCA()
    ensures FillRatings(GapsCA)[2].rating == Some(3)
  {
    FillCA(GapsCA);
  }

  lemma LoadedMedians()
    ensures ColumnMedian(GapsAC) == Some(3) && ColumnMedian(GapsCA) == Some(3)
  {
    assert KnownRatings(GapsAC) == [5, 1];
    assert KnownRatings(GapsCA) == [5, 1];
    MedianOfFiveOne();
  }

  /** The rating fallback depends on row order: the same rows in two orders
      give product C the rating 1 or 3, and only the second is the median
      of the ratings as loaded. */
  lemma FallbackDependsOnRowOrder()
    ensures multiset(GapsAC) == multiset(GapsCA)
    ensures FillRatings(GapsAC)[3].rating == Some(1)
    ensures FillRatings(GapsCA)[2].rating == Some(3)
    ensures ColumnMedian(GapsAC) == Some(3) && ColumnMedian(GapsCA) == Some(3)
  {
    OrderAC();
    OrderCA();
    LoadedMedians();
  }
}
