/** The figures `update_dashboard` derives from the filtered table: the
    summary cards, the monthly trend, the category breakdown, the rating
    distribution and the top products. Money is in cents. */
module Aggregates {
  import opened Wrappers
  import opened Orders
  import opened Sorting
  import opened Grouping
  import opened Records
  import opened Filtering

  /** The `(key, total_amount)` column pair a `groupby(key).sum()` reads. */
  function KeyedAmounts<K>(rows: seq<Row>, key: Row -> K): seq<(K, int)> {
    if |rows| == 0 then [] else [(key(rows[0]), rows[0].amount)] + KeyedAmounts(rows[1..], key)
  }

  /** The distinct values of a column. */
  function KeySet<K>(rows: seq<Row>, key: Row -> K): set<K> {
    set r | r in rows :: key(r)
  }

  /** Revenue of the sub-table `df[df[key] == k]`. */
  function RevenueOfKey<K(==)>(rows: seq<Row>, key: Row -> K, k: K): int {
    Revenue(Where(rows, x => key(x) == k))
  }

  lemma {:induction false} KeyedAmountsTotals<K>(rows: seq<Row>, key: Row -> K)
    ensures Sum(KeyedAmounts(rows, key)) == Revenue(rows)
    ensures Keys(KeyedAmounts(rows, key)) == KeySet(rows, key)
  {
    if |rows| > 0 {
      KeyedAmountsTotals(rows[1..], key);
      assert KeyedAmounts(rows, key)[1..] == KeyedAmounts(rows[1..], key);
      assert forall x :: x in rows <==> x == rows[0] || x in rows[1..] by {
        assert rows == [rows[0]] + rows[1..];
      }
      assert KeySet(rows, key) == {key(rows[0])} + KeySet(rows[1..], key);
    }
  }

  lemma {:induction false} KeyedAmountsSumOf<K>(rows: seq<Row>, key: Row -> K, k: K)
    ensures SumOf(KeyedAmounts(rows, key), k) == RevenueOfKey(rows, key, k)
  {
    if |rows| > 0 {
      KeyedAmountsSumOf(rows[1..], key, k);
      assert KeyedAmounts(rows, key)[1..] == KeyedAmounts(rows[1..], key);
      if key(rows[0]) == k {
        assert Where(rows, x => key(x) == k)[1..] == Where(rows[1..], x => key(x) == k);
      }
    }
  }

  /** `df.groupby(key)['total_amount'].sum()`: one entry per distinct key,
      keys ascending under `lt`, each entry the revenue of its group, the
      entries adding up to the table's revenue. */
  function GroupRevenues<K(==,!new)>(rows: seq<Row>, key: Row -> K, lt: (K, K) -> bool): (g: seq<(K, int)>)
    requires StrictTotalOrder(lt)
    ensures StrictlyAscending(g, lt)
    ensures Keys(g) == KeySet(rows, key)
    ensures |g| == |KeySet(rows, key)|
    ensures Sum(g) == Revenue(rows)
    ensures forall i :: 0 <= i < |g| ==> g[i].1 == RevenueOfKey(rows, key, g[i].0)
  {
    var pairs := KeyedAmounts(rows, key);
    var g := GroupSum(pairs, lt);
    KeyedAmountsTotals(rows, key);
    GroupSumEntries(pairs, lt);
    assert forall i :: 0 <= i < |g| ==> g[i].1 == RevenueOfKey(rows, key, g[i].0) by {
      forall i | 0 <= i < |g| ensures g[i].1 == RevenueOfKey(rows, key, g[i].0) {
        KeyedAmountsSumOf(rows, key, g[i].0);
      }
    }
    g
  }

  lemma MonthBeforeIsStrictTotalOrder()
    ensures StrictTotalOrder(MonthBefore)
  {
  }

  /** The revenue-over-time figure: revenue per `month_year`, months in
      chronological order, each month listed once. */
  function MonthlyRevenue(view: seq<Row>): (g: seq<(Month, int)>)
    ensures StrictlyAscending(g, MonthBefore)
    ensures Keys(g) == KeySet(view, MonthOf)
    ensures Sum(g) == Revenue(view)
    ensures forall i :: 0 <= i < |g| ==> g[i].1 == RevenueOfKey(view, MonthOf, g[i].0)
  {
    MonthBeforeIsStrictTotalOrder();
    GroupRevenues(view, MonthOf, MonthBefore)
  }

  /** The category pie: revenue per category, each category once. */
  function CategoryRevenue(view: seq<Row>): (g: seq<(string, int)>)
    ensures StrictlyAscending(g, LexLess)
    ensures Keys(g) == KeySet(view, CategoryOf)
    ensures Sum(g) == Revenue(view)
    ensures forall i :: 0 <= i < |g| ==> g[i].1 == RevenueOfKey(view, CategoryOf, g[i].0)
  {
    LexLessIsStrictTotalOrder();
    GroupRevenues(view, CategoryOf, LexLess)
  }

  /** Average order value: the mean, over distinct `order_id`s, of each
      order's total. Only computed for a non-empty table. */
  function AvgOrderValue(view: seq<Row>): (r: real)
    requires |view| > 0
    ensures IsMeanOf(r, Revenue(view), |KeySet(view, OrderIdOf)|)
  {
    LexLessIsStrictTotalOrder();
    var totals := GroupRevenues(view, OrderIdOf, LexLess);
    KeySetNonEmpty(view, OrderIdOf);
    var count := |KeySet(view, OrderIdOf)|;
    var total := Revenue(view);
    assert Sum(totals) == total && |totals| == count;
    MeanTimesCount(total, count);
    Mean(Sum(totals), |totals|)
  }

  lemma KeySetNonEmpty<K>(rows: seq<Row>, key: Row -> K)
    requires |rows| > 0
    ensures |KeySet(rows, key)| > 0
  {
    assert key(rows[0]) in KeySet(rows, key);
  }

  /** `total / n` in real arithmetic. */
  function Mean(total: int, n: nat): real
    requires n > 0
  {
    (total as real) / (n as real)
  }

  /** `r` is what `n` equal shares of `total` come to. */
  predicate IsMeanOf(r: real, total: int, n: nat) {
    r * (n as real) == total as real
  }

  lemma MeanTimesCount(total: int, n: nat)
    requires n > 0
    ensures IsMeanOf(Mean(total, n), total, n)
  {
  }

  lemma MeanAtLeastOne(total: int, n: nat)
    requires 0 < n <= total
    ensures Mean(total, n) >= 1.0
  {
  }

  lemma MeanAtMost(total: int, n: nat, hi: int)
    requires n > 0 && total <= n * hi
    ensures Mean(total, n) <= hi as real
  {
  }

  /** A rating counts only when present and positive (`customer_rating > 0`). */
  predicate IsRated(r: Row) {
    r.rating.Some? && r.rating.value > 0
  }

  /** The counted ratings, in row order. */
  function RatedValues(view: seq<Row>): seq<int> {
    if |view| == 0 then []
    else (if IsRated(view[0]) then [view[0].rating.value] else []) + RatedValues(view[1..])
  }

  /** The rows rated exactly `v`. */
  function RatedAs(view: seq<Row>, v: int): seq<Row> {
    Where(view, (x: Row) => x.rating == Some(v))
  }

  function IntSum(s: seq<int>): int {
    if |s| == 0 then 0 else s[0] + IntSum(s[1..])
  }

  lemma {:induction false} RatedValuesCount(view: seq<Row>)
    ensures |RatedValues(view)| == |Where(view, IsRated)|
  {
    if |view| > 0 {
      RatedValuesCount(view[1..]);
      if IsRated(view[0]) {
        assert Where(view, IsRated)[1..] == Where(view[1..], IsRated);
      }
    }
  }

  lemma {:induction false} RatedValuesPositive(view: seq<Row>)
    ensures forall i :: 0 <= i < |RatedValues(view)| ==> RatedValues(view)[i] > 0
  {
    if |view| > 0 {
      RatedValuesPositive(view[1..]);
    }
  }

  lemma {:induction false} RatedValuesMultiplicity(view: seq<Row>, v: int)
    requires v > 0
    ensures multiset(RatedValues(view))[v] == |RatedAs(view, v)|
  {
    if |view| > 0 {
      RatedValuesMultiplicity(view[1..], v);
      var head := if IsRated(view[0]) then [view[0].rating.value] else [];
      assert RatedValues(view) == head + RatedValues(view[1..]);
      assert multiset(RatedValues(view)) == multiset(head) + multiset(RatedValues(view[1..]));
      if view[0].rating == Some(v) {
        assert RatedAs(view, v)[1..] == RatedAs(view[1..], v);
      }
    }
  }

  lemma {:induction false} IntSumAtLeastLength(s: seq<int>)
    requires forall i :: 0 <= i < |s| ==> s[i] > 0
    ensures IntSum(s) >= |s|
  {
    if |s| > 0 {
      IntSumAtLeastLength(s[1..]);
    }
  }

  lemma {:induction false} IntSumAtMost(s: seq<int>, hi: int)
    requires forall i :: 0 <= i < |s| ==> s[i] <= hi
    ensures IntSum(s) <= |s| * hi
  {
    if |s| > 0 {
      IntSumAtMost(s[1..], hi);
    }
  }

  /** The average-rating card: the mean of the counted ratings, or none
      ("N/A") when no rating counts. It is at least 1. */
  function AvgRating(view: seq<Row>): (r: Option<real>)
    ensures r.None? <==> forall i :: 0 <= i < |view| ==> !IsRated(view[i])
    ensures r.Some? ==> IsMeanOf(r.value, IntSum(RatedValues(view)), |RatedValues(view)|)
    ensures r.Some? ==> r.value >= 1.0
  {
    var vals := RatedValues(view);
    RatedValuesCount(view);
    assert |Where(view, IsRated)| == 0 <==> forall i :: 0 <= i < |view| ==> !IsRated(view[i]) by {
      assert forall x :: x in Where(view, IsRated) <==> x in view && IsRated(x);
    }
    if |vals| == 0 then
      None
    else
      RatedValuesPositive(view);
      IntSumAtLeastLength(vals);
      MeanTimesCount(IntSum(vals), |vals|);
      MeanAtLeastOne(IntSum(vals), |vals|);
      Some(Mean(IntSum(vals), |vals|))
  }

  /** No rating above `hi` gives an average of at most `hi`. */
  lemma AvgRatingAtMost(view: seq<Row>, hi: int)
    requires forall i :: 0 <= i < |view| ==> IsRated(view[i]) ==> view[i].rating.value <= hi
    ensures AvgRating(view).Some? ==> AvgRating(view).value <= hi as real
  {
    RatedAtMost(view, hi);
    var vals := RatedValues(view);
    IntSumAtMost(vals, hi);
    if |vals| > 0 {
      MeanAtMost(IntSum(vals), |vals|, hi);
    }
  }

  lemma {:induction false} RatedAtMost(view: seq<Row>, hi: int)
    requires forall i :: 0 <= i < |view| ==> IsRated(view[i]) ==> view[i].rating.value <= hi
    ensures forall i :: 0 <= i < |RatedValues(view)| ==> RatedValues(view)[i] <= hi
  {
    if |view| > 0 {
      RatedAtMost(view[1..], hi);
    }
  }

  /** One `(value, 1)` pair per rating, the input of `value_counts`. */
  function UnitPairs(s: seq<int>): seq<(int, int)> {
    if |s| == 0 then [] else [(s[0], 1)] + UnitPairs(s[1..])
  }

  lemma {:induction false} UnitPairsFacts(s: seq<int>, v: int)
    ensures |UnitPairs(s)| == |s|
    ensures forall i :: 0 <= i < |UnitPairs(s)| ==> UnitPairs(s)[i].1 == 1
    ensures forall x :: x in Keys(UnitPairs(s)) <==> x in s
    ensures CountOf(UnitPairs(s), v) == multiset(s)[v]
  {
    if |s| > 0 {
      UnitPairsFacts(s[1..], v);
      assert UnitPairs(s)[1..] == UnitPairs(s[1..]);
      assert s == [s[0]] + s[1..];
      assert multiset(s) == multiset{s[0]} + multiset(s[1..]);
    }
  }

  /** The rating histogram (`value_counts().sort_index()` over counted
      ratings): ratings ascending, each with the number of rows rated so,
      the counts adding up to the number of counted ratings. */
  function RatingCounts(view: seq<Row>): (h: seq<(int, int)>)
    ensures StrictlyAscending(h, IntLess)
    ensures forall v :: v in Keys(h) <==> v > 0 && exists x :: x in view && x.rating == Some(v)
    ensures forall i :: 0 <= i < |h| ==> h[i].0 > 0 && h[i].1 == |RatedAs(view, h[i].0)|
    ensures Sum(h) == |Where(view, IsRated)|
  {
    var vals := RatedValues(view);
    var pairs := UnitPairs(vals);
    IntLessIsStrictTotalOrder();
    var h := GroupSum(pairs, IntLess);
    UnitPairsFacts(vals, 0);
    UnitSumIsCount(pairs, 0);
    RatedValuesCount(view);
    RatedValuesPositive(view);
    GroupSumEntries(pairs, IntLess);
    assert forall v :: v in Keys(h) <==> v > 0 && exists x :: x in view && x.rating == Some(v) by {
      forall v ensures v in Keys(h) <==> v > 0 && exists x :: x in view && x.rating == Some(v) {
        if v > 0 {
          RatedValuesMultiplicity(view, v);
          assert forall x :: x in RatedAs(view, v) <==> x in view && x.rating == Some(v);
          assert v in vals <==> |RatedAs(view, v)| > 0;
        } else {
          assert v !in vals;
        }
      }
    }
    assert forall i :: 0 <= i < |h| ==> h[i].0 > 0 && h[i].1 == |RatedAs(view, h[i].0)| by {
      forall i | 0 <= i < |h| ensures h[i].0 > 0 && h[i].1 == |RatedAs(view, h[i].0)| {
        var v := h[i].0;
        assert v in Keys(h) by {
          KeysIndex(h, v);
        }
        UnitPairsFacts(vals, v);
        UnitSumIsCount(pairs, v);
        RatedValuesMultiplicity(view, v);
      }
    }
    h
  }

  /** How many products the top-products figure shows. */
  const TopCount: nat := 10

  /** Rank order of `(product, revenue)` entries: higher revenue first, and
      among equal revenues the name first in string order. */
  predicate RankedBefore(a: (string, int), b: (string, int)) {
    a.1 > b.1 || (a.1 == b.1 && LexLess(a.0, b.0))
  }

  lemma RankedBeforeIsStrictTotalOrder()
    ensures StrictTotalOrder(RankedBefore)
  {
    LexLessIsStrictTotalOrder();
  }

  /** A sequence ascending in its keys holds each entry at most once. */
  lemma {:induction false} AscendingOnce<K(!new)>(g: seq<(K, int)>, lt: (K, K) -> bool, e: (K, int))
    requires StrictTotalOrder(lt) && StrictlyAscending(g, lt)
    ensures multiset(g)[e] <= 1
  {
    if |g| > 0 {
      AscendingOnce(g[1..], lt, e);
      assert g == [g[0]] + g[1..];
      assert forall j :: 0 <= j < |g[1..]| ==> g[1..][j].0 != g[0].0 by {
        assert forall j :: 0 <= j < |g[1..]| ==> lt(g[0].0, g[1..][j].0);
      }
      assert g[0] !in g[1..];
    }
  }

  /** Two equal entries at different positions count twice. */
  lemma Twice<T>(s: seq<T>, i: nat, j: nat)
    requires i < j < |s|
    ensures s[i] == s[j] ==> multiset(s)[s[i]] >= 2
  {
    assert s == s[..j] + s[j..];
    assert s[i] in s[..j] && s[j] in s[j..];
  }

  /** The ranked list of product totals: its entries are those of the
      ascending totals, reordered. */
  lemma RankedFacts(totals: seq<(string, int)>, ranked: seq<(string, int)>)
    requires StrictlyAscending(totals, LexLess)
    requires Sorted(ranked, RankedBefore) && multiset(ranked) == multiset(totals)
    ensures forall i, j :: 0 <= i < j < |ranked| ==> ranked[i].1 >= ranked[j].1
    ensures forall i, j :: 0 <= i < j < |ranked| ==> ranked[i].0 != ranked[j].0
    ensures forall i :: 0 <= i < |ranked| ==> ranked[i] in totals
    ensures forall e :: e in totals ==> e in ranked
  {
    LexLessIsStrictTotalOrder();
    forall i, j | 0 <= i < j < |ranked| ensures ranked[i].0 != ranked[j].0 {
      assert ranked[i] in multiset(totals) && ranked[j] in multiset(totals);
      var a :| 0 <= a < |totals| && totals[a] == ranked[i];
      var b :| 0 <= b < |totals| && totals[b] == ranked[j];
      Twice(ranked, i, j);
      AscendingOnce(totals, LexLess, ranked[i]);
      assert a != b;
      LexLessIrreflexive(totals[a].0);
    }
    assert forall e :: e in totals <==> e in multiset(totals);
    assert forall e :: e in ranked <==> e in multiset(ranked);
  }

  /** The first `TopCount` entries of a ranking keep its properties; an
      entry left out ranks no higher than the last one kept. */
  lemma TopCut(totals: seq<(string, int)>, ranked: seq<(string, int)>, r: seq<(string, int)>)
    requires StrictlyAscending(totals, LexLess)
    requires Sorted(ranked, RankedBefore) && multiset(ranked) == multiset(totals)
    requires r == if |ranked| <= TopCount then ranked else ranked[..TopCount]
    ensures |r| == if |totals| < TopCount then |totals| else TopCount
    ensures forall i, j :: 0 <= i < j < |r| ==> r[i].1 >= r[j].1
    ensures forall i, j :: 0 <= i < j < |r| ==> r[i].0 != r[j].0
    ensures forall i :: 0 <= i < |r| ==> r[i] in totals
    ensures forall e :: e in totals && e.0 !in Keys(r) ==> |r| == TopCount && e.1 <= r[TopCount - 1].1
  {
    RankedFacts(totals, ranked);
    assert |ranked| == |totals| by {
      assert |multiset(ranked)| == |multiset(totals)|;
    }
    CutOfRanking(totals, ranked, r);
    forall e | e in totals && e.0 !in Keys(r)
      ensures |r| == TopCount && e.1 <= r[TopCount - 1].1
    {
      LeftOutRanksLower(ranked, r, e);
    }
  }

  /** A prefix of a ranking is still ordered by revenue, still free of
      repeated products and still drawn from the totals. */
  lemma CutOfRanking(totals: seq<(string, int)>, ranked: seq<(string, int)>, r: seq<(string, int)>)
    requires |ranked| == |totals|
    requires forall i, j :: 0 <= i < j < |ranked| ==> ranked[i].1 >= ranked[j].1
    requires forall i, j :: 0 <= i < j < |ranked| ==> ranked[i].0 != ranked[j].0
    requires forall i :: 0 <= i < |ranked| ==> ranked[i] in totals
    requires r == if |ranked| <= TopCount then ranked else ranked[..TopCount]
    ensures |r| == if |totals| < TopCount then |totals| else TopCount
    ensures forall i, j :: 0 <= i < j < |r| ==> r[i].1 >= r[j].1
    ensures forall i, j :: 0 <= i < j < |r| ==> r[i].0 != r[j].0
    ensures forall i :: 0 <= i < |r| ==> r[i] in totals
  {
    assert forall i :: 0 <= i < |r| ==> r[i] == ranked[i];
  }

  /** An entry of the ranking missing from its cut lies past the cut, so
      the cut is full and the entry ranks no higher than its last one. */
  lemma LeftOutRanksLower(ranked: seq<(string, int)>, r: seq<(string, int)>, e: (string, int))
    requires Sorted(ranked, RankedBefore)
    requires r == if |ranked| <= TopCount then ranked else ranked[..TopCount]
    requires e in ranked && e.0 !in Keys(r)
    ensures |r| == TopCount && e.1 <= r[TopCount - 1].1
  {
    var p :| 0 <= p < |ranked| && ranked[p] == e;
    if p < |r| {
      assert r[p] == e;
      KeysIndex(r, e.0);
    }
    assert !RankedBefore(ranked[p], ranked[TopCount - 1]);
  }

  /** `sort_values(ascending=False).head(10)` on per-product totals. */
  function TopOf(totals: seq<(string, int)>): (r: seq<(string, int)>)
    requires StrictlyAscending(totals, LexLess)
    ensures |r| == if |totals| < TopCount then |totals| else TopCount
    ensures forall i, j :: 0 <= i < j < |r| ==> r[i].1 >= r[j].1
    ensures forall i, j :: 0 <= i < j < |r| ==> r[i].0 != r[j].0
    ensures forall i :: 0 <= i < |r| ==> r[i] in totals
    ensures forall e :: e in totals && e.0 !in Keys(r) ==> |r| == TopCount && e.1 <= r[TopCount - 1].1
  {
    RankedBeforeIsStrictTotalOrder();
    var ranked := Sort(totals, RankedBefore);
    var r := if |ranked| <= TopCount then ranked else ranked[..TopCount];
    TopCut(totals, ranked, r);
    r
  }

  /** The top-products bar chart: the product totals ranked by revenue,
      cut to the first ten. No product left out earns more than the last
      one shown, and products are left out only when ten are shown. */
  function TopProducts(view: seq<Row>): (r: seq<(string, int)>)
    ensures |r| == if |KeySet(view, ProductNameOf)| < TopCount then |KeySet(view, ProductNameOf)| else TopCount
    ensures forall i, j :: 0 <= i < j < |r| ==> r[i].1 >= r[j].1
    ensures forall i, j :: 0 <= i < j < |r| ==> r[i].0 != r[j].0
    ensures forall i :: 0 <= i < |r| ==>
      r[i].0 in KeySet(view, ProductNameOf) && r[i].1 == RevenueOfKey(view, ProductNameOf, r[i].0)
    ensures forall n :: n in KeySet(view, ProductNameOf) && n !in Keys(r) ==>
      |r| == TopCount && RevenueOfKey(view, ProductNameOf, n) <= r[TopCount - 1].1
  {
    LexLessIsStrictTotalOrder();
    var totals := GroupRevenues(view, ProductNameOf, LexLess);
    var r := TopOf(totals);
    TotalsEntries(view, totals, r);
    r
  }

  lemma TotalsEntries(view: seq<Row>, totals: seq<(string, int)>, r: seq<(string, int)>)
    requires Keys(totals) == KeySet(view, ProductNameOf)
    requires forall i :: 0 <= i < |totals| ==> totals[i].1 == RevenueOfKey(view, ProductNameOf, totals[i].0)
    requires forall i :: 0 <= i < |r| ==> r[i] in totals
    requires forall e :: e in totals && e.0 !in Keys(r) ==> |r| == TopCount && e.1 <= r[TopCount - 1].1
    ensures forall i :: 0 <= i < |r| ==>
      r[i].0 in KeySet(view, ProductNameOf) && r[i].1 == RevenueOfKey(view, ProductNameOf, r[i].0)
    ensures forall n :: n in KeySet(view, ProductNameOf) && n !in Keys(r) ==>
      |r| == TopCount && RevenueOfKey(view, ProductNameOf, n) <= r[TopCount - 1].1
  {
    forall i | 0 <= i < |r|
      ensures r[i].0 in KeySet(view, ProductNameOf) && r[i].1 == RevenueOfKey(view, ProductNameOf, r[i].0)
    {
      var a :| 0 <= a < |totals| && totals[a] == r[i];
      KeysIndex(totals, totals[a].0);
    }
    forall n | n in KeySet(view, ProductNameOf) && n !in Keys(r)
      ensures |r| == TopCount && RevenueOfKey(view, ProductNameOf, n) <= r[TopCount - 1].1
    {
      KeysIndex(totals, n);
      var a :| 0 <= a < |totals| && totals[a].0 == n;
      assert totals[a] in totals;
    }
  }
}
