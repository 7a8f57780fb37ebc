/** The cleaning pass run once at load time (`load_data`): missing payment
    methods, ratings and regions are filled in, in that order, each pass
    touching only its own column. */
module Cleaning {
  import opened Wrappers
  import opened Stats
  import opened Records

  const Unknown: string := "Unknown"

  /* ---------------- payment_method ---------------- */

  /** `df['payment_method'].fillna("Unknown")`. */
  function FillPayment(rows: seq<Row>): (r: seq<Row>)
    ensures |r| == |rows|
    ensures forall i :: 0 <= i < |r| ==> r[i] == rows[i].(payment := r[i].payment)
    ensures forall i :: 0 <= i < |r| ==> r[i].payment.Some?
    ensures forall i :: 0 <= i < |r| && rows[i].payment.Some? ==> r[i].payment == rows[i].payment
    ensures forall i :: 0 <= i < |r| && rows[i].payment.None? ==> r[i].payment == Some(Unknown)
  {
    seq(|rows|, i requires 0 <= i < |rows| => rows[i].(payment := Some(rows[i].payment.GetOr(Unknown))))
  }

  /* ---------------- customer_rating ---------------- */

  /** The non-missing ratings of a table, in row order. */
  function KnownRatings(rows: seq<Row>): seq<int> {
    if |rows| == 0 then []
    else (if rows[0].rating.Some? then [rows[0].rating.value] else []) + KnownRatings(rows[1..])
  }

  /** The rows of one product, in row order. */
  function OfProduct(rows: seq<Row>, pid: string): seq<Row> {
    if |rows| == 0 then []
    else (if rows[0].productId == pid then [rows[0]] else []) + OfProduct(rows[1..], pid)
  }

  /** Entry `pid` of `median_rating_by_product`: the rounded median of the
      product's non-missing ratings, missing when it has none. */
  function ProductMedian(rows: seq<Row>, pid: string): (r: Option<int>)
    ensures r.None? <==> forall i :: 0 <= i < |rows| && rows[i].productId == pid ==> rows[i].rating.None?
  {
    var known := KnownRatings(OfProduct(rows, pid));
    KnownRatingsPresent(OfProduct(rows, pid));
    OfProductMembers(rows, pid);
    if |known| == 0 then None else Some(RoundedMedian(known))
  }

  /** `np.round(df['customer_rating'].median())` over the column as it stands:
      missing when no rating is known. */
  function ColumnMedian(rows: seq<Row>): (r: Option<int>)
    ensures r.None? <==> forall i :: 0 <= i < |rows| ==> rows[i].rating.None?
  {
    var known := KnownRatings(rows);
    KnownRatingsPresent(rows);
    if |known| == 0 then None else Some(RoundedMedian(known))
  }

  /** What the fill loop leaves in row `j`: the row itself with only the
      rating touched; a known rating kept; a missing one replaced by the
      product's median, or else by the median of the column as the loop
      found it: rows before `j` already filled, rows from `j` on as loaded. */
  ghost predicate RatingFilledAt(orig: seq<Row>, r: seq<Row>, j: nat)
    requires |r| == |orig| && j < |orig|
  {
    var pm := ProductMedian(orig, orig[j].productId);
    && r[j] == orig[j].(rating := r[j].rating)
    && (orig[j].rating.Some? ==> r[j].rating == orig[j].rating)
    && (orig[j].rating.None? && pm.Some? ==> r[j].rating == pm)
    && (orig[j].rating.None? && pm.None? ==> r[j].rating == ColumnMedian(r[..j] + orig[j..]))
  }

  /** Row `i` after the loop body has visited it: a known rating is left
      alone; a missing one gets the product's median when there is one,
      else the median of the column `cur` as it stands. */
  function Visit(orig: seq<Row>, cur: seq<Row>, i: nat): Row
    requires i < |orig|
  {
    if orig[i].rating.Some? then
      orig[i]
    else
      var pm := ProductMedian(orig, orig[i].productId);
      orig[i].(rating := if pm.Some? then pm else ColumnMedian(cur))
  }

  /** The loop over the rows whose rating was missing before the loop
      started; `orig` is the table the per-product medians were computed
      from, `cur` the table being filled, `i` the next row to visit. */
  function FillRatingsFrom(orig: seq<Row>, cur: seq<Row>, i: nat): (r: seq<Row>)
    requires |cur| == |orig| && i <= |orig|
    requires cur[i..] == orig[i..]
    ensures |r| == |orig|
    ensures r[..i] == cur[..i]
    ensures forall j :: i <= j < |orig| ==> RatingFilledAt(orig, r, j)
    decreases |orig| - i
  {
    if i == |orig| then
      cur
    else
      var next := cur[i := Visit(orig, cur, i)];
      assert next[i + 1..] == orig[i + 1..];
      var r := FillRatingsFrom(orig, next, i + 1);
      assert r[i] == next[i] && r[..i] == cur[..i] by {
        assert r[..i + 1] == next[..i + 1];
        assert r[..i] == r[..i + 1][..i] && cur[..i] == next[..i + 1][..i];
      }
      FilledFrom(orig, cur, r, i);
      r
  }

  lemma FilledFrom(orig: seq<Row>, cur: seq<Row>, r: seq<Row>, i: nat)
    requires |cur| == |orig| == |r| && i < |orig|
    requires cur[i..] == orig[i..]
    requires r[..i] == cur[..i]
    requires r[i] == Visit(orig, cur, i)
    requires forall j :: i + 1 <= j < |orig| ==> RatingFilledAt(orig, r, j)
    ensures forall j :: i <= j < |orig| ==> RatingFilledAt(orig, r, j)
  {
    FilledHere(orig, cur, r, i);
  }

  /** One step of the loop establishes `RatingFilledAt` for the row it visits. */
  lemma FilledHere(orig: seq<Row>, cur: seq<Row>, r: seq<Row>, i: nat)
    requires |cur| == |orig| == |r| && i < |orig|
    requires cur[i..] == orig[i..]
    requires r[..i] == cur[..i]
    requires r[i] == Visit(orig, cur, i)
    ensures RatingFilledAt(orig, r, i)
  {
    assert cur == r[..i] + orig[i..] by {
      assert cur == cur[..i] + cur[i..];
    }
  }

  /** The rating pass of `load_data`. */
  function FillRatings(rows: seq<Row>): (r: seq<Row>)
    ensures |r| == |rows|
    ensures forall j :: 0 <= j < |rows| ==> RatingFilledAt(rows, r, j)
    ensures forall j :: 0 <= j < |rows| ==> r[j] == rows[j].(rating := r[j].rating)
  {
    var r := FillRatingsFrom(rows, rows, 0);
    assert forall j :: 0 <= j < |rows| ==> r[j] == rows[j].(rating := r[j].rating) by {
      forall j | 0 <= j < |rows| ensures r[j] == rows[j].(rating := r[j].rating) {
        assert RatingFilledAt(rows, r, j);
      }
    }
    r
  }

  lemma {:induction false} KnownRatingsPresent(rows: seq<Row>)
    ensures |KnownRatings(rows)| == 0 <==> forall i :: 0 <= i < |rows| ==> rows[i].rating.None?
  {
    if |rows| > 0 {
      KnownRatingsPresent(rows[1..]);
      assert forall i :: 1 <= i < |rows| ==> rows[i] == rows[1..][i - 1];
    }
  }

  lemma {:induction false} OfProductMembers(rows: seq<Row>, pid: string)
    ensures forall x :: x in OfProduct(rows, pid) <==> x in rows && x.productId == pid
  {
    if |rows| > 0 {
      OfProductMembers(rows[1..], pid);
      assert rows == [rows[0]] + rows[1..];
    }
  }

  /** A rating is left missing only when the whole column was missing: the
      fallback median of an all-NaN column is NaN, and `np.round` keeps it. */
  lemma FillRatingsTotal(rows: seq<Row>)
    ensures forall j :: 0 <= j < |rows| ==>
      (FillRatings(rows)[j].rating.None? <==> forall k :: 0 <= k < |rows| ==> rows[k].rating.None?)
  {
    var r := FillRatings(rows);
    if k :| 0 <= k < |rows| && rows[k].rating.Some? {
      forall j | 0 <= j < |rows| ensures r[j].rating.Some? {
        assert RatingFilledAt(rows, r, j);
        var col := r[..j] + rows[j..];
        if k < j {
          assert RatingFilledAt(rows, r, k);
          assert col[k] == r[k];
        } else {
          assert col[k] == rows[k];
        }
      }
    } else {
      MissingStaysMissing(rows);
    }
  }

  lemma MissingStaysMissing(rows: seq<Row>)
    requires forall k :: 0 <= k < |rows| ==> rows[k].rating.None?
    ensures forall j :: 0 <= j < |rows| ==> FillRatings(rows)[j].rating.None?
  {
    MissingFrom(rows, rows, 0);
  }

  /** The loop over an all-missing column visits only all-missing columns. */
  lemma {:induction false} MissingFrom(orig: seq<Row>, cur: seq<Row>, i: nat)
    requires |cur| == |orig| && i <= |orig| && cur[i..] == orig[i..]
    requires forall k :: 0 <= k < |orig| ==> orig[k].rating.None?
    requires forall k :: 0 <= k < |cur| ==> cur[k].rating.None?
    ensures forall j :: 0 <= j < |orig| ==> FillRatingsFrom(orig, cur, i)[j].rating.None?
    decreases |orig| - i
  {
    if i < |orig| {
      var next := cur[i := Visit(orig, cur, i)];
      assert Visit(orig, cur, i).rating.None?;
      assert next[i + 1..] == orig[i + 1..];
      MissingFrom(orig, next, i + 1);
    }
  }

  /** Every known rating lies in [lo, hi]. */
  ghost predicate RatingsWithin(rows: seq<Row>, lo: int, hi: int) {
    forall i :: 0 <= i < |rows| && rows[i].rating.Some? ==> lo <= rows[i].rating.value <= hi
  }

  lemma {:induction false} KnownRatingsWithin(rows: seq<Row>, lo: int, hi: int)
    requires RatingsWithin(rows, lo, hi)
    ensures forall i :: 0 <= i < |KnownRatings(rows)| ==> lo <= KnownRatings(rows)[i] <= hi
  {
    if |rows| > 0 {
      assert RatingsWithin(rows[1..], lo, hi) by {
        assert forall i :: 1 <= i < |rows| ==> rows[1..][i - 1] == rows[i];
      }
      KnownRatingsWithin(rows[1..], lo, hi);
    }
  }

  /** When every known rating lies in [lo, hi], so does every rating the pass
      fills in (ratings stay in 0..5, say). */
  lemma FillRatingsWithin(rows: seq<Row>, lo: int, hi: int)
    requires RatingsWithin(rows, lo, hi)
    ensures RatingsWithin(FillRatings(rows), lo, hi)
  {
    WithinFrom(rows, rows, 0, lo, hi);
  }

  /** Every step of the loop writes a rating inside [lo, hi]. */
  lemma {:induction false} WithinFrom(orig: seq<Row>, cur: seq<Row>, i: nat, lo: int, hi: int)
    requires |cur| == |orig| && i <= |orig| && cur[i..] == orig[i..]
    requires RatingsWithin(orig, lo, hi) && RatingsWithin(cur, lo, hi)
    ensures RatingsWithin(FillRatingsFrom(orig, cur, i), lo, hi)
    decreases |orig| - i
  {
    if i < |orig| {
      var next := cur[i := Visit(orig, cur, i)];
      VisitWithin(orig, cur, i, lo, hi);
      assert next[i + 1..] == orig[i + 1..];
      WithinFrom(orig, next, i + 1, lo, hi);
    }
  }

  /** One step of the loop writes a rating inside [lo, hi]. */
  lemma VisitWithin(orig: seq<Row>, cur: seq<Row>, i: nat, lo: int, hi: int)
    requires |cur| == |orig| && i < |orig|
    requires RatingsWithin(orig, lo, hi) && RatingsWithin(cur, lo, hi)
    ensures RatingsWithin(cur[i := Visit(orig, cur, i)], lo, hi)
  {
    ProductMedianWithin(orig, orig[i].productId, lo, hi);
    ColumnMedianWithin(cur, lo, hi);
  }

  lemma ColumnMedianWithin(rows: seq<Row>, lo: int, hi: int)
    requires RatingsWithin(rows, lo, hi)
    ensures ColumnMedian(rows).Some? ==> lo <= ColumnMedian(rows).value <= hi
  {
    if ColumnMedian(rows).Some? {
      KnownRatingsWithin(rows, lo, hi);
      MedianWithin(KnownRatings(rows), lo, hi);
    }
  }

  lemma ProductMedianWithin(rows: seq<Row>, pid: string, lo: int, hi: int)
    requires RatingsWithin(rows, lo, hi)
    ensures ProductMedian(rows, pid).Some? ==> lo <= ProductMedian(rows, pid).value <= hi
  {
    OfProductMembers(rows, pid);
    var own := OfProduct(rows, pid);
    assert RatingsWithin(own, lo, hi) by {
      forall i | 0 <= i < |own| && own[i].rating.Some? ensures lo <= own[i].rating.value <= hi {
        assert own[i] in rows;
      }
    }
    ColumnMedianWithin(own, lo, hi);
  }

  /* ---------------- customer_region ---------------- */

  /** The non-missing regions of a table, in row order. */
  function KnownRegions(rows: seq<Row>): seq<string> {
    if |rows| == 0 then []
    else (if rows[0].region.Some? then [rows[0].region.value] else []) + KnownRegions(rows[1..])
  }

  lemma {:induction false} KnownRegionsAppend(a: seq<Row>, b: seq<Row>)
    ensures KnownRegions(a + b) == KnownRegions(a) + KnownRegions(b)
  {
    if |a| > 0 {
      assert (a + b)[1..] == a[1..] + b;
      KnownRegionsAppend(a[1..], b);
    } else {
      assert a + b == b;
    }
  }

  /** The rows of one customer, in row order. */
  function OfCustomer(rows: seq<Row>, cid: string): seq<Row> {
    if |rows| == 0 then []
    else (if rows[0].customerId == cid then [rows[0]] else []) + OfCustomer(rows[1..], cid)
  }

  /** The regions on file for a customer. */
  function CustomerRegions(rows: seq<Row>, cid: string): seq<string> {
    KnownRegions(OfCustomer(rows, cid))
  }

  lemma {:induction false} CustomerRegionsPresent(rows: seq<Row>, cid: string)
    ensures |CustomerRegions(rows, cid)| == 0 <==>
      forall i :: 0 <= i < |rows| && rows[i].customerId == cid ==> rows[i].region.None?
  {
    if |rows| > 0 {
      CustomerRegionsPresent(rows[1..], cid);
      assert forall i :: 1 <= i < |rows| ==> rows[i] == rows[1..][i - 1];
      var head := if rows[0].customerId == cid then [rows[0]] else [];
      KnownRegionsAppend(head, OfCustomer(rows[1..], cid));
    }
  }

  /** Entry `cid` of `region_by_customer`: the most frequent region on file
      for the customer, ties to the smallest; missing when none is on file. */
  function CustomerMode(rows: seq<Row>, cid: string): (r: Option<string>)
    ensures r.None? <==> forall i :: 0 <= i < |rows| && rows[i].customerId == cid ==> rows[i].region.None?
    ensures r.Some? ==> IsMode(CustomerRegions(rows, cid), r.value)
  {
    CustomerRegionsPresent(rows, cid);
    Mode(CustomerRegions(rows, cid))
  }

  /** The region pass of `load_data`; the per-customer modes come from the
      table as it was before any region was filled. */
  function FillRegions(rows: seq<Row>): (r: seq<Row>)
    ensures |r| == |rows|
    ensures forall i :: 0 <= i < |r| ==> r[i] == rows[i].(region := r[i].region)
    ensures forall i :: 0 <= i < |r| ==> r[i].region.Some?
    ensures forall i :: 0 <= i < |r| && rows[i].region.Some? ==> r[i].region == rows[i].region
    ensures forall i :: 0 <= i < |r| && rows[i].region.None? && |CustomerRegions(rows, rows[i].customerId)| > 0 ==>
      IsMode(CustomerRegions(rows, rows[i].customerId), r[i].region.value)
    ensures forall i :: 0 <= i < |r| && rows[i].region.None? && |CustomerRegions(rows, rows[i].customerId)| == 0 ==>
      r[i].region == Some(Unknown)
  {
    seq(|rows|, i requires 0 <= i < |rows| =>
      if rows[i].region.Some? then rows[i]
      else rows[i].(region := Some(CustomerMode(rows, rows[i].customerId).GetOr(Unknown))))
  }

  /* ---------------- the whole pass ---------------- */

  /** `load_data` after parsing: payments, then ratings, then regions. */
  function Clean(raw: seq<Row>): (c: seq<Row>)
    ensures |c| == |raw|
    ensures forall i :: 0 <= i < |c| ==>
      c[i] == raw[i].(payment := c[i].payment, rating := c[i].rating, region := c[i].region)
    ensures forall i :: 0 <= i < |c| ==> c[i].payment.Some? && c[i].region.Some?
    ensures forall i :: 0 <= i < |c| ==>
      (c[i].rating.None? <==> forall k :: 0 <= k < |raw| ==> raw[k].rating.None?)
  {
    var p := FillPayment(raw);
    var q := FillRatings(p);
    var c := FillRegions(q);
    FillRatingsTotal(p);
    OnlyFilledColumnsChange(raw, p, q, c);
    c
  }

  /** The three passes each rewrite one column, so together they rewrite
      only the payment, rating and region columns. */
  lemma OnlyFilledColumnsChange(raw: seq<Row>, p: seq<Row>, q: seq<Row>, c: seq<Row>)
    requires |p| == |raw| && |q| == |p| && |c| == |q|
    requires forall i :: 0 <= i < |p| ==> p[i] == raw[i].(payment := p[i].payment)
    requires forall i :: 0 <= i < |q| ==> q[i] == p[i].(rating := q[i].rating)
    requires forall i :: 0 <= i < |c| ==> c[i] == q[i].(region := c[i].region)
    ensures forall i :: 0 <= i < |c| ==>
      c[i] == raw[i].(payment := c[i].payment, rating := c[i].rating, region := c[i].region)
  {
    forall i | 0 <= i < |c|
      ensures c[i] == raw[i].(payment := c[i].payment, rating := c[i].rating, region := c[i].region)
    {
      assert c[i] == q[i].(region := c[i].region);
      assert q[i] == p[i].(rating := q[i].rating);
      assert p[i] == raw[i].(payment := p[i].payment);
    }
  }

  /** `load_data`: the cleaned table, or the empty table when reading or
      parsing the file failed (`read` is missing). */
  function LoadData(read: Option<seq<Row>>): (df: seq<Row>)
    ensures read.None? ==> df == []
    ensures read.Some? ==> |df| == |read.value|
    ensures read.Some? ==> forall i :: 0 <= i < |df| ==>
      df[i] == read.value[i].(payment := df[i].payment, rating := df[i].rating, region := df[i].region)
    ensures forall i :: 0 <= i < |df| ==> df[i].payment.Some? && df[i].region.Some?
    ensures read.Some? ==> forall i :: 0 <= i < |df| ==>
      (df[i].rating.None? <==> forall k :: 0 <= k < |read.value| ==> read.value[k].rating.None?)
    ensures read.Some? ==> df == Clean(read.value)
  {
    if read.None? then [] else Clean(read.value)
  }

  lemma FillPaymentNoOp(rows: seq<Row>)
    requires forall i :: 0 <= i < |rows| ==> rows[i].payment.Some?
    ensures FillPayment(rows) == rows
  {
  }

  lemma FillRegionsNoOp(rows: seq<Row>)
    requires forall i :: 0 <= i < |rows| ==> rows[i].region.Some?
    ensures FillRegions(rows) == rows
  {
  }

  /** A column with no gaps, or with nothing but gaps, comes out of the
      rating pass unchanged. */
  lemma FillRatingsNoOp(rows: seq<Row>)
    requires (forall i :: 0 <= i < |rows| ==> rows[i].rating.Some?)
          || (forall i :: 0 <= i < |rows| ==> rows[i].rating.None?)
    ensures FillRatings(rows) == rows
  {
    var r := FillRatings(rows);
    FillRatingsTotal(rows);
    forall j | 0 <= j < |rows| ensures r[j] == rows[j] {
      assert RatingFilledAt(rows, r, j);
    }
  }

  /** Cleaning a clean table changes nothing. */
  lemma CleanIdempotent(raw: seq<Row>)
    ensures Clean(Clean(raw)) == Clean(raw)
  {
    var c := Clean(raw);
    FillPaymentNoOp(c);
    FillRatingsNoOp(c);
    FillRegionsNoOp(c);
  }

  /* The three passes touch disjoint columns, so each column of the cleaned
     table is what its own pass would make of the raw table. */

  ghost predicate SameRatingColumns(a: seq<Row>, b: seq<Row>) {
    |a| == |b| && forall i :: 0 <= i < |a| ==> a[i].productId == b[i].productId && a[i].rating == b[i].rating
  }

  ghost predicate SameRegionColumns(a: seq<Row>, b: seq<Row>) {
    |a| == |b| && forall i :: 0 <= i < |a| ==> a[i].customerId == b[i].customerId && a[i].region == b[i].region
  }

  lemma {:induction false} KnownRatingsOfSameColumns(a: seq<Row>, b: seq<Row>)
    requires |a| == |b| && forall i :: 0 <= i < |a| ==> a[i].rating == b[i].rating
    ensures KnownRatings(a) == KnownRatings(b)
  {
    if |a| > 0 {
      KnownRatingsOfSameColumns(a[1..], b[1..]);
    }
  }

  lemma {:induction false} ProductRatingsOfSameColumns(a: seq<Row>, b: seq<Row>, pid: string)
    requires SameRatingColumns(a, b)
    ensures KnownRatings(OfProduct(a, pid)) == KnownRatings(OfProduct(b, pid))
  {
    if |a| > 0 {
      assert SameRatingColumns(a[1..], b[1..]);
      ProductRatingsOfSameColumns(a[1..], b[1..], pid);
      var ha := if a[0].productId == pid then [a[0]] else [];
      var hb := if b[0].productId == pid then [b[0]] else [];
      KnownRatingsAppend(ha, OfProduct(a[1..], pid));
      KnownRatingsAppend(hb, OfProduct(b[1..], pid));
      KnownRatingsOfSameColumns(ha, hb);
    }
  }

  lemma {:induction false} KnownRatingsAppend(a: seq<Row>, b: seq<Row>)
    ensures KnownRatings(a + b) == KnownRatings(a) + KnownRatings(b)
  {
    if |a| > 0 {
      assert (a + b)[1..] == a[1..] + b;
      KnownRatingsAppend(a[1..], b);
    } else {
      assert a + b == b;
    }
  }

  lemma KnownRatingsSplit(rows: seq<Row>, k: nat)
    requires k <= |rows|
    ensures KnownRatings(rows) == KnownRatings(rows[..k]) + KnownRatings(rows[k..])
  {
    assert rows == rows[..k] + rows[k..];
    KnownRatingsAppend(rows[..k], rows[k..]);
  }

  /** The rating pass reads only the product and rating columns. */
  lemma FillRatingsReadsRatingColumns(a: seq<Row>, b: seq<Row>)
    requires SameRatingColumns(a, b)
    ensures forall j :: 0 <= j < |a| ==> FillRatings(a)[j].rating == FillRatings(b)[j].rating
  {
    SameFillsFrom(a, b, a, b, 0);
  }

  /** Two runs of the loop over tables with the same product and rating
      columns keep the same rating columns. */
  lemma {:induction false} SameFillsFrom(a: seq<Row>, b: seq<Row>, ca: seq<Row>, cb: seq<Row>, i: nat)
    requires SameRatingColumns(a, b) && SameRatingColumns(ca, cb)
    requires |ca| == |a| && i <= |a|
    requires ca[i..] == a[i..] && cb[i..] == b[i..]
    ensures SameRatingColumns(FillRatingsFrom(a, ca, i), FillRatingsFrom(b, cb, i))
    decreases |a| - i
  {
    if i < |a| {
      var na, nb := ca[i := Visit(a, ca, i)], cb[i := Visit(b, cb, i)];
      SameVisit(a, b, ca, cb, i);
      assert SameRatingColumns(na, nb);
      assert na[i + 1..] == a[i + 1..] && nb[i + 1..] == b[i + 1..];
      SameFillsFrom(a, b, na, nb, i + 1);
    }
  }

  /** One step of the loop gives the same rating in both tables. */
  lemma SameVisit(a: seq<Row>, b: seq<Row>, ca: seq<Row>, cb: seq<Row>, i: nat)
    requires |ca| == |a| && |cb| == |b| && i < |a|
    requires SameRatingColumns(a, b) && SameRatingColumns(ca, cb)
    ensures Visit(a, ca, i).productId == Visit(b, cb, i).productId
    ensures Visit(a, ca, i).rating == Visit(b, cb, i).rating
  {
    ProductRatingsOfSameColumns(a, b, a[i].productId);
    KnownRatingsOfSameColumns(ca, cb);
  }

  lemma {:induction false} CustomerRegionsOfSameColumns(a: seq<Row>, b: seq<Row>, cid: string)
    requires SameRegionColumns(a, b)
    ensures CustomerRegions(a, cid) == CustomerRegions(b, cid)
  {
    if |a| > 0 {
      assert SameRegionColumns(a[1..], b[1..]);
      CustomerRegionsOfSameColumns(a[1..], b[1..], cid);
      var ha := if a[0].customerId == cid then [a[0]] else [];
      var hb := if b[0].customerId == cid then [b[0]] else [];
      KnownRegionsAppend(ha, OfCustomer(a[1..], cid));
      KnownRegionsAppend(hb, OfCustomer(b[1..], cid));
    }
  }

  /** Each column of the cleaned table is its own pass applied to the raw
      table: the payment, rating and region passes do not interfere. */
  lemma CleanColumns(raw: seq<Row>)
    ensures forall i :: 0 <= i < |raw| ==>
      && Clean(raw)[i].payment == FillPayment(raw)[i].payment
      && Clean(raw)[i].rating == FillRatings(raw)[i].rating
      && Clean(raw)[i].region == FillRegions(raw)[i].region
  {
    var p := FillPayment(raw);
    var q := FillRatings(p);
    var c := FillRegions(q);
    assert SameRatingColumns(p, raw);
    FillRatingsReadsRatingColumns(p, raw);
    assert SameRegionColumns(q, raw);
    forall i | 0 <= i < |raw| ensures c[i].region == FillRegions(raw)[i].region {
      CustomerRegionsOfSameColumns(q, raw, raw[i].customerId);
    }
  }

  /* ---------------- the fallback median, once or per row ---------------- */

  /** Number of rows whose rating is missing. */
  function MissingRatings(rows: seq<Row>): nat {
    if |rows| == 0 then 0 else (if rows[0].rating.None? then 1 else 0) + MissingRatings(rows[1..])
  }

  /** `a` is `b` with every missing rating replaced by `m`. */
  ghost predicate GapsFilledWith(a: seq<Row>, b: seq<Row>, m: int) {
    && |a| == |b|
    && (forall i :: 0 <= i < |a| && b[i].rating.Some? ==> a[i].rating == b[i].rating)
    && (forall i :: 0 <= i < |a| && b[i].rating.None? ==> a[i].rating == Some(m))
  }

  lemma {:induction false} KnownRatingsGapsFilled(a: seq<Row>, b: seq<Row>, m: int)
    requires GapsFilledWith(a, b, m)
    ensures multiset(KnownRatings(a)) == multiset(KnownRatings(b)) + multiset(Copies(m, MissingRatings(b)))
  {
    if |a| > 0 {
      GapsFilledTail(a, b, m);
      KnownRatingsGapsFilled(a[1..], b[1..], m);
      if b[0].rating.None? {
        GapsStepMissing(a, b, m);
      } else {
        GapsStepKnown(a, b, m);
      }
    }
  }

  /** A gap at the head adds one `m` on both sides. */
  lemma GapsStepMissing(a: seq<Row>, b: seq<Row>, m: int)
    requires |a| > 0 && |b| > 0 && b[0].rating.None? && a[0].rating == Some(m)
    requires multiset(KnownRatings(a[1..]))
          == multiset(KnownRatings(b[1..])) + multiset(Copies(m, MissingRatings(b[1..])))
    ensures multiset(KnownRatings(a)) == multiset(KnownRatings(b)) + multiset(Copies(m, MissingRatings(b)))
  {
    var ka, kb := KnownRatings(a[1..]), KnownRatings(b[1..]);
    var c := Copies(m, MissingRatings(b[1..]));
    ConsSnocMultiset(m, ka, kb, c);
    KnownRatingsGapAtHead(a, b, m);
    CopiesOneMore(m, MissingRatings(b[1..]), MissingRatings(b));
  }

  lemma KnownRatingsGapAtHead(a: seq<Row>, b: seq<Row>, m: int)
    requires |a| > 0 && |b| > 0 && b[0].rating.None? && a[0].rating == Some(m)
    ensures KnownRatings(a) == [m] + KnownRatings(a[1..])
    ensures KnownRatings(b) == KnownRatings(b[1..])
    ensures MissingRatings(b) == MissingRatings(b[1..]) + 1
  {
  }

  lemma CopiesOneMore(m: int, n: nat, n1: nat)
    requires n1 == n + 1
    ensures Copies(m, n1) == Copies(m, n) + [m]
  {
  }

  lemma ConsSnocMultiset(m: int, ka: seq<int>, kb: seq<int>, c: seq<int>)
    requires multiset(ka) == multiset(kb) + multiset(c)
    ensures multiset([m] + ka) == multiset(kb) + multiset(c + [m])
  {
  }

  /** A known rating at the head appears on both sides. */
  lemma GapsStepKnown(a: seq<Row>, b: seq<Row>, m: int)
    requires |a| > 0 && |b| > 0 && b[0].rating.Some? && a[0].rating == b[0].rating
    requires multiset(KnownRatings(a[1..]))
          == multiset(KnownRatings(b[1..])) + multiset(Copies(m, MissingRatings(b[1..])))
    ensures multiset(KnownRatings(a)) == multiset(KnownRatings(b)) + multiset(Copies(m, MissingRatings(b)))
  {
    var v := b[0].rating.value;
    var ka, kb := KnownRatings(a[1..]), KnownRatings(b[1..]);
    assert KnownRatings(a) == [v] + ka;
    assert KnownRatings(b) == [v] + kb;
    assert MissingRatings(b) == MissingRatings(b[1..]);
    assert multiset([v] + ka) == multiset{v} + multiset(ka);
    assert multiset([v] + kb) == multiset{v} + multiset(kb);
  }

  lemma GapsFilledTail(a: seq<Row>, b: seq<Row>, m: int)
    requires GapsFilledWith(a, b, m) && |a| > 0
    ensures GapsFilledWith(a[1..], b[1..], m)
    ensures b[0].rating.Some? ==> a[0].rating == b[0].rating
    ensures b[0].rating.None? ==> a[0].rating == Some(m)
  {
  }

  lemma NoProductFillPrefix(rows: seq<Row>, n: nat, k: nat)
    requires k <= n <= |rows|
    requires forall i :: 0 <= i < n && rows[i].rating.None? ==> ProductMedian(rows, rows[i].productId).None?
    ensures forall i :: 0 <= i < k && rows[i].rating.None? ==> ProductMedian(rows, rows[i].productId).None?
  {
  }

  /** The row the loop visits next gets `m` when every earlier gap got `m`
      and its product has no rating. */
  lemma FallbackStep(rows: seq<Row>, r: seq<Row>, k: nat, m: int)
    requires |r| == |rows| && k < |rows|
    requires |KnownRatings(rows)| > 0 && m == RoundedMedian(KnownRatings(rows))
    requires rows[k].rating.None? && ProductMedian(rows, rows[k].productId).None?
    requires RatingFilledAt(rows, r, k)
    requires GapsFilledWith(r[..k], rows[..k], m)
    ensures r[k].rating == Some(m)
  {
    ColumnMedianSoFar(rows, r, k, m);
  }

  /** When every gap before row `k` got `m`, the fallback median at row `k`
      is still `m`. */
  lemma ColumnMedianSoFar(rows: seq<Row>, r: seq<Row>, k: nat, m: int)
    requires |r| == |rows| && k <= |rows|
    requires |KnownRatings(rows)| > 0 && m == RoundedMedian(KnownRatings(rows))
    requires GapsFilledWith(r[..k], rows[..k], m)
    ensures ColumnMedian(r[..k] + rows[k..]) == Some(m)
  {
    var col := r[..k] + rows[k..];
    KnownOfPartlyFilled(rows, r, k, m);
    MedianWithCopies(KnownRatings(rows), KnownRatings(col), MissingRatings(rows[..k]));
  }

  /** The known ratings of the partly filled column: those loaded plus one
      `m` per gap filled so far. */
  lemma KnownOfPartlyFilled(rows: seq<Row>, r: seq<Row>, k: nat, m: int)
    requires |r| == |rows| && k <= |rows|
    requires GapsFilledWith(r[..k], rows[..k], m)
    ensures multiset(KnownRatings(r[..k] + rows[k..]))
         == multiset(KnownRatings(rows)) + multiset(Copies(m, MissingRatings(rows[..k])))
  {
    var copies := multiset(Copies(m, MissingRatings(rows[..k])));
    var head, tail := KnownRatings(r[..k]), KnownRatings(rows[k..]);
    KnownRatingsGapsFilled(r[..k], rows[..k], m);
    KnownRatingsAppend(r[..k], rows[k..]);
    KnownRatingsSplit(rows, k);
    assert multiset(KnownRatings(rows)) == multiset(KnownRatings(rows[..k])) + multiset(tail);
  }

  /** The already visited part of the column, when every gap so far got `m`. */
  lemma ColumnSoFar(rows: seq<Row>, r: seq<Row>, k: nat, m: int)
    requires r == FillRatings(rows) && k <= |rows|
    requires forall i :: 0 <= i < k && rows[i].rating.None? ==> r[i].rating == Some(m)
    ensures GapsFilledWith(r[..k], rows[..k], m)
  {
    forall i | 0 <= i < k && rows[i].rating.Some? ensures r[i].rating == rows[i].rating {
      assert RatingFilledAt(rows, r, i);
    }
  }

  /** The code recomputes the fallback median inside the loop, over the
      partly filled column. Under the hypothesis that no missing rating before
      row `j` was filled from its product's median, the fallback at row `j`
      equals the rounded median of the column as loaded, as if it had been
      computed once before the loop. */
  lemma {:induction false} FallbackIsLoadedMedian(rows: seq<Row>, j: nat)
    requires j < |rows|
    requires |KnownRatings(rows)| > 0
    requires rows[j].rating.None? && ProductMedian(rows, rows[j].productId).None?
    requires forall k :: 0 <= k < j && rows[k].rating.None? ==> ProductMedian(rows, rows[k].productId).None?
    ensures FillRatings(rows)[j].rating == Some(RoundedMedian(KnownRatings(rows)))
  {
    var r := FillRatings(rows);
    var m := RoundedMedian(KnownRatings(rows));
    forall k | 0 <= k < j && rows[k].rating.None? ensures r[k].rating == Some(m) {
      NoProductFillPrefix(rows, j, k);
      FallbackIsLoadedMedian(rows, k);
    }
    ColumnSoFar(rows, r, j, m);
    FallbackStep(rows, r, j, m);
  }
}
