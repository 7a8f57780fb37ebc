/** The filter block shared by `update_dashboard` and `export_data`: a date
    range, a region selection and a category selection, each applied only
    when given, as successive boolean masks. */
module Filtering {
  import opened Wrappers
  import opened Records

  /** The dashboard's filter inputs. A missing bound disables the date
      filter; a missing or empty selection does not restrict. */
  datatype Filter = Filter(
    start: Option<Date>,
    end: Option<Date>,
    regions: Option<set<string>>,
    categories: Option<set<string>>)

  const NoFilter: Filter := Filter(None, None, None, None)

  predicate DateActive(f: Filter) {
    f.start.Some? && f.end.Some?
  }

  predicate RegionsActive(f: Filter) {
    f.regions.Some? && |f.regions.value| > 0
  }

  predicate CategoriesActive(f: Filter) {
    f.categories.Some? && |f.categories.value| > 0
  }

  /** `start <= order_date <= end`, both ends included. */
  predicate InDateRange(f: Filter, r: Row)
    requires DateActive(f)
  {
    DateLe(f.start.value, r.orderDate) && DateLe(r.orderDate, f.end.value)
  }

  /** `customer_region.isin(selected)`; a missing region is never in it. */
  predicate InRegions(f: Filter, r: Row)
    requires RegionsActive(f)
  {
    r.region.Some? && r.region.value in f.regions.value
  }

  predicate InCategories(f: Filter, r: Row)
    requires CategoriesActive(f)
  {
    r.category in f.categories.value
  }

  /** The conjunction of the active predicates. */
  predicate Keeps(f: Filter, r: Row) {
    && (DateActive(f) ==> InDateRange(f, r))
    && (RegionsActive(f) ==> InRegions(f, r))
    && (CategoriesActive(f) ==> InCategories(f, r))
  }

  /** `a` can be obtained from `b` by deleting elements. */
  ghost predicate IsSubsequence<T>(a: seq<T>, b: seq<T>)
    decreases |b|
  {
    |a| == 0 || (|b| > 0 && ((a[0] == b[0] && IsSubsequence(a[1..], b[1..])) || IsSubsequence(a, b[1..])))
  }

  /** `df[mask]`: the rows satisfying `p`, in their original order. */
  function Where(rows: seq<Row>, p: Row -> bool): (r: seq<Row>)
    ensures IsSubsequence(r, rows)
    ensures forall x :: multiset(r)[x] == if p(x) then multiset(rows)[x] else 0
    ensures forall x :: x in r <==> x in rows && p(x)
  {
    if |rows| == 0 then
      []
    else
      var rest := Where(rows[1..], p);
      assert rows == [rows[0]] + rows[1..];
      if p(rows[0]) then
        assert ([rows[0]] + rest)[1..] == rest;
        [rows[0]] + rest
      else
        rest
  }

  lemma {:induction false} WhereTwice(rows: seq<Row>, p: Row -> bool, q: Row -> bool)
    ensures Where(Where(rows, p), q) == Where(rows, x => p(x) && q(x))
  {
    if |rows| > 0 {
      WhereTwice(rows[1..], p, q);
      if p(rows[0]) {
        assert Where(rows, p)[1..] == Where(rows[1..], p);
      }
    }
  }

  lemma {:induction false} WhereSame(rows: seq<Row>, p: Row -> bool, q: Row -> bool)
    requires forall x :: x in rows ==> p(x) == q(x)
    ensures Where(rows, p) == Where(rows, q)
  {
    if |rows| > 0 {
      assert forall x :: x in rows[1..] ==> x in rows;
      WhereSame(rows[1..], p, q);
    }
  }

  lemma {:induction false} WhereAll(rows: seq<Row>, p: Row -> bool)
    requires forall x :: x in rows ==> p(x)
    ensures Where(rows, p) == rows
  {
    if |rows| > 0 {
      assert forall x :: x in rows[1..] ==> x in rows;
      WhereAll(rows[1..], p);
      assert rows == [rows[0]] + rows[1..];
    }
  }

  /** The filter block: date mask, then region mask, then category mask,
      each only when its input is given. */
  function ApplyFilter(f: Filter, rows: seq<Row>): (r: seq<Row>)
    ensures IsSubsequence(r, rows)
    ensures forall x :: multiset(r)[x] == if Keeps(f, x) then multiset(rows)[x] else 0
    ensures forall x :: x in r <==> x in rows && Keeps(f, x)
  {
    var byDate := if DateActive(f) then Where(rows, x => InDateRange(f, x)) else rows;
    var byRegion := if RegionsActive(f) then Where(byDate, x => InRegions(f, x)) else byDate;
    var r := if CategoriesActive(f) then Where(byRegion, x => InCategories(f, x)) else byRegion;
    ApplyFilterIsOnePass(f, rows);
    r
  }

  /** The three masks in sequence select the same rows as one mask testing
      the conjunction. */
  lemma ApplyFilterIsOnePass(f: Filter, rows: seq<Row>)
    ensures (var byDate := if DateActive(f) then Where(rows, x => InDateRange(f, x)) else rows;
             var byRegion := if RegionsActive(f) then Where(byDate, x => InRegions(f, x)) else byDate;
             if CategoriesActive(f) then Where(byRegion, x => InCategories(f, x)) else byRegion)
            == Where(rows, x => Keeps(f, x))
  {
    var d := (x: Row) => DateActive(f) ==> InDateRange(f, x);
    var g := (x: Row) => RegionsActive(f) ==> InRegions(f, x);
    var c := (x: Row) => CategoriesActive(f) ==> InCategories(f, x);
    var byDate := if DateActive(f) then Where(rows, x => InDateRange(f, x)) else rows;
    assert byDate == Where(rows, d) by {
      if DateActive(f) {
        WhereSame(rows, x => InDateRange(f, x), d);
      } else {
        WhereAll(rows, d);
      }
    }
    var byRegion := if RegionsActive(f) then Where(byDate, x => InRegions(f, x)) else byDate;
    assert byRegion == Where(byDate, g) by {
      if RegionsActive(f) {
        WhereSame(byDate, x => InRegions(f, x), g);
      } else {
        WhereAll(byDate, g);
      }
    }
    var r := if CategoriesActive(f) then Where(byRegion, x => InCategories(f, x)) else byRegion;
    assert r == Where(byRegion, c) by {
      if CategoriesActive(f) {
        WhereSame(byRegion, x => InCategories(f, x), c);
      } else {
        WhereAll(byRegion, c);
      }
    }
    WhereTwice(rows, d, g);
    WhereTwice(rows, x => d(x) && g(x), c);
    WhereSame(rows, x => (x => d(x) && g(x))(x) && c(x), x => Keeps(f, x));
  }

  /** With no input given, or only empty selections, every row is kept. */
  lemma InactiveFilterKeepsAll(f: Filter, rows: seq<Row>)
    requires !DateActive(f) && !RegionsActive(f) && !CategoriesActive(f)
    ensures ApplyFilter(f, rows) == rows
  {
    ApplyFilterIsOnePass(f, rows);
    WhereAll(rows, x => Keeps(f, x));
  }

  /** Both ends of the date range are included. */
  lemma DateBoundsIncluded(f: Filter, r: Row)
    requires DateActive(f) && DateLe(f.start.value, f.end.value)
    requires r.orderDate == f.start.value || r.orderDate == f.end.value
    ensures InDateRange(f, r)
  {
  }

  lemma {:induction false} WhereRevenue(rows: seq<Row>, p: Row -> bool)
    requires forall i :: 0 <= i < |rows| ==> rows[i].amount >= 0
    ensures Revenue(Where(rows, p)) <= Revenue(rows)
  {
    if |rows| > 0 {
      WhereRevenue(rows[1..], p);
      if p(rows[0]) {
        assert Where(rows, p)[1..] == Where(rows[1..], p);
      }
    }
  }

  /** With non-negative amounts, filtering never increases revenue. */
  lemma FilteredRevenueBounded(f: Filter, rows: seq<Row>)
    requires forall i :: 0 <= i < |rows| ==> rows[i].amount >= 0
    ensures Revenue(ApplyFilter(f, rows)) <= Revenue(rows)
  {
    ApplyFilterIsOnePass(f, rows);
    WhereRevenue(rows, x => Keeps(f, x));
  }
}
