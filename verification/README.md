# SwiftShop sales dashboard — a Dafny model of its data core

The dashboard (`app.py`) loads a table of order lines, repairs its missing
cells once at start-up, and then, on every change of the filter inputs,
recomputes four figures, three summary cards and a data table from the rows
that pass the filter; an export button hands out the same rows as a CSV.

This project models that core as pure functions over an immutable table:

- `Records` — one order line (`Row`): order id, date, product id and name,
  category, amount (in cents), customer id, and the three cells that may be
  missing in the file (region, rating, payment method) as options; the
  calendar order of dates and months; the column accessors; and the table's
  revenue, the sum of `total_amount` shown as total sales.
- `Cleaning` — `load_data`: payment methods default to `"Unknown"`; a missing
  rating takes its product's rounded median, else the rounded median of the
  rating column as the fill loop has left it so far; a missing region takes
  the customer's most frequent region, else `"Unknown"`; a table that cannot
  be read becomes a frame without columns, modelled as the empty table.
- `Stats` — median with numpy's half-to-even rounding, and the pandas mode
  (most frequent, ties to the smallest value).
- `Filtering` — the date/region/category masks of both callbacks.
- `Grouping`, `Sorting`, `Orders` — `groupby(...).sum()` with sorted keys,
  insertion sort over any strict total order, and the integer and string
  orders.
- `Aggregates` — average order value, average rating, revenue by month and
  by category, the rating histogram, and the top ten products with their
  ranking order (higher revenue first, then name).
- `Dashboard` — `update_dashboard` (including the empty-result branch) and
  `export_data`.
- `Scenarios` — worked examples on small concrete tables.

The comment at `app.py:168` ("use overall median") suggests one median of the
whole rating column, taken from the data as loaded; the code recomputes that
median inside the fill loop, on the column it is filling (`app.py:169`). So a missing rating whose product
has no rating at all gets the median of the known ratings plus the gaps
already filled before it. `Cleaning.FillRatings` models the loop as written.
`Cleaning.FallbackIsLoadedMedian` gives the condition under which the two
readings agree. `Scenarios.FallbackDependsOnRowOrder` shows a table where
they differ: the same four rows, in two orders, give the same product
different ratings.

## Model

| member | source | states |
|---|---|---|
| Cleaning.FillPayment | app.py:160 | every missing payment method becomes "Unknown", every present one is kept, and no other cell of any row changes |
| Cleaning.FillPaymentNoOp | app.py:160 | on a table with no missing payment method the pass changes nothing |
| Stats.TwiceMedian | app.py:162 | twice the median is the sum of the sample's elements of rank (n-1)/2 and n/2, where an element's rank is read off by counting the elements below it, without sorting |
| Stats.RoundedMedian | app.py:169 | the rounded median is within one half of that median, and a tie goes to the even neighbour |
| Stats.OrderStatUnique | app.py:162 | each rank is held by exactly one value, so the counting description determines the median |
| Stats.HalfRoundEven | app.py:162 | the result is within one half of the exact half-value, and an exact tie goes to the even neighbour (numpy rounding) |
| Stats.MedianPermutation | app.py:162 | the median depends only on which ratings occur and how often, not on their row order |
| Stats.MedianWithin | app.py:162 | the rounded median lies between any lower and upper bound of the ratings |
| Stats.MedianOfConstant | app.py:162 | when every rating is the same value, the rounded median is that value |
| Stats.MedianFixedPoint | app.py:169 | adding one rating equal to the rounded median does not change the rounded median |
| Stats.MedianWithCopies | app.py:163-169 | adding any number of ratings equal to the rounded median does not change it |
| Cleaning.ProductMedian | app.py:162 | a product's median is missing exactly when none of its rows has a rating |
| Cleaning.ColumnMedian | app.py:169 | the column median is missing exactly when no row has a rating |
| Cleaning.FillRatingsFrom | app.py:163-169 | running the loop from row i leaves rows before i alone, and every later row satisfies the per-row fill rule |
| Cleaning.FillRatings | app.py:163-169 | per row: a known rating is kept; a missing one gets its product's median if the product has a rating; otherwise the median of the column with earlier rows as filled and later rows as loaded; only the rating cell changes |
| Cleaning.FillRatingsTotal | app.py:163-169 | after the loop a rating is missing exactly when the whole column was missing (rounding a missing median leaves it missing) |
| Cleaning.MissingStaysMissing | app.py:169 | when no row has a rating, no row gets one |
| Cleaning.FillRatingsWithin | app.py:162-169 | if every known rating lies in [lo, hi], every rating after the fill lies in [lo, hi] |
| Cleaning.ProductMedianWithin | app.py:162 | a product median lies within the bounds of the table's ratings |
| Cleaning.ColumnMedianWithin | app.py:169 | the column median lies within the bounds of the table's ratings |
| Cleaning.FillRatingsReadsRatingColumns | app.py:162-169 | two tables with the same product ids and ratings get the same ratings: the fill reads nothing else |
| Cleaning.FillRatingsNoOp | app.py:163-169 | on a table with no missing rating the loop changes nothing |
| Cleaning.FallbackIsLoadedMedian | app.py:163-169 | if no gap before row j was filled from a product median, the fallback at row j equals the median of the ratings as loaded |
| Stats.MostFrequent | app.py:173 | the chosen candidate occurs at least as often as every other candidate, and no equally frequent candidate is smaller |
| Stats.Mode | app.py:173 | the mode is missing exactly when there is no value; otherwise it is a most frequent value and the smallest such |
| Stats.ModeCharacterized | app.py:173 | a value is the mode if and only if it is most frequent and smallest among the most frequent: the mode is unique |
| Cleaning.CustomerMode | app.py:173 | a customer's region is missing exactly when none of the customer's rows has one, and otherwise is the mode of the customer's regions |
| Cleaning.FillRegions | app.py:173-179 | every row ends with a region; a present region is kept; a missing one becomes the customer's mode from the table before filling, or "Unknown" when the customer has none; only the region cell changes |
| Cleaning.FillRegionsNoOp | app.py:174-179 | on a table with no missing region the pass changes nothing |
| Cleaning.Clean | app.py:160-179 | cleaning keeps the number of rows, touches only payment, rating and region, leaves no payment or region missing, and leaves a rating missing only when the whole column was missing |
| Cleaning.CleanColumns | app.py:160-179 | each cleaned column equals what its own pass makes of the raw table: the three passes do not interfere |
| Cleaning.CleanIdempotent | app.py:160-179 | cleaning an already cleaned table changes nothing |
| Cleaning.LoadData | app.py:147-184 | a table that cannot be read gives the empty table; otherwise the result is the cleaned table: every row is kept with all cells but payment, rating and region unchanged, every row has a payment method and a region, and a rating is missing only when the whole column was missing |
| Records.RevenueAppend | app.py:483 | total sales over a table split in two is the sum of the two parts' totals |
| Filtering.Where | app.py:425-432 | a mask keeps exactly the rows satisfying its predicate, each as often as in the table, in table order |
| Filtering.WhereTwice | app.py:424-432 | applying two masks in turn equals applying the mask of their conjunction |
| Filtering.ApplyFilter | app.py:424-432 | the filtered table is an order-preserving sub-table holding exactly the rows every active input accepts |
| Filtering.ApplyFilterIsOnePass | app.py:424-432 | the three conditional masks select the same rows as one mask testing the conjunction of the active inputs |
| Filtering.InactiveFilterKeepsAll | app.py:424-432 | without both dates, and with no or empty selections, every row is kept |
| Filtering.DateBoundsIncluded | app.py:425-426 | rows dated on the start or the end date pass the date filter |
| Filtering.FilteredRevenueBounded | app.py:424-432 | with non-negative amounts, the filtered revenue never exceeds the table's revenue |
| Sorting.Sort | app.py:547 | the result is sorted and is a permutation of the input |
| Sorting.SortedUnique | app.py:162 | two sorted permutations of the same values are equal |
| Grouping.GroupSum | app.py:491 | one entry per distinct key, keys strictly ascending, each entry the sum of its key's amounts, entries summing to the total |
| Aggregates.GroupRevenues | app.py:491 | per-key revenue: keys are the distinct column values in ascending order, each entry is the revenue of the sub-table with that key, and the entries add up to the table's revenue |
| Aggregates.MonthlyRevenue | app.py:491-492 | months in chronological order, each once, each with its own revenue, adding up to the total revenue |
| Aggregates.CategoryRevenue | app.py:522 | each category once, with its own revenue, adding up to the total revenue |
| Aggregates.AvgOrderValue | app.py:484 | the average order value times the number of distinct order ids equals the total revenue |
| Aggregates.AvgRating | app.py:487-488 | the average rating is missing exactly when no rating is positive; otherwise it times the number of positive ratings equals their sum, and it is at least 1 |
| Aggregates.AvgRatingAtMost | app.py:487-488 | if no counted rating exceeds hi, the average does not exceed hi |
| Aggregates.RatedValuesMultiplicity | app.py:535 | a positive rating occurs among the counted ratings as often as rows carry it |
| Aggregates.RatingCounts | app.py:535 | ratings ascending; a rating is listed exactly when it is positive and some row carries it; its count is the number of rows rated so; counts add up to the number of counted ratings |
| Aggregates.RankedBeforeIsStrictTotalOrder | app.py:547 | the top-products ranking (higher revenue first, then name) is a strict total order |
| Aggregates.TopOf | app.py:547 | at most ten entries, revenues non-increasing, names distinct, each entry one of the totals, and no total left out exceeds the last one shown |
| Aggregates.TopProducts | app.py:547 | min(10, number of products) entries with non-increasing revenues and distinct names, each the product's true revenue; a product is left out only when ten are shown and then earns no more than the tenth |
| Dashboard.UpdateDashboard | app.py:420-564 | the table is the filtered rows; the empty branch (zero cards, no rating, empty figures) is taken exactly when no row passes; otherwise monthly and category figures add up to the total, the average order value spreads the total over the distinct orders, the histogram counts every counted rating, the rating card is missing exactly when the histogram is empty, and at most ten products are shown |
| Dashboard.NoRatingNoBars | app.py:487-535 | the average rating is missing exactly when the rating histogram is empty |
| Dashboard.UnfilteredShowsAll | app.py:424-432 | with no filter input the table shows every row, and the empty branch is taken only for an empty table |
| Dashboard.ExportData | app.py:577-595 | nothing is exported before the first click; afterwards the export holds exactly the rows the dashboard table shows for the same inputs |
| Scenarios.ProductMedianFillsGap | app.py:162-166 | a product rated {missing, 4} gets 4 for its missing rating |
| Scenarios.CustomerModeFillsGap | app.py:173-179 | a customer with regions {missing, West, West} gets West; a customer with no region gets "Unknown" |
| Scenarios.OneOrderTwoLines | app.py:484 | two lines of 100.00 and 50.00 in one order give an average order value of 150.00 |
| Scenarios.RatingHistogram | app.py:535 | ratings 5, 5, 4, 0, 3 give the histogram 3:1, 4:1, 5:2 |
| Scenarios.RatingAverage | app.py:487-488 | ratings 5, 5, 4, 0, 3 give the average 4.25: the 0 is not counted |
| Scenarios.NothingSelected | app.py:428-478 | selecting a region no row has gives the empty-branch outputs |
| Scenarios.FallbackDependsOnRowOrder | app.py:163-169 | the same rows in two orders give an unrated product the fallback 1 or 3; the median of the ratings as loaded is 3 in both orders |

## Left out

- Reading the CSV, `pd.to_datetime` and the exception handler are reduced to an optional parsed table: a missing one stands for any failure to read or parse, and it gives the empty table.
- After a failed load, `load_data` returns a frame without columns (`app.py:184`). `app.py:189` then raises a `KeyError` looking up `customer_region`, so the dashboard never starts. The model says nothing about the dashboard after a failed load.
- The `year`, `month` and `month_year` columns (`app.py:155-157`) are derived from `order_date`; they appear in the table data (`app.py:562`) and in the exported CSV (`app.py:595`). `Row` leaves them out because `orderDate` determines them. `month_year` is grouped on as a (year, month) pair, whose order is the string order of `%Y-%m` for four-digit years.
- Time of day in `order_date` is left out: dates are calendar days. The source compares timestamps with the date strings, so a row at 14:00 on the end date would fall outside the range; the model treats the whole end day as included.
- Amounts are integer cents and ratings integers; the source holds both as floats. Averages are exact reals. The `$…,.2f` and `….1f/5.0` text formatting of the cards is not modelled.
- Plotly figures, layout, colours, the one-point axis switch (`app.py:502`) and the dropdown option lists (`app.py:189-190`, `app.py:276-277`) are presentation and are not modelled; each figure is represented by the data it plots.
- `export_data`'s CSV serialisation and its file name, which carries `datetime.now()`, are left out; the model returns the rows to be written.
- Aggregates.TopProducts: pandas `sort_values` uses an unstable sort, so the order of products with equal revenue is not determined by the source; the model breaks ties by product name in string order.
- Aggregates.RatingCounts: like `value_counts`, ratings that no row carries have no bar; the fixed tick labels 1-5 of the axis are presentation.
- Dashboard.UpdateDashboard: the contract relates the outputs to each other and to the filtered rows; the content of each figure is stated by the contract of the function that computes it (`MonthlyRevenue`, `CategoryRevenue`, `RatingCounts`, `TopProducts`, `AvgRating`, `AvgOrderValue`).
- Cleaning.FillRatings: the rating fill reads product ids as keys; a missing product id (a NaN group key, which `groupby` drops) is not modelled.
- `Row` holds customer id, order date, category, product name and order id as present values, so the model never meets a missing one. In the source a missing key is dropped by its `groupby`: a missing customer id gets "Unknown" for a missing region (`app.py:173-179`), a missing order id drops out of the average order value (`app.py:484`), a blank date becomes `NaT`, fails the date filter and drops out of the monthly figure (`app.py:491`), and a missing category or product name drops out of its figure (`app.py:522`, `app.py:547`). Aggregates.CategoryRevenue and Aggregates.MonthlyRevenue add up to the total only because of this assumption.
