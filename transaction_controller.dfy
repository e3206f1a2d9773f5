/**
 * The transaction controller: the importer that refreshes the store from the
 * upstream feed, and the three read-only queries (listing, price-range bar
 * chart, monthly statistics) evaluated over the stored records.
 */
module TransactionController {
  import opened Wrappers
  import opened Sequences
  import opened Text
  import opened ProductTransaction

  /** The client errors the handlers answer with status 400. */
  datatype ApiError = MissingMonth | InvalidMonth

  /** A month index as `Date.prototype.getMonth` returns it: 0 for January. */
  type MonthIndex = i: int | 0 <= i < 12

  /**
   * The `month` query parameter: the raw string (`None` when absent) and the
   * month index the platform's date parser derives from "<month> 1, <year>"
   * (`None` when the parse yields NaN).
   */
  datatype MonthArg = MonthArg(raw: Option<string>, index: Option<MonthIndex>)

  /** `!month` is false: the parameter is present and is not the empty string. */
  predicate Provided(month: MonthArg)
  {
    month.raw.Some? && month.raw.value != ""
  }

  // ---------------------------------------------------------------------------
  // Month filter

  /** `$eq: [{ $month: "$dateOfSale" }, monthIndex + 1]`: compares the month of year only. */
  predicate InMonth(r: Record, index: MonthIndex)
  {
    r.dateOfSale.month == index + 1
  }

  /** The stored records sold in the given month of any year, in storage order. */
  function MonthMatches(store: seq<Record>, index: MonthIndex): (r: seq<Record>)
    ensures forall x :: x in r <==> x in store && x.dateOfSale.month == index + 1
  {
    var matched := Filter(store, x => InMonth(x, index));
    forall x ensures x in matched <==> x in store && InMonth(x, index) {
      FilterMembership(store, x => InMonth(x, index), x);
    }
    matched
  }

  /** Changing the year of a sale never changes whether it matches a month. */
  lemma MonthFilterIgnoresYear(store: seq<Record>, index: MonthIndex, i: nat, year: int)
    requires i < |store|
    ensures var moved := store[i := store[i].(dateOfSale := store[i].dateOfSale.(year := year))];
            |MonthMatches(moved, index)| == |MonthMatches(store, index)|
  {
    var moved := store[i := store[i].(dateOfSale := store[i].dateOfSale.(year := year))];
    MonthCountInvariant(store, moved, index);
  }

  lemma {:induction false} MonthCountInvariant(a: seq<Record>, b: seq<Record>, index: MonthIndex)
    requires |a| == |b|
    requires forall k :: 0 <= k < |a| ==> a[k].dateOfSale.month == b[k].dateOfSale.month
    ensures |MonthMatches(a, index)| == |MonthMatches(b, index)|
  {
    if a != [] {
      MonthCountInvariant(a[1..], b[1..], index);
    }
  }

  // ---------------------------------------------------------------------------
  // Listing

  /** The optional `$or` condition: no condition for an empty search string. */
  predicate SearchMatches(r: Record, search: string)
  {
    search == ""
    || ContainsIgnoreCase(r.productTitle, search)
    || ContainsIgnoreCase(r.productDescription, search)
  }

  /** The listing query: the month filter AND the search condition. */
  predicate QueryMatches(r: Record, index: MonthIndex, search: string)
  {
    InMonth(r, index) && SearchMatches(r, search)
  }

  /** `find(query)`: the stored records that satisfy the listing query, in storage order. */
  function QueryResults(store: seq<Record>, index: MonthIndex, search: string): (r: seq<Record>)
    ensures forall x :: x in r <==> x in store && x.dateOfSale.month == index + 1 && SearchMatches(x, search)
  {
    var matched := Filter(store, x => QueryMatches(x, index, search));
    forall x ensures x in matched <==> x in store && QueryMatches(x, index, search) {
      FilterMembership(store, x => QueryMatches(x, index, search), x);
    }
    matched
  }

  /** Cursor `.skip(n)`: drops the first `n` results. */
  function Skip<T>(s: seq<T>, n: nat): (r: seq<T>)
    ensures |r| == if n <= |s| then |s| - n else 0
    ensures forall k :: 0 <= k < |r| ==> r[k] == s[n + k]
  {
    if n <= |s| then s[n..] else []
  }

  /** Cursor `.limit(k)`: keeps the first `k` results; a limit of 0 means no limit. */
  function Limit<T>(s: seq<T>, k: nat): (r: seq<T>)
    ensures r <= s
    ensures k == 0 ==> r == s
    ensures k > 0 ==> |r| == if |s| <= k then |s| else k
  {
    if k == 0 || |s| <= k then s else s[..k]
  }

  /** The response body of a successful listing. */
  datatype Listing = Listing(total: nat, transactions: seq<Record>)

  /** GET /transactions; `page`, `limit` and `search` default to 1, 10 and "". */
  function ListTransactions(store: seq<Record>, month: MonthArg, page: nat := 1, limit: nat := 10, search: string := "")
    : (res: Result<Listing, ApiError>)
    requires page >= 1
    ensures res.Failure? <==> month.index.None?
    ensures res.Failure? ==> res.error == InvalidMonth
  {
    if month.index.None? then Failure(InvalidMonth)
    else
      var matched := QueryResults(store, month.index.value, search);
      Success(Listing(|matched|, Limit(Skip(matched, (page - 1) * limit), limit)))
  }

  /**
   * `total` counts every matching record and `transactions` is the window of
   * the matches that starts `(page-1)*limit` records in: every listed record
   * matches, and the window never exceeds `total` nor a positive `limit`.
   */
  lemma ListingWindow(store: seq<Record>, month: MonthArg, page: nat, limit: nat, search: string)
    requires page >= 1 && month.index.Some?
    ensures var res := ListTransactions(store, month, page, limit, search);
            var matched := QueryResults(store, month.index.value, search);
            var skip := (page - 1) * limit;
            res.Success?
            && res.value.total == |matched|
            && |res.value.transactions| <= res.value.total
            && (limit > 0 ==> |res.value.transactions| <= limit)
            && (forall k :: 0 <= k < |res.value.transactions| ==>
                  skip + k < |matched| && res.value.transactions[k] == matched[skip + k])
            && (forall x :: x in res.value.transactions ==> x in store && QueryMatches(x, month.index.value, search))
  {
    var matched := QueryResults(store, month.index.value, search);
    var skip := (page - 1) * limit;
    var txs := Limit(Skip(matched, skip), limit);
    assert ListTransactions(store, month, page, limit, search) == Success(Listing(|matched|, txs));
    forall k | 0 <= k < |txs| ensures skip + k < |matched| && txs[k] == matched[skip + k] {
      assert txs[k] == Skip(matched, skip)[k];
    }
    forall x | x in txs ensures x in store && QueryMatches(x, month.index.value, search) {
      var k :| 0 <= k < |txs| && txs[k] == x;
      assert matched[skip + k] in matched;
    }
  }

  /** `total` depends on the query alone, never on `page` or `limit`. */
  lemma TotalIgnoresPaging(store: seq<Record>, month: MonthArg, page1: nat, limit1: nat,
                           page2: nat, limit2: nat, search: string)
    requires page1 >= 1 && page2 >= 1 && month.index.Some?
    ensures ListTransactions(store, month, page1, limit1, search).value.total
         == ListTransactions(store, month, page2, limit2, search).value.total
  {
  }

  /** With a positive limit, the `i`-th match is listed on page `i / limit + 1` at position `i % limit`. */
  lemma PagesCoverMatches(store: seq<Record>, month: MonthArg, limit: nat, search: string, i: nat)
    requires month.index.Some? && limit > 0
    requires i < |QueryResults(store, month.index.value, search)|
    ensures var res := ListTransactions(store, month, i / limit + 1, limit, search);
            res.Success? && i % limit < |res.value.transactions|
            && res.value.transactions[i % limit] == QueryResults(store, month.index.value, search)[i]
  {
    var matched := QueryResults(store, month.index.value, search);
    var skip := (i / limit + 1 - 1) * limit;
    assert skip + i % limit == i;
    assert skip <= i;
    var window := Limit(Skip(matched, skip), limit);
    assert |Skip(matched, skip)| == |matched| - skip;
    assert i % limit < |window|;
    assert window[i % limit] == matched[skip + i % limit];
  }

  /** A limit of 0 sets no bound: every match from the skipped position on is listed. */
  lemma ZeroLimitListsAll(store: seq<Record>, month: MonthArg, page: nat, search: string)
    requires page >= 1 && month.index.Some?
    ensures ListTransactions(store, month, page, 0, search).value.transactions
         == QueryResults(store, month.index.value, search)
  {
  }

  /**
   * A request that gives only the month, as the dashboard's first load does,
   * lists the first ten month matches, or all of them when there are fewer.
   */
  lemma DefaultListingIsFirstPage(store: seq<Record>, month: MonthArg)
    requires month.index.Some?
    ensures var matched := MonthMatches(store, month.index.value);
            var res := ListTransactions(store, month);
            res.Success? && res.value.total == |matched|
            && res.value.transactions == if |matched| <= 10 then matched else matched[..10]
  {
    var matched := QueryResults(store, month.index.value, "");
    EmptySearchIsMonthQuery(store, month.index.value);
    assert Skip(matched, 0) == matched;
  }

  /** An empty search adds no condition: the listing is the month-only query. */
  lemma EmptySearchIsMonthQuery(store: seq<Record>, index: MonthIndex)
    ensures QueryResults(store, index, "") == MonthMatches(store, index)
  {
    FilterCongruent(store, x => QueryMatches(x, index, ""), x => InMonth(x, index));
  }

  /** A search narrows the month query: each search result is a month match. */
  lemma SearchNarrowsMonthQuery(store: seq<Record>, index: MonthIndex, search: string)
    ensures |QueryResults(store, index, search)| <= |MonthMatches(store, index)|
    ensures forall x :: x in QueryResults(store, index, search) ==> x in MonthMatches(store, index)
  {
    forall x | x in QueryResults(store, index, search) ensures x in MonthMatches(store, index) {
      FilterMembership(store, y => QueryMatches(y, index, search), x);
    }
    FilterMonotone(store, x => QueryMatches(x, index, search), x => InMonth(x, index));
  }

  /** The search is case-insensitive: folding the search string to lower case changes no result. */
  lemma SearchIgnoresCase(store: seq<Record>, index: MonthIndex, search: string)
    ensures QueryResults(store, index, Lower(search)) == QueryResults(store, index, search)
  {
    forall x ensures QueryMatches(x, index, Lower(search)) == QueryMatches(x, index, search) {
      PatternCaseIrrelevant(x.productTitle, search);
      PatternCaseIrrelevant(x.productDescription, search);
      assert |Lower(search)| == |search|;
    }
    FilterCongruent(store, x => QueryMatches(x, index, Lower(search)), x => QueryMatches(x, index, search));
  }

  // ---------------------------------------------------------------------------
  // Bar chart

  /** The labels of the ten price ranges, in the order the chart reports them. */
  const PriceRanges: seq<string> :=
    ["0-100", "101-200", "201-300", "301-400", "401-500",
     "501-600", "601-700", "701-800", "801-900", "901+"]

  /** The `$switch` that labels a price: the first branch whose case holds, else "Other". */
  function PriceRange(price: real): (tag: string)
    ensures tag in PriceRanges && tag != "Other"
  {
    if price < 100.0 then "0-100"
    else if price >= 100.0 && price < 200.0 then "101-200"
    else if price >= 200.0 && price < 300.0 then "201-300"
    else if price >= 300.0 && price < 400.0 then "301-400"
    else if price >= 400.0 && price < 500.0 then "401-500"
    else if price >= 500.0 && price < 600.0 then "501-600"
    else if price >= 600.0 && price < 700.0 then "601-700"
    else if price >= 700.0 && price < 800.0 then "701-800"
    else if price >= 800.0 && price < 900.0 then "801-900"
    else if price >= 900.0 then "901+"
    else "Other"
  }

  /** Range `k` as an interval: below 100, [100k, 100(k+1)) for k in 1..8, or from 900 up. */
  predicate InBucket(price: real, k: nat)
  {
    (k == 0 && price < 100.0)
    || (1 <= k <= 8 && 100.0 * k as real <= price < 100.0 * (k + 1) as real)
    || (k == 9 && price >= 900.0)
  }

  /** The position of a price's label among the ten labels: the `$switch` never falls to "Other". */
  function RangeIndex(price: real): (k: nat)
    ensures k < |PriceRanges| && PriceRanges[k] == PriceRange(price)
    ensures InBucket(price, k)
  {
    if price < 100.0 then 0
    else if price < 200.0 then 1
    else if price < 300.0 then 2
    else if price < 400.0 then 3
    else if price < 500.0 then 4
    else if price < 600.0 then 5
    else if price < 700.0 then 6
    else if price < 800.0 then 7
    else if price < 900.0 then 8
    else 9
  }

  /** The label of a price is the `k`-th exactly when the price lies in interval `k`: the rule is total and exclusive. */
  lemma BucketRule(price: real, k: nat)
    requires k < |PriceRanges|
    ensures PriceRange(price) == PriceRanges[k] <==> InBucket(price, k)
  {
    var j := RangeIndex(price);
    LabelsDistinct();
    if InBucket(price, k) {
      BucketsDisjoint(price, j, k);
    }
  }

  lemma BucketsDisjoint(price: real, j: nat, k: nat)
    requires InBucket(price, j) && InBucket(price, k)
    ensures j == k
  {
  }

  lemma LabelsDistinct()
    ensures forall i, j :: 0 <= i < j < |PriceRanges| ==> PriceRanges[i] != PriceRanges[j]
  {
  }

  /** One `{range, count}` entry, both as the `$group` stage emits it and in the chart. */
  datatype RangeCount = RangeCount(range: string, count: nat)

  /** Number of records whose price carries the given label. */
  function CountInRange(recs: seq<Record>, tag: string): nat
  {
    |Filter(recs, (r: Record) => PriceRange(r.productPrice) == tag)|
  }

  /** No two entries carry the same label. */
  predicate DistinctRanges(groups: seq<RangeCount>)
  {
    forall i, j :: 0 <= i < j < |groups| ==> groups[i].range != groups[j].range
  }

  /** Adds one record with the given label to the `$group` accumulators. */
  function AddToGroup(groups: seq<RangeCount>, tag: string): (r: seq<RangeCount>)
    ensures forall g :: g in r ==> g in groups || (g.range == tag && g.count > 0)
    ensures forall g :: g in groups && g.range != tag ==> g in r
    ensures DistinctRanges(groups) ==> DistinctRanges(r)
  {
    if groups == [] then [RangeCount(tag, 1)]
    else if groups[0].range == tag then [RangeCount(tag, groups[0].count + 1)] + groups[1..]
    else
      var rest := AddToGroup(groups[1..], tag);
      assert DistinctRanges(groups) ==> forall g :: g in rest ==> g.range != groups[0].range by {
        if DistinctRanges(groups) {
          forall g | g in groups[1..] ensures g.range != groups[0].range {
            var k :| 0 <= k < |groups[1..]| && groups[1..][k] == g;
            assert groups[k + 1] == g;
          }
        }
      }
      [groups[0]] + rest
  }

  /**
   * The `$group` stage: one `{range, count}` per label that occurs, with a
   * positive count; the labels are among the ten, so "Other" never appears.
   */
  function GroupByRange(recs: seq<Record>): (r: seq<RangeCount>)
    ensures forall g :: g in r ==> g.range in PriceRanges && g.count > 0
    ensures DistinctRanges(r)
  {
    if recs == [] then []
    else AddToGroup(GroupByRange(recs[1..]), PriceRange(recs[0].productPrice))
  }

  /** `Array.prototype.find`: the first entry with the given label. */
  function FindRange(groups: seq<RangeCount>, tag: string): (r: Option<RangeCount>)
    ensures r.Some? ==> r.value in groups && r.value.range == tag
    ensures r.None? <==> forall g :: g in groups ==> g.range != tag
  {
    if groups == [] then None
    else if groups[0].range == tag then Some(groups[0])
    else FindRange(groups[1..], tag)
  }

  /** `existingData ? existingData.count : 0`. */
  function FoundCount(groups: seq<RangeCount>, tag: string): nat
  {
    match FindRange(groups, tag)
    case Some(g) => g.count
    case None => 0
  }

  /**
   * Among entries with distinct labels, the count found for a label is that of
   * the entry carrying it, and 0 when no entry carries it.
   */
  lemma {:induction false} FoundCountMeaning(groups: seq<RangeCount>, tag: string)
    requires DistinctRanges(groups)
    ensures forall i :: 0 <= i < |groups| && groups[i].range == tag ==> FoundCount(groups, tag) == groups[i].count
    ensures (forall g :: g in groups ==> g.range != tag) ==> FoundCount(groups, tag) == 0
  {
    if groups != [] && groups[0].range != tag {
      FoundCountMeaning(groups[1..], tag);
      forall i | 0 <= i < |groups| && groups[i].range == tag
        ensures FoundCount(groups, tag) == groups[i].count
      {
        assert groups[1..][i - 1] == groups[i];
      }
    }
  }

  /** The completion step: the ten labels in order, each with its grouped count or 0. */
  function CompleteRanges(groups: seq<RangeCount>): (bars: seq<RangeCount>)
    ensures |bars| == |PriceRanges|
    ensures forall i :: 0 <= i < |bars| ==> bars[i].range == PriceRanges[i]
  {
    seq(|PriceRanges|, i requires 0 <= i < |PriceRanges| => RangeCount(PriceRanges[i], FoundCount(groups, PriceRanges[i])))
  }

  /** GET /bar-chart. */
  function GetBarChartData(store: seq<Record>, month: MonthArg): (res: Result<seq<RangeCount>, ApiError>)
    ensures res.Failure? <==> !Provided(month) || month.index.None?
    ensures !Provided(month) ==> res == Failure(MissingMonth)
    ensures Provided(month) && month.index.None? ==> res == Failure(InvalidMonth)
  {
    if !Provided(month) then Failure(MissingMonth)
    else if month.index.None? then Failure(InvalidMonth)
    else Success(CompleteRanges(GroupByRange(MonthMatches(store, month.index.value))))
  }

  /** Adding one record raises the found count of its own label by one and leaves the others alone. */
  lemma {:induction false} FoundCountAfterAdd(groups: seq<RangeCount>, tag: string, other: string)
    ensures FoundCount(AddToGroup(groups, tag), other)
         == FoundCount(groups, other) + (if tag == other then 1 else 0)
  {
    if groups == [] {
      assert AddToGroup(groups, tag) == [RangeCount(tag, 1)];
      assert FindRange([RangeCount(tag, 1)], other) == if tag == other then Some(RangeCount(tag, 1)) else None;
    } else if groups[0].range == tag {
      var added := AddToGroup(groups, tag);
      assert added[1..] == groups[1..];
    } else {
      var added := AddToGroup(groups, tag);
      assert added[1..] == AddToGroup(groups[1..], tag);
      FoundCountAfterAdd(groups[1..], tag, other);
    }
  }

  /** The grouped count found for a label is the number of records with that label. */
  lemma {:induction false} GroupCountsRecords(recs: seq<Record>, tag: string)
    ensures FoundCount(GroupByRange(recs), tag) == CountInRange(recs, tag)
  {
    if recs != [] {
      GroupCountsRecords(recs[1..], tag);
      FoundCountAfterAdd(GroupByRange(recs[1..]), PriceRange(recs[0].productPrice), tag);
    }
  }

  function SumCounts(bars: seq<RangeCount>): nat
  {
    if bars == [] then 0 else bars[0].count + SumCounts(bars[1..])
  }

  /** Raising one entry's count by one raises the sum by one. */
  lemma {:induction false} SumCountsIncrement(xs: seq<RangeCount>, ys: seq<RangeCount>, k: nat)
    requires |xs| == |ys| && k < |xs|
    requires ys[k].count == xs[k].count + 1
    requires forall i :: 0 <= i < |xs| && i != k ==> ys[i].count == xs[i].count
    ensures SumCounts(ys) == SumCounts(xs) + 1
  {
    if k == 0 {
      SumCountsEqual(xs[1..], ys[1..]);
    } else {
      SumCountsIncrement(xs[1..], ys[1..], k - 1);
    }
  }

  lemma {:induction false} SumCountsEqual(xs: seq<RangeCount>, ys: seq<RangeCount>)
    requires |xs| == |ys|
    requires forall i :: 0 <= i < |xs| ==> ys[i].count == xs[i].count
    ensures SumCounts(ys) == SumCounts(xs)
  {
    if xs != [] {
      SumCountsEqual(xs[1..], ys[1..]);
    }
  }

  lemma {:induction false} SumCountsOfZeros(xs: seq<RangeCount>)
    requires forall i :: 0 <= i < |xs| ==> xs[i].count == 0
    ensures SumCounts(xs) == 0
  {
    if xs != [] {
      SumCountsOfZeros(xs[1..]);
    }
  }

  /** The counts of the ten ranges over `recs` add up to the number of records. */
  lemma {:induction false} RangeCountsAddUp(recs: seq<Record>)
    ensures SumCounts(CompleteRanges(GroupByRange(recs))) == |recs|
  {
    if recs == [] {
      SumCountsOfZeros(CompleteRanges([]));
    } else {
      var rest := recs[1..];
      var xs := CompleteRanges(GroupByRange(rest));
      var ys := CompleteRanges(GroupByRange(recs));
      var k := RangeIndex(recs[0].productPrice);
      RangeCountsAddUp(rest);
      LabelsDistinct();
      forall i | 0 <= i < |xs|
        ensures ys[i].count == xs[i].count + (if i == k then 1 else 0)
      {
        FoundCountAfterAdd(GroupByRange(rest), PriceRange(recs[0].productPrice), PriceRanges[i]);
      }
      SumCountsIncrement(xs, ys, k);
    }
  }

  /**
   * A successful bar chart has the ten labels in fixed order; each count is the
   * number of month-matching records in that range (0 for an absent range), and
   * the counts add up to the number of month-matching records.
   */
  lemma BarChartShape(store: seq<Record>, month: MonthArg)
    requires Provided(month) && month.index.Some?
    ensures var res := GetBarChartData(store, month);
            var matched := MonthMatches(store, month.index.value);
            res.Success? && |res.value| == 10
            && (forall i :: 0 <= i < 10 ==>
                  res.value[i].range == PriceRanges[i] && res.value[i].count == CountInRange(matched, PriceRanges[i]))
            && SumCounts(res.value) == |matched|
  {
    var matched := MonthMatches(store, month.index.value);
    forall i | 0 <= i < 10 ensures FoundCount(GroupByRange(matched), PriceRanges[i]) == CountInRange(matched, PriceRanges[i]) {
      GroupCountsRecords(matched, PriceRanges[i]);
    }
    RangeCountsAddUp(matched);
  }

  // ---------------------------------------------------------------------------
  // Statistics

  /** The statistics object of the response. */
  datatype Statistics = Statistics(totalSales: real, totalSold: nat, totalUnsold: nat)

  const NoStatistics := Statistics(0.0, 0, 0)

  predicate Sold(r: Record) { r.isSold }

  predicate Unsold(r: Record) { !r.isSold }

  function SumPrices(recs: seq<Record>): real
  {
    if recs == [] then 0.0 else recs[0].productPrice + SumPrices(recs[1..])
  }

  /** The `$group` accumulators: `$sum` of `$cond` on `isSold`, one record at a time. */
  function GroupTotals(recs: seq<Record>): (t: Statistics)
    ensures t.totalSold + t.totalUnsold == |recs|
  {
    if recs == [] then NoStatistics
    else
      var t := GroupTotals(recs[1..]);
      var r := recs[0];
      Statistics(t.totalSales + (if r.isSold == true then r.productPrice else 0.0),
                 t.totalSold + (if r.isSold == true then 1 else 0),
                 t.totalUnsold + (if r.isSold == false then 1 else 0))
  }

  /** The aggregation's output: no document when nothing matches, else the one group. */
  function AggregateStatistics(recs: seq<Record>): (r: seq<Statistics>)
    ensures |r| <= 1 && (r == [] <==> recs == [])
    ensures r != [] ==> r[0].totalSold + r[0].totalUnsold == |recs|
  {
    if recs == [] then [] else [GroupTotals(recs)]
  }

  /**
   * The records the statistics aggregate: `monthIndex + 1` is NaN when the
   * month does not parse, and NaN equals no month, so nothing matches.
   */
  function StatisticsScope(store: seq<Record>, month: MonthArg): (r: seq<Record>)
    ensures month.index.None? ==> r == []
    ensures month.index.Some? ==> forall x :: x in r <==> x in store && x.dateOfSale.month == month.index.value + 1
  {
    if month.index.None? then [] else MonthMatches(store, month.index.value)
  }

  /** GET /statistics: `statistics[0] || { 0, 0, 0 }`. */
  function GetStatistics(store: seq<Record>, month: MonthArg): (res: Result<Statistics, ApiError>)
    ensures res.Failure? <==> !Provided(month)
    ensures res.Failure? ==> res.error == MissingMonth
  {
    if !Provided(month) then Failure(MissingMonth)
    else
      var statistics := AggregateStatistics(StatisticsScope(store, month));
      Success(if |statistics| > 0 then statistics[0] else NoStatistics)
  }

  /** The accumulators agree with their reference definitions over the sold and unsold records. */
  lemma {:induction false} GroupTotalsMeaning(recs: seq<Record>)
    ensures GroupTotals(recs).totalSales == SumPrices(Filter(recs, Sold))
    ensures GroupTotals(recs).totalSold == |Filter(recs, Sold)|
    ensures GroupTotals(recs).totalUnsold == |Filter(recs, Unsold)|
    ensures GroupTotals(recs).totalSold + GroupTotals(recs).totalUnsold == |recs|
  {
    if recs != [] {
      GroupTotalsMeaning(recs[1..]);
    }
  }

  /**
   * The statistics of a provided month are the totals over its matching
   * records: the sum of sold prices, the sold count and the unsold count,
   * which together count every matching record.
   */
  lemma StatisticsTotals(store: seq<Record>, month: MonthArg)
    requires Provided(month)
    ensures var res := GetStatistics(store, month);
            var matched := StatisticsScope(store, month);
            res.Success?
            && res.value.totalSales == SumPrices(Filter(matched, Sold))
            && res.value.totalSold == |Filter(matched, Sold)|
            && res.value.totalUnsold == |Filter(matched, Unsold)|
            && res.value.totalSold + res.value.totalUnsold == |matched|
  {
    GroupTotalsMeaning(StatisticsScope(store, month));
  }

  /** No matching record gives all zeros, never an absent result. */
  lemma StatisticsOfNoMatch(store: seq<Record>, month: MonthArg)
    requires Provided(month)
    requires month.index.Some? ==> forall r :: r in store ==> !InMonth(r, month.index.value)
    ensures GetStatistics(store, month) == Success(NoStatistics)
  {
  }

  /** Unlike the other handlers, statistics does not reject a month that does not parse: it reports zeros. */
  lemma StatisticsAcceptsUnparsedMonth(store: seq<Record>, month: MonthArg)
    requires Provided(month) && month.index.None?
    ensures GetStatistics(store, month) == Success(NoStatistics)
    ensures GetBarChartData(store, month) == Failure(InvalidMonth)
  {
  }

  /** Five March sales (one of them in another year) priced 50, 150, 150, 950 and 300, the first three sold, and one February sale. */
  function MarchStore(): seq<Record>
  {
    var march := SaleDate(3, 2022);
    [Record("a", "a", 50.0, "c", march, true, "i"),
     Record("b", "b", 150.0, "c", march, true, "i"),
     Record("c", "c", 150.0, "c", march, true, "i"),
     Record("d", "d", 950.0, "c", march, false, "i"),
     Record("e", "e", 300.0, "c", SaleDate(3, 2019), false, "i"),
     Record("f", "f", 75.0, "c", SaleDate(2, 2022), true, "i")]
  }

  /** March of any year selects the first five sales and leaves out the February one. */
  lemma MarchExampleScope()
    ensures MonthMatches(MarchStore(), 2) == MarchStore()[..5]
  {
    var store := MarchStore();
    var inMarch := x => InMonth(x, 2);
    assert Filter(store[5..], inMarch) == [];
    assert Filter(store[4..], inMarch) == store[4..5];
    assert Filter(store[3..], inMarch) == store[3..5];
    assert Filter(store[2..], inMarch) == store[2..5];
    assert Filter(store[1..], inMarch) == store[1..5];
  }

  /** The accumulators over the five March sales. */
  lemma MarchTotals()
    ensures GroupTotals(MarchStore()[..5]) == Statistics(350.0, 3, 2)
  {
    var march := MarchStore()[..5];
    assert GroupTotals(march[5..]) == NoStatistics;
    assert GroupTotals(march[4..]) == Statistics(0.0, 0, 1);
    assert GroupTotals(march[3..]) == Statistics(0.0, 0, 2);
    assert GroupTotals(march[2..]) == Statistics(150.0, 1, 2);
    assert GroupTotals(march[1..]) == Statistics(300.0, 2, 2);
  }

  /** For March the statistics report 350 in sales, 3 sold and 2 unsold. */
  lemma MarchStatistics()
    ensures GetStatistics(MarchStore(), MonthArg(Some("March"), Some(2))) == Success(Statistics(350.0, 3, 2))
  {
    var month := MonthArg(Some("March"), Some(2));
    MarchExampleScope();
    MarchTotals();
    var scope := StatisticsScope(MarchStore(), month);
    assert scope == MarchStore()[..5];
    assert AggregateStatistics(scope) == [Statistics(350.0, 3, 2)];
  }

  /** Peeling the first record off adds one to its own range's count only. */
  lemma CountInRangeFirst(recs: seq<Record>, tag: string)
    requires recs != []
    ensures CountInRange(recs, tag)
         == (if PriceRange(recs[0].productPrice) == tag then 1 else 0) + CountInRange(recs[1..], tag)
  {
  }

  /** Two prices share a label exactly when they share a range position. */
  lemma SameRangeIff(price: real, k: nat)
    requires k < |PriceRanges|
    ensures PriceRange(price) == PriceRanges[k] <==> RangeIndex(price) == k
  {
    LabelsDistinct();
  }

  /** The range counts of the five March prices 50, 150, 150, 950 and 300. */
  lemma MarchCounts(k: nat)
    requires k < |PriceRanges|
    ensures CountInRange(MarchStore()[..5], PriceRanges[k]) == [1, 2, 0, 1, 0, 0, 0, 0, 0, 1][k]
  {
    var m := MarchStore()[..5];
    var tag := PriceRanges[k];
    assert m[5..] == [];
    assert m[4..][1..] == m[5..];
    assert m[3..][1..] == m[4..];
    assert m[2..][1..] == m[3..];
    assert m[1..][1..] == m[2..];
    CountInRangeFirst(m[4..], tag);
    CountInRangeFirst(m[3..], tag);
    CountInRangeFirst(m[2..], tag);
    CountInRangeFirst(m[1..], tag);
    CountInRangeFirst(m, tag);
    SameRangeIff(50.0, k);
    SameRangeIff(150.0, k);
    SameRangeIff(950.0, k);
    SameRangeIff(300.0, k);
  }

  /**
   * For March the chart has one sale in "0-100", two in "101-200" (150 twice),
   * one in "301-400", one in "901+" and none elsewhere; the February sale is
   * not counted.
   */
  lemma MarchChart()
    ensures var res := GetBarChartData(MarchStore(), MonthArg(Some("March"), Some(2)));
            res.Success? && |res.value| == 10
            && forall k :: 0 <= k < 10 ==>
                 res.value[k].range == PriceRanges[k] && res.value[k].count == [1, 2, 0, 1, 0, 0, 0, 0, 0, 1][k]
  {
    MarchChartScope();
    forall k | 0 <= k < 10 ensures CountInRange(MarchStore()[..5], PriceRanges[k]) == [1, 2, 0, 1, 0, 0, 0, 0, 0, 1][k] {
      MarchCounts(k);
    }
  }

  /** The March chart counts the ranges of the five March sales. */
  lemma MarchChartScope()
    ensures var res := GetBarChartData(MarchStore(), MonthArg(Some("March"), Some(2)));
            res.Success? && |res.value| == 10
            && forall k :: 0 <= k < 10 ==>
                 res.value[k] == RangeCount(PriceRanges[k], CountInRange(MarchStore()[..5], PriceRanges[k]))
  {
    MarchExampleScope();
    BarChartShape(MarchStore(), MonthArg(Some("March"), Some(2)));
  }

  // ---------------------------------------------------------------------------
  // Importer

  /** One item of the upstream feed; `dateOfSale` is the platform's reading of its date string. */
  datatype FeedItem = FeedItem(
    title: string,
    description: string,
    price: real,
    category: string,
    dateOfSale: Option<SaleDate>,
    sold: bool,
    image: string)

  /**
   * What the upstream call yields: a failed request, a body that is not an
   * array, or an array whose entries are items, or `None` where an entry is
   * null or undefined.
   */
  datatype Fetched = FetchFailed | NotAnArray | Array(items: seq<Option<FeedItem>>)

  /** The feed item a stored record was imported from: the field mapping read backwards. */
  function ToFeedItem(r: Record): FeedItem
  {
    FeedItem(r.productTitle, r.productDescription, r.productPrice, r.category,
             Some(r.dateOfSale), r.isSold, r.imageUrl)
  }

  /** The field-by-field mapping of a feed item to a document; a stored document maps back to the item. */
  function ToDocument(item: FeedItem): (d: Document)
    ensures Conforms(d) ==> ToFeedItem(ToRecord(d)) == item
  {
    Document(item.title, item.description, item.price, item.category,
             item.dateOfSale, item.sold, item.image)
  }

  /**
   * `data.map(item => ...)`: one document per entry, in order, or `None` when an
   * entry is null or undefined and reading its fields throws.
   */
  function MapItems(items: seq<Option<FeedItem>>): (r: Option<seq<Document>>)
    ensures r.Some? <==> forall i :: 0 <= i < |items| ==> items[i].Some?
    ensures r.Some? ==> |r.value| == |items|
    ensures r.Some? ==> forall i :: 0 <= i < |items| ==> items[i].Some? && r.value[i] == ToDocument(items[i].value)
  {
    if items == [] then Some([])
    else if items[0].None? then None
    else
      match MapItems(items[1..])
      case None => None
      case Some(rest) => Some([ToDocument(items[0].value)] + rest)
  }

  /** Every entry is an item whose document passes the schema check. */
  predicate ImportSucceeds(fetched: Fetched)
  {
    fetched.Array?
    && forall i :: 0 <= i < |fetched.items| ==>
         fetched.items[i].Some? && Conforms(ToDocument(fetched.items[i].value))
  }

  /** The outcome the importer reports: 200 on success, 500 on any failure. */
  datatype ImportStatus = Initialized | ImportFailed

  /**
   * The store after an import. A failed request leaves it unchanged, since
   * nothing was deleted yet. Every later failure (a body that is not an array,
   * a null entry, a rejected insert) strikes after the delete and leaves it
   * empty. On success it holds the feed, which the inverse mapping reads back
   * entry for entry; the old records play no part.
   */
  function ImportedRecords(before: seq<Record>, fetched: Fetched): (r: seq<Record>)
    ensures fetched.FetchFailed? ==> r == before
    ensures !fetched.FetchFailed? && !ImportSucceeds(fetched) ==> r == []
    ensures ImportSucceeds(fetched) ==>
              |r| == |fetched.items|
              && forall i :: 0 <= i < |r| ==> Some(ToFeedItem(r[i])) == fetched.items[i]
  {
    match fetched
    case FetchFailed => before
    case NotAnArray => []
    case Array(items) =>
      match MapItems(items)
      case None => []
      case Some(docs) =>
        match ValidateAll(docs)
        case Some(records) => records
        case None => []
  }

  /** GET /initialize: fetch, `deleteMany({})`, map the items, then `insertMany`. */
  method FetchAndInitializeDatabase(store: Store, fetched: Fetched) returns (status: ImportStatus)
    modifies store
    ensures store.records == ImportedRecords(old(store.records), fetched)
    ensures status == Initialized <==> ImportSucceeds(fetched)
  {
    if fetched.FetchFailed? {
      return ImportFailed;
    }
    store.DeleteMany();
    if fetched.NotAnArray? {
      return ImportFailed;
    }
    var transactions := MapItems(fetched.items);
    if transactions.None? {
      return ImportFailed;
    }
    var ok := store.InsertMany(transactions.value);
    status := if ok then Initialized else ImportFailed;
  }

  /**
   * A successful import replaces the store by the feed mapped field by field:
   * same length, the `i`-th record built from the `i`-th item, nothing kept
   * from before.
   */
  lemma ImportReplacesStore(before: seq<Record>, fetched: Fetched)
    requires ImportSucceeds(fetched)
    ensures var after := ImportedRecords(before, fetched);
            var feed := fetched.items;
            |after| == |feed|
            && forall i :: 0 <= i < |feed| ==>
                 after[i].productTitle == feed[i].value.title
                 && after[i].productDescription == feed[i].value.description
                 && after[i].productPrice == feed[i].value.price
                 && after[i].category == feed[i].value.category
                 && Some(after[i].dateOfSale) == feed[i].value.dateOfSale
                 && after[i].isSold == feed[i].value.sold
                 && after[i].imageUrl == feed[i].value.image
  {
    var after := ImportedRecords(before, fetched);
    forall i | 0 <= i < |fetched.items| ensures Some(ToFeedItem(after[i])) == fetched.items[i] {
    }
  }

  /** The new store does not depend on the old one, so importing the same response twice changes nothing more. */
  lemma ImportIdempotent(before: seq<Record>, fetched: Fetched)
    ensures ImportedRecords(ImportedRecords(before, fetched), fetched) == ImportedRecords(before, fetched)
  {
  }

  /** Two imports of the same response leave the same store and report the same status. */
  method ImportTwice(store: Store, fetched: Fetched) returns (first: ImportStatus, second: ImportStatus)
    modifies store
    ensures first == second
    ensures store.records == ImportedRecords(old(store.records), fetched)
  {
    first := FetchAndInitializeDatabase(store, fetched);
    ghost var once := store.records;
    second := FetchAndInitializeDatabase(store, fetched);
    assert store.records == once;
  }
}
