/**
 * The analytics API views (analytics/views.py) over the `TradingData`
 * table, seen as a sequence of records:
 *  - the shared query filters (holding period, cooldown, inclusive date
 *    range, sector and market cap, "All" meaning no filter);
 *  - DashboardDataView: the per-duration histogram of successful trades
 *    (return >= 20%) over five left-closed return bands;
 *  - KPIDataView: count, most profitable trade, mean duration and mean return;
 *  - DateRangeView: first and last breakout date;
 *  - SectorListView: the distinct sectors in order.
 */
module AnalyticsViews {
  import opened Optional
  import opened TradingModel
  import Orders
  import Reductions

  // ---------------------------------------------------------------------
  // Query parameters
  // ---------------------------------------------------------------------

  /**
   * The request's query parameters. `weeks` and `cooldownWeeks` are the raw
   * strings; the dates are day numbers, None when absent or empty.
   */
  datatype QueryParams = QueryParams(
    weeks: Option<string>,
    cooldownWeeks: Option<string>,
    startDate: Option<int>,
    endDate: Option<int>,
    sector: Option<string>,
    mcap: Option<string>)

  predicate IsDigit(c: char) {
    '0' <= c <= '9'
  }

  predicate AllDigits(s: string) {
    forall i :: 0 <= i < |s| ==> IsDigit(s[i])
  }

  /** The value of a string of decimal digits. */
  function DigitsValue(s: string): nat
    requires AllDigits(s)
  {
    if s == [] then 0 else 10 * DigitsValue(s[..|s| - 1]) + (s[|s| - 1] as int - '0' as int)
  }

  /** Python's `int()` on a string: an optional sign and at least one decimal digit; anything else raises. */
  function ParseInt(s: string): Option<int> {
    var negative := |s| > 0 && s[0] == '-';
    var body := if |s| > 0 && (s[0] == '-' || s[0] == '+') then s[1..] else s;
    if body != [] && AllDigits(body) then
      var v: int := DigitsValue(body);
      Some(if negative then -v else v)
    else None
  }

  /** The decimal text of a natural number, most significant digit first. */
  function DecimalString(n: nat): string {
    if n < 10 then [('0' as int + n) as char]
    else DecimalString(n / 10) + [('0' as int + n % 10) as char]
  }

  /** How an integer query parameter is written in a URL. */
  function IntParam(n: int): string {
    if n < 0 then "-" + DecimalString(-n) else DecimalString(n)
  }

  lemma {:induction false} DecimalStringValue(n: nat)
    ensures |DecimalString(n)| > 0 && AllDigits(DecimalString(n))
    ensures DigitsValue(DecimalString(n)) == n
  {
    if n >= 10 {
      DecimalStringValue(n / 10);
      var s := DecimalString(n);
      assert s[..|s| - 1] == DecimalString(n / 10);
    }
  }

  /** Digits alone parse to their value; after a minus sign, to its negation. */
  lemma ParseDigits(s: string)
    requires |s| > 0 && AllDigits(s)
    ensures ParseInt(s) == Some(DigitsValue(s))
    ensures ParseInt("-" + s) == Some(-(DigitsValue(s) as int))
  {
    assert IsDigit(s[0]);
    assert ("-" + s)[1..] == s;
  }

  /** Parsing the decimal text of any integer gives that integer back. */
  lemma ParseIntParam(n: int)
    ensures ParseInt(IntParam(n)) == Some(n)
  {
    var m: nat := if n < 0 then -n else n;
    DecimalStringValue(m);
    ParseDigits(DecimalString(m));
  }

  const DefaultWeeks: int := 52

  /** `int(query_params.get(name, 52))`: 52 when absent, otherwise the parsed value or an error. */
  function IntParamOr52(p: Option<string>): Option<int> {
    match p
    case None => Some(DefaultWeeks)
    case Some(s) => ParseInt(s)
  }

  /** `if value and value != "All"`: the filter is applied only to a present, non-empty value other than "All". */
  function ChoiceFilter(p: Option<string>): Option<string> {
    if p.Some? && p.value != "" && p.value != "All" then p else None
  }

  /** The filters a request resolves to. */
  datatype Query = Query(
    weeks: int,
    cooldown: int,
    startDate: Option<int>,
    endDate: Option<int>,
    sector: Option<string>,
    mcap: Option<string>)

  /** None when `weeks` or `cooldown_weeks` is not an integer (the `int()` call raises). */
  function ResolveQuery(p: QueryParams): Option<Query> {
    match (IntParamOr52(p.weeks), IntParamOr52(p.cooldownWeeks))
    case (Some(w), Some(c)) =>
      Some(Query(w, c, p.startDate, p.endDate, ChoiceFilter(p.sector), ChoiceFilter(p.mcap)))
    case _ => None
  }

  predicate Matches(r: TradingData, q: Query) {
    && r.holdingWeeks == q.weeks
    && r.cooldownSetting == q.cooldown
    && (q.startDate.Some? ==> q.startDate.value <= r.breakoutDate)
    && (q.endDate.Some? ==> r.breakoutDate <= q.endDate.value)
    && (q.sector.Some? ==> r.sector == q.sector.value)
    && (q.mcap.Some? ==> r.mcapCategory == q.mcap.value)
  }

  /** The queryset after the filter chain, in table order. */
  function FilterRecords(table: seq<TradingData>, q: Query): seq<TradingData> {
    if table == [] then []
    else
      var last := table[|table| - 1];
      FilterRecords(table[..|table| - 1], q) + (if Matches(last, q) then [last] else [])
  }

  lemma {:induction false} FilterRecordsMembers(table: seq<TradingData>, q: Query, r: TradingData)
    ensures r in FilterRecords(table, q) <==> r in table && Matches(r, q)
  {
    if table != [] {
      var init := table[..|table| - 1];
      FilterRecordsMembers(init, q, r);
      assert table == init + [table[|table| - 1]];
    }
  }

  /**
   * What a request's filters mean: absent week parameters default to 52, the
   * date range is inclusive at both ends, and a sector or market-cap
   * parameter filters only when present, non-empty and not "All".
   */
  lemma FilterSemantics(p: QueryParams, table: seq<TradingData>, r: TradingData)
    requires ResolveQuery(p).Some?
    ensures r in FilterRecords(table, ResolveQuery(p).value) <==>
      && r in table
      && (p.weeks.None? ==> r.holdingWeeks == 52)
      && (p.weeks.Some? ==> Some(r.holdingWeeks) == ParseInt(p.weeks.value))
      && (p.cooldownWeeks.None? ==> r.cooldownSetting == 52)
      && (p.cooldownWeeks.Some? ==> Some(r.cooldownSetting) == ParseInt(p.cooldownWeeks.value))
      && (p.startDate.Some? ==> p.startDate.value <= r.breakoutDate)
      && (p.endDate.Some? ==> r.breakoutDate <= p.endDate.value)
      && (p.sector.Some? && p.sector.value != "" && p.sector.value != "All" ==> r.sector == p.sector.value)
      && (p.mcap.Some? && p.mcap.value != "" && p.mcap.value != "All" ==> r.mcapCategory == p.mcap.value)
  {
    FilterRecordsMembers(table, ResolveQuery(p).value, r);
  }

  // ---------------------------------------------------------------------
  // Successful trades and return bands
  // ---------------------------------------------------------------------

  const SuccessThreshold: real := 20.0

  function Successes(s: seq<TradingData>): seq<TradingData> {
    if s == [] then []
    else
      var last := s[|s| - 1];
      Successes(s[..|s| - 1]) + (if last.returnPercentage >= SuccessThreshold then [last] else [])
  }

  /** The successful trades are exactly the records with a return of at least 20%, in order. */
  lemma {:induction false} SuccessesMembers(s: seq<TradingData>, r: TradingData)
    ensures r in Successes(s) <==> r in s && r.returnPercentage >= SuccessThreshold
  {
    if s != [] {
      SuccessesMembers(s[..|s| - 1], r);
      assert s == s[..|s| - 1] + [s[|s| - 1]];
    }
  }

  lemma {:induction false} SuccessesQualify(s: seq<TradingData>)
    ensures forall i :: 0 <= i < |Successes(s)| ==> Successes(s)[i].returnPercentage >= SuccessThreshold
  {
    if s != [] {
      SuccessesQualify(s[..|s| - 1]);
    }
  }

  /** `queryset.filter(...).filter(return_percentage__gte=20)`. */
  function SuccessRecords(table: seq<TradingData>, q: Query): seq<TradingData> {
    Successes(FilterRecords(table, q))
  }

  datatype Band = From20To40 | From40To60 | From60To80 | From80To100 | Over100

  /** The bands in column order. */
  const Bands: seq<Band> := [From20To40, From40To60, From60To80, From80To100, Over100]

  /** The position of a band in the column order. */
  function BandIndex(b: Band): (j: nat)
    ensures j < |Bands| && Bands[j] == b
  {
    match b
    case From20To40 => 0
    case From40To60 => 1
    case From60To80 => 2
    case From80To100 => 3
    case Over100 => 4
  }

  function Label(b: Band): string {
    match b
    case From20To40 => "20-40%"
    case From40To60 => "40-60%"
    case From60To80 => "60-80%"
    case From80To100 => "80-100%"
    case Over100 => ">100%"
  }

  const Labels: set<string> := {"20-40%", "40-60%", "60-80%", "80-100%", ">100%"}

  lemma LabelsOfBands()
    ensures (set j | 0 <= j < |Bands| :: Label(Bands[j])) == Labels
  {
    var ls := set j | 0 <= j < |Bands| :: Label(Bands[j]);
    assert Label(Bands[0]) in ls && Label(Bands[1]) in ls && Label(Bands[2]) in ls;
    assert Label(Bands[3]) in ls && Label(Bands[4]) in ls;
  }

  /** The bin edges [20, 40, 60, 80, 100, inf): each band is closed on the left and open on the right. */
  predicate InBand(x: real, b: Band) {
    match b
    case From20To40 => 20.0 <= x < 40.0
    case From40To60 => 40.0 <= x < 60.0
    case From60To80 => 60.0 <= x < 80.0
    case From80To100 => 80.0 <= x < 100.0
    case Over100 => 100.0 <= x
  }

  /** `pd.cut(..., right=False)` on a return of at least 20%. */
  function BandOf(x: real): (b: Band)
    requires x >= SuccessThreshold
    ensures InBand(x, b)
  {
    if x < 40.0 then From20To40
    else if x < 60.0 then From40To60
    else if x < 80.0 then From60To80
    else if x < 100.0 then From80To100
    else Over100
  }

  /** Every return of at least 20% lies in exactly one band, and none below 20% lies in any. */
  lemma BandsPartition(x: real, b: Band)
    ensures InBand(x, b) <==> x >= SuccessThreshold && b == BandOf(x)
  {
  }

  /** Python's `round()`: to the nearest integer, halves to the even neighbour. */
  function RoundHalfEven(x: real): (n: int)
    ensures -0.5 <= x - n as real <= 0.5
    ensures (x - n as real == 0.5 || x - n as real == -0.5) ==> n % 2 == 0
  {
    var f := x.Floor;
    var frac := x - f as real;
    if frac < 0.5 then f
    else if frac > 0.5 then f + 1
    else if f % 2 == 0 then f else f + 1
  }

  function RoundedDuration(r: TradingData): int {
    RoundHalfEven(r.duration)
  }

  // ---------------------------------------------------------------------
  // DashboardDataView
  // ---------------------------------------------------------------------

  /** One row of the chart: a rounded duration and a count for every band label. */
  datatype HistogramEntry = HistogramEntry(duration: int, counts: map<string, nat>)

  /** Trades in `s` whose rounded duration is `d` and whose return is in band `b`. */
  function CountIn(s: seq<TradingData>, d: int, b: Band): nat {
    if s == [] then 0
    else
      var last := s[|s| - 1];
      CountIn(s[..|s| - 1], d, b) + (if RoundedDuration(last) == d && InBand(last.returnPercentage, b) then 1 else 0)
  }

  /** The entry has all five labels, each with the number of trades of that duration in that band (0 when none). */
  ghost predicate EntryCounts(e: HistogramEntry, s: seq<TradingData>) {
    && e.counts.Keys == Labels
    && forall b :: e.counts[Label(b)] == CountIn(s, e.duration, b)
  }

  /**
   * The chart for the successful trades `s`: strictly increasing durations,
   * one entry for each rounded duration that occurs and none other, and
   * the band counts of each.
   */
  ghost predicate IsHistogram(entries: seq<HistogramEntry>, s: seq<TradingData>) {
    && (forall p, q :: 0 <= p < q < |entries| ==> entries[p].duration < entries[q].duration)
    && (forall k :: 0 <= k < |entries| ==> exists r :: r in s && RoundedDuration(r) == entries[k].duration)
    && (forall r :: r in s ==> exists k :: 0 <= k < |entries| && entries[k].duration == RoundedDuration(r))
    && (forall k :: 0 <= k < |entries| ==> EntryCounts(entries[k], s))
  }

  function Durations(s: seq<TradingData>): (ds: seq<int>)
    ensures |ds| == |s|
    ensures forall i :: 0 <= i < |s| ==> ds[i] == RoundedDuration(s[i])
  {
    if s == [] then [] else Durations(s[..|s| - 1]) + [RoundedDuration(s[|s| - 1])]
  }

  predicate IntLess(a: int, b: int) {
    a < b
  }

  predicate DurationOrder(x: HistogramEntry, y: HistogramEntry) {
    x.duration <= y.duration
  }

  /** The loop that turns each grouped row into an entry with all five labels. */
  method BuildEntries(s: seq<TradingData>, durations: seq<int>) returns (entries: seq<HistogramEntry>)
    ensures |entries| == |durations|
    ensures forall k :: 0 <= k < |entries| ==> entries[k].duration == durations[k] && EntryCounts(entries[k], s)
  {
    entries := [];
    var k := 0;
    while k < |durations|
      invariant 0 <= k <= |durations|
      invariant |entries| == k
      invariant forall j :: 0 <= j < k ==> entries[j].duration == durations[j] && EntryCounts(entries[j], s)
    {
      var counts: map<string, nat> := map[];
      var l := 0;
      while l < |Bands|
        invariant 0 <= l <= |Bands|
        invariant counts.Keys == set j | 0 <= j < l :: Label(Bands[j])
        invariant forall j :: 0 <= j < l ==> counts[Label(Bands[j])] == CountIn(s, durations[k], Bands[j])
      {
        counts := counts[Label(Bands[l]) := CountIn(s, durations[k], Bands[l])];
        l := l + 1;
      }
      LabelsOfBands();
      forall b ensures Label(b) in counts && counts[Label(b)] == CountIn(s, durations[k], b) {
        var j := BandIndex(b);
        assert Label(Bands[j]) in counts;
      }
      entries := entries + [HistogramEntry(durations[k], counts)];
      k := k + 1;
    }
  }

  datatype DashboardResponse = Chart(entries: seq<HistogramEntry>) | ServerError

  /**
   * DashboardDataView.get: the histogram of the successful filtered trades,
   * `[]` when there are none, and a server error when a week parameter is not
   * an integer.
   */
  method DashboardGet(p: QueryParams, table: seq<TradingData>) returns (resp: DashboardResponse)
    ensures ResolveQuery(p).None? <==> resp == ServerError
    ensures ResolveQuery(p).Some? ==>
      var s := SuccessRecords(table, ResolveQuery(p).value);
      && resp.Chart?
      && (s == [] ==> resp.entries == [])
      && IsHistogram(resp.entries, s)
  {
    var query := ResolveQuery(p);
    if query.None? {
      return ServerError;
    }
    var s := SuccessRecords(table, query.value);
    if s == [] {
      return Chart([]);
    }
    IntLessIsStrictTotalOrder();
    var durations := Orders.SortedDistinct(Durations(s), IntLess);
    var entries := BuildEntries(s, durations);
    EntriesInDurationOrder(entries, durations);
    EntriesAreHistogram(s, durations, entries);
    var sorted := Orders.Sorted(entries, DurationOrder);
    Orders.StableSortOfSorted(entries, DurationOrder);
    resp := Chart(sorted);
  }

  lemma EntriesAreHistogram(s: seq<TradingData>, durations: seq<int>, entries: seq<HistogramEntry>)
    requires Orders.StrictlyIncreasing(durations, IntLess)
    requires forall x :: x in durations <==> x in Durations(s)
    requires |entries| == |durations|
    requires forall k :: 0 <= k < |entries| ==> entries[k].duration == durations[k] && EntryCounts(entries[k], s)
    ensures IsHistogram(entries, s)
  {
    EntriesInDurationOrder(entries, durations);
    DistinctDurationsCover(s, durations, entries);
  }

  lemma IntLessIsStrictTotalOrder()
    ensures Orders.StrictTotalOrder(IntLess)
  {
  }

  lemma EntriesInDurationOrder(entries: seq<HistogramEntry>, durations: seq<int>)
    requires Orders.StrictlyIncreasing(durations, IntLess)
    requires |entries| == |durations|
    requires forall k :: 0 <= k < |entries| ==> entries[k].duration == durations[k]
    ensures Orders.SortedBy(entries, DurationOrder)
    ensures forall p, q :: 0 <= p < q < |entries| ==> entries[p].duration < entries[q].duration
  {
    forall p, q | 0 <= p < q < |entries| ensures entries[p].duration < entries[q].duration {
      assert IntLess(durations[p], durations[q]);
    }
  }

  lemma DistinctDurationsCover(s: seq<TradingData>, durations: seq<int>, entries: seq<HistogramEntry>)
    requires forall x :: x in durations <==> x in Durations(s)
    requires |entries| == |durations|
    requires forall k :: 0 <= k < |entries| ==> entries[k].duration == durations[k]
    ensures forall r :: r in s ==> exists k :: 0 <= k < |entries| && entries[k].duration == RoundedDuration(r)
    ensures forall k :: 0 <= k < |entries| ==> exists r :: r in s && RoundedDuration(r) == entries[k].duration
  {
    forall r | r in s ensures exists k :: 0 <= k < |entries| && entries[k].duration == RoundedDuration(r) {
      var i :| 0 <= i < |s| && s[i] == r;
      assert Durations(s)[i] in durations;
      var k :| 0 <= k < |durations| && durations[k] == Durations(s)[i];
      assert entries[k].duration == RoundedDuration(r);
    }
    forall k | 0 <= k < |entries| ensures exists r :: r in s && RoundedDuration(r) == entries[k].duration {
      assert durations[k] in Durations(s);
      var i :| 0 <= i < |s| && Durations(s)[i] == durations[k];
      assert s[i] in s;
    }
  }

  /** Bands counts of an entry summed. */
  function EntryTotal(e: HistogramEntry): nat {
    (if Label(From20To40) in e.counts then e.counts[Label(From20To40)] else 0)
    + (if Label(From40To60) in e.counts then e.counts[Label(From40To60)] else 0)
    + (if Label(From60To80) in e.counts then e.counts[Label(From60To80)] else 0)
    + (if Label(From80To100) in e.counts then e.counts[Label(From80To100)] else 0)
    + (if Label(Over100) in e.counts then e.counts[Label(Over100)] else 0)
  }

  /** All counts of the chart summed. */
  function TotalCount(entries: seq<HistogramEntry>): nat {
    if entries == [] then 0 else TotalCount(entries[..|entries| - 1]) + EntryTotal(entries[|entries| - 1])
  }

  /** Trades in `s` whose rounded duration is `d`. */
  function CountDuration(s: seq<TradingData>, d: int): nat {
    if s == [] then 0
    else CountDuration(s[..|s| - 1], d) + (if RoundedDuration(s[|s| - 1]) == d then 1 else 0)
  }

  /** For successful trades the five band counts of a duration add up to the trades of that duration. */
  lemma {:induction false} BandCountsSum(s: seq<TradingData>, d: int)
    requires forall i :: 0 <= i < |s| ==> s[i].returnPercentage >= SuccessThreshold
    ensures CountIn(s, d, From20To40) + CountIn(s, d, From40To60) + CountIn(s, d, From60To80)
          + CountIn(s, d, From80To100) + CountIn(s, d, Over100) == CountDuration(s, d)
  {
    if s != [] {
      BandCountsSum(s[..|s| - 1], d);
    }
  }

  /** Trades in `s` whose rounded duration is one of `ds`, counted duration by duration. */
  function CountDurations(s: seq<TradingData>, ds: seq<int>): nat {
    if ds == [] then 0 else CountDurations(s, ds[..|ds| - 1]) + CountDuration(s, ds[|ds| - 1])
  }

  /** How many entries of `ds` equal `x`. */
  function Hits(ds: seq<int>, x: int): nat {
    if ds == [] then 0 else Hits(ds[..|ds| - 1], x) + (if ds[|ds| - 1] == x then 1 else 0)
  }

  lemma {:induction false} HitsDistinct(ds: seq<int>, x: int)
    requires forall p, q :: 0 <= p < q < |ds| ==> ds[p] != ds[q]
    ensures Hits(ds, x) == if x in ds then 1 else 0
  {
    if ds != [] {
      var init := ds[..|ds| - 1];
      HitsDistinct(init, x);
      assert ds == init + [ds[|ds| - 1]];
      if ds[|ds| - 1] == x {
        forall p | 0 <= p < |init| ensures init[p] != x {
          assert ds[p] != ds[|ds| - 1];
        }
      }
    }
  }

  lemma {:induction false} CountDurationsStep(s: seq<TradingData>, r: TradingData, ds: seq<int>)
    ensures CountDurations(s + [r], ds) == CountDurations(s, ds) + Hits(ds, RoundedDuration(r))
  {
    if ds != [] {
      CountDurationsStep(s, r, ds[..|ds| - 1]);
      assert (s + [r])[..|s + [r]| - 1] == s;
    }
  }

  /** Over a list of distinct durations covering every trade, each trade is counted exactly once. */
  lemma {:induction false} CountDurationsCovers(s: seq<TradingData>, ds: seq<int>)
    requires forall p, q :: 0 <= p < q < |ds| ==> ds[p] != ds[q]
    requires forall i :: 0 <= i < |s| ==> RoundedDuration(s[i]) in ds
    ensures CountDurations(s, ds) == |s|
  {
    if s == [] {
      CountDurationsEmpty(ds);
    } else {
      var init := s[..|s| - 1];
      var last := s[|s| - 1];
      CountDurationsCovers(init, ds);
      assert s == init + [last];
      CountDurationsStep(init, last, ds);
      HitsDistinct(ds, RoundedDuration(last));
    }
  }

  lemma {:induction false} CountDurationsEmpty(ds: seq<int>)
    ensures CountDurations([], ds) == 0
  {
    if ds != [] {
      CountDurationsEmpty(ds[..|ds| - 1]);
    }
  }

  function EntryDurations(entries: seq<HistogramEntry>): (ds: seq<int>)
    ensures |ds| == |entries|
    ensures forall k :: 0 <= k < |entries| ==> ds[k] == entries[k].duration
  {
    if entries == [] then [] else EntryDurations(entries[..|entries| - 1]) + [entries[|entries| - 1].duration]
  }

  lemma {:induction false} TotalCountByDuration(entries: seq<HistogramEntry>, s: seq<TradingData>)
    requires forall i :: 0 <= i < |s| ==> s[i].returnPercentage >= SuccessThreshold
    requires forall k :: 0 <= k < |entries| ==> EntryCounts(entries[k], s)
    ensures TotalCount(entries) == CountDurations(s, EntryDurations(entries))
  {
    if entries != [] {
      var init := entries[..|entries| - 1];
      var e := entries[|entries| - 1];
      TotalCountByDuration(init, s);
      assert EntryDurations(entries)[..|entries| - 1] == EntryDurations(init);
      BandCountsSum(s, e.duration);
      assert EntryCounts(e, s);
      assert EntryTotal(e) == CountDuration(s, e.duration);
    }
  }

  /** Count conservation: the counts of a chart add up to the number of successful trades. */
  lemma HistogramTotal(entries: seq<HistogramEntry>, s: seq<TradingData>)
    requires forall i :: 0 <= i < |s| ==> s[i].returnPercentage >= SuccessThreshold
    requires IsHistogram(entries, s)
    ensures TotalCount(entries) == |s|
  {
    TotalCountByDuration(entries, s);
    var ds := EntryDurations(entries);
    HistogramDurationsCover(entries, s);
    CountDurationsCovers(s, ds);
  }

  lemma HistogramDurationsCover(entries: seq<HistogramEntry>, s: seq<TradingData>)
    requires forall p, q :: 0 <= p < q < |entries| ==> entries[p].duration < entries[q].duration
    requires forall r :: r in s ==> exists k :: 0 <= k < |entries| && entries[k].duration == RoundedDuration(r)
    ensures forall p, q :: 0 <= p < q < |EntryDurations(entries)| ==> EntryDurations(entries)[p] != EntryDurations(entries)[q]
    ensures forall i :: 0 <= i < |s| ==> RoundedDuration(s[i]) in EntryDurations(entries)
  {
    var ds := EntryDurations(entries);
    forall i | 0 <= i < |s| ensures RoundedDuration(s[i]) in ds {
      assert s[i] in s;
      var k :| 0 <= k < |entries| && entries[k].duration == RoundedDuration(s[i]);
      assert ds[k] == RoundedDuration(s[i]);
    }
  }

  /** The dashboard's chart counts every successful filtered trade exactly once. */
  lemma DashboardCountsAllSuccesses(table: seq<TradingData>, q: Query, entries: seq<HistogramEntry>)
    requires IsHistogram(entries, SuccessRecords(table, q))
    ensures TotalCount(entries) == |SuccessRecords(table, q)|
  {
    SuccessesQualify(FilterRecords(table, q));
    HistogramTotal(entries, SuccessRecords(table, q));
  }

  // ---------------------------------------------------------------------
  // KPIDataView
  // ---------------------------------------------------------------------

  datatype KpiResponse = KpiResponse(
    totalSamples: nat,
    mostProfitableName: string,
    mostProfitableReturn: real,
    averageDuration: real,
    successRate: real)

  /** The response for an empty selection and for any error. */
  const KpiDefault: KpiResponse := KpiResponse(0, "N/A", 0.0, 0.0, 0.0)

  /** `order_by('-return_percentage').first()`: a trade with the highest return (the first such one). */
  function MostProfitable(s: seq<TradingData>): (best: TradingData)
    requires |s| > 0
    ensures best in s
    ensures forall i :: 0 <= i < |s| ==> s[i].returnPercentage <= best.returnPercentage
  {
    if |s| == 1 then s[0]
    else
      var rest := MostProfitable(s[1..]);
      if s[0].returnPercentage >= rest.returnPercentage then s[0] else rest
  }

  function DurationValues(s: seq<TradingData>): (xs: seq<real>)
    ensures |xs| == |s|
    ensures forall i :: 0 <= i < |s| ==> xs[i] == s[i].duration
  {
    if s == [] then [] else DurationValues(s[..|s| - 1]) + [s[|s| - 1].duration]
  }

  function ReturnValues(s: seq<TradingData>): (xs: seq<real>)
    ensures |xs| == |s|
    ensures forall i :: 0 <= i < |s| ==> xs[i] == s[i].returnPercentage
  {
    if s == [] then [] else ReturnValues(s[..|s| - 1]) + [s[|s| - 1].returnPercentage]
  }

  /**
   * KPIDataView.get before rounding: the number of successful filtered
   * trades, the most profitable one, and the means of their durations and
   * returns; the default object when there are none or a parameter is bad.
   */
  function KpiGet(p: QueryParams, table: seq<TradingData>): KpiResponse {
    match ResolveQuery(p)
    case None => KpiDefault
    case Some(q) =>
      var s := SuccessRecords(table, q);
      if |s| == 0 then KpiDefault
      else
        var best := MostProfitable(s);
        KpiResponse(|s|, best.symbol, best.returnPercentage,
                    Reductions.Mean(DurationValues(s)), Reductions.Mean(ReturnValues(s)))
  }

  /**
   * What the KPI object says about a non-empty selection of successes: the
   * count, a trade of maximal return, the mean duration and the mean
   * return ("success_rate"), each lying between the smallest and largest
   * values it averages; the mean return is therefore at least 20 and at
   * most the best return.
   */
  ghost predicate SummarisesSuccesses(r: KpiResponse, s: seq<TradingData>)
    requires |s| > 0
  {
    && r.totalSamples == |s|
    && (exists best :: best in s && best.symbol == r.mostProfitableName
          && best.returnPercentage == r.mostProfitableReturn
          && forall x :: x in s ==> x.returnPercentage <= best.returnPercentage)
    && r.averageDuration == Reductions.Mean(DurationValues(s))
    && (exists i :: 0 <= i < |s| && s[i].duration <= r.averageDuration)
    && (exists j :: 0 <= j < |s| && r.averageDuration <= s[j].duration)
    && r.successRate == Reductions.Mean(ReturnValues(s))
    && SuccessThreshold <= r.successRate <= r.mostProfitableReturn
  }

  lemma KpiOfSuccesses(s: seq<TradingData>)
    requires |s| > 0
    requires forall i :: 0 <= i < |s| ==> SuccessThreshold <= s[i].returnPercentage
    ensures SummarisesSuccesses(KpiResponse(|s|, MostProfitable(s).symbol, MostProfitable(s).returnPercentage,
              Reductions.Mean(DurationValues(s)), Reductions.Mean(ReturnValues(s))), s)
  {
    var best := MostProfitable(s);
    var rets := ReturnValues(s);
    forall i | 0 <= i < |rets| ensures SuccessThreshold <= rets[i] <= best.returnPercentage {
      assert rets[i] == s[i].returnPercentage;
    }
    Reductions.MeanBounds(rets, SuccessThreshold, best.returnPercentage);
    var durations := DurationValues(s);
    Reductions.MeanBetweenValues(durations);
    var lo :| 0 <= lo < |durations| && durations[lo] <= Reductions.Mean(durations);
    var hi :| 0 <= hi < |durations| && Reductions.Mean(durations) <= durations[hi];
    assert s[lo].duration == durations[lo] && s[hi].duration == durations[hi];
    forall x | x in s ensures x.returnPercentage <= best.returnPercentage {
      var i :| 0 <= i < |s| && s[i] == x;
    }
    var r := KpiResponse(|s|, best.symbol, best.returnPercentage, Reductions.Mean(durations), Reductions.Mean(rets));
    assert r.totalSamples == |s|;
    assert best in s && best.symbol == r.mostProfitableName && best.returnPercentage == r.mostProfitableReturn;
    assert r.averageDuration == Reductions.Mean(DurationValues(s));
    assert 0 <= lo < |s| && s[lo].duration <= r.averageDuration;
    assert 0 <= hi < |s| && r.averageDuration <= s[hi].duration;
    assert r.successRate == Reductions.Mean(ReturnValues(s));
    assert SuccessThreshold <= r.successRate <= r.mostProfitableReturn;
    assert SummarisesSuccesses(r, s);
  }

  /** The KPI object is the default exactly when the request is bad or nothing qualifies, and otherwise summarises the successes. */
  lemma KpiProperties(p: QueryParams, table: seq<TradingData>)
    ensures ResolveQuery(p).None? ==> KpiGet(p, table) == KpiDefault
    ensures ResolveQuery(p).Some? ==>
      var s := SuccessRecords(table, ResolveQuery(p).value);
      && (|s| == 0 <==> KpiGet(p, table) == KpiDefault)
      && (|s| > 0 ==> SummarisesSuccesses(KpiGet(p, table), s))
  {
    if ResolveQuery(p).Some? {
      var s := SuccessRecords(table, ResolveQuery(p).value);
      if |s| > 0 {
        SuccessesQualify(FilterRecords(table, ResolveQuery(p).value));
        KpiOfSuccesses(s);
      }
    }
  }

  // ---------------------------------------------------------------------
  // DateRangeView
  // ---------------------------------------------------------------------

  datatype DateRange = DateRange(minDate: Option<int>, maxDate: Option<int>)

  function MinDate(s: seq<TradingData>): (d: int)
    requires |s| > 0
    ensures exists i :: 0 <= i < |s| && s[i].breakoutDate == d
    ensures forall i :: 0 <= i < |s| ==> d <= s[i].breakoutDate
  {
    if |s| == 1 then s[0].breakoutDate
    else
      var rest := MinDate(s[1..]);
      if s[0].breakoutDate <= rest then s[0].breakoutDate else rest
  }

  function MaxDate(s: seq<TradingData>): (d: int)
    requires |s| > 0
    ensures exists i :: 0 <= i < |s| && s[i].breakoutDate == d
    ensures forall i :: 0 <= i < |s| ==> s[i].breakoutDate <= d
  {
    if |s| == 1 then s[0].breakoutDate
    else
      var rest := MaxDate(s[1..]);
      if s[0].breakoutDate >= rest then s[0].breakoutDate else rest
  }

  /** DateRangeView filters on the holding period and cooldown only. */
  function WeeksOnly(q: Query): Query {
    q.(startDate := None, endDate := None, sector := None, mcap := None)
  }

  /**
   * DateRangeView.get: only the holding period and cooldown filter; None/None
   * when a week parameter is bad or no trade matches, otherwise the first and
   * last breakout dates of the matching trades.
   */
  function DateRangeGet(p: QueryParams, table: seq<TradingData>): (r: DateRange)
    ensures r.minDate.Some? <==> r.maxDate.Some?
    ensures ResolveQuery(p).None? ==> r == DateRange(None, None)
    ensures ResolveQuery(p).Some? ==>
      var s := FilterRecords(table, WeeksOnly(ResolveQuery(p).value));
      && (r.minDate.None? <==> s == [])
      && (r.minDate.Some? ==>
        && r.minDate.value <= r.maxDate.value
        && (forall i :: 0 <= i < |s| ==> r.minDate.value <= s[i].breakoutDate <= r.maxDate.value)
        && (exists i :: 0 <= i < |s| && s[i].breakoutDate == r.minDate.value)
        && (exists j :: 0 <= j < |s| && s[j].breakoutDate == r.maxDate.value))
  {
    match ResolveQuery(p)
    case None => DateRange(None, None)
    case Some(q) =>
      var s := FilterRecords(table, WeeksOnly(q));
      if s == [] then DateRange(None, None)
      else DateRange(Some(MinDate(s)), Some(MaxDate(s)))
  }

  /** The records DateRangeView ranges over: those with the requested holding period and cooldown. */
  lemma WeeksOnlyMembers(table: seq<TradingData>, q: Query, t: TradingData)
    ensures t in FilterRecords(table, WeeksOnly(q)) <==>
      t in table && t.holdingWeeks == q.weeks && t.cooldownSetting == q.cooldown
  {
    FilterRecordsMembers(table, WeeksOnly(q), t);
  }

  // ---------------------------------------------------------------------
  // SectorListView
  // ---------------------------------------------------------------------

  function SectorNames(table: seq<TradingData>): (names: seq<string>)
    ensures |names| == |table|
    ensures forall i :: 0 <= i < |table| ==> names[i] == table[i].sector
  {
    if table == [] then [] else SectorNames(table[..|table| - 1]) + [table[|table| - 1].sector]
  }

  /** SectorListView.get: every sector of the table once, in ascending order. */
  function SectorList(table: seq<TradingData>): (sectors: seq<string>)
    ensures forall p, q :: 0 <= p < q < |sectors| ==> Orders.StrLess(sectors[p], sectors[q])
    ensures forall p, q :: 0 <= p < q < |sectors| ==> sectors[p] != sectors[q]
    ensures forall name :: name in sectors <==> exists t :: t in table && t.sector == name
  {
    Orders.StrLessIsStrictTotalOrder();
    var names := SectorNames(table);
    var r := Orders.SortedDistinct(names, Orders.StrLess);
    assert forall name :: name in names <==> exists t :: t in table && t.sector == name by {
      forall name ensures name in names <==> exists t :: t in table && t.sector == name {
        if exists t :: t in table && t.sector == name {
          var t :| t in table && t.sector == name;
          var i :| 0 <= i < |table| && table[i] == t;
          assert names[i] == name;
        }
      }
    }
    r
  }
}
