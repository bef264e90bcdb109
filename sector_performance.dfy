/**
 * The data shaping of the sector-performance screen
 * (frontend/src/StaggeredSectorPerformance.jsx): every sector row gets the
 * mean of its four market-cap success rates, rows are ranked by that mean
 * or by name, the best and worst sector and market cap are picked, and the
 * chart grows with the number of rows.
 *
 * Rates are exact reals. The screen's state is a class whose methods are
 * the response handler of the fetch and the sort buttons.
 */
module SectorPerformance {
  import opened Optional
  import Orders
  import Reductions

  datatype Cap = Mega | Large | Mid | Small

  /** The order of `mcapCategories`, which is also the key order of `mcapAverages`. */
  const CapOrder: seq<Cap> := [Mega, Large, Mid, Small]

  /** The position of a cap in `CapOrder`. */
  function CapIndex(c: Cap): (i: nat)
    ensures i < |CapOrder| && CapOrder[i] == c
  {
    match c
    case Mega => 0
    case Large => 1
    case Mid => 2
    case Small => 3
  }

  function CapName(c: Cap): string {
    match c
    case Mega => "Mega"
    case Large => "Large"
    case Mid => "Mid"
    case Small => "Small"
  }

  /**
   * A row of the sector-performance response: the sector, the success rate
   * of each market cap that has one, and `average`, whatever the server sent
   * for it.
   */
  datatype SectorRow = SectorRow(sector: string, rates: map<Cap, real>, average: real)

  /** `item[cap] || 0`: an absent rate counts as 0. */
  function Rate(row: SectorRow, c: Cap): real {
    if c in row.rates then row.rates[c] else 0.0
  }

  function CapAverage(row: SectorRow): real {
    (Rate(row, Mega) + Rate(row, Large) + Rate(row, Mid) + Rate(row, Small)) / 4.0
  }

  /**
   * The `average` map: each row keeps its sector and rates and gets the mean
   * of its four rates, absent ones counted as 0, in place of any average it
   * came with.
   */
  function WithAverages(items: seq<SectorRow>): (rows: seq<SectorRow>)
    ensures |rows| == |items|
    ensures forall i :: 0 <= i < |items| ==>
      && rows[i].sector == items[i].sector
      && rows[i].rates == items[i].rates
      && 4.0 * rows[i].average == Rate(items[i], Mega) + Rate(items[i], Large) + Rate(items[i], Mid) + Rate(items[i], Small)
  {
    seq(|items|, i requires 0 <= i < |items| => items[i].(average := CapAverage(items[i])))
  }

  /** The computed average never depends on the average the server sent: recomputing changes nothing. */
  lemma WithAveragesIdempotent(items: seq<SectorRow>)
    ensures WithAverages(WithAverages(items)) == WithAverages(items)
  {
  }

  /** With every present rate a percentage, the average is a percentage too, and at most the largest rate. */
  lemma AverageWithinRates(row: SectorRow, hi: real)
    requires 0.0 <= hi
    requires forall c :: c in row.rates ==> 0.0 <= row.rates[c] <= hi
    ensures 0.0 <= CapAverage(row) <= hi
  {
    assert 0.0 <= Rate(row, Mega) <= hi && 0.0 <= Rate(row, Large) <= hi;
    assert 0.0 <= Rate(row, Mid) <= hi && 0.0 <= Rate(row, Small) <= hi;
  }

  // ---------------------------------------------------------------------
  // Sorting
  // ---------------------------------------------------------------------

  /** `b.average - a.average`: higher average first. */
  predicate AverageDescending(x: SectorRow, y: SectorRow) {
    x.average >= y.average
  }

  /** `a.sector.localeCompare(b.sector)`, taken as the character-code order. */
  predicate SectorAscending(x: SectorRow, y: SectorRow) {
    Orders.StrLeq(x.sector, y.sector)
  }

  lemma AverageDescendingIsTotalPreorder()
    ensures Orders.TotalPreorder(AverageDescending)
  {
  }

  /** handleSort: "average" ranks by average, any other kind by sector name. */
  function SortOrder(kind: string): (SectorRow, SectorRow) -> bool {
    if kind == "average" then AverageDescending else SectorAscending
  }

  lemma SortOrderIsTotalPreorder(kind: string)
    ensures Orders.TotalPreorder(SortOrder(kind))
  {
    if kind != "average" {
      forall x, y ensures SectorAscending(x, y) || SectorAscending(y, x) {
        Orders.StrLeqTotal(x.sector, y.sector);
      }
      forall x, y, z | SectorAscending(x, y) && SectorAscending(y, z) ensures SectorAscending(x, z) {
        Orders.StrLeqTransitive(x.sector, y.sector, z.sector);
      }
    }
  }

  /**
   * `[...data]` followed by `sorted.sort(...)`: a permutation of the rows in
   * the chosen order; rows already in that order are returned unchanged, so
   * choosing the same sort twice gives the order of choosing it once. The
   * sort is stable: rows the order ranks level keep their relative order.
   */
  method SortedCopy(data: seq<SectorRow>, kind: string) returns (sorted: seq<SectorRow>)
    ensures sorted == Orders.StableSort(data, SortOrder(kind))
    ensures multiset(sorted) == multiset(data)
    ensures Orders.SortedBy(sorted, SortOrder(kind))
    ensures Orders.SortedBy(data, SortOrder(kind)) ==> sorted == data
  {
    SortOrderIsTotalPreorder(kind);
    sorted := Orders.Sorted(data, SortOrder(kind));
    Orders.StableSortSorted(data, SortOrder(kind));
    if Orders.SortedBy(data, SortOrder(kind)) {
      Orders.StableSortOfSorted(data, SortOrder(kind));
    }
  }

  /** Sorting by average ranks higher averages first. */
  lemma AverageSortDescending(rows: seq<SectorRow>, p: nat, q: nat)
    requires Orders.SortedBy(rows, SortOrder("average"))
    requires p < q < |rows|
    ensures rows[q].average <= rows[p].average
  {
    assert SortOrder("average")(rows[p], rows[q]);
  }

  /** Any other sort lists sector names in ascending order. */
  lemma NameSortAscending(rows: seq<SectorRow>, kind: string, p: nat, q: nat)
    requires kind != "average"
    requires Orders.SortedBy(rows, SortOrder(kind))
    requires p < q < |rows|
    ensures Orders.StrLeq(rows[p].sector, rows[q].sector)
  {
    assert SortOrder(kind)(rows[p], rows[q]);
  }

  /** The rows whose average is `v`, in their order in `rows`. */
  function WithAverage(rows: seq<SectorRow>, v: real): (r: seq<SectorRow>)
    ensures forall x :: x in r <==> x in rows && x.average == v
  {
    if rows == [] then []
    else
      var y := rows[|rows| - 1];
      WithAverage(rows[..|rows| - 1], v) + (if y.average == v then [y] else [])
  }

  lemma {:induction false} WithAverageIsTies(rows: seq<SectorRow>, x: SectorRow)
    ensures Orders.Ties(rows, x, AverageDescending) == WithAverage(rows, x.average)
  {
    if rows != [] {
      WithAverageIsTies(rows[..|rows| - 1], x);
    }
  }

  /**
   * Ranking by average is stable: the rows sharing an average come out in
   * the order they had before, so after a sort by name, rows with equal
   * averages stay in name order.
   */
  lemma EqualAveragesKeepOrder(data: seq<SectorRow>, x: SectorRow)
    ensures WithAverage(Orders.StableSort(data, SortOrder("average")), x.average) == WithAverage(data, x.average)
  {
    assert SortOrder("average") == AverageDescending;
    SortOrderIsTotalPreorder("average");
    Orders.StableSortKeepsTies(data, x, AverageDescending);
    WithAverageIsTies(data, x);
    WithAverageIsTies(Orders.StableSort(data, AverageDescending), x);
  }

  // ---------------------------------------------------------------------
  // Market-cap means
  // ---------------------------------------------------------------------

  /** `rows.map(item => item[cap] || 0).filter(val => val > 0)`, in row order. */
  function PositiveRates(rows: seq<SectorRow>, c: Cap): seq<real> {
    if rows == [] then []
    else
      var v := Rate(rows[|rows| - 1], c);
      PositiveRates(rows[..|rows| - 1], c) + (if v > 0.0 then [v] else [])
  }

  /** The values averaged for a cap are exactly the strictly positive rates of that cap. */
  lemma {:induction false} PositiveRatesMembers(rows: seq<SectorRow>, c: Cap, v: real)
    ensures v in PositiveRates(rows, c) <==> v > 0.0 && exists i :: 0 <= i < |rows| && Rate(rows[i], c) == v
  {
    if rows != [] {
      var init := rows[..|rows| - 1];
      PositiveRatesMembers(init, c, v);
      if exists i :: 0 <= i < |rows| && Rate(rows[i], c) == v {
        var i :| 0 <= i < |rows| && Rate(rows[i], c) == v;
        if i < |init| {
          assert Rate(init[i], c) == v;
        }
      }
      if exists i :: 0 <= i < |init| && Rate(init[i], c) == v {
        var i :| 0 <= i < |init| && Rate(init[i], c) == v;
        assert Rate(rows[i], c) == v;
      }
    }
  }

  lemma {:induction false} PositiveRatesPositive(rows: seq<SectorRow>, c: Cap)
    ensures forall k :: 0 <= k < |PositiveRates(rows, c)| ==> PositiveRates(rows, c)[k] > 0.0
  {
    if rows != [] {
      PositiveRatesPositive(rows[..|rows| - 1], c);
    }
  }

  /** Some sector has a strictly positive rate for the cap. */
  predicate HasPositive(rows: seq<SectorRow>, c: Cap) {
    exists i :: 0 <= i < |rows| && Rate(rows[i], c) > 0.0
  }

  lemma PositiveRatesEmpty(rows: seq<SectorRow>, c: Cap)
    ensures PositiveRates(rows, c) != [] <==> HasPositive(rows, c)
  {
    if HasPositive(rows, c) {
      var i :| 0 <= i < |rows| && Rate(rows[i], c) > 0.0;
      PositiveRatesMembers(rows, c, Rate(rows[i], c));
    }
    if PositiveRates(rows, c) != [] {
      PositiveRatesMembers(rows, c, PositiveRates(rows, c)[0]);
    }
  }

  /** The mean of a cap's strictly positive rates. */
  function CapMean(rows: seq<SectorRow>, c: Cap): real
    requires PositiveRates(rows, c) != []
  {
    Reductions.Mean(PositiveRates(rows, c))
  }

  lemma AllCapsListed(c: Cap)
    ensures c in CapOrder
  {
    match c
    case Mega => assert CapOrder[0] == c;
    case Large => assert CapOrder[1] == c;
    case Mid => assert CapOrder[2] == c;
    case Small => assert CapOrder[3] == c;
  }

  /**
   * The `mcapAverages` loop: a cap gets an entry exactly when some sector has
   * a strictly positive rate for it, and the entry is the mean of those rates.
   */
  method McapAverages(rows: seq<SectorRow>) returns (averages: map<Cap, real>)
    ensures forall c :: c in averages <==> HasPositive(rows, c)
    ensures forall c :: c in averages ==> PositiveRates(rows, c) != [] && averages[c] == CapMean(rows, c)
  {
    averages := map[];
    var k := 0;
    while k < |CapOrder|
      invariant 0 <= k <= |CapOrder|
      invariant forall c :: c in averages <==> c in CapOrder[..k] && PositiveRates(rows, c) != []
      invariant forall c :: c in averages ==> PositiveRates(rows, c) != [] && averages[c] == CapMean(rows, c)
    {
      var c := CapOrder[k];
      var values := PositiveRates(rows, c);
      if |values| > 0 {
        averages := averages[c := Reductions.Sum(values) / |values| as real];
      }
      assert CapOrder[..k + 1] == CapOrder[..k] + [c];
      k := k + 1;
    }
    assert CapOrder[..k] == CapOrder;
    forall c ensures c in averages <==> HasPositive(rows, c) {
      PositiveRatesEmpty(rows, c);
      AllCapsListed(c);
    }
  }

  /** A cap's mean is strictly positive and lies between the smallest and largest positive rate of the cap. */
  lemma CapMeanBounds(rows: seq<SectorRow>, c: Cap, lo: real, hi: real)
    requires PositiveRates(rows, c) != []
    requires forall i :: 0 <= i < |rows| && Rate(rows[i], c) > 0.0 ==> lo <= Rate(rows[i], c) <= hi
    ensures CapMean(rows, c) > 0.0
    ensures lo <= CapMean(rows, c) <= hi
  {
    var values := PositiveRates(rows, c);
    PositiveRatesPositive(rows, c);
    Reductions.MeanPositive(values);
    forall k | 0 <= k < |values| ensures lo <= values[k] <= hi {
      PositiveRatesMembers(rows, c, values[k]);
    }
    Reductions.MeanBounds(values, lo, hi);
  }

  /** `Object.entries(mcapAverages)`: the entries in key insertion order, that is in cap order. */
  function EntriesOf(averages: map<Cap, real>, caps: seq<Cap>): (entries: seq<(Cap, real)>)
    ensures forall e :: e in entries <==> e.0 in caps && e.0 in averages && e.1 == averages[e.0]
  {
    if caps == [] then []
    else
      var c := caps[|caps| - 1];
      EntriesOf(averages, caps[..|caps| - 1]) + (if c in averages then [(c, averages[c])] else [])
  }

  /** The entries of `CapOrder[..m]` come in strictly increasing cap order, all before position `m`. */
  lemma {:induction false} EntriesInCapOrder(averages: map<Cap, real>, m: nat)
    requires m <= |CapOrder|
    ensures forall p :: 0 <= p < |EntriesOf(averages, CapOrder[..m])| ==> CapIndex(EntriesOf(averages, CapOrder[..m])[p].0) < m
    ensures forall p, q :: 0 <= p < q < |EntriesOf(averages, CapOrder[..m])| ==>
      CapIndex(EntriesOf(averages, CapOrder[..m])[p].0) < CapIndex(EntriesOf(averages, CapOrder[..m])[q].0)
  {
    if m > 0 {
      EntriesInCapOrder(averages, m - 1);
      assert CapOrder[..m][..m - 1] == CapOrder[..m - 1];
      assert CapIndex(CapOrder[m - 1]) == m - 1;
    }
  }

  /** `b[1] - a[1]`: higher mean first. */
  predicate EntryDescending(x: (Cap, real), y: (Cap, real)) {
    x.1 >= y.1
  }

  lemma EntryDescendingIsTotalPreorder()
    ensures Orders.TotalPreorder(EntryDescending)
  {
  }

  // ---------------------------------------------------------------------
  // KPIs
  // ---------------------------------------------------------------------

  datatype Kpi = Kpi(name: string, rate: real)

  datatype Kpis = Kpis(bestSector: Kpi, worstSector: Kpi, bestMcap: Kpi, worstMcap: Kpi)

  const InitialKpis: Kpis := Kpis(Kpi("-", 0.0), Kpi("-", 0.0), Kpi("-", 0.0), Kpi("-", 0.0))

  /**
   * The cap with the greatest mean, with that mean; of caps tied for it,
   * the first in `CapOrder`.
   */
  ghost predicate IsBestMcap(k: Kpi, rows: seq<SectorRow>) {
    exists c :: PositiveRates(rows, c) != [] && k == Kpi(CapName(c), CapMean(rows, c))
      && (forall c' :: PositiveRates(rows, c') != [] ==> CapMean(rows, c') <= k.rate)
      && (forall c' :: PositiveRates(rows, c') != [] && CapIndex(c') < CapIndex(c) ==> CapMean(rows, c') < k.rate)
  }

  /**
   * The cap with the least mean, with that mean; of caps tied for it, the
   * last in `CapOrder`.
   */
  ghost predicate IsWorstMcap(k: Kpi, rows: seq<SectorRow>) {
    exists c :: PositiveRates(rows, c) != [] && k == Kpi(CapName(c), CapMean(rows, c))
      && (forall c' :: PositiveRates(rows, c') != [] ==> k.rate <= CapMean(rows, c'))
      && (forall c' :: PositiveRates(rows, c') != [] && CapIndex(c) < CapIndex(c') ==> k.rate < CapMean(rows, c'))
  }

  /**
   * The sector with the greatest average in the response, with that
   * average; of sectors tied for it, the first in response order.
   */
  ghost predicate IsBestSector(k: Kpi, processed: seq<SectorRow>) {
    exists i :: 0 <= i < |processed| && k == Kpi(processed[i].sector, processed[i].average)
      && (forall j :: 0 <= j < |processed| ==> processed[j].average <= k.rate)
      && (forall j :: 0 <= j < i ==> processed[j].average < k.rate)
  }

  /**
   * The sector with the least average in the response, with that average;
   * of sectors tied for it, the last in response order.
   */
  ghost predicate IsWorstSector(k: Kpi, processed: seq<SectorRow>) {
    exists i :: 0 <= i < |processed| && k == Kpi(processed[i].sector, processed[i].average)
      && (forall j :: 0 <= j < |processed| ==> k.rate <= processed[j].average)
      && (forall j :: i < j < |processed| ==> k.rate < processed[j].average)
  }

  lemma FirstLeastIsBest(processed: seq<SectorRow>, i: int)
    requires Orders.IsFirstLeast(processed, i, AverageDescending)
    ensures IsBestSector(Kpi(processed[i].sector, processed[i].average), processed)
  {
    var k := Kpi(processed[i].sector, processed[i].average);
    forall j | 0 <= j < |processed| ensures processed[j].average <= k.rate {
      assert AverageDescending(processed[i], processed[j]);
    }
    forall j | 0 <= j < i ensures processed[j].average < k.rate {
      assert !AverageDescending(processed[j], processed[i]);
    }
  }

  lemma LastGreatestIsWorst(processed: seq<SectorRow>, i: int)
    requires Orders.IsLastGreatest(processed, i, AverageDescending)
    ensures IsWorstSector(Kpi(processed[i].sector, processed[i].average), processed)
  {
    var k := Kpi(processed[i].sector, processed[i].average);
    forall j | 0 <= j < |processed| ensures k.rate <= processed[j].average {
      assert AverageDescending(processed[j], processed[i]);
    }
    forall j | i < j < |processed| ensures k.rate < processed[j].average {
      assert !AverageDescending(processed[i], processed[j]);
    }
  }

  /** The first row of the ranking by average is the best sector of the response, ties settled by response order. */
  lemma RankedFirstIsBest(processed: seq<SectorRow>)
    requires |processed| > 0
    ensures var rows := Orders.StableSort(processed, AverageDescending);
      IsBestSector(Kpi(rows[0].sector, rows[0].average), processed)
  {
    var rows := Orders.StableSort(processed, AverageDescending);
    assert exists i :: Orders.IsFirstLeast(processed, i, AverageDescending) && rows[0] == processed[i] by {
      AverageDescendingIsTotalPreorder();
      Orders.StableSortFirst(processed, AverageDescending);
    }
    var i :| Orders.IsFirstLeast(processed, i, AverageDescending) && rows[0] == processed[i];
    FirstLeastIsBest(processed, i);
  }

  /** The last row of the ranking by average is the worst sector of the response, ties settled by response order. */
  lemma RankedLastIsWorst(processed: seq<SectorRow>)
    requires |processed| > 0
    ensures var rows := Orders.StableSort(processed, AverageDescending);
      IsWorstSector(Kpi(rows[|rows| - 1].sector, rows[|rows| - 1].average), processed)
  {
    var rows := Orders.StableSort(processed, AverageDescending);
    assert exists i :: Orders.IsLastGreatest(processed, i, AverageDescending) && rows[|rows| - 1] == processed[i] by {
      AverageDescendingIsTotalPreorder();
      Orders.StableSortLast(processed, AverageDescending);
    }
    var i :| Orders.IsLastGreatest(processed, i, AverageDescending) && rows[|rows| - 1] == processed[i];
    LastGreatestIsWorst(processed, i);
  }

  /** The KPI tiles for ranked rows: first and last row, and the extreme cap means. */
  ghost predicate IsKpiSummary(k: Kpis, rows: seq<SectorRow>) {
    && |rows| > 0
    && k.bestSector == Kpi(rows[0].sector, rows[0].average)
    && k.worstSector == Kpi(rows[|rows| - 1].sector, rows[|rows| - 1].average)
    && IsBestMcap(k.bestMcap, rows)
    && IsWorstMcap(k.worstMcap, rows)
  }

  /** In rows ranked by average, the best sector's average bounds every row's from above and the worst's from below. */
  lemma BestAndWorstSector(k: Kpis, rows: seq<SectorRow>, i: nat)
    requires IsKpiSummary(k, rows)
    requires Orders.SortedBy(rows, AverageDescending)
    requires i < |rows|
    ensures k.worstSector.rate <= rows[i].average <= k.bestSector.rate
  {
    if 0 < i {
      assert AverageDescending(rows[0], rows[i]);
    }
    if i < |rows| - 1 {
      assert AverageDescending(rows[i], rows[|rows| - 1]);
    }
  }

  /** `rows` is the response with averages, ranked by average highest first by the stable sort. */
  ghost predicate IsRanking(rows: seq<SectorRow>, items: seq<SectorRow>) {
    rows == Orders.StableSort(WithAverages(items), AverageDescending)
  }

  /** The ranking is ordered by average, highest first, and holds exactly the response rows with their averages. */
  lemma RankingIsSortedPermutation(rows: seq<SectorRow>, items: seq<SectorRow>)
    requires IsRanking(rows, items)
    ensures multiset(rows) == multiset(WithAverages(items))
    ensures Orders.SortedBy(rows, AverageDescending)
    ensures |rows| == |items|
  {
    AverageDescendingIsTotalPreorder();
    Orders.StableSortSorted(WithAverages(items), AverageDescending);
  }

  /**
   * The KPI tiles of a non-empty ranking: first and last row, which are the
   * best and worst sector of the response with ties settled by response
   * order, and the best and worst cap.
   */
  ghost predicate IsKpisOf(k: Kpis, rows: seq<SectorRow>, items: seq<SectorRow>) {
    && IsKpiSummary(k, rows)
    && IsBestSector(k.bestSector, WithAverages(items))
    && IsWorstSector(k.worstSector, WithAverages(items))
  }

  /** No sector has a strictly positive rate for any cap. */
  predicate NoPositiveRate(items: seq<SectorRow>) {
    forall c, i :: 0 <= i < |items| ==> Rate(items[i], c) <= 0.0
  }

  datatype FetchOutcome = Loaded(rows: seq<SectorRow>, kpis: Option<Kpis>) | Rejected

  /** The positive rates of a cap do not depend on the order or on the averages of the rows. */
  lemma HasPositivePermutation(rows: seq<SectorRow>, items: seq<SectorRow>, c: Cap)
    requires multiset(rows) == multiset(WithAverages(items))
    ensures HasPositive(rows, c) <==> HasPositive(items, c)
  {
    var processed := WithAverages(items);
    if HasPositive(rows, c) {
      var i :| 0 <= i < |rows| && Rate(rows[i], c) > 0.0;
      assert rows[i] in multiset(processed);
      var j :| 0 <= j < |processed| && processed[j] == rows[i];
      assert Rate(items[j], c) > 0.0;
    }
    if HasPositive(items, c) {
      var j :| 0 <= j < |items| && Rate(items[j], c) > 0.0;
      assert processed[j] in multiset(rows);
      var i :| 0 <= i < |rows| && rows[i] == processed[j];
      assert Rate(rows[i], c) > 0.0;
    }
  }

  /** Whether some cap has a positive rate does not depend on the order or on the averages of the rows. */
  lemma NoPositiveRatePermutation(rows: seq<SectorRow>, items: seq<SectorRow>)
    requires multiset(rows) == multiset(WithAverages(items))
    ensures NoPositiveRate(items) <==> forall c :: !HasPositive(rows, c)
  {
    forall c ensures HasPositive(rows, c) <==> HasPositive(items, c) {
      HasPositivePermutation(rows, items, c);
    }
    if !NoPositiveRate(items) {
      var c, i :| 0 <= i < |items| && Rate(items[i], c) > 0.0;
      assert HasPositive(items, c);
    }
  }

  /** The first ranked entry has the greatest value, the last the least, and both are entries of the map. */
  lemma RankedEntries(sorted: seq<(Cap, real)>, averages: map<Cap, real>)
    requires |sorted| > 0
    requires multiset(sorted) == multiset(EntriesOf(averages, CapOrder))
    requires Orders.SortedBy(sorted, EntryDescending)
    ensures sorted[0].0 in averages && sorted[0].1 == averages[sorted[0].0]
    ensures sorted[|sorted| - 1].0 in averages && sorted[|sorted| - 1].1 == averages[sorted[|sorted| - 1].0]
    ensures forall c :: c in averages ==> sorted[|sorted| - 1].1 <= averages[c] <= sorted[0].1
  {
    var entries := EntriesOf(averages, CapOrder);
    assert sorted[0] in multiset(entries);
    assert sorted[|sorted| - 1] in multiset(entries);
    forall c | c in averages
      ensures sorted[|sorted| - 1].1 <= averages[c] <= sorted[0].1
    {
      AllCapsListed(c);
      var e := (c, averages[c]);
      assert e in entries;
      assert e in multiset(sorted);
      var j :| 0 <= j < |sorted| && sorted[j] == e;
      if 0 < j {
        assert EntryDescending(sorted[0], sorted[j]);
      }
      if j < |sorted| - 1 {
        assert EntryDescending(sorted[j], sorted[|sorted| - 1]);
      }
    }
  }

  /** The caps with a positive rate are exactly the keys of `averages`, each mapped to its cap's mean. */
  ghost predicate AveragesOf(averages: map<Cap, real>, rows: seq<SectorRow>) {
    && (forall c :: c in averages <==> PositiveRates(rows, c) != [])
    && (forall c :: c in averages ==> PositiveRates(rows, c) != [] && averages[c] == CapMean(rows, c))
  }

  /** Of two entries, the one of the earlier cap comes first. */
  lemma EntryPositionsInCapOrder(averages: map<Cap, real>, p: int, q: int)
    requires 0 <= p < |EntriesOf(averages, CapOrder)| && 0 <= q < |EntriesOf(averages, CapOrder)|
    ensures CapIndex(EntriesOf(averages, CapOrder)[p].0) < CapIndex(EntriesOf(averages, CapOrder)[q].0) <==> p < q
  {
    EntriesInCapOrder(averages, |CapOrder|);
    assert CapOrder[..|CapOrder|] == CapOrder;
  }

  /** Every cap with a positive rate has its entry at some position of the entry list. */
  lemma EntryPosition(averages: map<Cap, real>, rows: seq<SectorRow>, c': Cap) returns (j: nat)
    requires AveragesOf(averages, rows) && PositiveRates(rows, c') != []
    ensures j < |EntriesOf(averages, CapOrder)|
    ensures EntriesOf(averages, CapOrder)[j] == (c', CapMean(rows, c'))
  {
    AllCapsListed(c');
    var entries := EntriesOf(averages, CapOrder);
    assert (c', averages[c']) in entries;
    j :| 0 <= j < |entries| && entries[j] == (c', averages[c']);
  }

  /** An entry that may precede every entry, with every entry of an earlier cap strictly below it, is the best cap. */
  lemma FirstLeastIsBestMcap(averages: map<Cap, real>, rows: seq<SectorRow>, i: int)
    requires AveragesOf(averages, rows)
    requires Orders.IsFirstLeast(EntriesOf(averages, CapOrder), i, EntryDescending)
    ensures var e := EntriesOf(averages, CapOrder)[i];
      IsBestMcap(Kpi(CapName(e.0), e.1), rows)
  {
    var entries := EntriesOf(averages, CapOrder);
    var c := entries[i].0;
    assert PositiveRates(rows, c) != [] && entries[i].1 == CapMean(rows, c);
    forall c' | PositiveRates(rows, c') != []
      ensures CapMean(rows, c') <= entries[i].1
      ensures CapIndex(c') < CapIndex(c) ==> CapMean(rows, c') < entries[i].1
    {
      var j := EntryPosition(averages, rows, c');
      assert EntryDescending(entries[i], entries[j]);
      EntryPositionsInCapOrder(averages, j, i);
      if CapIndex(c') < CapIndex(c) {
        assert !EntryDescending(entries[j], entries[i]);
      }
    }
  }

  /** An entry that may follow every entry, with every entry of a later cap strictly above it, is the worst cap. */
  lemma LastGreatestIsWorstMcap(averages: map<Cap, real>, rows: seq<SectorRow>, i: int)
    requires AveragesOf(averages, rows)
    requires Orders.IsLastGreatest(EntriesOf(averages, CapOrder), i, EntryDescending)
    ensures var e := EntriesOf(averages, CapOrder)[i];
      IsWorstMcap(Kpi(CapName(e.0), e.1), rows)
  {
    var entries := EntriesOf(averages, CapOrder);
    var c := entries[i].0;
    assert PositiveRates(rows, c) != [] && entries[i].1 == CapMean(rows, c);
    forall c' | PositiveRates(rows, c') != []
      ensures entries[i].1 <= CapMean(rows, c')
      ensures CapIndex(c) < CapIndex(c') ==> entries[i].1 < CapMean(rows, c')
    {
      var j := EntryPosition(averages, rows, c');
      assert EntryDescending(entries[j], entries[i]);
      EntryPositionsInCapOrder(averages, i, j);
      if CapIndex(c) < CapIndex(c') {
        assert !EntryDescending(entries[i], entries[j]);
      }
    }
  }

  /**
   * The first of the stably ranked cap entries has the greatest mean and,
   * of caps tied for it, comes first in `CapOrder`.
   */
  lemma FirstEntryIsBest(averages: map<Cap, real>, rows: seq<SectorRow>)
    requires EntriesOf(averages, CapOrder) != []
    requires AveragesOf(averages, rows)
    ensures var sorted := Orders.StableSort(EntriesOf(averages, CapOrder), EntryDescending);
      IsBestMcap(Kpi(CapName(sorted[0].0), sorted[0].1), rows)
  {
    var entries := EntriesOf(averages, CapOrder);
    var sorted := Orders.StableSort(entries, EntryDescending);
    assert exists i :: Orders.IsFirstLeast(entries, i, EntryDescending) && sorted[0] == entries[i] by {
      EntryDescendingIsTotalPreorder();
      Orders.StableSortFirst(entries, EntryDescending);
    }
    var i :| Orders.IsFirstLeast(entries, i, EntryDescending) && sorted[0] == entries[i];
    FirstLeastIsBestMcap(averages, rows, i);
  }

  /**
   * The last of the stably ranked cap entries has the least mean and, of
   * caps tied for it, comes last in `CapOrder`.
   */
  lemma LastEntryIsWorst(averages: map<Cap, real>, rows: seq<SectorRow>)
    requires EntriesOf(averages, CapOrder) != []
    requires AveragesOf(averages, rows)
    ensures var sorted := Orders.StableSort(EntriesOf(averages, CapOrder), EntryDescending);
      IsWorstMcap(Kpi(CapName(sorted[|sorted| - 1].0), sorted[|sorted| - 1].1), rows)
  {
    var entries := EntriesOf(averages, CapOrder);
    var sorted := Orders.StableSort(entries, EntryDescending);
    assert exists i :: Orders.IsLastGreatest(entries, i, EntryDescending) && sorted[|sorted| - 1] == entries[i] by {
      EntryDescendingIsTotalPreorder();
      Orders.StableSortLast(entries, EntryDescending);
    }
    var i :| Orders.IsLastGreatest(entries, i, EntryDescending) && sorted[|sorted| - 1] == entries[i];
    LastGreatestIsWorstMcap(averages, rows, i);
  }

  /** The cap entries are empty exactly when no cap has a positive rate. */
  lemma EntriesCoverPositive(rows: seq<SectorRow>, averages: map<Cap, real>)
    requires forall c :: c in averages <==> HasPositive(rows, c)
    ensures EntriesOf(averages, CapOrder) == [] <==> forall c :: !HasPositive(rows, c)
  {
    forall c | HasPositive(rows, c) ensures (c, averages[c]) in EntriesOf(averages, CapOrder) {
      AllCapsListed(c);
    }
    if EntriesOf(averages, CapOrder) != [] {
      assert HasPositive(rows, EntriesOf(averages, CapOrder)[0].0);
    }
  }

  /**
   * `mcapEntries[0]` and `mcapEntries[mcapEntries.length - 1]` after the
   * stable sort by mean: the first entry is the earliest one whose mean is
   * greatest, the last the latest one whose mean is least.
   */
  method CapExtremes(entries: seq<(Cap, real)>) returns (best: (Cap, real), worst: (Cap, real))
    requires entries != []
    ensures exists i :: Orders.IsFirstLeast(entries, i, EntryDescending) && best == entries[i]
    ensures exists i :: Orders.IsLastGreatest(entries, i, EntryDescending) && worst == entries[i]
  {
    EntryDescendingIsTotalPreorder();
    var sorted := Orders.Sorted(entries, EntryDescending);
    best, worst := sorted[0], sorted[|sorted| - 1];
    Orders.StableSortFirst(entries, EntryDescending);
    Orders.StableSortLast(entries, EntryDescending);
  }

  /**
   * `mcapEntries` sorted by mean, highest first, and its first and last
   * entry; None when no cap has a positive rate, so that the list is empty.
   */
  method McapKpis(rows: seq<SectorRow>) returns (extremes: Option<(Kpi, Kpi)>)
    ensures extremes.None? <==> forall c :: !HasPositive(rows, c)
    ensures extremes.Some? ==> IsBestMcap(extremes.value.0, rows) && IsWorstMcap(extremes.value.1, rows)
  {
    var averages := McapAverages(rows);
    var entries := EntriesOf(averages, CapOrder);
    EntriesCoverPositive(rows, averages);
    if |entries| == 0 {
      return None;
    }
    var best, worst := CapExtremes(entries);
    assert IsBestMcap(Kpi(CapName(best.0), best.1), rows) && IsWorstMcap(Kpi(CapName(worst.0), worst.1), rows) by {
      forall c ensures c in averages <==> PositiveRates(rows, c) != [] {
        PositiveRatesEmpty(rows, c);
      }
      var i :| Orders.IsFirstLeast(entries, i, EntryDescending) && best == entries[i];
      FirstLeastIsBestMcap(averages, rows, i);
      var l :| Orders.IsLastGreatest(entries, l, EntryDescending) && worst == entries[l];
      LastGreatestIsWorstMcap(averages, rows, l);
    }
    extremes := Some((Kpi(CapName(best.0), best.1), Kpi(CapName(worst.0), worst.1)));
  }

  /**
   * The response handler: adds the averages, ranks the rows by average and,
   * when there is at least one row, derives the KPIs. With rows but no
   * strictly positive rate anywhere, `mcapEntries[0]` is undefined, reading
   * it throws, and the promise rejects before anything is stored.
   */
  method ProcessResponse(items: seq<SectorRow>) returns (outcome: FetchOutcome)
    ensures outcome.Rejected? <==> |items| > 0 && NoPositiveRate(items)
    ensures outcome.Loaded? ==>
      && IsRanking(outcome.rows, items)
      && (outcome.kpis.Some? <==> |items| > 0)
      && (outcome.kpis.Some? ==> IsKpisOf(outcome.kpis.value, outcome.rows, items))
  {
    var rows := SortedCopy(WithAverages(items), "average");
    assert SortOrder("average") == AverageDescending;
    assert |rows| == |items| by {
      assert |multiset(rows)| == |multiset(WithAverages(items))|;
    }
    if |rows| == 0 {
      return Loaded(rows, None);
    }
    var best, worst := rows[0], rows[|rows| - 1];
    RankedFirstIsBest(WithAverages(items));
    RankedLastIsWorst(WithAverages(items));
    var mcaps := McapKpis(rows);
    NoPositiveRatePermutation(rows, items);
    if mcaps.None? {
      return Rejected;
    }
    var kpis := Kpis(Kpi(best.sector, best.average), Kpi(worst.sector, worst.average), mcaps.value.0, mcaps.value.1);
    outcome := Loaded(rows, Some(kpis));
  }

  /** Two sectors: A with Mega 80 and Large 60 only, B with 50 everywhere. */
  const ExampleA: SectorRow := SectorRow("A", map[Mega := 80.0, Large := 60.0, Mid := 0.0, Small := 0.0], 0.0)
  const ExampleB: SectorRow := SectorRow("B", map[Mega := 50.0, Large := 50.0, Mid := 50.0, Small := 50.0], 0.0)

  /** A averages 35 and B 50, so every ranking by average puts B first. */
  lemma ExampleRanking(rows: seq<SectorRow>)
    requires multiset(rows) == multiset(WithAverages([ExampleA, ExampleB]))
    requires Orders.SortedBy(rows, AverageDescending)
    ensures WithAverages([ExampleA, ExampleB])[0].average == 35.0
    ensures WithAverages([ExampleA, ExampleB])[1].average == 50.0
    ensures rows[0].sector == "B"
  {
    var processed := WithAverages([ExampleA, ExampleB]);
    var a, b := processed[0], processed[1];
    assert a.average == 35.0 && b.average == 50.0;
    assert |rows| == 2 by {
      assert |multiset(rows)| == |multiset(processed)|;
    }
    assert rows[0] in multiset(processed) && rows[1] in multiset(processed);
    assert b in multiset(rows);
    assert AverageDescending(rows[0], rows[1]);
  }

  // ---------------------------------------------------------------------
  // Screen state
  // ---------------------------------------------------------------------

  const FetchError: string := "Error fetching data."
  const MinChartHeight: int := 600
  const RowHeight: int := 35

  class SectorPerformanceView {
    var data: seq<SectorRow>
    var loading: bool
    var error: Option<string>
    var sortBy: string
    var kpis: Kpis

    constructor ()
      ensures data == [] && loading && error == None && sortBy == "average" && kpis == InitialKpis
    {
      data := [];
      loading := true;
      error := None;
      sortBy := "average";
      kpis := InitialKpis;
    }

    /**
     * The mount effect and its promise: `response` is None when the request
     * fails. A failure or a rejection sets the error and keeps the data and
     * KPIs; otherwise the ranked rows are stored and the KPIs replaced when
     * there is at least one row.
     */
    method Load(response: Option<seq<SectorRow>>)
      modifies this
      ensures !loading && sortBy == old(sortBy)
      ensures response.None? || (|response.value| > 0 && NoPositiveRate(response.value)) ==>
        data == old(data) && kpis == old(kpis) && error == Some(FetchError)
      ensures response.Some? && !(|response.value| > 0 && NoPositiveRate(response.value)) ==>
        && error == old(error)
        && IsRanking(data, response.value)
        && (|response.value| == 0 ==> kpis == old(kpis))
        && (|response.value| > 0 ==> IsKpisOf(kpis, data, response.value))
    {
      loading := true;
      if response.None? {
        error := Some(FetchError);
        loading := false;
        return;
      }
      var outcome := ProcessResponse(response.value);
      match outcome
      case Rejected =>
        error := Some(FetchError);
        loading := false;
      case Loaded(rows, newKpis) =>
        if newKpis.Some? {
          kpis := newKpis.value;
        }
        data := rows;
        loading := false;
    }

    /** handleSort: records the kind and stores a sorted copy of the rows. */
    method HandleSort(kind: string)
      modifies this
      ensures sortBy == kind
      ensures data == Orders.StableSort(old(data), SortOrder(kind))
      ensures multiset(data) == multiset(old(data))
      ensures Orders.SortedBy(data, SortOrder(kind))
      ensures Orders.SortedBy(old(data), SortOrder(kind)) ==> data == old(data)
      ensures kpis == old(kpis) && loading == old(loading) && error == old(error)
    {
      sortBy := kind;
      var sorted := SortedCopy(data, kind);
      data := sorted;
    }

    /** `Math.max(600, data.length * 35)`: never below 600, always room for 35 pixels a row. */
    function ChartHeight(): (h: int)
      reads this
      ensures h >= MinChartHeight && h >= RowHeight * |data|
      ensures h == MinChartHeight <==> RowHeight * |data| <= MinChartHeight
      ensures h == MinChartHeight || h == RowHeight * |data|
    {
      if RowHeight * |data| > MinChartHeight then RowHeight * |data| else MinChartHeight
    }
  }
}
