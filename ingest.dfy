/**
 * The ingestion script (ingest_data.py): market-cap categories from the
 * ranking of symbols by market capitalisation, header normalisation, the
 * per-row conversion of a spreadsheet row into a `TradingData` record with
 * micro caps dropped, and the buffered writer that inserts records in
 * batches of 5000.
 *
 * Files are given as their rows; the database table is an append-only log
 * of the batches handed to `bulk_create`.
 */
module Ingest {
  import opened Optional
  import opened TradingModel
  import Orders

  // ---------------------------------------------------------------------
  // Market-cap categories (get_mcap_map, get_category)
  // ---------------------------------------------------------------------

  datatype Category = Mega | Large | Mid | Small | Micro

  /** The string stored in `mcap_category`. */
  function CategoryName(c: Category): string {
    match c
    case Mega => "Mega"
    case Large => "Large"
    case Mid => "Mid"
    case Small => "Small"
    case Micro => "Micro"
  }

  /** Company size of a category: Mega is the largest. */
  function Size(c: Category): nat {
    match c
    case Mega => 4
    case Large => 3
    case Mid => 2
    case Small => 1
    case Micro => 0
  }

  /** The band table: the first rank of each category ... */
  function FirstRank(c: Category): nat {
    match c
    case Mega => 0
    case Large => 50
    case Mid => 100
    case Small => 250
    case Micro => 500
  }

  /** ... and the first rank after it (Micro is unbounded). */
  function EndRank(c: Category): nat
    requires c != Micro
  {
    match c
    case Mega => 50
    case Large => 100
    case Mid => 250
    case Small => 500
  }

  /** The category of the symbol at position `rank` when symbols are ordered by decreasing market cap. */
  function GetCategory(rank: nat): (c: Category)
    ensures FirstRank(c) <= rank
    ensures c != Micro ==> rank < EndRank(c)
  {
    if rank < 50 then Mega
    else if rank < 100 then Large
    else if rank < 250 then Mid
    else if rank < 500 then Small
    else Micro
  }

  /** A worse (larger) rank never lands in a larger-cap category. */
  lemma GetCategoryMonotone(r1: nat, r2: nat)
    requires r1 <= r2
    ensures Size(GetCategory(r2)) <= Size(GetCategory(r1))
  {
  }

  /** The categories of ranks 0 .. n-1, in rank order. */
  function RankCategories(n: nat): seq<Category> {
    seq(n, i requires 0 <= i < n => GetCategory(i))
  }

  function CountOf(s: seq<Category>, c: Category): nat {
    if s == [] then 0 else CountOf(s[..|s| - 1], c) + (if s[|s| - 1] == c then 1 else 0)
  }

  /** How many of the ranks 0 .. n-1 fall in the band of `c`. */
  function RanksInBand(n: nat, c: Category): nat {
    var end := if c == Micro then n else if n < EndRank(c) then n else EndRank(c);
    if end <= FirstRank(c) then 0 else end - FirstRank(c)
  }

  /** With n symbols there are min(50, n) Mega entries, min(50, n - 50) Large ones, and so on. */
  lemma {:induction false} CategoryCounts(n: nat, c: Category)
    ensures CountOf(RankCategories(n), c) == RanksInBand(n, c)
  {
    if n > 0 {
      CategoryCounts(n - 1, c);
      assert RankCategories(n)[..n - 1] == RankCategories(n - 1);
    }
  }

  datatype McapRow = McapRow(symbol: string, marketCap: real)

  /** Ordering of the market-cap listing: larger capitalisation first. */
  predicate CapDescending(x: McapRow, y: McapRow) {
    x.marketCap >= y.marketCap
  }

  /** `dict(zip(symbols, categories))` over the ranked listing: a repeated symbol keeps its last rank's category. */
  function RankMap(ranked: seq<McapRow>): map<string, Category> {
    if ranked == [] then map[]
    else RankMap(ranked[..|ranked| - 1])[ranked[|ranked| - 1].symbol := GetCategory(|ranked| - 1)]
  }

  /** The map holds exactly the listed symbols. */
  lemma {:induction false} RankMapKeys(ranked: seq<McapRow>, sym: string)
    ensures sym in RankMap(ranked) <==> exists k :: 0 <= k < |ranked| && ranked[k].symbol == sym
  {
    if ranked != [] {
      var init := ranked[..|ranked| - 1];
      RankMapKeys(init, sym);
      if exists k :: 0 <= k < |ranked| && ranked[k].symbol == sym {
        var k :| 0 <= k < |ranked| && ranked[k].symbol == sym;
        if k < |ranked| - 1 {
          assert init[k].symbol == sym;
        }
      }
    }
  }

  /** A symbol's category is the one of its last position in the ranking. */
  lemma {:induction false} RankMapLastWins(ranked: seq<McapRow>, k: nat)
    requires k < |ranked|
    requires forall k' :: k < k' < |ranked| ==> ranked[k'].symbol != ranked[k].symbol
    ensures ranked[k].symbol in RankMap(ranked)
    ensures RankMap(ranked)[ranked[k].symbol] == GetCategory(k)
  {
    if k < |ranked| - 1 {
      var init := ranked[..|ranked| - 1];
      RankMapLastWins(init, k);
    }
  }

  /**
   * get_mcap_map: sorts the listing by decreasing market cap (pandas'
   * sort_values, not necessarily stable) and maps each symbol to the
   * category of its position. `ranked` is the sorted listing.
   */
  method GetMcapMap(rows: seq<McapRow>) returns (m: map<string, Category>, ranked: seq<McapRow>)
    ensures multiset(ranked) == multiset(rows)
    ensures Orders.SortedBy(ranked, CapDescending)
    ensures m == RankMap(ranked)
  {
    ranked := Orders.Sorted(rows, CapDescending);
    Orders.StableSortSorted(rows, CapDescending);
    m := map[];
    var i := 0;
    while i < |ranked|
      invariant 0 <= i <= |ranked|
      invariant m == RankMap(ranked[..i])
    {
      assert ranked[..i + 1][..i] == ranked[..i];
      m := m[ranked[i].symbol := GetCategory(i)];
      i := i + 1;
    }
    assert ranked[..|ranked|] == ranked;
  }

  /** The symbol ranked first has the largest market capitalisation. */
  lemma FirstRankedIsLargest(ranked: seq<McapRow>, k: nat)
    requires Orders.SortedBy(ranked, CapDescending)
    requires 0 < k < |ranked|
    ensures ranked[k].marketCap <= ranked[0].marketCap
  {
    assert CapDescending(ranked[0], ranked[k]);
  }

  // ---------------------------------------------------------------------
  // Column normalisation (process_chunk, first lines)
  // ---------------------------------------------------------------------

  /**
   * The characters Python's `str.strip()` removes (`str.isspace`): the ASCII
   * controls 9-13 and 28-31, space, NEL, no-break space, the Ogham space
   * mark, the spaces U+2000-U+200A, the line and paragraph separators, the
   * narrow no-break space, the medium mathematical space and the
   * ideographic space.
   */
  predicate IsSpace(c: char) {
    || '\t' <= c <= '\r'
    || '\U{1C}' <= c <= ' '
    || c == '\U{85}' || c == '\U{A0}' || c == '\U{1680}'
    || '\U{2000}' <= c <= '\U{200A}'
    || c == '\U{2028}' || c == '\U{2029}' || c == '\U{202F}' || c == '\U{205F}' || c == '\U{3000}'
  }

  predicate AllSpace(s: string) {
    forall i :: 0 <= i < |s| ==> IsSpace(s[i])
  }

  /** No whitespace at either end. */
  predicate Trimmed(s: string) {
    s == [] || (!IsSpace(s[0]) && !IsSpace(s[|s| - 1]))
  }

  function StripLeading(s: string): string {
    if |s| > 0 && IsSpace(s[0]) then StripLeading(s[1..]) else s
  }

  function StripTrailing(s: string): string {
    if |s| > 0 && IsSpace(s[|s| - 1]) then StripTrailing(s[..|s| - 1]) else s
  }

  function Strip(s: string): string {
    StripTrailing(StripLeading(s))
  }

  lemma {:induction false} StripLeadingSpaces(p: string, t: string)
    requires AllSpace(p)
    requires t == [] || !IsSpace(t[0])
    ensures StripLeading(p + t) == t
  {
    if p != [] {
      assert (p + t)[1..] == p[1..] + t;
      StripLeadingSpaces(p[1..], t);
    }
  }

  lemma {:induction false} StripTrailingSpaces(t: string, q: string)
    requires AllSpace(q)
    requires t == [] || !IsSpace(t[|t| - 1])
    ensures StripTrailing(t + q) == t
  {
    if q != [] {
      assert (t + q)[..|t + q| - 1] == t + q[..|q| - 1];
      StripTrailingSpaces(t, q[..|q| - 1]);
    } else {
      assert t + q == t;
    }
  }

  /** Stripping removes exactly the surrounding whitespace of a header. */
  lemma StripPadded(p: string, t: string, q: string)
    requires AllSpace(p) && AllSpace(q) && Trimmed(t)
    ensures Strip(p + t + q) == t
  {
    assert p + t + q == p + (t + q);
    if t == [] {
      StripLeadingSpaces(p + q, []);
      assert p + t + q == (p + q) + [];
      StripTrailingSpaces([], q);
    } else {
      assert (t + q)[0] == t[0];
      StripLeadingSpaces(p, t + q);
      StripTrailingSpaces(t, q);
    }
  }

  lemma {:induction false} StripLeadingResult(s: string)
    ensures StripLeading(s) == [] || !IsSpace(StripLeading(s)[0])
  {
    if |s| > 0 && IsSpace(s[0]) {
      StripLeadingResult(s[1..]);
    }
  }

  lemma {:induction false} StripTrailingKeepsFirst(s: string)
    requires s == [] || !IsSpace(s[0])
    ensures Trimmed(StripTrailing(s))
  {
    if |s| > 0 && IsSpace(s[|s| - 1]) {
      StripTrailingKeepsFirst(s[..|s| - 1]);
    }
  }

  /** Every stripped header is trimmed, and stripping it again changes nothing. */
  lemma StripTrimmed(s: string)
    ensures Trimmed(Strip(s))
    ensures Strip(Strip(s)) == Strip(s)
  {
    StripLeadingResult(s);
    StripTrailingKeepsFirst(StripLeading(s));
    var t := Strip(s);
    StripPadded([], t, []);
    assert [] + t + [] == t;
  }

  const RenameMap: map<string, string> := map[
    "12-Month %" := "ret", "12-month %" := "ret",
    "Duration" := "dur", "Breakout Date" := "date",
    "Symbol" := "sym", "Company" := "comp", "Sector" := "sect",
    "Cooldown Setting" := "cool"
  ]

  /** The label a spreadsheet header gets: trimmed, then renamed when it is one of the known headers. */
  function ColumnLabel(header: string): string {
    var h := Strip(header);
    if h in RenameMap then RenameMap[h] else h
  }

  function NormalizeColumns(headers: seq<string>): seq<string> {
    seq(|headers|, i requires 0 <= i < |headers| => ColumnLabel(headers[i]))
  }

  /** Both spellings of the twelve-month return header, padded with any whitespace, become `ret`. */
  lemma ReturnHeaderSpellings(p: string, q: string)
    requires AllSpace(p) && AllSpace(q)
    ensures ColumnLabel(p + "12-Month %" + q) == "ret"
    ensures ColumnLabel(p + "12-month %" + q) == "ret"
  {
    StripPadded(p, "12-Month %", q);
    StripPadded(p, "12-month %", q);
  }

  /** A header that is not one of the known names keeps its trimmed text. */
  lemma UnknownHeaderKept(p: string, t: string, q: string)
    requires AllSpace(p) && AllSpace(q) && Trimmed(t)
    requires t !in RenameMap
    ensures ColumnLabel(p + t + q) == t
  {
    StripPadded(p, t, q);
  }

  // ---------------------------------------------------------------------
  // Rows to records (process_chunk loop body)
  // ---------------------------------------------------------------------

  /**
   * A spreadsheet row after renaming. `comp` and `sect` are None when the
   * chunk has no such column; `cool` is the cell as a number.
   */
  datatype SourceRow = SourceRow(
    sym: string, comp: Option<string>, sect: Option<string>,
    cool: real, date: int, dur: real, ret: real)

  /** Python's `int()` on a float: truncation toward zero. */
  function TruncateToInt(x: real): (n: int)
    ensures 0.0 <= x ==> n as real <= x < n as real + 1.0
    ensures x < 0.0 ==> n as real - 1.0 < x <= n as real
  {
    if x >= 0.0 then x.Floor else -((-x).Floor)
  }

  /** `mcap_map.get(sym, "Micro")`. */
  function LookupCategory(mcapMap: map<string, Category>, sym: string): Category {
    if sym in mcapMap then mcapMap[sym] else Micro
  }

  function ToRecord(row: SourceRow, holdingWeeks: int, c: Category): TradingData {
    TradingData(
      symbol := row.sym,
      company := row.comp.GetOr(""),
      sector := row.sect.GetOr("Other"),
      cooldownSetting := TruncateToInt(row.cool),
      holdingWeeks := holdingWeeks,
      mcapCategory := CategoryName(c),
      breakoutDate := row.date,
      duration := row.dur,
      returnPercentage := row.ret)
  }

  /** The records one row contributes: none for a micro-cap or unlisted symbol, else one. */
  function RowRecords(row: SourceRow, holdingWeeks: int, mcapMap: map<string, Category>): seq<TradingData> {
    var c := LookupCategory(mcapMap, row.sym);
    if c == Micro then [] else [ToRecord(row, holdingWeeks, c)]
  }

  /** The records a sequence of rows produces, in row order. */
  function Records(rows: seq<SourceRow>, holdingWeeks: int, mcapMap: map<string, Category>): seq<TradingData> {
    if rows == [] then []
    else Records(rows[..|rows| - 1], holdingWeeks, mcapMap) + RowRecords(rows[|rows| - 1], holdingWeeks, mcapMap)
  }

  /** Records of concatenated rows are the concatenated records: order is kept across chunks. */
  lemma {:induction false} RecordsAppend(a: seq<SourceRow>, b: seq<SourceRow>, hw: int, m: map<string, Category>)
    ensures Records(a + b, hw, m) == Records(a, hw, m) + Records(b, hw, m)
  {
    if b == [] {
      assert a + b == a;
    } else {
      assert (a + b)[..|a + b| - 1] == a + b[..|b| - 1];
      RecordsAppend(a, b[..|b| - 1], hw, m);
    }
  }

  /** Every stored record comes from a listed non-micro row, with the defaults and the holding period filled in. */
  lemma {:induction false} RecordsFields(rows: seq<SourceRow>, hw: int, m: map<string, Category>, k: nat)
    requires k < |Records(rows, hw, m)|
    ensures var r := Records(rows, hw, m)[k];
      && r.holdingWeeks == hw
      && r.symbol in m && m[r.symbol] != Micro && r.mcapCategory == CategoryName(m[r.symbol])
      && r.mcapCategory != "Micro"
      && exists i :: 0 <= i < |rows| && rows[i].sym == r.symbol
           && r.company == rows[i].comp.GetOr("") && r.sector == rows[i].sect.GetOr("Other")
  {
    var init := rows[..|rows| - 1];
    var last := rows[|rows| - 1];
    if k < |Records(init, hw, m)| {
      RecordsFields(init, hw, m, k);
      var r := Records(rows, hw, m)[k];
      var i :| 0 <= i < |init| && init[i].sym == r.symbol
        && r.company == init[i].comp.GetOr("") && r.sector == init[i].sect.GetOr("Other");
      assert rows[i] == init[i];
    } else {
      assert Records(rows, hw, m)[k] == ToRecord(last, hw, m[last.sym]);
      assert rows[|rows| - 1] == last;
    }
  }

  /** A row produces a record exactly when its symbol is listed with a category other than Micro. */
  lemma {:induction false} RecordsCount(rows: seq<SourceRow>, hw: int, m: map<string, Category>)
    ensures |Records(rows, hw, m)| == |set i | 0 <= i < |rows| && LookupCategory(m, rows[i].sym) != Micro|
  {
    if rows != [] {
      var n := |rows| - 1;
      RecordsCount(rows[..n], hw, m);
      KeptStep(rows, m);
    }
  }

  /** The indices of kept rows grow by the last index exactly when the last row is kept. */
  lemma KeptStep(rows: seq<SourceRow>, m: map<string, Category>)
    requires rows != []
    ensures var n := |rows| - 1;
      var kept := set i | 0 <= i < |rows| && LookupCategory(m, rows[i].sym) != Micro;
      var keptInit := set i | 0 <= i < n && LookupCategory(m, rows[..n][i].sym) != Micro;
      |kept| == |keptInit| + (if LookupCategory(m, rows[n].sym) != Micro then 1 else 0)
  {
    var n := |rows| - 1;
    var init := rows[..n];
    var kept := set i | 0 <= i < |rows| && LookupCategory(m, rows[i].sym) != Micro;
    var keptInit := set i | 0 <= i < n && LookupCategory(m, init[i].sym) != Micro;
    forall i ensures i in keptInit <==> i in kept && i != n {
      if 0 <= i < n {
        assert init[i] == rows[i];
      }
    }
    assert n !in keptInit;
    if LookupCategory(m, rows[n].sym) != Micro {
      assert kept == keptInit + {n};
    } else {
      assert kept == keptInit;
    }
  }

  // ---------------------------------------------------------------------
  // Batching
  // ---------------------------------------------------------------------

  const BatchSize: nat := 5000
  const CsvChunkSize: nat := 50000

  /** `xs` cut into consecutive pieces of `size` elements; the last piece holds the non-empty remainder. */
  function Chunks<T>(xs: seq<T>, size: nat): seq<seq<T>>
    requires size > 0
    decreases |xs|
  {
    if xs == [] then []
    else if |xs| <= size then [xs]
    else [xs[..size]] + Chunks(xs[size..], size)
  }

  function Flatten<T>(xss: seq<seq<T>>): seq<T> {
    if xss == [] then [] else xss[0] + Flatten(xss[1..])
  }

  lemma {:induction false} FlattenAppend<T>(a: seq<seq<T>>, b: seq<seq<T>>)
    ensures Flatten(a + b) == Flatten(a) + Flatten(b)
  {
    if a == [] {
      assert a + b == b;
    } else {
      assert (a + b)[1..] == a[1..] + b;
      FlattenAppend(a[1..], b);
    }
  }

  /** Nothing is lost and the order is kept: the pieces concatenate back to the input. */
  lemma {:induction false} ChunksFlatten<T>(xs: seq<T>, size: nat)
    requires size > 0
    ensures Flatten(Chunks(xs, size)) == xs
    decreases |xs|
  {
    if |xs| > size {
      ChunksFlatten(xs[size..], size);
      assert xs == xs[..size] + xs[size..];
    }
  }

  /** Every piece is non-empty and at most `size` long, and every piece but the last is exactly `size` long. */
  lemma {:induction false} ChunksSizes<T>(xs: seq<T>, size: nat)
    requires size > 0
    ensures forall k :: 0 <= k < |Chunks(xs, size)| ==>
      0 < |Chunks(xs, size)[k]| <= size && (k < |Chunks(xs, size)| - 1 ==> |Chunks(xs, size)[k]| == size)
    decreases |xs|
  {
    if |xs| > size {
      ChunksSizes(xs[size..], size);
    }
  }

  /** Cutting after a prefix made of whole batches cuts the prefix and the rest separately. */
  lemma {:induction false} ChunksAppend<T>(xs: seq<T>, ys: seq<T>)
    requires |xs| % BatchSize == 0
    ensures Chunks(xs + ys, BatchSize) == Chunks(xs, BatchSize) + Chunks(ys, BatchSize)
    decreases |xs|
  {
    if xs == [] {
      assert xs + ys == ys;
    } else {
      var rest := xs[BatchSize..];
      assert |rest| % BatchSize == 0;
      assert (xs + ys)[..BatchSize] == xs[..BatchSize];
      assert (xs + ys)[BatchSize..] == rest + ys;
      if rest == [] {
        assert xs == xs[..BatchSize];
        if ys == [] {
          assert xs + ys == xs;
        } else {
          assert rest + ys == ys;
        }
      } else {
        ChunksAppend(rest, ys);
      }
    }
  }

  /** The records stored in the table, as an append-only log of the batches given to `bulk_create`. */
  class TradingTable {
    var batches: seq<seq<TradingData>>

    constructor ()
      ensures batches == []
    {
      batches := [];
    }

    method BulkCreate(objs: seq<TradingData>)
      modifies this
      ensures batches == old(batches) + [objs]
    {
      batches := batches + [objs];
    }

    /** `TradingData.objects.all().delete()`. */
    method DeleteAll()
      modifies this
      ensures batches == []
    {
      batches := [];
    }
  }

  /** The records of one more row: the previous records and the row's own. */
  lemma RecordsStep(rows: seq<SourceRow>, i: nat, hw: int, m: map<string, Category>)
    requires i < |rows|
    ensures Records(rows[..i + 1], hw, m) == Records(rows[..i], hw, m) + RowRecords(rows[i], hw, m)
  {
    assert rows[..i + 1][..i] == rows[..i];
  }

  /** Buffered and flushed records stay the records seen so far when the buffer grows by the next row's. */
  lemma BufferStep<T>(flushed: seq<T>, objs: seq<T>, added: seq<T>, prev: seq<T>, next: seq<T>)
    requires flushed + objs == prev && next == prev + added
    ensures flushed + (objs + added) == next
    ensures (flushed + objs) + added == next
  {
  }

  /** A full buffer written after whole batches is one more batch. */
  lemma FlushBatch(flushed: seq<TradingData>, objs: seq<TradingData>, full: nat)
    requires |flushed| == full * BatchSize && |objs| == BatchSize
    ensures Chunks(flushed + objs, BatchSize) == Chunks(flushed, BatchSize) + [objs]
    ensures |flushed + objs| == (full + 1) * BatchSize
  {
    ChunksAppend(flushed, objs);
  }

  /** What is left in the buffer, if anything, is the last batch. */
  lemma FlushRest(flushed: seq<TradingData>, objs: seq<TradingData>, full: nat)
    requires |flushed| == full * BatchSize && |objs| < BatchSize
    ensures Chunks(flushed + objs, BatchSize) == Chunks(flushed, BatchSize) + (if objs == [] then [] else [objs])
  {
    ChunksAppend(flushed, objs);
  }

  /**
   * process_chunk: converts the rows one by one, buffering the records and
   * writing a batch whenever the buffer reaches 5000, then writes what is
   * left. The batches written are the records cut into pieces of 5000.
   */
  method ProcessChunk(rows: seq<SourceRow>, holdingWeeks: int, mcapMap: map<string, Category>, table: TradingTable)
    modifies table
    ensures table.batches == old(table.batches) + Chunks(Records(rows, holdingWeeks, mcapMap), BatchSize)
  {
    var objs: seq<TradingData> := [];
    ghost var flushed: seq<TradingData> := [];
    ghost var full: nat := 0;
    var i := 0;
    while i < |rows|
      invariant 0 <= i <= |rows|
      invariant |objs| < BatchSize
      invariant |flushed| == full * BatchSize
      invariant flushed + objs == Records(rows[..i], holdingWeeks, mcapMap)
      invariant table.batches == old(table.batches) + Chunks(flushed, BatchSize)
    {
      var row := rows[i];
      var mcap := LookupCategory(mcapMap, row.sym);
      ghost var added := RowRecords(row, holdingWeeks, mcapMap);
      RecordsStep(rows, i, holdingWeeks, mcapMap);
      BufferStep(flushed, objs, added, Records(rows[..i], holdingWeeks, mcapMap), Records(rows[..i + 1], holdingWeeks, mcapMap));
      if mcap != Micro {
        objs := objs + [ToRecord(row, holdingWeeks, mcap)];
        if |objs| >= BatchSize {
          table.BulkCreate(objs);
          FlushBatch(flushed, objs, full);
          BufferStep(flushed, objs, [], flushed + objs, flushed + objs);
          flushed := flushed + objs;
          full := full + 1;
          objs := [];
        }
      } else {
        BufferStep(flushed, objs, [], flushed + objs, flushed + objs);
      }
      i := i + 1;
    }
    assert rows[..|rows|] == rows;
    FlushRest(flushed, objs, full);
    if objs != [] {
      table.BulkCreate(objs);
    }
  }

  predicate EndsWith(s: string, suffix: string) {
    |suffix| <= |s| && s[|s| - |suffix|..] == suffix
  }

  /** Appending the batches of `recs` to the log appends `recs` to the stored rows. */
  lemma FlattenAfterBatches(before: seq<seq<TradingData>>, recs: seq<TradingData>)
    ensures Flatten(before + Chunks(recs, BatchSize)) == Flatten(before) + recs
  {
    FlattenAppend(before, Chunks(recs, BatchSize));
    ChunksFlatten(recs, BatchSize);
  }

  lemma RecordsOfPiecesStep(pieces: seq<seq<SourceRow>>, k: nat, hw: int, m: map<string, Category>)
    requires k < |pieces|
    ensures Records(Flatten(pieces[..k + 1]), hw, m) == Records(Flatten(pieces[..k]), hw, m) + Records(pieces[k], hw, m)
  {
    assert pieces[..k + 1] == pieces[..k] + [pieces[k]];
    FlattenAppend(pieces[..k], [pieces[k]]);
    var single: seq<seq<SourceRow>> := [pieces[k]];
    assert single[1..] == [];
    assert Flatten(single) == pieces[k] + [];
    assert pieces[k] + [] == pieces[k];
    RecordsAppend(Flatten(pieces[..k]), pieces[k], hw, m);
  }

  /** Appending the batches of `recs` to a log holding `start + sofar` leaves `start + (sofar + recs)` stored. */
  lemma BatchesExtend<T>(start: seq<T>, sofar: seq<T>, recs: seq<T>, before: seq<seq<T>>, after: seq<seq<T>>)
    requires Flatten(before) == start + sofar
    requires after == before + Chunks(recs, BatchSize)
    ensures Flatten(after) == start + (sofar + recs)
  {
    FlattenAppend(before, Chunks(recs, BatchSize));
    ChunksFlatten(recs, BatchSize);
  }

  /** Storing the batches of one more piece extends the stored rows by that piece's records. */
  lemma PieceStored(start: seq<TradingData>, before: seq<seq<TradingData>>, after: seq<seq<TradingData>>,
                    pieces: seq<seq<SourceRow>>, k: nat, hw: int, m: map<string, Category>)
    requires k < |pieces|
    requires Flatten(before) == start + Records(Flatten(pieces[..k]), hw, m)
    requires after == before + Chunks(Records(pieces[k], hw, m), BatchSize)
    ensures Flatten(after) == start + Records(Flatten(pieces[..k + 1]), hw, m)
  {
    RecordsOfPiecesStep(pieces, k, hw, m);
    BatchesExtend(start, Records(Flatten(pieces[..k]), hw, m), Records(pieces[k], hw, m), before, after);
  }

  /** The loop of ingest_file over the 50000-row pieces of a text file, each processed on its own. */
  method ProcessPieces(pieces: seq<seq<SourceRow>>, holdingWeeks: int, mcapMap: map<string, Category>, table: TradingTable)
    modifies table
    ensures Flatten(table.batches) == Flatten(old(table.batches)) + Records(Flatten(pieces), holdingWeeks, mcapMap)
  {
    var k := 0;
    while k < |pieces|
      invariant 0 <= k <= |pieces|
      invariant Flatten(table.batches) == Flatten(old(table.batches)) + Records(Flatten(pieces[..k]), holdingWeeks, mcapMap)
    {
      ghost var before := table.batches;
      ProcessChunk(pieces[k], holdingWeeks, mcapMap, table);
      PieceStored(Flatten(old(table.batches)), before, table.batches, pieces, k, holdingWeeks, mcapMap);
      k := k + 1;
    }
    assert pieces[..|pieces|] == pieces;
  }

  /**
   * ingest_file: a workbook is processed as one chunk; any other file is
   * read 50000 rows at a time and each piece is processed on its own.
   */
  method IngestFile(path: string, rows: seq<SourceRow>, holdingWeeks: int, mcapMap: map<string, Category>, table: TradingTable)
    modifies table
    ensures EndsWith(path, ".xlsx") ==>
      table.batches == old(table.batches) + Chunks(Records(rows, holdingWeeks, mcapMap), BatchSize)
    ensures Flatten(table.batches) == Flatten(old(table.batches)) + Records(rows, holdingWeeks, mcapMap)
  {
    if EndsWith(path, ".xlsx") {
      ProcessChunk(rows, holdingWeeks, mcapMap, table);
      FlattenAfterBatches(old(table.batches), Records(rows, holdingWeeks, mcapMap));
    } else {
      ProcessPieces(Chunks(rows, CsvChunkSize), holdingWeeks, mcapMap, table);
      ChunksFlatten(rows, CsvChunkSize);
    }
  }

  /** The spreadsheets `run` looks for, with the holding period of each. */
  const FilesToProcess: seq<(string, int)> := [
    ("NRB_Comprehensive_20_104_52weeks_20260128_1458.xlsx", 52),
    ("NRB_Cooldown_20-104_26weeks_20260204_0902.xlsx", 26),
    ("NRB_Cooldown_20-104_78weeks_20260204_1116.xlsx", 78),
    ("NRB_Cooldown_20-104_104weeks_20260203_0813.xlsx", 104),
    ("NRB_Cooldown_20-104_156weeks_20260203_1159.xlsx", 156),
    ("NRB_Cooldown_20-104_208weeks_20260203_1741.xlsx", 208)
  ]

  /** The records of the listed files that exist (are keys of `files`), file after file; missing files are skipped. */
  function IngestedRecords(list: seq<(string, int)>, files: map<string, seq<SourceRow>>, mcapMap: map<string, Category>): seq<TradingData> {
    if list == [] then []
    else
      var (name, weeks) := list[|list| - 1];
      IngestedRecords(list[..|list| - 1], files, mcapMap)
        + (if name in files then Records(files[name], weeks, mcapMap) else [])
  }

  /** Ranking a permutation of the rows keeps the set of symbols. */
  lemma RankMapOfPermutation(ranked: seq<McapRow>, rows: seq<McapRow>)
    requires multiset(ranked) == multiset(rows)
    ensures forall sym :: sym in RankMap(ranked) <==> exists k :: 0 <= k < |rows| && rows[k].symbol == sym
  {
    forall sym
      ensures sym in RankMap(ranked) <==> exists k :: 0 <= k < |rows| && rows[k].symbol == sym
    {
      RankMapKeys(ranked, sym);
      if exists k :: 0 <= k < |ranked| && ranked[k].symbol == sym {
        var k :| 0 <= k < |ranked| && ranked[k].symbol == sym;
        assert ranked[k] in multiset(rows);
      }
      if exists k :: 0 <= k < |rows| && rows[k].symbol == sym {
        var k :| 0 <= k < |rows| && rows[k].symbol == sym;
        assert rows[k] in multiset(ranked);
      }
    }
  }

  /** One more listed file adds its records, if the file exists. */
  lemma IngestedStep(list: seq<(string, int)>, f: nat, files: map<string, seq<SourceRow>>, m: map<string, Category>)
    requires f < |list|
    ensures IngestedRecords(list[..f + 1], files, m) ==
      IngestedRecords(list[..f], files, m) + (if list[f].0 in files then Records(files[list[f].0], list[f].1, m) else [])
  {
    assert list[..f + 1][..f] == list[..f];
  }

  /**
   * run: clears the table, builds the category map from the listing ranked
   * by decreasing market cap (`ranked`), and ingests every listed file that
   * exists. `files` holds the rows of the files present on disk.
   */
  method Run(table: TradingTable, mcapRows: seq<McapRow>, files: map<string, seq<SourceRow>>)
    returns (ghost mcapMap: map<string, Category>, ghost ranked: seq<McapRow>)
    modifies table
    ensures multiset(ranked) == multiset(mcapRows)
    ensures Orders.SortedBy(ranked, CapDescending)
    ensures mcapMap == RankMap(ranked)
    ensures forall sym :: sym in mcapMap <==> exists k :: 0 <= k < |mcapRows| && mcapRows[k].symbol == sym
    ensures Flatten(table.batches) == IngestedRecords(FilesToProcess, files, mcapMap)
  {
    table.DeleteAll();
    var m, listing := GetMcapMap(mcapRows);
    mcapMap, ranked := m, listing;
    RankMapOfPermutation(listing, mcapRows);
    var f := 0;
    while f < |FilesToProcess|
      invariant 0 <= f <= |FilesToProcess|
      invariant Flatten(table.batches) == IngestedRecords(FilesToProcess[..f], files, m)
    {
      var (name, weeks) := FilesToProcess[f];
      IngestedStep(FilesToProcess, f, files, m);
      if name in files {
        IngestFile(name, files[name], weeks, m, table);
      }
      f := f + 1;
    }
    assert FilesToProcess[..|FilesToProcess|] == FilesToProcess;
  }
}
