/** The Monte Carlo baseline of `backtest/baselines.py`: random non-overlapping trades, as
    many per symbol as the model traded. It is written to fail loudly when a symbol cannot
    fit the requested number; the results say when that can happen at all. */
module RandomBaseline {
  import opened Calendar
  import opened Books
  import opened Sequences
  import opened IntervalGreedy
  import opened TradeSelection
  import opened TradeSimulation

  /** `trade_counts_by_symbol.get(symbol, 0)` */
  function Wanted(counts: map<Symbol, int>, symbol: Symbol): int {
    if symbol in counts then counts[symbol] else 0
  }

  predicate TooMany(preds: seq<Prediction>, symbol: Symbol, counts: map<Symbol, int>, exit: Timestamp -> Timestamp) {
    |Selection(AllDates(preds, symbol), exit)| < Wanted(counts, symbol)
  }

  predicate SomeCountTooHigh(symbols: seq<Symbol>, preds: seq<Prediction>, counts: map<Symbol, int>,
                             exit: Timestamp -> Timestamp)
  {
    symbols != []
    && (SomeCountTooHigh(symbols[..|symbols| - 1], preds, counts, exit)
        || TooMany(preds, symbols[|symbols| - 1], counts, exit))
  }

  lemma {:induction false} SomeSymbolHasTooMany(symbols: seq<Symbol>, preds: seq<Prediction>, counts: map<Symbol, int>,
                                                exit: Timestamp -> Timestamp)
    ensures SomeCountTooHigh(symbols, preds, counts, exit) <==>
      exists symbol :: symbol in symbols && TooMany(preds, symbol, counts, exit)
  {
    if symbols != [] {
      var front, last := symbols[..|symbols| - 1], symbols[|symbols| - 1];
      SomeSymbolHasTooMany(front, preds, counts, exit);
      assert symbols == front + [last];
      if TooMany(preds, last, counts, exit) {
        assert last in symbols;
      }
      if symbol :| symbol in front && TooMany(preds, symbol, counts, exit) {
        assert symbol in symbols;
      }
    }
  }

  lemma SelectionIgnoresOrder(dates: seq<Timestamp>, others: seq<Timestamp>, exit: Timestamp -> Timestamp)
    requires multiset(dates) == multiset(others)
    ensures Selection(dates, exit) == Selection(others, exit)
  {
    AscendingPermutationsAreEqual(SortedDates(dates), SortedDates(others));
  }

  function ReturnOf(p: Prediction): real {
    p.futureReturn
  }

  /** The trade is on one of the symbol's predictions, whatever the model said about it. */
  ghost predicate OnSomeDay(t: Trade, preds: seq<Prediction>, bps: real, exit: Timestamp -> Timestamp) {
    exists p :: p in Group(preds, t.symbol) && t == TradeFrom(t.symbol, p.date, p.futureReturn, bps, exit)
  }

  ghost predicate RandomTradesFor(entries: seq<Timestamp>, n: int, exit: Timestamp -> Timestamp) {
    Spaced(entries, exit) && |entries| == if n <= 0 then 0 else n
  }

  /** One symbol's random trades. */
  method RandomBlock(preds: seq<Prediction>, symbol: Symbol, n: int, bps: real)
    returns (r: Result<seq<Trade>, SelectionError>)
    requires 0 < n && Group(preds, symbol) != []
    ensures var exit := HoldExit(LABEL_HORIZON_DAYS);
            var best := |Selection(AllDates(preds, symbol), exit)|;
            && (r.Failure? <==> best < n)
            && (r.Failure? ==> r.error == TooManyRequested(n, best))
            && (r.Success? ==>
                 && RandomTradesFor(Map(r.value, EntryDate), n, exit)
                 && (forall t :: t in r.value ==> t.symbol == symbol)
                 && (forall t :: t in r.value ==> OnSomeDay(t, preds, bps, exit)))
  {
    var exit := HoldExit(LABEL_HORIZON_DAYS);
    var rows := RowsByDate(preds, symbol);
    MapPermutation(rows, Group(preds, symbol), DateOf);
    SelectionIgnoresOrder(Map(rows, DateOf), AllDates(preds, symbol), exit);
    var picked := SelectRandomNonOverlappingTrades(Map(rows, DateOf), Map(rows, ReturnOf), n, LABEL_HORIZON_DAYS);
    GroupHasASelection(preds, symbol);
    if picked.Failure? {
      return Failure(picked.error);
    }
    var trades := BookTrades(symbol, picked.value, bps, exit);
    forall t | t in trades ensures OnSomeDay(t, preds, bps, exit) {
      BookedOnSomeDay(t, symbol, rows, picked.value, preds, bps, exit);
    }
    return Success(trades);
  }

  lemma GroupHasASelection(preds: seq<Prediction>, symbol: Symbol)
    requires Group(preds, symbol) != []
    ensures Selection(AllDates(preds, symbol), HoldExit(LABEL_HORIZON_DAYS)) != []
  {
    var dates := AllDates(preds, symbol);
    HoldExitIsNotBeforeEntry(LABEL_HORIZON_DAYS);
    SelectionIsSpacedAndCovers(dates, HoldExit(LABEL_HORIZON_DAYS));
    assert dates[0] in dates;
  }

  function BookTrade(symbol: Symbol, c: Candidate, bps: real, exit: Timestamp -> Timestamp): Trade {
    TradeFrom(symbol, c.entry, c.ret, bps, exit)
  }

  method BookTrades(symbol: Symbol, picked: seq<Candidate>, bps: real, exit: Timestamp -> Timestamp)
    returns (trades: seq<Trade>)
    ensures |trades| == |picked|
    ensures forall i :: 0 <= i < |picked| ==> trades[i] == BookTrade(symbol, picked[i], bps, exit)
    ensures Map(trades, EntryDate) == Entries(picked)
  {
    trades := [];
    for i := 0 to |picked|
      invariant |trades| == i
      invariant forall k :: 0 <= k < i ==> trades[k] == BookTrade(symbol, picked[k], bps, exit)
    {
      trades := trades + [BookTrade(symbol, picked[i], bps, exit)];
    }
  }

  lemma BookedOnSomeDay(t: Trade, symbol: Symbol, rows: seq<Prediction>, picked: seq<Candidate>, preds: seq<Prediction>,
                        bps: real, exit: Timestamp -> Timestamp)
    requires forall p :: p in rows ==> p in Group(preds, symbol)
    requires forall c :: c in picked ==> c in Zip(Map(rows, DateOf), Map(rows, ReturnOf))
    requires exists i :: 0 <= i < |picked| && t == BookTrade(symbol, picked[i], bps, exit)
    ensures OnSomeDay(t, preds, bps, exit)
  {
    var i :| 0 <= i < |picked| && t == BookTrade(symbol, picked[i], bps, exit);
    assert picked[i] in picked;
    var k :| 0 <= k < |rows| && Zip(Map(rows, DateOf), Map(rows, ReturnOf))[k] == picked[i];
    assert rows[k] in rows;
  }

  /** Every symbol visited has its trades, and no other symbol has any. */
  ghost predicate RandomSoFar(trades: seq<Trade>, visited: seq<Symbol>, counts: map<Symbol, int>,
                              exit: Timestamp -> Timestamp)
  {
    forall symbol ::
      if symbol in visited then RandomTradesFor(EntriesOf(trades, symbol), Wanted(counts, symbol), exit)
      else EntriesOf(trades, symbol) == []
  }

  lemma VisitSymbol(trades: seq<Trade>, visited: seq<Symbol>, symbol: Symbol, block: seq<Trade>,
                    counts: map<Symbol, int>,
                    exit: Timestamp -> Timestamp)
    requires RandomSoFar(trades, visited, counts, exit) && symbol !in visited
    requires forall t :: t in block ==> t.symbol == symbol
    requires RandomTradesFor(Map(block, EntryDate), Wanted(counts, symbol), exit)
    ensures RandomSoFar(trades + block, visited + [symbol], counts, exit)
  {
    var now := trades + block;
    forall other
      ensures if other in visited + [symbol] then RandomTradesFor(EntriesOf(now, other), Wanted(counts, other), exit)
              else EntriesOf(now, other) == []
    {
      assert other in visited + [symbol] <==> other in visited || other == symbol;
      EntriesAfterBlock(trades, block, symbol, other);
    }
  }

  ghost predicate RandomReport(trades: seq<Trade>, preds: seq<Prediction>, counts: map<Symbol, int>, bps: real,
                               exit: Timestamp -> Timestamp)
  {
    && SortedBy(trades, ReportedNoLater)
    && RandomSoFar(trades, SymbolsOf(preds), counts, exit)
    && (forall t :: t in trades ==> OnSomeDay(t, preds, bps, exit))
  }

  // ----- what is reported, row by row -----

  /** Every reported trade executes some row of its symbol, on the row's date and for the row's return less
      the cost; it exits after five business days. */
  ghost predicate TradesAreOnOwnRows(run: seq<Trade>, preds: seq<Prediction>, bps: real) {
    forall t :: t in run ==> exists p ::
      && p in preds && p.symbol == t.symbol && p.date == t.entry && t.exit == AddBDay(t.entry, 5)
      && t.returnRaw == p.futureReturn && t.ret == p.futureReturn - bps / 10000.0
  }

  /** The positions of a symbol's trades. */
  function TradesOf(trades: seq<Trade>, symbol: Symbol): (at: set<nat>)
    ensures forall i: nat :: i in at <==> i < |trades| && trades[i].symbol == symbol
  {
    set i: nat | i < |trades| && trades[i].symbol == symbol
  }

  /** A symbol with rows has as many trades as wanted of it, and any other symbol has none. */
  ghost predicate MeetsCounts(run: seq<Trade>, preds: seq<Prediction>, counts: map<Symbol, int>) {
    forall symbol :: |TradesOf(run, symbol)| ==
      if (exists p :: p in preds && p.symbol == symbol) && symbol in counts && 0 < counts[symbol] then counts[symbol]
      else 0
  }

  ghost predicate SameCounts(run: seq<Trade>, model: seq<Trade>) {
    forall symbol :: |TradesOf(run, symbol)| == |TradesOf(model, symbol)|
  }

  /** Dates of the symbol that lie five business days apart and block all its other dates. */
  ghost predicate DatesApart(g: seq<Timestamp>, preds: seq<Prediction>, symbol: Symbol) {
    && (forall i, j :: 0 <= i < j < |g| ==> AddBDay(g[i], 5) < g[j])
    && (forall t :: t in g ==> exists p :: p in preds && p.symbol == symbol && p.date == t)
    && (forall p :: p in preds && p.symbol == symbol ==> exists t :: t in g && t <= p.date <= AddBDay(t, 5))
  }

  ghost predicate DatesHoldFewer(preds: seq<Prediction>, symbol: Symbol, n: int) {
    exists g :: DatesApart(g, preds, symbol) && |g| < n
  }

  lemma CountedBySymbol(trades: seq<Trade>, symbol: Symbol)
    ensures |EntriesOf(trades, symbol)| == |TradesOf(trades, symbol)|
  {
    FilterSize(trades, TradeOf(symbol));
    assert Positions(trades, TradeOf(symbol)) == TradesOf(trades, symbol);
  }

  lemma DatesOfSymbol(preds: seq<Prediction>, symbol: Symbol)
    ensures forall t :: t in AllDates(preds, symbol) <==> exists p :: p in preds && p.symbol == symbol && p.date == t
  {
    var group := Group(preds, symbol);
    forall p | p in preds && p.symbol == symbol ensures p.date in AllDates(preds, symbol) {
      assert p in group;
      var i :| 0 <= i < |group| && group[i] == p;
      assert AllDates(preds, symbol)[i] == p.date;
    }
    forall t | t in AllDates(preds, symbol) ensures exists p :: p in preds && p.symbol == symbol && p.date == t {
      var i :| 0 <= i < |group| && group[i].date == t;
      assert group[i] in group;
    }
  }

  lemma ApartIsSpacedCover(g: seq<Timestamp>, preds: seq<Prediction>, symbol: Symbol, exit: Timestamp -> Timestamp)
    ensures (forall t :: t in g ==> t in AllDates(preds, symbol)) <==>
      forall t :: t in g ==> exists p :: p in preds && p.symbol == symbol && p.date == t
    ensures (forall t :: t in AllDates(preds, symbol) ==> CoveredBy(t, g, exit)) <==>
      forall p :: p in preds && p.symbol == symbol ==> exists t :: t in g && t <= p.date <= exit(t)
  {
    DatesOfSymbol(preds, symbol);
    forall t ensures CoveredBy(t, g, exit) <==> exists u :: u in g && u <= t <= exit(u) {
      CoveredBySome(t, g, exit);
    }
    forall p | p in preds && p.symbol == symbol ensures p.date in AllDates(preds, symbol) {
    }
  }

  lemma DatesApartAreSelected(g: seq<Timestamp>, preds: seq<Prediction>, symbol: Symbol)
    ensures DatesApart(g, preds, symbol) <==> g == Selection(AllDates(preds, symbol), HoldExit(LABEL_HORIZON_DAYS))
  {
    var exit, dates := HoldExit(LABEL_HORIZON_DAYS), AllDates(preds, symbol);
    HoldExitIsNotBeforeEntry(LABEL_HORIZON_DAYS);
    ApartIsSpacedCover(g, preds, symbol, exit);
    SelectionIsTheOnlySpacedCover(g, dates, exit);
  }

  lemma TooManyRowByRow(preds: seq<Prediction>, symbol: Symbol, counts: map<Symbol, int>)
    ensures TooMany(preds, symbol, counts, HoldExit(LABEL_HORIZON_DAYS)) <==>
      DatesHoldFewer(preds, symbol, Wanted(counts, symbol))
  {
    forall g ensures DatesApart(g, preds, symbol) <==>
        g == Selection(AllDates(preds, symbol), HoldExit(LABEL_HORIZON_DAYS)) {
      DatesApartAreSelected(g, preds, symbol);
    }
  }

  lemma RandomReportRowByRow(run: seq<Trade>, preds: seq<Prediction>, counts: map<Symbol, int>, bps: real)
    requires RandomReport(run, preds, counts, bps, HoldExit(LABEL_HORIZON_DAYS))
    ensures TradesAreOnOwnRows(run, preds, bps) && TradesAreApart(run) && IsReported(run)
    ensures MeetsCounts(run, preds, counts)
  {
    var exit := HoldExit(LABEL_HORIZON_DAYS);
    forall symbol
      ensures Spaced(EntriesOf(run, symbol), exit)
      ensures |TradesOf(run, symbol)| ==
        if (exists p :: p in preds && p.symbol == symbol) && symbol in counts && 0 < counts[symbol] then counts[symbol]
        else 0
    {
      CountedBySymbol(run, symbol);
      assert symbol in SymbolsOf(preds) <==> exists p :: p in preds && p.symbol == symbol;
    }
    OwnRowByRow(run, preds, bps);
    ReportedTradesAreApart(run, exit);
  }

  lemma OwnRowByRow(run: seq<Trade>, preds: seq<Prediction>, bps: real)
    requires forall t :: t in run ==> OnSomeDay(t, preds, bps, HoldExit(LABEL_HORIZON_DAYS))
    ensures TradesAreOnOwnRows(run, preds, bps)
    ensures forall t :: t in run ==> t.exit == HoldExit(LABEL_HORIZON_DAYS)(t.entry)
  {
    forall t | t in run
      ensures t.exit == HoldExit(LABEL_HORIZON_DAYS)(t.entry)
      ensures exists p ::
        && p in preds && p.symbol == t.symbol && p.date == t.entry && t.exit == AddBDay(t.entry, 5)
        && t.returnRaw == p.futureReturn && t.ret == p.futureReturn - bps / 10000.0
    {
      var p :| p in Group(preds, t.symbol)
               && t == TradeFrom(t.symbol, p.date, p.futureReturn, bps, HoldExit(LABEL_HORIZON_DAYS));
    }
  }

  method SimulateRandomNonOverlappingTrades(preds: seq<Prediction>, counts: map<Symbol, int>, bps: real)
    returns (r: Result<seq<Trade>, SelectionError>)
    ensures var exit := HoldExit(LABEL_HORIZON_DAYS);
            && (r.Failure? <==> SomeCountTooHigh(SymbolsOf(preds), preds, counts, exit))
            && (r.Failure? ==> r.error.TooManyRequested?)
            && (r.Success? ==> RandomReport(r.value, preds, counts, bps, exit))
    ensures r.Success? ==> TradesAreOnOwnRows(r.value, preds, bps) && TradesAreApart(r.value) && IsReported(r.value)
    ensures r.Success? ==> MeetsCounts(r.value, preds, counts)
  {
    ghost var exit := HoldExit(LABEL_HORIZON_DAYS);
    var symbols := SymbolsOf(preds);
    r := Success([]);
    for k := 0 to |symbols|
      invariant r.Failure? <==> SomeCountTooHigh(symbols[..k], preds, counts, exit)
      invariant r.Failure? ==> r.error.TooManyRequested?
      invariant r.Success? ==> RandomSoFar(r.value, symbols[..k], counts, exit)
      invariant r.Success? ==> forall t :: t in r.value ==> OnSomeDay(t, preds, bps, exit)
    {
      var symbol := symbols[k];
      assert symbols[..k + 1] == symbols[..k] + [symbol] && symbols[..k + 1][..k] == symbols[..k];
      if r.Success? {
        r := VisitRandomly(preds, symbol, symbols[..k], counts, bps, r.value);
      }
    }
    assert symbols[..|symbols|] == symbols;
    if r.Success? {
      var report := Report(r.value);
      FinishedReport(r.value, report, preds, counts, bps, exit);
      RandomReportRowByRow(report, preds, counts, bps);
      r := Success(report);
    }
  }

  lemma FinishedReport(trades: seq<Trade>, report: seq<Trade>, preds: seq<Prediction>, counts: map<Symbol, int>,
                       bps: real,
                       exit: Timestamp -> Timestamp)
    requires multiset(report) == multiset(trades) && SortedBy(report, ReportedNoLater)
    requires RandomSoFar(trades, SymbolsOf(preds), counts, exit) && exit == HoldExit(LABEL_HORIZON_DAYS)
    requires forall t :: t in trades ==> OnSomeDay(t, preds, bps, exit)
    ensures RandomReport(report, preds, counts, bps, exit)
  {
    ReportKeepsRandomTrades(trades, report, SymbolsOf(preds), counts, exit);
    SameMembers(report, trades);
  }

  method VisitRandomly(preds: seq<Prediction>, symbol: Symbol, ghost visited: seq<Symbol>, counts: map<Symbol, int>,
                       bps: real,
                       trades: seq<Trade>)
    returns (r: Result<seq<Trade>, SelectionError>)
    requires symbol in SymbolsOf(preds) && symbol !in visited
    requires RandomSoFar(trades, visited, counts, HoldExit(LABEL_HORIZON_DAYS))
    requires forall t :: t in trades ==> OnSomeDay(t, preds, bps, HoldExit(LABEL_HORIZON_DAYS))
    ensures r.Failure? <==> TooMany(preds, symbol, counts, HoldExit(LABEL_HORIZON_DAYS))
    ensures r.Failure? ==> r.error.TooManyRequested?
    ensures r.Success? ==>
      && RandomSoFar(r.value, visited + [symbol], counts, HoldExit(LABEL_HORIZON_DAYS))
      && forall t :: t in r.value ==> OnSomeDay(t, preds, bps, HoldExit(LABEL_HORIZON_DAYS))
  {
    ghost var exit := HoldExit(LABEL_HORIZON_DAYS);
    var n := Wanted(counts, symbol);
    var block: seq<Trade> := [];
    if 0 < n {
      var p :| p in preds && p.symbol == symbol;
      assert p in Group(preds, symbol);
      var drawn := RandomBlock(preds, symbol, n, bps);
      if drawn.Failure? {
        return drawn;
      }
      block := drawn.value;
    }
    VisitSymbol(trades, visited, symbol, block, counts, exit);
    return Success(trades + block);
  }

  lemma ReportKeepsRandomTrades(trades: seq<Trade>, report: seq<Trade>, symbols: seq<Symbol>, counts: map<Symbol, int>,
                                exit: Timestamp -> Timestamp)
    requires multiset(report) == multiset(trades) && SortedBy(report, ReportedNoLater)
    requires RandomSoFar(trades, symbols, counts, exit) && exit == HoldExit(LABEL_HORIZON_DAYS)
    ensures RandomSoFar(report, symbols, counts, exit)
  {
    HoldExitIsNotBeforeEntry(LABEL_HORIZON_DAYS);
    forall symbol ensures EntriesOf(report, symbol) == EntriesOf(trades, symbol) {
      SpacedIsAscending(EntriesOf(trades, symbol), exit);
      ReportOrderKeepsEntries(trades, report, symbol);
    }
  }

  // ----- the baseline run against the model's own trade counts -----

  /** `model_trades.groupby("symbol").size()` */
  function TradeCounts(trades: seq<Trade>): (counts: map<Symbol, int>)
    ensures forall symbol :: Wanted(counts, symbol) == |EntriesOf(trades, symbol)|
  {
    var symbols := set t | t in trades :: t.symbol;
    var counts: map<Symbol, int> := map symbol | symbol in symbols :: |Filter(trades, TradeOf(symbol))|;
    assert forall symbol :: symbol !in symbols ==> |EntriesOf(trades, symbol)| == 0 by {
      forall symbol | symbol !in symbols ensures |EntriesOf(trades, symbol)| == 0 {
        FilterKeepsNone(trades, TradeOf(symbol));
      }
    }
    counts
  }

  ghost predicate AllReports(runs: seq<seq<Trade>>, preds: seq<Prediction>, counts: map<Symbol, int>, bps: real,
                             exit: Timestamp -> Timestamp)
  {
    forall k :: 0 <= k < |runs| ==> RandomReport(runs[k], preds, counts, bps, exit)
  }

  /** The dates of some symbol hold fewer trades than the model made on it. */
  ghost predicate SomeSymbolCannotFit(preds: seq<Prediction>, model: seq<Trade>) {
    exists p :: p in preds && DatesHoldFewer(preds, p.symbol, |TradesOf(model, p.symbol)|)
  }

  lemma CannotFitExactlyWhen(preds: seq<Prediction>, model: seq<Trade>)
    ensures SomeCountTooHigh(SymbolsOf(preds), preds, TradeCounts(model), HoldExit(LABEL_HORIZON_DAYS)) <==>
            SomeSymbolCannotFit(preds, model)
  {
    var counts, exit := TradeCounts(model), HoldExit(LABEL_HORIZON_DAYS);
    SomeSymbolHasTooMany(SymbolsOf(preds), preds, counts, exit);
    forall symbol
      ensures TooMany(preds, symbol, counts, exit) <==>
        DatesHoldFewer(preds, symbol, |TradesOf(model, symbol)|)
    {
      TooManyRowByRow(preds, symbol, counts);
      CountedBySymbol(model, symbol);
    }
  }

  lemma ReportsAreRuns(runs: seq<seq<Trade>>, preds: seq<Prediction>, counts: map<Symbol, int>, bps: real)
    requires AllReports(runs, preds, counts, bps, HoldExit(LABEL_HORIZON_DAYS))
    ensures forall k :: 0 <= k < |runs| ==> IsBaselineRun(runs[k], preds, bps)
  {
    forall k | 0 <= k < |runs| ensures IsBaselineRun(runs[k], preds, bps) {
      RandomReportRowByRow(runs[k], preds, counts, bps);
    }
  }

  method ComputeRandomTradeBaseline(preds: seq<Prediction>, modelTrades: seq<Trade>, nRuns: nat, bps: real)
    returns (r: Result<seq<seq<Trade>>, SelectionError>)
    ensures var counts, exit := TradeCounts(modelTrades), HoldExit(LABEL_HORIZON_DAYS);
            && (r.Failure? <==> 0 < nRuns && SomeCountTooHigh(SymbolsOf(preds), preds, counts, exit))
            && (r.Failure? ==> r.error.TooManyRequested?)
            && (r.Success? ==>
                 && |r.value| == (if preds == [] then 0 else nRuns)
                 && AllReports(r.value, preds, counts, bps, exit))
    ensures r.Failure? <==> 0 < nRuns && SomeSymbolCannotFit(preds, modelTrades)
    ensures r.Success? ==> forall k :: 0 <= k < |r.value| ==> IsBaselineRun(r.value[k], preds, bps)
  {
    CannotFitExactlyWhen(preds, modelTrades);
    if preds == [] {
      return Success([]);
    }
    var counts := TradeCounts(modelTrades);
    var runs: seq<seq<Trade>> := [];
    for k := 0 to nRuns
      invariant |runs| == k
      invariant 0 < k ==> !SomeCountTooHigh(SymbolsOf(preds), preds, counts, HoldExit(LABEL_HORIZON_DAYS))
      invariant AllReports(runs, preds, counts, bps, HoldExit(LABEL_HORIZON_DAYS))
    {
      var run := SimulateRandomNonOverlappingTrades(preds, counts, bps);
      if run.Failure? {
        return Failure(run.error);
      }
      runs := runs + [run.value];
    }
    ReportsAreRuns(runs, preds, counts, bps);
    return Success(runs);
  }

  /** The model's filter lets through more trades than all of the symbol's days can hold. */
  predicate ModelOutTrades(preds: seq<Prediction>, symbol: Symbol, minUpProb: Option<real>) {
    var exit := HoldExit(LABEL_HORIZON_DAYS);
    |Selection(AllDates(preds, symbol), exit)| < |Selection(CandidateDates(preds, symbol, minUpProb), exit)|
  }

  /** A list of trades as one run of the baseline reports it. */
  ghost predicate IsBaselineRun(run: seq<Trade>, preds: seq<Prediction>, bps: real) {
    TradesAreOnOwnRows(run, preds, bps) && TradesAreApart(run) && IsReported(run)
  }

  /** The model simulation and its baseline, as the backtest report runs them. */
  method BacktestBaseline(preds: seq<Prediction>, hasProb: bool, cfg: Strategy, nRuns: nat)
    returns (model: seq<Trade>, r: Result<seq<seq<Trade>>, BacktestError>)
    ensures r == Failure(MissingProbColumn) <==> LacksProbabilities(preds, hasProb, cfg)
    ensures r.Failure? && r.error.BaselineFailed? <==>
      0 < nRuns && !LacksProbabilities(preds, hasProb, cfg) && SomeSymbolCannotFit(preds, model)
    ensures r.Failure? && r.error.BaselineFailed? <==>
      && 0 < nRuns && !LacksProbabilities(preds, hasProb, cfg)
      && exists symbol :: symbol in SymbolsOf(preds) && ModelOutTrades(preds, symbol, cfg.minUpProb)
    ensures !LacksProbabilities(preds, hasProb, cfg) ==>
      && TradesAreLongSignals(model, preds, cfg, 5) && LongSignalsAreHeld(model, preds, cfg)
      && TradesAreApart(model) && IsReported(model)
    ensures r.Success? ==>
      && |r.value| == (if preds == [] then 0 else nRuns)
      && forall k :: 0 <= k < |r.value| ==>
           IsBaselineRun(r.value[k], preds, cfg.tradeCostBps) && SameCounts(r.value[k], model)
  {
    model := [];
    var simulated := SimulateNonOverlappingTrades(preds, hasProb, cfg, LABEL_HORIZON_DAYS);
    if simulated.Failure? {
      return model, Failure(simulated.error);
    }
    model := simulated.value;
    r := BaselineFor(preds, model, cfg, nRuns);
  }

  method BaselineFor(preds: seq<Prediction>, model: seq<Trade>, cfg: Strategy, nRuns: nat)
    returns (r: Result<seq<seq<Trade>>, BacktestError>)
    requires SimulatedFrom(model, preds, cfg, HoldExit(LABEL_HORIZON_DAYS))
    ensures r.Failure? <==> 0 < nRuns && SomeSymbolCannotFit(preds, model)
    ensures r.Failure? ==> r.error.BaselineFailed?
    ensures r.Failure? <==>
      0 < nRuns && exists symbol :: symbol in SymbolsOf(preds) && ModelOutTrades(preds, symbol, cfg.minUpProb)
    ensures r.Success? ==>
      && |r.value| == (if preds == [] then 0 else nRuns)
      && forall k :: 0 <= k < |r.value| ==>
           IsBaselineRun(r.value[k], preds, cfg.tradeCostBps) && SameCounts(r.value[k], model)
  {
    var runs := ComputeRandomTradeBaseline(preds, model, nRuns, cfg.tradeCostBps);
    CannotFitExactlyWhenModelOutTrades(preds, model, cfg);
    if runs.Failure? {
      return Failure(BaselineFailed(runs.error));
    }
    RunsMatchCounts(runs.value, model, preds, cfg);
    return Success(runs.value);
  }

  lemma CannotFitExactlyWhenModelOutTrades(preds: seq<Prediction>, model: seq<Trade>, cfg: Strategy)
    requires SimulatedFrom(model, preds, cfg, HoldExit(LABEL_HORIZON_DAYS))
    ensures SomeSymbolCannotFit(preds, model) <==>
      exists symbol :: symbol in SymbolsOf(preds) && ModelOutTrades(preds, symbol, cfg.minUpProb)
  {
    CannotFitExactlyWhen(preds, model);
    CountsTooHighExactlyWhenModelOutTrades(preds, model, cfg);
  }

  lemma CountsTooHighExactlyWhenModelOutTrades(preds: seq<Prediction>, model: seq<Trade>, cfg: Strategy)
    requires SimulatedFrom(model, preds, cfg, HoldExit(LABEL_HORIZON_DAYS))
    ensures SomeCountTooHigh(SymbolsOf(preds), preds, TradeCounts(model), HoldExit(LABEL_HORIZON_DAYS)) <==>
      exists symbol :: symbol in SymbolsOf(preds) && ModelOutTrades(preds, symbol, cfg.minUpProb)
  {
    var exit, counts := HoldExit(LABEL_HORIZON_DAYS), TradeCounts(model);
    SomeSymbolHasTooMany(SymbolsOf(preds), preds, counts, exit);
    forall symbol ensures TooMany(preds, symbol, counts, exit) <==> ModelOutTrades(preds, symbol, cfg.minUpProb) {
      assert EntriesOf(model, symbol) == Selection(CandidateDates(preds, symbol, cfg.minUpProb), exit);
    }
  }

  lemma RunsMatchCounts(runs: seq<seq<Trade>>, model: seq<Trade>, preds: seq<Prediction>, cfg: Strategy)
    requires SimulatedFrom(model, preds, cfg, HoldExit(LABEL_HORIZON_DAYS))
    requires AllReports(runs, preds, TradeCounts(model), cfg.tradeCostBps, HoldExit(LABEL_HORIZON_DAYS))
    ensures forall k :: 0 <= k < |runs| ==> SameCounts(runs[k], model)
  {
    forall k | 0 <= k < |runs| ensures SameCounts(runs[k], model) {
      ReportMatchesCounts(runs[k], model, preds, cfg);
    }
  }

  lemma ReportMatchesCounts(run: seq<Trade>, model: seq<Trade>, preds: seq<Prediction>, cfg: Strategy)
    requires SimulatedFrom(model, preds, cfg, HoldExit(LABEL_HORIZON_DAYS))
    requires RandomReport(run, preds, TradeCounts(model), cfg.tradeCostBps, HoldExit(LABEL_HORIZON_DAYS))
    ensures SameCounts(run, model)
  {
    var exit := HoldExit(LABEL_HORIZON_DAYS);
    forall symbol ensures |TradesOf(run, symbol)| == |TradesOf(model, symbol)|
    {
      CountedBySymbol(run, symbol);
      CountedBySymbol(model, symbol);
      UnseenSymbolHasNoCandidates(preds, symbol, cfg.minUpProb, exit);
    }
  }

  // ----- when the baseline can be met, and when confidence filtering only removes trades -----

  /** No threshold is the lowest one. */
  predicate NoLowerThreshold(low: Option<real>, high: Option<real>) {
    low.None? || (high.Some? && low.value <= high.value)
  }

  lemma HigherThresholdFewerCandidates(preds: seq<Prediction>, symbol: Symbol, low: Option<real>, high: Option<real>)
    requires NoLowerThreshold(low, high)
    ensures AsSet(CandidateDates(preds, symbol, high)) <= AsSet(CandidateDates(preds, symbol, low))
    ensures AsSet(CandidateDates(preds, symbol, low)) <= AsSet(AllDates(preds, symbol))
  {
    var group := Group(preds, symbol);
    var few, more := Filter(group, Tradable(high)), Filter(group, Tradable(low));
    forall t | t in Map(few, DateOf) ensures t in Map(more, DateOf) {
      var i :| 0 <= i < |few| && few[i].date == t;
      assert few[i] in few;
      assert few[i] in more;
      var j :| 0 <= j < |more| && more[j] == few[i];
      assert Map(more, DateOf)[j] == t;
    }
    forall t | t in Map(more, DateOf) ensures t in Map(group, DateOf) {
      var i :| 0 <= i < |more| && more[i].date == t;
      assert more[i] in more;
      var j :| 0 <= j < |group| && group[j] == more[i];
      assert Map(group, DateOf)[j] == t;
    }
  }

  lemma ClocksOfFewer(some: iset<Timestamp>, all: iset<Timestamp>, hold: nat)
    requires some <= all && ClocksInTurn(all, hold)
    ensures ClocksInTurn(some, hold)
  {
  }

  /** With clocks in turn the model never out-trades its baseline, and raising the
      confidence threshold never adds a trade for any symbol. */
  lemma ConfidenceOnlyRemovesTrades(preds: seq<Prediction>, symbol: Symbol, low: Option<real>, high: Option<real>)
    requires ClocksInTurn(AsSet(AllDates(preds, symbol)), LABEL_HORIZON_DAYS)
    ensures !ModelOutTrades(preds, symbol, low)
    ensures NoLowerThreshold(low, high) ==>
      var exit := HoldExit(LABEL_HORIZON_DAYS);
      |Selection(CandidateDates(preds, symbol, high), exit)| <= |Selection(CandidateDates(preds, symbol, low), exit)|
  {
    var exit := HoldExit(LABEL_HORIZON_DAYS);
    var all, some := AllDates(preds, symbol), CandidateDates(preds, symbol, low);
    HoldExitIsNotBeforeEntry(LABEL_HORIZON_DAYS);
    HigherThresholdFewerCandidates(preds, symbol, low, low);
    ExitsInTurnExactlyWhenClocksAre(AsSet(all), LABEL_HORIZON_DAYS);
    FewerCandidatesFewerTrades(some, all, exit);
    if NoLowerThreshold(low, high) {
      HigherThresholdFewerCandidates(preds, symbol, low, high);
      ClocksOfFewer(AsSet(some), AsSet(all), LABEL_HORIZON_DAYS);
      ExitsInTurnExactlyWhenClocksAre(AsSet(some), LABEL_HORIZON_DAYS);
      FewerCandidatesFewerTrades(CandidateDates(preds, symbol, high), some, exit);
    }
  }

  ghost predicate DatedIn(preds: seq<Prediction>, stock: iset<Timestamp>) {
    forall p :: p in preds ==> p.date in stock
  }

  /** A long signal for symbol 0 with no or full confidence. */
  function Signal(date: Timestamp, confident: bool): Prediction {
    Prediction(0, date, LONG_SIGNAL, if confident then 1.0 else 0.0, 0.0)
  }

  /** Three predictions of one symbol, the first of which the threshold 1/2 rejects. */
  function HesitantThenConfident(a: Timestamp, b: Timestamp, c: Timestamp): seq<Prediction> {
    [Signal(a, false), Signal(b, true), Signal(c, true)]
  }

  lemma HesitantFilters(a: Timestamp, b: Timestamp, c: Timestamp)
    ensures var preds := HesitantThenConfident(a, b, c);
            && Group(preds, 0) == preds
            && Filter(preds, Tradable(None)) == preds
            && Filter(preds, Tradable(Some(0.5))) == [Signal(b, true), Signal(c, true)]
  {
    var preds := HesitantThenConfident(a, b, c);
    FilterKeepsAll(preds, OfSymbol(0));
    FilterKeepsAll(preds, Tradable(None));
    assert preds[1..] == [Signal(b, true), Signal(c, true)];
    KeepsAllButFirst(preds, Tradable(Some(0.5)));
  }

  lemma HesitantDates(a: Timestamp, b: Timestamp, c: Timestamp)
    ensures var preds := HesitantThenConfident(a, b, c);
            && AllDates(preds, 0) == [a, b, c]
            && CandidateDates(preds, 0, None) == [a, b, c]
            && CandidateDates(preds, 0, Some(0.5)) == [b, c]
  {
    HesitantFilters(a, b, c);
    DatesOfSignals([Signal(b, true), Signal(c, true)], [b, c]);
    DatesOfSignals(HesitantThenConfident(a, b, c), [a, b, c]);
  }

  lemma DatesOfSignals(preds: seq<Prediction>, dates: seq<Timestamp>)
    requires |preds| == |dates| && forall i :: 0 <= i < |preds| ==> preds[i].date == dates[i]
    ensures Map(preds, DateOf) == dates
  {
  }

  lemma KeepsAllButFirst(preds: seq<Prediction>, p: Prediction -> bool)
    requires preds != [] && !p(preds[0]) && forall q :: q in preds[1..] ==> p(q)
    ensures Filter(preds, p) == preds[1..]
  {
    assert preds == [preds[0]] + preds[1..];
    FilterKeepsNone([preds[0]], p);
    FilterKeepsAll(preds[1..], p);
    FilterConcat([preds[0]], preds[1..], p);
  }

  /** Exactly when: over any stock of dates, the baseline can always be met if and only if the
      clocks are in turn, and raising the threshold never adds a trade if and only if they are. */
  lemma BaselineCanBeMetExactlyWhenClocksAreInTurn(stock: iset<Timestamp>)
    ensures ClocksInTurn(stock, LABEL_HORIZON_DAYS) <==>
      forall preds, symbol, minUpProb :: DatedIn(preds, stock) ==> !ModelOutTrades(preds, symbol, minUpProb)
    ensures ClocksInTurn(stock, LABEL_HORIZON_DAYS) <==>
      forall preds, symbol, low, high :: DatedIn(preds, stock) && NoLowerThreshold(low, high) ==>
        |Selection(CandidateDates(preds, symbol, high), HoldExit(LABEL_HORIZON_DAYS))|
          <= |Selection(CandidateDates(preds, symbol, low), HoldExit(LABEL_HORIZON_DAYS))|
  {
    if ClocksInTurn(stock, LABEL_HORIZON_DAYS) {
      forall preds, symbol, low, high | DatedIn(preds, stock)
        ensures !ModelOutTrades(preds, symbol, low)
        ensures NoLowerThreshold(low, high) ==>
          |Selection(CandidateDates(preds, symbol, high), HoldExit(LABEL_HORIZON_DAYS))|
            <= |Selection(CandidateDates(preds, symbol, low), HoldExit(LABEL_HORIZON_DAYS))|
      {
        DatesComeFrom(preds, symbol, stock);
        ClocksOfFewer(AsSet(AllDates(preds, symbol)), stock, LABEL_HORIZON_DAYS);
        ConfidenceOnlyRemovesTrades(preds, symbol, low, high);
      }
    } else {
      var preds := UnorderedClocksOutTrade(stock);
    }
  }

  /** Clocks are ordered if and only if the same holds on the stock and any one date that follows. */
  lemma BaselineCanBeMetExactlyWhenClocksAreOrdered(stock: iset<Timestamp>)
    ensures ClocksOrdered(stock, LABEL_HORIZON_DAYS) <==>
      forall c, preds, symbol, minUpProb :: DatedIn(preds, Followed(stock, c)) ==>
        !ModelOutTrades(preds, symbol, minUpProb)
    ensures ClocksOrdered(stock, LABEL_HORIZON_DAYS) <==>
      forall c, preds, symbol, low, high :: DatedIn(preds, Followed(stock, c)) && NoLowerThreshold(low, high) ==>
        |Selection(CandidateDates(preds, symbol, high), HoldExit(LABEL_HORIZON_DAYS))|
          <= |Selection(CandidateDates(preds, symbol, low), HoldExit(LABEL_HORIZON_DAYS))|
  {
    ClocksInTurnWhateverFollows(stock, LABEL_HORIZON_DAYS);
    forall c
      ensures ClocksInTurn(Followed(stock, c), LABEL_HORIZON_DAYS) <==>
        forall preds, symbol, minUpProb :: DatedIn(preds, Followed(stock, c)) ==>
          !ModelOutTrades(preds, symbol, minUpProb)
      ensures ClocksInTurn(Followed(stock, c), LABEL_HORIZON_DAYS) <==>
        forall preds, symbol, low, high :: DatedIn(preds, Followed(stock, c)) && NoLowerThreshold(low, high) ==>
          |Selection(CandidateDates(preds, symbol, high), HoldExit(LABEL_HORIZON_DAYS))|
            <= |Selection(CandidateDates(preds, symbol, low), HoldExit(LABEL_HORIZON_DAYS))|
    {
      BaselineCanBeMetExactlyWhenClocksAreInTurn(Followed(stock, c));
    }
  }

  lemma ClocksInTurnWhateverFollows(stock: iset<Timestamp>, hold: nat)
    ensures ClocksOrdered(stock, hold) <==> forall c :: ClocksInTurn(Followed(stock, c), hold)
  {
    HoldExitIsNotBeforeEntry(hold);
    ExitsOrderedExactlyWhenClocksAre(stock, hold);
    OrderedExitsAreInTurn(stock, HoldExit(hold));
    forall c ensures ExitsInTurn(Followed(stock, c), HoldExit(hold)) <==> ClocksInTurn(Followed(stock, c), hold) {
      ExitsInTurnExactlyWhenClocksAre(Followed(stock, c), hold);
    }
  }

  lemma UnorderedClocksOutTrade(stock: iset<Timestamp>) returns (preds: seq<Prediction>)
    requires !ClocksInTurn(stock, LABEL_HORIZON_DAYS)
    ensures DatedIn(preds, stock) && ModelOutTrades(preds, 0, Some(0.5)) && NoLowerThreshold(None, Some(0.5))
    ensures |Selection(CandidateDates(preds, 0, Some(0.5)), HoldExit(LABEL_HORIZON_DAYS))|
              > |Selection(CandidateDates(preds, 0, None), HoldExit(LABEL_HORIZON_DAYS))|
  {
    ExitsInTurnExactlyWhenClocksAre(stock, LABEL_HORIZON_DAYS);
    HoldExitIsNotBeforeEntry(LABEL_HORIZON_DAYS);
    preds := UnorderedExitsOutTrade(stock, HoldExit(LABEL_HORIZON_DAYS));
  }

  lemma UnorderedExitsOutTrade(stock: iset<Timestamp>, exit: Timestamp -> Timestamp) returns (preds: seq<Prediction>)
    requires ExitsAfterEntry(exit) && !ExitsInTurn(stock, exit)
    ensures DatedIn(preds, stock)
    ensures |Selection(AllDates(preds, 0), exit)| == |Selection(CandidateDates(preds, 0, None), exit)| == 1
    ensures |Selection(CandidateDates(preds, 0, Some(0.5)), exit)| == 2
  {
    var a, b, c :| a in stock && b in stock && c in stock && a <= b && exit(b) < c <= exit(a);
    preds := HesitantThenConfident(a, b, c);
    HesitantSelections(a, b, c, exit);
  }

  lemma HesitantSelections(a: Timestamp, b: Timestamp, c: Timestamp, exit: Timestamp -> Timestamp)
    requires ExitsAfterEntry(exit) && a <= b && exit(b) < c <= exit(a)
    ensures var preds := HesitantThenConfident(a, b, c);
            && |Selection(AllDates(preds, 0), exit)| == |Selection(CandidateDates(preds, 0, None), exit)| == 1
            && |Selection(CandidateDates(preds, 0, Some(0.5)), exit)| == 2
  {
    HesitantDates(a, b, c);
    EarlierExitDefeatsGreedy(a, b, c, exit);
  }

  lemma DatesComeFrom(preds: seq<Prediction>, symbol: Symbol, stock: iset<Timestamp>)
    requires DatedIn(preds, stock)
    ensures AsSet(AllDates(preds, symbol)) <= stock
  {
    var group := Group(preds, symbol);
    forall t | t in AllDates(preds, symbol) ensures t in stock {
      var i :| 0 <= i < |group| && group[i].date == t;
      assert group[i] in group;
    }
  }
}
