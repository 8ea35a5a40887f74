/** The model's trade simulation (`backtest/metrics.py`) and the random baseline that has to
    match its trade counts (`backtest/baselines.py`). */
module TradeSimulation {
  import opened Calendar
  import opened Books
  import opened Sequences
  import opened IntervalGreedy
  import opened TradeSelection

  const LONG_SIGNAL := 1

  datatype Prediction = Prediction(symbol: Symbol, date: Timestamp, yPred: int, upProb: real, futureReturn: real)

  datatype Strategy = Strategy(minUpProb: Option<real>, tradeCostBps: real)

  datatype Trade = Trade(symbol: Symbol, entry: Timestamp, exit: Timestamp, returnRaw: real, ret: real)

  datatype BacktestError =
    | MissingProbColumn
    | BaselineFailed(cause: SelectionError)

  function ApplyTradeCost(returnRaw: real, tradeCostBps: real): real {
    returnRaw - tradeCostBps / 10000.0
  }

  function TradeFrom(symbol: Symbol, entry: Timestamp, futureReturn: real, bps: real,
                     exit: Timestamp -> Timestamp): Trade {
    Trade(symbol, entry, exit(entry), futureReturn, ApplyTradeCost(futureReturn, bps))
  }

  // ----- what the simulation trades on -----

  function OfSymbol(symbol: Symbol): Prediction -> bool {
    (p: Prediction) => p.symbol == symbol
  }

  function DateOf(p: Prediction): Timestamp {
    p.date
  }

  function Group(preds: seq<Prediction>, symbol: Symbol): seq<Prediction> {
    Filter(preds, OfSymbol(symbol))
  }

  function AllDates(preds: seq<Prediction>, symbol: Symbol): seq<Timestamp> {
    Map(Group(preds, symbol), DateOf)
  }

  /** A long signal that passes the confidence filter. */
  function Tradable(minUpProb: Option<real>): Prediction -> bool {
    (p: Prediction) => p.yPred == LONG_SIGNAL && (minUpProb.Some? ==> p.upProb >= minUpProb.value)
  }

  function CandidateDates(preds: seq<Prediction>, symbol: Symbol, minUpProb: Option<real>): seq<Timestamp> {
    Map(Filter(Group(preds, symbol), Tradable(minUpProb)), DateOf)
  }

  /** Symbols in order of first appearance, as `groupby(sort=False)` visits them. */
  function SymbolsOf(preds: seq<Prediction>): (s: seq<Symbol>)
    ensures forall i, j :: 0 <= i < j < |s| ==> s[i] != s[j]
    ensures forall x :: x in s <==> exists p :: p in preds && p.symbol == x
  {
    if preds == [] then []
    else
      var n := |preds| - 1;
      var front := SymbolsOf(preds[..n]);
      assert preds == preds[..n] + [preds[n]];
      if preds[n].symbol in front then front else front + [preds[n].symbol]
  }

  predicate EntersNoLater(a: Prediction, b: Prediction) {
    a.date <= b.date
  }

  /** One symbol's predictions, sorted by date. */
  function RowsByDate(preds: seq<Prediction>, symbol: Symbol): (rows: seq<Prediction>)
    ensures multiset(rows) == multiset(Group(preds, symbol)) && SortedBy(rows, EntersNoLater)
    ensures forall p :: p in rows <==> p in Group(preds, symbol)
  {
    var rows := SortBy(Group(preds, symbol), EntersNoLater);
    SameMembers(rows, Group(preds, symbol));
    rows
  }

  /** Sorting a group by date sorts the dates of whatever is filtered from it. */
  lemma SortedGroupDates(group: seq<Prediction>, sorted: seq<Prediction>, p: Prediction -> bool)
    requires multiset(sorted) == multiset(group) && SortedBy(sorted, EntersNoLater)
    ensures Map(Filter(sorted, p), DateOf) == SortedDates(Map(Filter(group, p), DateOf))
  {
    FilterPermutation(sorted, group, p);
    MapPermutation(Filter(sorted, p), Filter(group, p), DateOf);
    FilterKeepsOrder(sorted, p, EntersNoLater);
    AscendingPermutationsAreEqual(Map(Filter(sorted, p), DateOf), SortedDates(Map(Filter(group, p), DateOf)));
  }

  // ----- trades by symbol -----

  function TradeOf(symbol: Symbol): Trade -> bool {
    (t: Trade) => t.symbol == symbol
  }

  function EntryDate(t: Trade): Timestamp {
    t.entry
  }

  function EntriesOf(trades: seq<Trade>, symbol: Symbol): seq<Timestamp> {
    Map(Filter(trades, TradeOf(symbol)), EntryDate)
  }

  predicate ReportedNoLater(a: Trade, b: Trade) {
    a.entry < b.entry || (a.entry == b.entry && a.symbol <= b.symbol)
  }

  function Report(trades: seq<Trade>): (report: seq<Trade>)
    ensures multiset(report) == multiset(trades) && SortedBy(report, ReportedNoLater)
  {
    SortBy(trades, ReportedNoLater)
  }

  lemma AppendSymbolTrades(trades: seq<Trade>, block: seq<Trade>, symbol: Symbol, other: Symbol)
    requires forall t :: t in block ==> t.symbol == symbol
    ensures EntriesOf(trades + block, other) ==
      EntriesOf(trades, other) + if other == symbol then Map(block, EntryDate) else []
  {
    FilterConcat(trades, block, TradeOf(other));
    if other == symbol {
      FilterKeepsAll(block, TradeOf(other));
    } else {
      FilterKeepsNone(block, TradeOf(other));
    }
    MapConcat(Filter(trades, TradeOf(other)), Filter(block, TradeOf(other)), EntryDate);
  }

  lemma EntriesAfterBlock(trades: seq<Trade>, block: seq<Trade>, symbol: Symbol, other: Symbol)
    requires forall t :: t in block ==> t.symbol == symbol
    ensures other != symbol ==> EntriesOf(trades + block, other) == EntriesOf(trades, other)
    ensures EntriesOf(trades, symbol) == [] ==> EntriesOf(trades + block, symbol) == Map(block, EntryDate)
  {
    AppendSymbolTrades(trades, block, symbol, other);
    AppendSymbolTrades(trades, block, symbol, symbol);
  }

  /** Reporting trades by entry date leaves each symbol's chronological entries as they were. */
  lemma ReportOrderKeepsEntries(trades: seq<Trade>, report: seq<Trade>, symbol: Symbol)
    requires multiset(report) == multiset(trades) && SortedBy(report, ReportedNoLater)
    requires Ascending(EntriesOf(trades, symbol))
    ensures EntriesOf(report, symbol) == EntriesOf(trades, symbol)
  {
    FilterPermutation(report, trades, TradeOf(symbol));
    MapPermutation(Filter(report, TradeOf(symbol)), Filter(trades, TradeOf(symbol)), EntryDate);
    FilterKeepsOrder(report, TradeOf(symbol), ReportedNoLater);
    AscendingPermutationsAreEqual(EntriesOf(report, symbol), EntriesOf(trades, symbol));
  }

  lemma SpacedIsAscending(g: seq<Timestamp>, exit: Timestamp -> Timestamp)
    requires ExitsAfterEntry(exit) && Spaced(g, exit)
    ensures Ascending(g)
  {
    forall i, j | 0 <= i < j < |g| ensures g[i] <= g[j] {
      assert g[i] <= exit(g[i]);
    }
  }

  // ----- the model simulation -----

  predicate HasLongSignal(rows: seq<Prediction>) {
    exists i :: 0 <= i < |rows| && rows[i].yPred == LONG_SIGNAL
  }

  /** The confidence filter looks for a probability column that is not there. */
  predicate MissesProb(rows: seq<Prediction>, hasProb: bool, cfg: Strategy) {
    cfg.minUpProb.Some? && !hasProb && HasLongSignal(rows)
  }

  predicate SomeGroupMisses(symbols: seq<Symbol>, preds: seq<Prediction>, hasProb: bool, cfg: Strategy) {
    symbols != []
    && (SomeGroupMisses(symbols[..|symbols| - 1], preds, hasProb, cfg)
        || MissesProb(RowsByDate(preds, symbols[|symbols| - 1]), hasProb, cfg))
  }

  lemma {:induction false} GroupMisses(symbols: seq<Symbol>, preds: seq<Prediction>, hasProb: bool, cfg: Strategy)
    ensures SomeGroupMisses(symbols, preds, hasProb, cfg) <==>
      exists symbol :: symbol in symbols && MissesProb(RowsByDate(preds, symbol), hasProb, cfg)
  {
    if symbols != [] {
      GroupMisses(symbols[..|symbols| - 1], preds, hasProb, cfg);
      assert symbols == symbols[..|symbols| - 1] + [symbols[|symbols| - 1]];
    }
  }

  lemma MissedInSomeGroup(preds: seq<Prediction>, hasProb: bool, cfg: Strategy)
    ensures MissesProb(preds, hasProb, cfg) <==> SomeGroupMisses(SymbolsOf(preds), preds, hasProb, cfg)
  {
    GroupMisses(SymbolsOf(preds), preds, hasProb, cfg);
    if MissesProb(preds, hasProb, cfg) {
      var i :| 0 <= i < |preds| && preds[i].yPred == LONG_SIGNAL;
      assert preds[i] in preds;
      assert preds[i] in RowsByDate(preds, preds[i].symbol) && preds[i].symbol in SymbolsOf(preds);
    }
    forall symbol | MissesProb(RowsByDate(preds, symbol), hasProb, cfg) ensures MissesProb(preds, hasProb, cfg) {
      var rows := RowsByDate(preds, symbol);
      var i :| 0 <= i < |rows| && rows[i].yPred == LONG_SIGNAL;
      assert rows[i] in rows;
      assert rows[i] in preds;
    }
  }

  /** The trade executes one of the rows, at that row's date and return net of cost. */
  ghost predicate FromRow(t: Trade, symbol: Symbol, rows: seq<Prediction>, cfg: Strategy,
                          exit: Timestamp -> Timestamp) {
    exists p :: p in rows && Tradable(cfg.minUpProb)(p)
                && t == TradeFrom(symbol, p.date, p.futureReturn, cfg.tradeCostBps, exit)
  }

  function TakeRow(trades: seq<Trade>, symbol: Symbol, row: Prediction, cfg: Strategy, exit: Timestamp -> Timestamp)
    : seq<Trade>
  {
    if !Tradable(cfg.minUpProb)(row) || (trades != [] && row.date <= exit(trades[|trades| - 1].entry)) then trades
    else trades + [TradeFrom(symbol, row.date, row.futureReturn, cfg.tradeCostBps, exit)]
  }

  /** The trades of one symbol, from its rows in date order. */
  function SymbolTrades(symbol: Symbol, rows: seq<Prediction>, cfg: Strategy,
                        exit: Timestamp -> Timestamp): seq<Trade> {
    if rows == [] then []
    else TakeRow(SymbolTrades(symbol, rows[..|rows| - 1], cfg, exit), symbol, rows[|rows| - 1], cfg, exit)
  }

  lemma TakeRowTakesItsDate(trades: seq<Trade>, kept: seq<Prediction>, symbol: Symbol, row: Prediction, cfg: Strategy,
                            exit: Timestamp -> Timestamp)
    requires Map(trades, EntryDate) == Greedy(Map(kept, DateOf), exit)
    ensures var now := if Tradable(cfg.minUpProb)(row) then kept + [row] else kept;
            Map(TakeRow(trades, symbol, row, cfg, exit), EntryDate) == Greedy(Map(now, DateOf), exit)
  {
    if Tradable(cfg.minUpProb)(row) {
      assert Map(kept + [row], DateOf) == Map(kept, DateOf) + [row.date];
      assert (Map(kept, DateOf) + [row.date])[..|kept|] == Map(kept, DateOf);
      var trade := TradeFrom(symbol, row.date, row.futureReturn, cfg.tradeCostBps, exit);
      assert Map(trades + [trade], EntryDate) == Map(trades, EntryDate) + [row.date];
    }
  }

  /** The filtered pass is the greedy selection from the rows that pass the filter. */
  lemma {:induction false} SymbolTradesAreGreedy(symbol: Symbol, rows: seq<Prediction>, cfg: Strategy,
                                                 exit: Timestamp -> Timestamp)
    ensures Map(SymbolTrades(symbol, rows, cfg, exit), EntryDate)
         == Greedy(Map(Filter(rows, Tradable(cfg.minUpProb)), DateOf), exit)
  {
    if rows != [] {
      var n := |rows| - 1;
      SymbolTradesAreGreedy(symbol, rows[..n], cfg, exit);
      TakeRowTakesItsDate(SymbolTrades(symbol, rows[..n], cfg, exit), Filter(rows[..n], Tradable(cfg.minUpProb)),
                          symbol, rows[n], cfg, exit);
      assert Filter(rows[..n], Tradable(cfg.minUpProb)) + [] == Filter(rows[..n], Tradable(cfg.minUpProb));
    }
  }

  lemma {:induction false} SymbolTradesComeFromRows(symbol: Symbol, rows: seq<Prediction>, cfg: Strategy,
                                                    exit: Timestamp -> Timestamp)
    ensures forall t :: t in SymbolTrades(symbol, rows, cfg, exit) ==> FromRow(t, symbol, rows, cfg, exit)
  {
    if rows != [] {
      var n := |rows| - 1;
      SymbolTradesComeFromRows(symbol, rows[..n], cfg, exit);
      forall t | t in SymbolTrades(symbol, rows[..n], cfg, exit) ensures FromRow(t, symbol, rows, cfg, exit) {
        var p :| p in rows[..n] && Tradable(cfg.minUpProb)(p)
                 && t == TradeFrom(symbol, p.date, p.futureReturn, cfg.tradeCostBps, exit);
        assert p in rows;
      }
      assert rows[n] in rows;
    }
  }

  method SimulateSymbol(symbol: Symbol, rows: seq<Prediction>, hasProb: bool, cfg: Strategy,
                        exit: Timestamp -> Timestamp)
    returns (r: Result<seq<Trade>, BacktestError>)
    ensures r.Failure? <==> MissesProb(rows, hasProb, cfg)
    ensures r.Failure? ==> r.error == MissingProbColumn
    ensures r.Success? ==> r.value == SymbolTrades(symbol, rows, cfg, exit)
  {
    var trades: seq<Trade> := [];
    var blockedUntil: Option<Timestamp> := None;
    for i := 0 to |rows|
      invariant !MissesProb(rows[..i], hasProb, cfg)
      invariant trades == SymbolTrades(symbol, rows[..i], cfg, exit)
      invariant blockedUntil == if trades == [] then None else Some(exit(trades[|trades| - 1].entry))
    {
      var row := rows[i];
      assert rows[..i + 1] == rows[..i] + [row];
      assert rows[..i + 1][..i] == rows[..i];
      if row.yPred != LONG_SIGNAL {
        continue;
      }
      if cfg.minUpProb.Some? {
        if !hasProb {
          return Failure(MissingProbColumn);
        }
        if row.upProb < cfg.minUpProb.value {
          continue;
        }
      }
      if blockedUntil.Some? && row.date <= blockedUntil.value {
        continue;
      }
      trades := trades + [TradeFrom(symbol, row.date, row.futureReturn, cfg.tradeCostBps, exit)];
      blockedUntil := Some(exit(row.date));
    }
    assert rows[..|rows|] == rows;
    return Success(trades);
  }

  /** The trades of the symbols visited, one block after the other. */
  function BlocksOf(symbols: seq<Symbol>, preds: seq<Prediction>, cfg: Strategy,
                    exit: Timestamp -> Timestamp): seq<Trade> {
    if symbols == [] then []
    else
      var symbol := symbols[|symbols| - 1];
      BlocksOf(symbols[..|symbols| - 1], preds, cfg, exit)
      + SymbolTrades(symbol, RowsByDate(preds, symbol), cfg, exit)
  }

  lemma BlockIsSelection(preds: seq<Prediction>, symbol: Symbol, cfg: Strategy, exit: Timestamp -> Timestamp)
    ensures var block := SymbolTrades(symbol, RowsByDate(preds, symbol), cfg, exit);
            && Map(block, EntryDate) == Selection(CandidateDates(preds, symbol, cfg.minUpProb), exit)
            && forall t :: t in block ==> t.symbol == symbol && FromRow(t, symbol, Group(preds, symbol), cfg, exit)
  {
    var group := Group(preds, symbol);
    var rows := SortBy(group, EntersNoLater);
    SymbolTradesAreGreedy(symbol, rows, cfg, exit);
    SymbolTradesComeFromRows(symbol, rows, cfg, exit);
    SortedGroupDates(Group(preds, symbol), rows, Tradable(cfg.minUpProb));
  }

  lemma {:induction false} BlocksHoldEachSelection(symbols: seq<Symbol>, preds: seq<Prediction>, cfg: Strategy,
                                                   exit: Timestamp -> Timestamp, symbol: Symbol)
    requires forall i, j :: 0 <= i < j < |symbols| ==> symbols[i] != symbols[j]
    ensures EntriesOf(BlocksOf(symbols, preds, cfg, exit), symbol)
         == if symbol in symbols then Selection(CandidateDates(preds, symbol, cfg.minUpProb), exit) else []
  {
    if symbols != [] {
      var front, last := symbols[..|symbols| - 1], symbols[|symbols| - 1];
      var block := SymbolTrades(last, RowsByDate(preds, last), cfg, exit);
      assert symbols == front + [last];
      BlocksHoldEachSelection(front, preds, cfg, exit, symbol);
      BlockIsSelection(preds, last, cfg, exit);
      EntriesAfterBlock(BlocksOf(front, preds, cfg, exit), block, last, symbol);
    }
  }

  lemma {:induction false} BlocksComeFromRows(symbols: seq<Symbol>, preds: seq<Prediction>, cfg: Strategy,
                                              exit: Timestamp -> Timestamp)
    ensures forall t :: t in BlocksOf(symbols, preds, cfg, exit) ==>
            FromRow(t, t.symbol, Group(preds, t.symbol), cfg, exit)
  {
    if symbols != [] {
      var n := |symbols| - 1;
      BlocksComeFromRows(symbols[..n], preds, cfg, exit);
      BlockIsSelection(preds, symbols[n], cfg, exit);
    }
  }

  /** Each symbol's trades are the greedy selection from its tradable rows, and each trade
      executes one of those rows. */
  ghost predicate SimulatedFrom(report: seq<Trade>, preds: seq<Prediction>, cfg: Strategy,
                                exit: Timestamp -> Timestamp) {
    && SortedBy(report, ReportedNoLater)
    && (forall symbol :: EntriesOf(report, symbol) == Selection(CandidateDates(preds, symbol, cfg.minUpProb), exit))
    && (forall t :: t in report ==> FromRow(t, t.symbol, Group(preds, t.symbol), cfg, exit))
  }

  lemma ReportIsSimulated(preds: seq<Prediction>, report: seq<Trade>, cfg: Strategy, exit: Timestamp -> Timestamp)
    requires ExitsAfterEntry(exit)
    requires multiset(report) == multiset(BlocksOf(SymbolsOf(preds), preds, cfg, exit))
    requires SortedBy(report, ReportedNoLater)
    ensures SimulatedFrom(report, preds, cfg, exit)
  {
    var trades := BlocksOf(SymbolsOf(preds), preds, cfg, exit);
    forall symbol ensures EntriesOf(report, symbol) == Selection(CandidateDates(preds, symbol, cfg.minUpProb), exit) {
      BlocksHoldEachSelection(SymbolsOf(preds), preds, cfg, exit, symbol);
      UnseenSymbolHasNoCandidates(preds, symbol, cfg.minUpProb, exit);
      SelectionIsSpacedAndCovers(CandidateDates(preds, symbol, cfg.minUpProb), exit);
      SpacedIsAscending(EntriesOf(trades, symbol), exit);
      ReportOrderKeepsEntries(trades, report, symbol);
    }
    BlocksComeFromRows(SymbolsOf(preds), preds, cfg, exit);
    SameMembers(report, trades);
  }

  // ----- what is reported, row by row -----

  /** Every reported trade executes a row of its symbol that is a long signal at or over the threshold, on
      the row's date and for the row's return less the cost; it exits after `hold` business days. */
  ghost predicate TradesAreLongSignals(report: seq<Trade>, preds: seq<Prediction>, cfg: Strategy, hold: nat) {
    forall t :: t in report ==> exists p ::
      && p in preds && p.symbol == t.symbol && p.date == t.entry
      && p.yPred == 1 && (cfg.minUpProb.Some? ==> p.upProb >= cfg.minUpProb.value)
      && t.exit == AddBDay(t.entry, hold)
      && t.returnRaw == p.futureReturn && t.ret == p.futureReturn - cfg.tradeCostBps / 10000.0
  }

  /** Every long signal at or over the threshold is dated while a trade of its symbol is held. */
  ghost predicate LongSignalsAreHeld(report: seq<Trade>, preds: seq<Prediction>, cfg: Strategy) {
    forall p :: p in preds && p.yPred == 1 && (cfg.minUpProb.Some? ==> p.upProb >= cfg.minUpProb.value) ==>
      exists t :: t in report && t.symbol == p.symbol && t.entry <= p.date <= t.exit
  }

  /** A symbol's trade is entered after its trade before has exited. */
  ghost predicate TradesAreApart(report: seq<Trade>) {
    forall i, j :: 0 <= i < j < |report| && report[i].symbol == report[j].symbol ==> report[i].exit < report[j].entry
  }

  ghost predicate IsReported(report: seq<Trade>) {
    forall i, j :: 0 <= i < j < |report| ==>
      report[i].entry < report[j].entry || (report[i].entry == report[j].entry && report[i].symbol <= report[j].symbol)
  }

  /** Some long signal meets a threshold that has no probability column to look at. */
  ghost predicate LacksProbabilities(preds: seq<Prediction>, hasProb: bool, cfg: Strategy) {
    cfg.minUpProb.Some? && !hasProb && exists p :: p in preds && p.yPred == 1
  }

  lemma SpacedEntriesAreApart(trades: seq<Trade>, symbol: Symbol, exit: Timestamp -> Timestamp)
    requires Spaced(EntriesOf(trades, symbol), exit)
    ensures forall i, j :: 0 <= i < j < |trades| && trades[i].symbol == trades[j].symbol == symbol ==>
      exit(trades[i].entry) < trades[j].entry
  {
    if trades != [] {
      var n := |trades| - 1;
      var front := EntriesOf(trades[..n], symbol);
      assert forall k :: 0 <= k < |front| ==> EntriesOf(trades, symbol)[k] == front[k];
      SpacedEntriesAreApart(trades[..n], symbol, exit);
      forall i | 0 <= i < n && trades[i].symbol == trades[n].symbol == symbol
        ensures exit(trades[i].entry) < trades[n].entry
      {
        assert trades[i] in Filter(trades[..n], TradeOf(symbol));
        var k :| 0 <= k < |front| && front[k] == trades[i].entry;
        assert EntriesOf(trades, symbol)[|front|] == trades[n].entry;
      }
    }
  }

  lemma ReportedTradesAreApart(report: seq<Trade>, exit: Timestamp -> Timestamp)
    requires forall symbol :: Spaced(EntriesOf(report, symbol), exit)
    requires forall t :: t in report ==> t.exit == exit(t.entry)
    ensures TradesAreApart(report)
  {
    forall i, j | 0 <= i < j < |report| && report[i].symbol == report[j].symbol
      ensures report[i].exit < report[j].entry
    {
      SpacedEntriesAreApart(report, report[i].symbol, exit);
      assert report[i] in report;
    }
  }

  /** Each candidate of a symbol lies in the holding period of a trade of the symbol. */
  lemma CandidateIsHeld(report: seq<Trade>, preds: seq<Prediction>, cfg: Strategy, exit: Timestamp -> Timestamp,
                        p: Prediction)
    requires ExitsAfterEntry(exit) && SimulatedFrom(report, preds, cfg, exit)
    requires p in preds && Tradable(cfg.minUpProb)(p)
    ensures exists t :: t in report && t.symbol == p.symbol && t.entry <= p.date <= t.exit
  {
    var entries := EntriesOf(report, p.symbol);
    var dates := CandidateDates(preds, p.symbol, cfg.minUpProb);
    assert p in Filter(Group(preds, p.symbol), Tradable(cfg.minUpProb));
    assert p.date in dates;
    SelectionIsSpacedAndCovers(dates, exit);
    assert entries == Selection(dates, exit);
    var j :| 0 <= j < |entries| && entries[j] <= p.date <= exit(entries[j]);
    var t := Filter(report, TradeOf(p.symbol))[j];
    assert t in Filter(report, TradeOf(p.symbol));
    assert FromRow(t, t.symbol, Group(preds, t.symbol), cfg, exit);
  }

  /** The simulated trades, stated in the fields of trades and rows. */
  lemma SimulatedRowByRow(report: seq<Trade>, preds: seq<Prediction>, cfg: Strategy, hold: nat)
    requires SimulatedFrom(report, preds, cfg, HoldExit(hold))
    ensures TradesAreLongSignals(report, preds, cfg, hold) && LongSignalsAreHeld(report, preds, cfg)
    ensures TradesAreApart(report) && IsReported(report)
  {
    var exit := HoldExit(hold);
    HoldExitIsNotBeforeEntry(hold);
    forall symbol ensures Spaced(EntriesOf(report, symbol), exit) {
      SelectionIsSpacedAndCovers(CandidateDates(preds, symbol, cfg.minUpProb), exit);
    }
    forall t | t in report ensures t.exit == exit(t.entry) {
      assert FromRow(t, t.symbol, Group(preds, t.symbol), cfg, exit);
    }
    ReportedTradesAreApart(report, exit);
    forall p | p in preds && p.yPred == 1 && (cfg.minUpProb.Some? ==> p.upProb >= cfg.minUpProb.value)
      ensures exists t :: t in report && t.symbol == p.symbol && t.entry <= p.date <= t.exit
    {
      CandidateIsHeld(report, preds, cfg, exit, p);
    }
    TradesRowByRow(report, preds, cfg, hold);
  }

  lemma TradesRowByRow(report: seq<Trade>, preds: seq<Prediction>, cfg: Strategy, hold: nat)
    requires SimulatedFrom(report, preds, cfg, HoldExit(hold))
    ensures TradesAreLongSignals(report, preds, cfg, hold)
  {
    forall t | t in report
      ensures exists p ::
        && p in preds && p.symbol == t.symbol && p.date == t.entry
        && p.yPred == 1 && (cfg.minUpProb.Some? ==> p.upProb >= cfg.minUpProb.value)
        && t.exit == AddBDay(t.entry, hold)
        && t.returnRaw == p.futureReturn && t.ret == p.futureReturn - cfg.tradeCostBps / 10000.0
    {
      assert FromRow(t, t.symbol, Group(preds, t.symbol), cfg, HoldExit(hold));
      var p :| p in Group(preds, t.symbol) && Tradable(cfg.minUpProb)(p)
               && t == TradeFrom(t.symbol, p.date, p.futureReturn, cfg.tradeCostBps, HoldExit(hold));
    }
  }

  lemma MissesProbRowByRow(preds: seq<Prediction>, hasProb: bool, cfg: Strategy)
    ensures MissesProb(preds, hasProb, cfg) <==> LacksProbabilities(preds, hasProb, cfg)
  {
    if HasLongSignal(preds) {
      var i :| 0 <= i < |preds| && preds[i].yPred == LONG_SIGNAL;
      assert preds[i] in preds;
    }
  }

  method SimulateNonOverlappingTrades(preds: seq<Prediction>, hasProb: bool, cfg: Strategy, hold: nat)
    returns (r: Result<seq<Trade>, BacktestError>)
    ensures r.Failure? <==> LacksProbabilities(preds, hasProb, cfg)
    ensures r.Failure? ==> r.error == MissingProbColumn
    ensures r.Success? ==> TradesAreLongSignals(r.value, preds, cfg, hold) && LongSignalsAreHeld(r.value, preds, cfg)
    ensures r.Success? ==> TradesAreApart(r.value) && IsReported(r.value)
    ensures r.Success? ==> SimulatedFrom(r.value, preds, cfg, HoldExit(hold))
  {
    HoldExitIsNotBeforeEntry(hold);
    MissesProbRowByRow(preds, hasProb, cfg);
    r := SimulateWithExits(preds, hasProb, cfg, HoldExit(hold));
    if r.Success? {
      SimulatedRowByRow(r.value, preds, cfg, hold);
    }
  }

  /** The simulation loop, for any exit rule. */
  method SimulateWithExits(preds: seq<Prediction>, hasProb: bool, cfg: Strategy, exit: Timestamp -> Timestamp)
    returns (r: Result<seq<Trade>, BacktestError>)
    requires ExitsAfterEntry(exit)
    ensures r.Failure? <==> MissesProb(preds, hasProb, cfg)
    ensures r.Failure? ==> r.error == MissingProbColumn
    ensures r.Success? ==> SimulatedFrom(r.value, preds, cfg, exit)
  {
    var collected := SimulateSymbols(SymbolsOf(preds), preds, hasProb, cfg, exit);
    MissedInSomeGroup(preds, hasProb, cfg);
    if collected.Failure? {
      return collected;
    }
    var report := Report(collected.value);
    ReportIsSimulated(preds, report, cfg, exit);
    return Success(report);
  }

  method SimulateSymbols(symbols: seq<Symbol>, preds: seq<Prediction>, hasProb: bool, cfg: Strategy,
                         exit: Timestamp -> Timestamp)
    returns (r: Result<seq<Trade>, BacktestError>)
    ensures r.Failure? <==> SomeGroupMisses(symbols, preds, hasProb, cfg)
    ensures r.Failure? ==> r.error == MissingProbColumn
    ensures r.Success? ==> r.value == BlocksOf(symbols, preds, cfg, exit)
  {
    r := Success([]);
    for k := 0 to |symbols|
      invariant r.Failure? <==> SomeGroupMisses(symbols[..k], preds, hasProb, cfg)
      invariant r.Failure? ==> r.error == MissingProbColumn
      invariant r.Success? ==> r.value == BlocksOf(symbols[..k], preds, cfg, exit)
    {
      var symbol := symbols[k];
      assert symbols[..k + 1][..k] == symbols[..k];
      if r.Success? {
        var s := SimulateSymbol(symbol, RowsByDate(preds, symbol), hasProb, cfg, exit);
        r := if s.Failure? then s else Success(r.value + s.value);
      }
    }
    assert symbols[..|symbols|] == symbols;
  }

  lemma UnseenSymbolHasNoCandidates(preds: seq<Prediction>, symbol: Symbol, minUpProb: Option<real>,
                                    exit: Timestamp -> Timestamp)
    ensures symbol !in SymbolsOf(preds) ==>
      && Group(preds, symbol) == []
      && Selection(CandidateDates(preds, symbol, minUpProb), exit) == []
  {
    if symbol !in SymbolsOf(preds) {
      FilterKeepsNone(preds, OfSymbol(symbol));
      SpacedDatesAreEmpty(exit);
    }
  }

  lemma SpacedDatesAreEmpty(exit: Timestamp -> Timestamp)
    ensures Selection([], exit) == []
  {
    assert |multiset(SortedDates([]))| == 0;
  }
}
