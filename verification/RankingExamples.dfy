/** Runs on which attribution and turnover do not say what a reader may expect of them. Every panel date
    lists two names: name 0 with score 0 and return 0, name 1 with score 1 and return 1. */
module RankingExamples {
  import opened Attribution
  import opened Books
  import opened Calendar
  import opened HoldingPeriods
  import opened RankingPortfolio
  import opened RankingResults
  import opened RankingRun
  import opened Sequences

  function LowRow(d: Day): PanelRow {
    PanelRow(d, 0, 0.0, 0.0)
  }

  function HighRow(d: Day): PanelRow {
    PanelRow(d, 1, 1.0, 1.0)
  }

  function TwoNames(): DayPanel {
    d => [LowRow(d), HighRow(d)]
  }

  lemma TwoNamesAreRanked(d: Day, rank: Ranking)
    requires RanksByScore(rank)
    ensures rank(TwoNames()(d)) == [HighRow(d), LowRow(d)]
  {
    var rows := TwoNames()(d);
    var ranked := rank(rows);
    assert rows == [LowRow(d), HighRow(d)];
    assert |multiset(ranked)| == |multiset(rows)|;
    assert ranked == [ranked[0], ranked[1]];
    assert ranked[0] in multiset(rows) && ranked[1] in multiset(rows);
    assert multiset(rows)[LowRow(d)] == 1 && multiset(rows)[HighRow(d)] == 1;
    assert ranked[0].score >= ranked[1].score;
  }

  lemma TwoNamesArePriced(d: Day, cfg: Config, longs: seq<Symbol>, shorts: seq<Symbol>)
    ensures !CannotPrice(cfg, TwoNames()(d), longs, shorts)
  {
    forall s ensures !Ambiguous(TwoNames()(d), s) {
    }
  }

  ghost predicate Buys(cfg: Config, shorts: seq<Symbol>) {
    && (forall d :: SelectLongShort([HighRow(d), LowRow(d)], cfg) == ([1], shorts))
    && (cfg.strategy.LongShortQuintile? ==> shorts != [])
  }

  lemma TwoNamesAreTradable(d: Day, cfg: Config, rank: Ranking, shorts: seq<Symbol>)
    requires RanksByScore(rank) && Buys(cfg, shorts)
    ensures Tradable(TwoNames()(d), cfg, rank)
  {
    TwoNamesAreRanked(d, rank);
    TwoNamesArePriced(d, cfg, [1], shorts);
  }

  lemma TradedTwoNames(p: Period, prevLong: Book, prevShort: Book, panel: seq<PanelRow>, cfg: Config, rank: Ranking,
                       shorts: seq<Symbol>)
    requires RanksByScore(rank) && Buys(cfg, shorts) && TradedFrom(p, prevLong, prevShort, panel, cfg, rank)
    requires RowsOn(panel, p.entry) == TwoNames()(p.entry)
    ensures p.longs == [1] && p.shorts == shorts
  {
    TwoNamesAreRanked(p.entry, rank);
  }

  /** The run of a configuration that buys name 1 and sells `shorts` on every date. */
  lemma RunOfTwoNames(days: seq<Day>, cfg: Config, rank: Ranking, shorts: seq<Symbol>)
    returns (panel: seq<PanelRow>, periods: seq<Period>)
    requires StrictlyAscending(days) && RanksByScore(rank) && Buys(cfg, shorts)
    requires cfg.rebalanceDays == 1 && 0 < cfg.holdDays
    ensures PeriodsOfRun(periods, panel, cfg, rank) && |periods| == |days|
    ensures forall k :: 0 <= k < |periods| ==>
      && periods[k].longs == [1] && periods[k].shorts == shorts
      && RowsOn(panel, periods[k].entry) == TwoNames()(periods[k].entry)
  {
    forall d ensures Tradable(TwoNames()(d), cfg, rank) {
      TwoNamesAreTradable(d, cfg, rank, shorts);
    }
    panel, periods := RunOfTradableDays(days, TwoNames(), cfg, rank);
    RunIsAccounted(periods, panel, cfg, rank);
    ChainOfTwoNames(panel, periods, cfg, rank, shorts);
  }

  lemma ChainOfTwoNames(panel: seq<PanelRow>, periods: seq<Period>, cfg: Config, rank: Ranking, shorts: seq<Symbol>)
    requires RanksByScore(rank) && Buys(cfg, shorts) && Chained(periods, panel, cfg, rank)
    requires forall k :: 0 <= k < |periods| ==> RowsOn(panel, periods[k].entry) == TwoNames()(periods[k].entry)
    ensures forall k :: 0 <= k < |periods| ==> periods[k].longs == [1] && periods[k].shorts == shorts
  {
    forall k | 0 <= k < |periods| ensures periods[k].longs == [1] && periods[k].shorts == shorts {
      TradedTwoNames(periods[k], LongBefore(periods, k, cfg), ShortBefore(periods, k, cfg), panel, cfg, rank, shorts);
    }
  }

  lemma SumsOfOnePeriod(panel: seq<PanelRow>, periods: seq<Period>)
    requires |periods| == 1
    ensures GrossSum(periods) == periods[0].grossReturn
    ensures AttributionSum(panel, periods) == PeriodAttribution(panel, periods[0])
  {
    assert periods[..0] == [];
  }

  /** The best name only, capped at one half. */
  const CAPPED := Config(LongTopN, 1, 0.2, 1, 1, 0.0, None, Some(0.5))

  /** The best name bought and the worst sold. */
  const LONG_SHORT := Config(LongShortQuintile, 1, 0.2, 1, 1, 0.0, None, None)

  /** The same with a threshold that only one name meets. */
  const ONE_ELIGIBLE := Config(LongShortQuintile, 1, 0.2, 1, 1, 0.0, Some(0.5), None)

  lemma BestOfTwo(d: Day)
    ensures SelectLongShort([HighRow(d), LowRow(d)], CAPPED) == ([1], [])
    ensures SelectLongShort([HighRow(d), LowRow(d)], LONG_SHORT) == ([1], [0])
  {
    var rows := [HighRow(d), LowRow(d)];
    assert QuintileCount(2, 0.2) == 1;
    assert rows[..1] == [HighRow(d)] && rows[1..] == [LowRow(d)];
    assert SymbolsOf([HighRow(d)]) == [1] && SymbolsOf([LowRow(d)]) == [0];
  }

  lemma OnlyOneEligible(d: Day)
    ensures Eligible([HighRow(d), LowRow(d)], ONE_ELIGIBLE) == [HighRow(d)]
    ensures SelectLongShort([HighRow(d), LowRow(d)], ONE_ELIGIBLE) == ([1], [1])
  {
    var rows := [HighRow(d), LowRow(d)];
    assert rows[..1] == [HighRow(d)] && [HighRow(d)][..0] == [];
    assert Filter([HighRow(d)], ScoresAtLeast(0.5)) == [HighRow(d)];
    assert Eligible(rows, ONE_ELIGIBLE) == [HighRow(d)];
    assert QuintileCount(1, 0.2) == 1;
    assert SymbolsOf([HighRow(d)]) == [1];
  }

  /** A cap that binds: the portfolio earns one half, attribution gives the name all of its return. */
  lemma BindingCapIsIgnored(rank: Ranking) returns (panel: seq<PanelRow>, periods: seq<Period>)
    requires RanksByScore(rank)
    ensures PeriodsOfRun(periods, panel, CAPPED, rank) && |periods| == 1
    ensures GrossSum(periods) == 0.5 && AttributionSum(panel, periods) == 1.0
  {
    forall d ensures SelectLongShort([HighRow(d), LowRow(d)], CAPPED) == ([1], []) {
      BestOfTwo(d);
    }
    panel, periods := RunOfTwoNames([0], CAPPED, rank, []);
    RunIsAttributedInProportion(periods, panel, CAPPED, rank, 0);
    ReturnOfName1(periods[0].entry);
    CappedPeriod(periods[0], panel);
    SumsOfOnePeriod(panel, periods);
  }

  lemma CappedPeriod(p: Period, panel: seq<PanelRow>)
    requires p.longs == [1] && p.shorts == [] && InProportion(p, panel, CAPPED)
    requires PeriodAttribution(panel, p) == 1.0 && PeriodShared(panel, p) == 0.0
    ensures p.grossReturn == 0.5
  {
    InvestedUnlessCapBinds(1, CAPPED.maxPositionWeight);
    assert CapBinds(1, CAPPED.maxPositionWeight);
    assert Invested(1, CAPPED.maxPositionWeight) == 0.5;
  }

  lemma ReturnOfName1(d: Day)
    ensures ReturnIn(TwoNames()(d), 1) == 1.0
    ensures PortfolioReturn(AttributionBook([1], []), TwoNames()(d)) == 1.0
  {
    var rows := TwoNames()(d);
    var book := AttributionBook([1], []);
    assert rows[1..] == [HighRow(d)];
    assert ReturnIn(rows, 1) == ReturnIn([HighRow(d)], 1);
    assert book.Keys == {1} && book[1] == 1.0;
    SumPick({1}, Contribution(book, rows), 1);
    assert {1} - {1} == {};
  }

  /** A long/short run that keeps both books: the second period still turns over one half. */
  lemma UnchangedLegsTurnOver(rank: Ranking) returns (panel: seq<PanelRow>, periods: seq<Period>)
    requires RanksByScore(rank)
    ensures PeriodsOfRun(periods, panel, LONG_SHORT, rank) && |periods| == 2
    ensures periods[0].longs == periods[1].longs && periods[0].shorts == periods[1].shorts && periods[1].turnover == 0.5
  {
    forall d ensures SelectLongShort([HighRow(d), LowRow(d)], LONG_SHORT) == ([1], [0]) {
      BestOfTwo(d);
    }
    panel, periods := RunOfTwoNames([0, 1], LONG_SHORT, rank, [0]);
    RunIsAccounted(periods, panel, LONG_SHORT, rank);
    UnchangedBookIsFreeOnlyLongOnly(periods, LONG_SHORT, 1);
    BookOfName0();
  }

  lemma BookOfName0()
    ensures Total(ShortBook(LONG_SHORT, [0])) == 0.5
  {
    TotalOfEqualBook([0], 0.5);
    assert Names([0]) == {0};
  }

  /** A long/short run with one eligible name: it earns nothing and is charged one half. */
  lemma OneNameIsCharged(rank: Ranking) returns (panel: seq<PanelRow>, periods: seq<Period>)
    requires RanksByScore(rank)
    ensures PeriodsOfRun(periods, panel, ONE_ELIGIBLE, rank) && |periods| == 1
    ensures GrossSum(periods) == 0.0 && AttributionSum(panel, periods) == -0.5
  {
    forall d ensures SelectLongShort([HighRow(d), LowRow(d)], ONE_ELIGIBLE) == ([1], [1]) {
      OnlyOneEligible(d);
    }
    panel, periods := RunOfTwoNames([0], ONE_ELIGIBLE, rank, [1]);
    var p := periods[0];
    TwoNamesAreRanked(p.entry, rank);
    OnlyOneEligible(p.entry);
    OneNameOnBothSides(periods, panel, ONE_ELIGIBLE, rank, 0);
    ReturnOfName1(p.entry);
    SumsOfOnePeriod(panel, periods);
  }
}
