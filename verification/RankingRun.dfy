/** The loop of `simulate_ranking_portfolio`: one period for each rebalance date on which
    something is selected, with the previous books carried along. */
module RankingRun {
  import opened Books
  import opened Calendar
  import opened Numbers
  import opened PortfolioWeights
  import opened RankingPeriods
  import opened RankingPortfolio
  import opened Sequences

  // ----- rebalance dates -----

  function DayOfRow(r: PanelRow): Day {
    r.date
  }

  function UniqueDates(panel: seq<PanelRow>): (u: seq<Day>)
    ensures StrictlyAscending(u)
  {
    SortedWithoutRepeats(Map(panel, DayOfRow))
  }

  lemma UniqueDatesAreDatesOfRows(panel: seq<PanelRow>, d: Day)
    ensures d in UniqueDates(panel) <==> exists r :: r in panel && r.date == d
  {
    var days := Map(panel, DayOfRow);
    if d in days {
      var i :| 0 <= i < |panel| && panel[i].date == d;
      assert panel[i] in panel;
    }
    if r :| r in panel && r.date == d {
      var i :| 0 <= i < |panel| && panel[i] == r;
      assert days[i] == d;
    }
  }

  function EveryNth(days: seq<Day>, n: nat): seq<Day>
    requires 0 < n
  {
    if days == [] then []
    else [days[0]] + if n < |days| then EveryNth(days[n..], n) else []
  }

  function RebalanceDates(panel: seq<PanelRow>, rebalanceDays: nat): seq<Day> {
    if rebalanceDays <= 1 then UniqueDates(panel) else EveryNth(UniqueDates(panel), rebalanceDays)
  }

  // ----- one rebalance date -----

  function OnDate(d: Day): PanelRow -> bool {
    (r: PanelRow) => r.date == d
  }

  function RowsOn(panel: seq<PanelRow>, d: Day): seq<PanelRow> {
    Filter(panel, OnDate(d))
  }

  function LongBook(cfg: Config, longs: seq<Symbol>): Book {
    CappedBook(longs, if cfg.strategy.LongShortQuintile? then 0.5 else 1.0, cfg.maxPositionWeight)
  }

  function ShortBook(cfg: Config, shorts: seq<Symbol>): Book {
    if cfg.strategy.LongShortQuintile? then CappedBook(shorts, 0.5, cfg.maxPositionWeight) else map[]
  }

  /** Returns are taken on fully invested legs. */
  function HeldLong(cfg: Config, longs: seq<Symbol>): Book {
    CappedBook(longs, 1.0, cfg.maxPositionWeight)
  }

  function HeldShort(cfg: Config, shorts: seq<Symbol>): Book {
    if cfg.strategy.LongShortQuintile? then CappedBook(shorts, 1.0, cfg.maxPositionWeight) else map[]
  }

  ghost function GrossReturn(cfg: Config, rows: seq<PanelRow>, longs: seq<Symbol>, shorts: seq<Symbol>): real {
    PortfolioReturn(HeldLong(cfg, longs), rows) - PortfolioReturn(HeldShort(cfg, shorts), rows)
  }

  ghost function PeriodTurnover(cfg: Config, prevLong: Book, prevShort: Book, longs: seq<Symbol>,
                                shorts: seq<Symbol>): real {
    Turnover(prevLong, LongBook(cfg, longs))
    + if cfg.strategy.LongShortQuintile? then Turnover(prevShort, Negated(ShortBook(cfg, shorts))) else 0.0
  }

  function Cost(cfg: Config, turnover: real): real {
    cfg.tradeCostBps * turnover / 10000.0
  }

  ghost function PeriodAt(cfg: Config, entry: Day, rows: seq<PanelRow>, prevLong: Book, prevShort: Book,
                          longs: seq<Symbol>,
                          shorts: seq<Symbol>): Period
  {
    var gross := GrossReturn(cfg, rows, longs, shorts);
    var turnover := PeriodTurnover(cfg, prevLong, prevShort, longs, shorts);
    Period(entry, BDay(entry, cfg.holdDays), gross, gross - Cost(cfg, turnover), turnover, longs, shorts)
  }

  predicate NothingSelected(cfg: Config, longs: seq<Symbol>, shorts: seq<Symbol>) {
    longs == [] || (cfg.strategy.LongShortQuintile? && shorts == [])
  }

  datatype RunState = RunState(periods: seq<Period>, prevLong: Book, prevShort: Book)

  ghost function NextState(st: RunState, cfg: Config, entry: Day, rows: seq<PanelRow>, longs: seq<Symbol>,
                           shorts: seq<Symbol>): RunState
  {
    RunState(st.periods + [PeriodAt(cfg, entry, rows, st.prevLong, st.prevShort, longs, shorts)],
             LongBook(cfg, longs), ShortBook(cfg, shorts))
  }

  ghost function Step(st: RunState, entry: Day, panel: seq<PanelRow>, cfg: Config,
                      rank: Ranking): Result<RunState, RunError> {
    var rows := RowsOn(panel, entry);
    var (longs, shorts) := SelectLongShort(rank(rows), cfg);
    if |rows| < 2 || NothingSelected(cfg, longs, shorts) then Success(st)
    else if CannotPrice(cfg, rows, longs, shorts) then Failure(AmbiguousSymbol)
    else Success(NextState(st, cfg, entry, rows, longs, shorts))
  }

  ghost function RunOver(dates: seq<Day>, panel: seq<PanelRow>, cfg: Config,
                         rank: Ranking): Result<RunState, RunError> {
    if dates == [] then Success(RunState([], map[], map[]))
    else
      var before := RunOver(dates[..|dates| - 1], panel, cfg, rank);
      if before.Failure? then before else Step(before.value, dates[|dates| - 1], panel, cfg, rank)
  }

  ghost function RunOf(panel: seq<PanelRow>, cfg: Config, rank: Ranking): Result<RunState, RunError> {
    if cfg.holdDays <= 0 || cfg.rebalanceDays <= 0 then Failure(DaysMustBePositive)
    else RunOver(RebalanceDates(panel, cfg.rebalanceDays), panel, cfg, rank)
  }

  // ----- what each period of a run is -----

  /** The books held before period `i`. */
  function LongBefore(periods: seq<Period>, i: nat, cfg: Config): Book
    requires i <= |periods|
  {
    if i == 0 then map[] else LongBook(cfg, periods[i - 1].longs)
  }

  function ShortBefore(periods: seq<Period>, i: nat, cfg: Config): Book
    requires i <= |periods|
  {
    if i == 0 then map[] else ShortBook(cfg, periods[i - 1].shorts)
  }

  /** The period was traded from the given books, on the rows of its own entry date. */
  ghost predicate TradedFrom(p: Period, prevLong: Book, prevShort: Book, panel: seq<PanelRow>, cfg: Config,
                             rank: Ranking) {
    var rows := RowsOn(panel, p.entry);
    && 2 <= |rows| && SelectLongShort(rank(rows), cfg) == (p.longs, p.shorts)
    && !NothingSelected(cfg, p.longs, p.shorts) && !CannotPrice(cfg, rows, p.longs, p.shorts)
    && p == PeriodAt(cfg, p.entry, rows, prevLong, prevShort, p.longs, p.shorts)
  }

  ghost predicate Chained(periods: seq<Period>, panel: seq<PanelRow>, cfg: Config, rank: Ranking) {
    forall i :: 0 <= i < |periods| ==>
      TradedFrom(periods[i], LongBefore(periods, i, cfg), ShortBefore(periods, i, cfg), panel, cfg, rank)
  }

  lemma {:induction false} RunIsChained(dates: seq<Day>, panel: seq<PanelRow>, cfg: Config, rank: Ranking)
    requires RunOver(dates, panel, cfg, rank).Success?
    ensures var st := RunOver(dates, panel, cfg, rank).value;
            && Chained(st.periods, panel, cfg, rank)
            && st.prevLong == LongBefore(st.periods, |st.periods|, cfg)
            && st.prevShort == ShortBefore(st.periods, |st.periods|, cfg)
  {
    if dates != [] {
      var front, d := dates[..|dates| - 1], dates[|dates| - 1];
      RunIsChained(front, panel, cfg, rank);
      StepKeepsChain(RunOver(front, panel, cfg, rank).value, d, panel, cfg, rank);
    }
  }

  lemma StepIsTraded(before: RunState, d: Day, panel: seq<PanelRow>, cfg: Config, rank: Ranking) returns (p: Period)
    requires Step(before, d, panel, cfg, rank).Success?
    ensures var st := Step(before, d, panel, cfg, rank).value;
            || st == before
            || (st == RunState(before.periods + [p], LongBook(cfg, p.longs), ShortBook(cfg, p.shorts))
                && TradedFrom(p, before.prevLong, before.prevShort, panel, cfg, rank))
  {
    var rows := RowsOn(panel, d);
    var (longs, shorts) := SelectLongShort(rank(rows), cfg);
    p := PeriodAt(cfg, d, rows, before.prevLong, before.prevShort, longs, shorts);
  }

  lemma StepKeepsChain(before: RunState, d: Day, panel: seq<PanelRow>, cfg: Config, rank: Ranking)
    requires Chained(before.periods, panel, cfg, rank) && Step(before, d, panel, cfg, rank).Success?
    requires before.prevLong == LongBefore(before.periods, |before.periods|, cfg)
    requires before.prevShort == ShortBefore(before.periods, |before.periods|, cfg)
    ensures var st := Step(before, d, panel, cfg, rank).value;
            && Chained(st.periods, panel, cfg, rank)
            && st.prevLong == LongBefore(st.periods, |st.periods|, cfg)
            && st.prevShort == ShortBefore(st.periods, |st.periods|, cfg)
  {
    var p := StepIsTraded(before, d, panel, cfg, rank);
    if Step(before, d, panel, cfg, rank).value != before {
      OneMorePeriod(before.periods, p, panel, cfg, rank);
    }
  }

  lemma BeforeIsSettled(periods: seq<Period>, p: Period, i: nat, cfg: Config)
    requires i <= |periods|
    ensures LongBefore(periods + [p], i, cfg) == LongBefore(periods, i, cfg)
    ensures ShortBefore(periods + [p], i, cfg) == ShortBefore(periods, i, cfg)
  {
    assert 0 < i ==> (periods + [p])[i - 1] == periods[i - 1];
  }

  lemma OneMorePeriod(periods: seq<Period>, p: Period, panel: seq<PanelRow>, cfg: Config, rank: Ranking)
    requires Chained(periods, panel, cfg, rank)
    requires TradedFrom(p, LongBefore(periods, |periods|, cfg), ShortBefore(periods, |periods|, cfg), panel, cfg, rank)
    ensures Chained(periods + [p], panel, cfg, rank)
  {
    var after := periods + [p];
    forall i | 0 <= i < |after|
      ensures TradedFrom(after[i], LongBefore(after, i, cfg), ShortBefore(after, i, cfg), panel, cfg, rank)
    {
      BeforeIsSettled(periods, p, i, cfg);
      if i < |periods| {
        assert after[i] == periods[i];
      } else {
        assert after[i] == p;
      }
    }
  }

  /** The periods are entered on rebalance dates, in their order; dates may be skipped. */
  ghost predicate EnteredOn(periods: seq<Period>, dates: seq<Day>, at: seq<nat>) {
    && |at| == |periods|
    && (forall i :: 0 <= i < |at| ==> at[i] < |dates| && periods[i].entry == dates[at[i]])
    && (forall i, j :: 0 <= i < j < |at| ==> at[i] < at[j])
  }

  lemma {:induction false} PeriodsFollowDates(dates: seq<Day>, panel: seq<PanelRow>, cfg: Config, rank: Ranking)
    returns (at: seq<nat>)
    requires RunOver(dates, panel, cfg, rank).Success?
    ensures EnteredOn(RunOver(dates, panel, cfg, rank).value.periods, dates, at)
  {
    at := [];
    if dates != [] {
      var front := dates[..|dates| - 1];
      at := PeriodsFollowDates(front, panel, cfg, rank);
      if RunOver(dates, panel, cfg, rank).value.periods != RunOver(front, panel, cfg, rank).value.periods {
        at := at + [|front|];
      }
    }
  }

  // ----- the run in the fields of periods and rows -----

  lemma RowsOnByCount(panel: seq<PanelRow>, d: Day)
    ensures AreRowsOn(RowsOn(panel, d), panel, d)
  {
    forall r ensures multiset(RowsOn(panel, d))[r] == if r.date == d then multiset(panel)[r] else 0 {
      FilterCounts(panel, OnDate(d), r);
    }
  }

  lemma PricedNamesHaveSingleRows(names: seq<Symbol>, rows: seq<PanelRow>, cap: Option<real>)
    requires !HasAmbiguous(CappedBook(names, 1.0, cap), rows)
    ensures HasSingleRows(names, rows) && forall s :: s in names ==> !Ambiguous(rows, s)
  {
    forall s | s in names ensures !Ambiguous(rows, s) {
      assert s in CappedBook(names, 1.0, cap);
    }
  }

  lemma LegsHaveReturns(p: Period, rows: seq<PanelRow>, bought: seq<PanelRow>, shorted: seq<PanelRow>, cfg: Config)
    requires !CannotPrice(cfg, rows, p.longs, p.shorts) && p.grossReturn == GrossReturn(cfg, rows, p.longs, p.shorts)
    requires Selects(p.longs, p.shorts, bought, shorted, rows, cfg)
    requires multiset(bought) <= multiset(rows) && multiset(shorted) <= multiset(rows)
    ensures HasReturns(p, rows, bought, shorted, cfg)
  {
    var cap := cfg.maxPositionWeight;
    PricedNamesHaveSingleRows(p.longs, rows, cap);
    LegReturnOfBook(p.longs, bought, rows, cap);
    if cfg.strategy.LongShortQuintile? {
      PricedNamesHaveSingleRows(p.shorts, rows, cap);
      LegReturnOfBook(p.shorts, shorted, rows, cap);
    } else {
      assert shorted == [] && p.shorts == [];
    }
  }

  lemma SelectedAreRows(longs: seq<Symbol>, shorts: seq<Symbol>, bought: seq<PanelRow>, shorted: seq<PanelRow>,
                        rows: seq<PanelRow>, cfg: Config)
    requires Selects(longs, shorts, bought, shorted, rows, cfg)
    ensures multiset(bought) <= multiset(rows) && multiset(shorted) <= multiset(rows)
  {
    var eligible :| AreEligible(eligible, rows, cfg) && Bought(bought, shorted, eligible, cfg);
    forall r ensures multiset(bought)[r] <= multiset(rows)[r] && multiset(shorted)[r] <= multiset(rows)[r] {
      assert multiset(eligible)[r] <= multiset(rows)[r];
    }
  }

  lemma TurnoverOfNames(prevLongs: seq<Symbol>, prevShorts: seq<Symbol>, cfg: Config, longs: seq<Symbol>,
                        shorts: seq<Symbol>)
    ensures PeriodTurnover(cfg, LongBook(cfg, prevLongs), ShortBook(cfg, prevShorts), longs, shorts) ==
      if cfg.strategy.LongShortQuintile? then
        LongTurnover(prevLongs, longs, 0.5, cfg.maxPositionWeight)
        + ShortTurnover(prevShorts, shorts, 0.5, cfg.maxPositionWeight)
      else LongTurnover(prevLongs, longs, 1.0, cfg.maxPositionWeight)
  {
    if cfg.strategy.LongShortQuintile? {
      TurnoverOfEqualBooks(prevLongs, longs, 0.5, cfg.maxPositionWeight);
      TurnoverOfNegatedBooks(prevShorts, shorts, 0.5, cfg.maxPositionWeight);
    } else {
      TurnoverOfEqualBooks(prevLongs, longs, 1.0, cfg.maxPositionWeight);
    }
  }

  lemma CostIsCharged(p: Period, cfg: Config)
    requires p.netReturn == p.grossReturn - Cost(cfg, p.turnover)
    ensures p.netReturn == p.grossReturn - cfg.tradeCostBps * p.turnover / 10000.0
  {
  }

  lemma TradedHasCosts(p: Period, prevLongs: seq<Symbol>, prevShorts: seq<Symbol>, cfg: Config)
    requires p.turnover == PeriodTurnover(cfg, LongBook(cfg, prevLongs), ShortBook(cfg, prevShorts), p.longs, p.shorts)
    requires p.netReturn == p.grossReturn - Cost(cfg, p.turnover)
    ensures HasCosts(p, prevLongs, prevShorts, cfg)
  {
    TurnoverOfNames(prevLongs, prevShorts, cfg, p.longs, p.shorts);
    CostIsCharged(p, cfg);
  }

  lemma TradedHasReturns(p: Period, rows: seq<PanelRow>, panel: seq<PanelRow>, cfg: Config, rank: Ranking)
    returns (bought: seq<PanelRow>, shorted: seq<PanelRow>)
    requires RanksByScore(rank) && rows == RowsOn(panel, p.entry) && 2 <= |rows|
    requires SelectLongShort(rank(rows), cfg) == (p.longs, p.shorts) && !NothingSelected(cfg, p.longs, p.shorts)
    requires !CannotPrice(cfg, rows, p.longs, p.shorts) && p.grossReturn == GrossReturn(cfg, rows, p.longs, p.shorts)
    ensures CanTrade(rows, panel, p.entry, cfg, p.longs, p.shorts, bought, shorted)
    ensures HasReturns(p, rows, bought, shorted, cfg)
  {
    RowsOnByCount(panel, p.entry);
    SelectionIsBest(rows, cfg, rank);
    bought, shorted :| Selects(p.longs, p.shorts, bought, shorted, rows, cfg);
    SelectedAreRows(p.longs, p.shorts, bought, shorted, rows, cfg);
    LegsHaveReturns(p, rows, bought, shorted, cfg);
  }

  lemma TradedIsPeriod(p: Period, prevLongs: seq<Symbol>, prevShorts: seq<Symbol>, panel: seq<PanelRow>, cfg: Config,
                       rank: Ranking)
    requires RanksByScore(rank)
    requires TradedFrom(p, LongBook(cfg, prevLongs), ShortBook(cfg, prevShorts), panel, cfg, rank)
    ensures IsPeriod(p, prevLongs, prevShorts, panel, cfg)
  {
    var rows := RowsOn(panel, p.entry);
    TradedHasCosts(p, prevLongs, prevShorts, cfg);
    var bought, shorted := TradedHasReturns(p, rows, panel, cfg, rank);
  }

  lemma ChainedArePeriods(periods: seq<Period>, panel: seq<PanelRow>, cfg: Config, rank: Ranking)
    requires RanksByScore(rank) && Chained(periods, panel, cfg, rank)
    ensures ArePeriods(periods, panel, cfg)
  {
    forall i | 0 <= i < |periods|
      ensures IsPeriod(periods[i], if i == 0 then [] else periods[i - 1].longs,
                       if i == 0 then [] else periods[i - 1].shorts, panel, cfg)
    {
      assert TradedFrom(periods[i], LongBefore(periods, i, cfg), ShortBefore(periods, i, cfg), panel, cfg, rank);
      TradedIsPeriod(periods[i], if i == 0 then [] else periods[i - 1].longs,
                     if i == 0 then [] else periods[i - 1].shorts, panel, cfg, rank);
    }
  }

  lemma {:induction false} EveryNthByIndex(days: seq<Day>, n: nat, d: Day)
    requires 0 < n
    ensures d in EveryNth(days, n) <==> IsRebalanceDate(d, days, n)
    decreases |days|
  {
    if n < |days| {
      EveryNthByIndex(days[n..], n, d);
      FirstOrLater(days, n, d);
    } else if days != [] {
      assert 0 % n == 0 && days[0] == days[0];
    }
  }

  lemma FirstOrLater(days: seq<Day>, n: nat, d: Day)
    requires 0 < n < |days|
    ensures IsRebalanceDate(d, days, n) <==> d == days[0] || IsRebalanceDate(d, days[n..], n)
  {
    assert 0 % n == 0;
    if IsRebalanceDate(d, days[n..], n) {
      var k :| 0 <= k < |days[n..]| && k % n == 0 && days[n..][k] == d;
      RemainderAfter(k, n);
      assert days[k + n] == d;
    }
    if IsRebalanceDate(d, days, n) {
      var k :| 0 <= k < |days| && k % n == 0 && days[k] == d;
      LaterMultiple(days, n, d, k);
    }
  }

  lemma LaterMultiple(days: seq<Day>, n: nat, d: Day, k: nat)
    requires 0 < n < |days| && k < |days| && k % n == 0 && days[k] == d
    ensures d == days[0] || IsRebalanceDate(d, days[n..], n)
  {
    if 0 < k {
      assert n <= k;
      RemainderAfter(k - n, n);
      assert days[n..][k - n] == d;
    }
  }

  lemma {:induction false} EveryNthAscends(days: seq<Day>, n: nat)
    requires 0 < n && StrictlyAscending(days)
    ensures StrictlyAscending(EveryNth(days, n))
    ensures forall d :: d in EveryNth(days, n) ==> d in days
    decreases |days|
  {
    if n < |days| {
      EveryNthAscends(days[n..], n);
      var rest := EveryNth(days[n..], n);
      forall d | d in rest ensures d in days && days[0] < d {
        assert d in days[n..];
        var k :| 0 <= k < |days[n..]| && days[n..][k] == d;
        assert days[n + k] == d;
      }
      forall j | 0 <= j < |rest| ensures days[0] < rest[j] {
        assert rest[j] in rest;
      }
    }
  }

  lemma RebalanceDatesByIndex(panel: seq<PanelRow>, n: nat)
    requires 0 < n
    ensures StrictlyAscending(RebalanceDates(panel, n)) && AreDatesOf(UniqueDates(panel), panel)
    ensures forall d :: d in RebalanceDates(panel, n) <==> IsRebalanceDate(d, UniqueDates(panel), n)
  {
    var days := UniqueDates(panel);
    forall d ensures d in days <==> exists r :: r in panel && r.date == d {
      UniqueDatesAreDatesOfRows(panel, d);
    }
    if n == 1 {
      assert forall k: nat :: k % 1 == 0;
    } else {
      EveryNthAscends(days, n);
      forall d ensures d in EveryNth(days, n) <==> IsRebalanceDate(d, days, n) {
        EveryNthByIndex(days, n, d);
      }
    }
  }

  /** Something is selected from the rows of the date. */
  ghost predicate TradesOn(panel: seq<PanelRow>, d: Day, cfg: Config, rank: Ranking) {
    var rows := RowsOn(panel, d);
    2 <= |rows| && !NothingSelected(cfg, SelectLongShort(rank(rows), cfg).0, SelectLongShort(rank(rows), cfg).1)
  }

  lemma TradesWhereItCan(panel: seq<PanelRow>, d: Day, cfg: Config, rank: Ranking)
    requires RanksByScore(rank)
    ensures TradesOn(panel, d, cfg, rank) <==> CanTradeOn(panel, d, cfg)
  {
    var rows := RowsOn(panel, d);
    var (longs, shorts) := SelectLongShort(rank(rows), cfg);
    RowsOnByCount(panel, d);
    SelectionIsBest(rows, cfg, rank);
    var bought, shorted :| Selects(longs, shorts, bought, shorted, rows, cfg);
    if TradesOn(panel, d, cfg, rank) {
      assert CanTrade(rows, panel, d, cfg, longs, shorts, bought, shorted);
    }
    if CanTradeOn(panel, d, cfg) {
      var others, otherLongs, otherShorts, otherBought, otherShorted :|
        CanTrade(others, panel, d, cfg, otherLongs, otherShorts, otherBought, otherShorted);
      SelectsAsMany(rows, longs, shorts, bought, shorted, others, otherLongs, otherShorts, otherBought, otherShorted,
                    panel, d, cfg);
    }
  }

  lemma SelectsAsMany(rows: seq<PanelRow>, longs: seq<Symbol>, shorts: seq<Symbol>, bought: seq<PanelRow>,
                      shorted: seq<PanelRow>, others: seq<PanelRow>, otherLongs: seq<Symbol>, otherShorts: seq<Symbol>,
                      otherBought: seq<PanelRow>, otherShorted: seq<PanelRow>, panel: seq<PanelRow>, d: Day,
                      cfg: Config)
    requires AreRowsOn(rows, panel, d) && AreRowsOn(others, panel, d)
    requires Selects(longs, shorts, bought, shorted, rows, cfg)
    requires Selects(otherLongs, otherShorts, otherBought, otherShorted, others, cfg)
    ensures |rows| == |others| && |longs| == |otherBought| && |shorts| == |otherShorted|
  {
    SameCounts(multiset(rows), multiset(others));
    assert |multiset(rows)| == |rows| && |multiset(others)| == |others|;
    var eligible :| AreEligible(eligible, rows, cfg) && Bought(bought, shorted, eligible, cfg);
    var also :| AreEligible(also, others, cfg) && Bought(otherBought, otherShorted, also, cfg);
    SameEligible(rows, others, eligible, also, cfg);
    SameSizes(bought, shorted, eligible, otherBought, otherShorted, also, cfg);
  }

  lemma {:induction false} TradingDatesHavePeriods(dates: seq<Day>, panel: seq<PanelRow>, cfg: Config, rank: Ranking)
    requires RunOver(dates, panel, cfg, rank).Success?
    ensures var periods := RunOver(dates, panel, cfg, rank).value.periods;
            forall d :: d in dates && TradesOn(panel, d, cfg, rank) ==>
              exists i :: 0 <= i < |periods| && periods[i].entry == d
  {
    if dates != [] {
      var n := |dates| - 1;
      TradingDatesHavePeriods(dates[..n], panel, cfg, rank);
      var before := RunOver(dates[..n], panel, cfg, rank).value.periods;
      var periods := RunOver(dates, panel, cfg, rank).value.periods;
      assert dates == dates[..n] + [dates[n]];
      assert forall i :: 0 <= i < |before| ==> periods[i] == before[i];
      if TradesOn(panel, dates[n], cfg, rank) {
        assert periods[|before|].entry == dates[n];
      }
    }
  }

  lemma EnteredWhereItTrades(periods: seq<Period>, dates: seq<Day>, at: seq<nat>, panel: seq<PanelRow>, cfg: Config,
                             rank: Ranking, i: nat)
    requires EnteredOn(periods, dates, at) && Chained(periods, panel, cfg, rank) && i < |periods|
    ensures periods[i].entry in dates && TradesOn(panel, periods[i].entry, cfg, rank)
  {
    assert TradedFrom(periods[i], LongBefore(periods, i, cfg), ShortBefore(periods, i, cfg), panel, cfg, rank);
    assert dates[at[i]] in dates;
  }

  lemma PeriodPerTradingDate(periods: seq<Period>, panel: seq<PanelRow>, cfg: Config, rank: Ranking)
    requires 0 < cfg.rebalanceDays
    requires RunOver(RebalanceDates(panel, cfg.rebalanceDays), panel, cfg, rank).Success?
    requires periods == RunOver(RebalanceDates(panel, cfg.rebalanceDays), panel, cfg, rank).value.periods
    ensures forall i, j :: 0 <= i < j < |periods| ==> periods[i].entry < periods[j].entry
    ensures forall d :: (exists i :: 0 <= i < |periods| && periods[i].entry == d) <==>
                        d in RebalanceDates(panel, cfg.rebalanceDays) && TradesOn(panel, d, cfg, rank)
  {
    var dates := RebalanceDates(panel, cfg.rebalanceDays);
    RunIsChained(dates, panel, cfg, rank);
    RebalanceDatesByIndex(panel, cfg.rebalanceDays);
    var at := PeriodsFollowDates(dates, panel, cfg, rank);
    TradingDatesHavePeriods(dates, panel, cfg, rank);
    forall i | 0 <= i < |periods| ensures periods[i].entry in dates && TradesOn(panel, periods[i].entry, cfg, rank) {
      EnteredWhereItTrades(periods, dates, at, panel, cfg, rank, i);
    }
  }

  lemma RunEntersRebalanceDates(periods: seq<Period>, panel: seq<PanelRow>, cfg: Config, rank: Ranking)
    requires RanksByScore(rank) && 0 < cfg.rebalanceDays
    requires RunOver(RebalanceDates(panel, cfg.rebalanceDays), panel, cfg, rank).Success?
    requires periods == RunOver(RebalanceDates(panel, cfg.rebalanceDays), panel, cfg, rank).value.periods
    ensures EnterRebalanceDates(periods, panel, cfg)
  {
    RebalanceDatesByIndex(panel, cfg.rebalanceDays);
    PeriodPerTradingDate(periods, panel, cfg, rank);
    forall d ensures TradesOn(panel, d, cfg, rank) <==> CanTradeOn(panel, d, cfg) {
      TradesWhereItCan(panel, d, cfg, rank);
    }
  }

  /** A run can fail on a date only if a name it may select there has two rows. */
  lemma {:induction false} FailsOnAmbiguousName(dates: seq<Day>, panel: seq<PanelRow>, cfg: Config, rank: Ranking)
    requires RanksByScore(rank) && RunOver(dates, panel, cfg, rank).Failure?
    ensures RunOver(dates, panel, cfg, rank).error == AmbiguousSymbol
    ensures exists d :: d in dates && MayHoldAmbiguousName(panel, d, cfg)
  {
    var n := |dates| - 1;
    assert dates == dates[..n] + [dates[n]];
    if RunOver(dates[..n], panel, cfg, rank).Failure? {
      FailsOnAmbiguousName(dates[..n], panel, cfg, rank);
    } else {
      SelectedAmbiguousName(panel, dates[n], cfg, rank);
      assert dates[n] in dates;
    }
  }

  lemma SelectedAmbiguousName(panel: seq<PanelRow>, d: Day, cfg: Config, rank: Ranking)
    requires RanksByScore(rank) && TradesOn(panel, d, cfg, rank)
    requires var (longs, shorts) := SelectLongShort(rank(RowsOn(panel, d)), cfg);
             CannotPrice(cfg, RowsOn(panel, d), longs, shorts)
    ensures MayHoldAmbiguousName(panel, d, cfg)
  {
    var rows := RowsOn(panel, d);
    var (longs, shorts) := SelectLongShort(rank(rows), cfg);
    RowsOnByCount(panel, d);
    SelectionIsBest(rows, cfg, rank);
    var bought, shorted :| Selects(longs, shorts, bought, shorted, rows, cfg);
    var s :| (s in longs || s in shorts) && Ambiguous(rows, s);
    assert !HasSingleRows(longs, rows) || !HasSingleRows(shorts, rows);
    assert CanTrade(rows, panel, d, cfg, longs, shorts, bought, shorted);
  }

  lemma RunRowByRow(panel: seq<PanelRow>, cfg: Config, rank: Ranking)
    requires RanksByScore(rank) && RunOf(panel, cfg, rank).Success?
    ensures var periods := RunOf(panel, cfg, rank).value.periods;
            ArePeriods(periods, panel, cfg) && EnterRebalanceDates(periods, panel, cfg)
  {
    var dates := RebalanceDates(panel, cfg.rebalanceDays);
    var periods := RunOver(dates, panel, cfg, rank).value.periods;
    RunIsChained(dates, panel, cfg, rank);
    ChainedArePeriods(periods, panel, cfg, rank);
    RunEntersRebalanceDates(periods, panel, cfg, rank);
  }

  method SimulateRankingPortfolio(panel: seq<PanelRow>, cfg: Config, rank: Ranking)
    returns (r: Result<seq<Period>, RunError>)
    ensures var run := RunOf(panel, cfg, rank);
            r == if run.Failure? then Failure(run.error) else Success(run.value.periods)
    ensures r == Failure(DaysMustBePositive) <==> cfg.holdDays <= 0 || cfg.rebalanceDays <= 0
    ensures RanksByScore(rank) && r.Failure? && r.error != DaysMustBePositive ==>
      r.error == AmbiguousSymbol && exists d :: MayHoldAmbiguousName(panel, d, cfg)
    ensures RanksByScore(rank) && r.Success? ==>
      ArePeriods(r.value, panel, cfg) && EnterRebalanceDates(r.value, panel, cfg)
  {
    if cfg.holdDays <= 0 || cfg.rebalanceDays <= 0 {
      return Failure(DaysMustBePositive);
    }
    var dates := RebalanceDates(panel, cfg.rebalanceDays);
    var st := RunState([], map[], map[]);
    for k := 0 to |dates|
      invariant RunOver(dates[..k], panel, cfg, rank) == Success(st)
    {
      assert dates[..k + 1][..k] == dates[..k];
      var next := Rebalance(st, dates[k], panel, cfg, rank);
      if next.Failure? {
        FailureLasts(dates, k + 1, panel, cfg, rank);
        if RanksByScore(rank) {
          FailsOnAmbiguousName(dates, panel, cfg, rank);
        }
        return Failure(next.error);
      }
      st := next.value;
    }
    assert dates[..|dates|] == dates;
    if RanksByScore(rank) {
      RunRowByRow(panel, cfg, rank);
    }
    return Success(st.periods);
  }

  lemma {:induction false} FailureLasts(dates: seq<Day>, k: nat, panel: seq<PanelRow>, cfg: Config, rank: Ranking)
    requires k <= |dates| && RunOver(dates[..k], panel, cfg, rank).Failure?
    ensures RunOver(dates, panel, cfg, rank) == RunOver(dates[..k], panel, cfg, rank)
  {
    if k == |dates| {
      assert dates[..k] == dates;
    } else {
      var front := dates[..|dates| - 1];
      assert front[..k] == dates[..k];
      FailureLasts(front, k, panel, cfg, rank);
    }
  }

  /** The body of the loop. */
  method Rebalance(st: RunState, entry: Day, panel: seq<PanelRow>, cfg: Config, rank: Ranking)
    returns (r: Result<RunState, RunError>)
    ensures r == Step(st, entry, panel, cfg, rank)
  {
    var rows := RowsOn(panel, entry);
    if |rows| < 2 {
      return Success(st);
    }
    var (longs, shorts) := SelectLongShort(rank(rows), cfg);
    if NothingSelected(cfg, longs, shorts) {
      return Success(st);
    }
    r := Trade(st, entry, rows, cfg, longs, shorts);
  }

  ghost predicate CannotPrice(cfg: Config, rows: seq<PanelRow>, longs: seq<Symbol>, shorts: seq<Symbol>) {
    HasAmbiguous(HeldLong(cfg, longs), rows) || HasAmbiguous(HeldShort(cfg, shorts), rows)
  }

  method ReturnOfLegs(rows: seq<PanelRow>, cfg: Config, longs: seq<Symbol>, shorts: seq<Symbol>)
    returns (r: Result<real, RunError>)
    ensures r.Failure? <==> CannotPrice(cfg, rows, longs, shorts)
    ensures r.Failure? ==> r.error == AmbiguousSymbol
    ensures r.Success? ==> r.value == GrossReturn(cfg, rows, longs, shorts)
  {
    var held := CappedEqualWeights(longs, 1.0, cfg.maxPositionWeight);
    r := WeightedPortfolioReturn(rows, held);
    if r.Success? && cfg.strategy.LongShortQuintile? {
      var shorted := CappedEqualWeights(shorts, 1.0, cfg.maxPositionWeight);
      var shortRet := WeightedPortfolioReturn(rows, shorted);
      r := if shortRet.Failure? then shortRet else Success(r.value - shortRet.value);
    }
  }

  method TradeBooks(st: RunState, cfg: Config, longs: seq<Symbol>, shorts: seq<Symbol>)
    returns (newLong: Book, newShort: Book, turnover: real)
    ensures newLong == LongBook(cfg, longs) && newShort == ShortBook(cfg, shorts)
    ensures turnover == PeriodTurnover(cfg, st.prevLong, st.prevShort, longs, shorts)
  {
    if cfg.strategy.LongShortQuintile? {
      newLong := CappedEqualWeights(longs, 0.5, cfg.maxPositionWeight);
      newShort := CappedEqualWeights(shorts, 0.5, cfg.maxPositionWeight);
      turnover := ComputeTurnover(st.prevLong, newLong);
      var shortTurnover := ComputeTurnover(st.prevShort, Negated(newShort));
      turnover := turnover + shortTurnover;
    } else {
      newLong := CappedEqualWeights(longs, 1.0, cfg.maxPositionWeight);
      newShort := map[];
      turnover := ComputeTurnover(st.prevLong, newLong);
    }
  }

  method Trade(st: RunState, entry: Day, rows: seq<PanelRow>, cfg: Config, longs: seq<Symbol>, shorts: seq<Symbol>)
    returns (r: Result<RunState, RunError>)
    ensures r.Failure? <==> CannotPrice(cfg, rows, longs, shorts)
    ensures r.Failure? ==> r.error == AmbiguousSymbol
    ensures r.Success? ==> r.value == NextState(st, cfg, entry, rows, longs, shorts)
  {
    var gross := ReturnOfLegs(rows, cfg, longs, shorts);
    if gross.Failure? {
      return Failure(gross.error);
    }
    var newLong, newShort, turnover := TradeBooks(st, cfg, longs, shorts);
    var net := gross.value - Cost(cfg, turnover);
    var period := Period(entry, BDay(entry, cfg.holdDays), gross.value, net, turnover, longs, shorts);
    return Success(RunState(st.periods + [period], newLong, newShort));
  }
}
