/** What holds of every ranking run: costs, turnover, and holding periods that do not
    overlap. */
module RankingResults {
  import opened Books
  import opened Calendar
  import opened PortfolioWeights
  import opened RankingPortfolio
  import opened RankingRun
  import opened Sequences

  /** What the accounting of a run comes down to. */
  predicate CostsAccounted(periods: seq<Period>, cfg: Config) {
    forall i :: 0 <= i < |periods| ==> periods[i].netReturn == periods[i].grossReturn - Cost(cfg, periods[i].turnover)
  }

  ghost predicate TurnoversAccounted(periods: seq<Period>, cfg: Config) {
    forall i :: 0 <= i < |periods| ==>
      periods[i].turnover == PeriodTurnover(cfg, LongBefore(periods, i, cfg), ShortBefore(periods, i, cfg),
                                            periods[i].longs,
                                            periods[i].shorts)
  }

  predicate ExitsAfterHold(periods: seq<Period>, cfg: Config) {
    forall i :: 0 <= i < |periods| ==> periods[i].exit == BDay(periods[i].entry, cfg.holdDays)
  }

  predicate SomethingSelected(periods: seq<Period>, cfg: Config) {
    forall i :: 0 <= i < |periods| ==> !NothingSelected(cfg, periods[i].longs, periods[i].shorts)
  }

  lemma ChainedIsAccounted(periods: seq<Period>, panel: seq<PanelRow>, cfg: Config, rank: Ranking)
    requires Chained(periods, panel, cfg, rank)
    ensures CostsAccounted(periods, cfg) && TurnoversAccounted(periods, cfg) && ExitsAfterHold(periods, cfg)
    ensures SomethingSelected(periods, cfg)
  {
    forall i | 0 <= i < |periods|
      ensures periods[i].netReturn == periods[i].grossReturn - Cost(cfg, periods[i].turnover)
      ensures periods[i].turnover == PeriodTurnover(cfg, LongBefore(periods, i, cfg), ShortBefore(periods, i, cfg),
                                                    periods[i].longs, periods[i].shorts)
      ensures periods[i].exit == BDay(periods[i].entry, cfg.holdDays)
      ensures !NothingSelected(cfg, periods[i].longs, periods[i].shorts)
    {
      assert TradedFrom(periods[i], LongBefore(periods, i, cfg), ShortBefore(periods, i, cfg), panel, cfg, rank);
    }
  }

  ghost predicate PeriodsOfRun(periods: seq<Period>, panel: seq<PanelRow>, cfg: Config, rank: Ranking) {
    RunOf(panel, cfg, rank).Success? && periods == RunOf(panel, cfg, rank).value.periods
  }

  /** Every run accounts for its costs and its turnover. */
  lemma RunIsAccounted(periods: seq<Period>, panel: seq<PanelRow>, cfg: Config, rank: Ranking)
    requires PeriodsOfRun(periods, panel, cfg, rank)
    ensures Chained(periods, panel, cfg, rank)
    ensures CostsAccounted(periods, cfg) && TurnoversAccounted(periods, cfg) && ExitsAfterHold(periods, cfg)
    ensures SomethingSelected(periods, cfg)
  {
    RunIsChained(RebalanceDates(panel, cfg.rebalanceDays), panel, cfg, rank);
    ChainedIsAccounted(periods, panel, cfg, rank);
  }

  // ----- costs -----

  function TurnoverSum(periods: seq<Period>): real {
    if periods == [] then 0.0 else TurnoverSum(periods[..|periods| - 1]) + periods[|periods| - 1].turnover
  }

  function CostSum(periods: seq<Period>): real {
    if periods == [] then 0.0
    else CostSum(periods[..|periods| - 1]) + (periods[|periods| - 1].grossReturn - periods[|periods| - 1].netReturn)
  }

  /** Over any run, what net returns lose against gross ones is the total turnover at the
      configured cost. */
  lemma {:induction false} CostsAreTurnoverAtTheRate(periods: seq<Period>, cfg: Config)
    requires CostsAccounted(periods, cfg)
    ensures CostSum(periods) == cfg.tradeCostBps / 10000.0 * TurnoverSum(periods)
  {
    if periods != [] {
      var front, last := periods[..|periods| - 1], periods[|periods| - 1];
      CostsAreTurnoverAtTheRate(front, cfg);
      SpreadRate(cfg.tradeCostBps, TurnoverSum(front), last.turnover);
    }
  }

  lemma SpreadRate(bps: real, x: real, y: real)
    ensures bps / 10000.0 * (x + y) == bps / 10000.0 * x + bps * y / 10000.0
  {
  }

  // ----- turnover -----

  lemma LongBookIsBounded(cfg: Config, longs: seq<Symbol>)
    ensures var book := LongBook(cfg, longs);
            && LongOnly(book) && 0.0 <= Total(book) <= (if cfg.strategy.LongShortQuintile? then 0.5 else 1.0)
  {
    if longs != [] {
      BoundedBook(longs, if cfg.strategy.LongShortQuintile? then 0.5 else 1.0, cfg.maxPositionWeight);
    }
  }

  lemma BoundedBook(symbols: seq<Symbol>, gross: real, cap: Option<real>)
    requires symbols != [] && 0.0 < gross
    ensures var book := CappedBook(symbols, gross, cap);
            && LongOnly(book) && 0.0 < Total(book) <= gross
  {
    var n, m := |symbols|, |Names(symbols)|;
    var w := CappedWeight(n, gross, cap);
    ShareOf(gross, n);
    SizeOfNames(symbols);
    TotalOfEqualBook(symbols, w);
    assert symbols[0] in Names(symbols);
    PositiveShare(gross, n);
    FewerAtShare(m, n, w, gross);
  }

  lemma PositiveShare(gross: real, n: nat)
    requires 0 < n && 0.0 < gross
    ensures 0.0 < gross / n as real
  {
  }

  lemma FewerAtShare(m: nat, n: nat, w: real, gross: real)
    requires 1 <= m <= n && 0.0 < w <= gross / n as real
    ensures 0.0 < m as real * w <= gross
  {
    assert n as real * (gross / n as real) == gross;
    assert (n as real - m as real) * w >= 0.0;
    assert n as real * (gross / n as real - w) >= 0.0;
  }

  /** In a long-only run every turnover lies between 0 and 1, and the first is at most one
      half. */
  lemma LongOnlyTurnoverBounds(periods: seq<Period>, cfg: Config, i: nat)
    requires TurnoversAccounted(periods, cfg) && !cfg.strategy.LongShortQuintile? && i < |periods|
    ensures 0.0 <= periods[i].turnover <= (if i == 0 then 0.5 else 1.0)
  {
    var before, after := LongBefore(periods, i, cfg), LongBook(cfg, periods[i].longs);
    LongBookIsBounded(cfg, periods[i].longs);
    if 0 < i {
      LongBookIsBounded(cfg, periods[i - 1].longs);
    }
    TurnoverBound(before, after);
    TurnoverIsDistance(before, after);
  }

  function TurnoverBetween(periods: seq<Period>, i: nat, j: nat): real
    requires i <= j <= |periods|
  {
    if i == j then 0.0 else TurnoverBetween(periods, i, j - 1) + periods[j - 1].turnover
  }

  /** In a long-only run the turnover paid between any two points is at least what moving
      directly from the earlier book to the later one would have cost. */
  lemma {:induction false} TurnoverIsAtLeastDirect(periods: seq<Period>, cfg: Config, i: nat, j: nat)
    requires TurnoversAccounted(periods, cfg) && !cfg.strategy.LongShortQuintile? && i <= j <= |periods|
    ensures Turnover(LongBefore(periods, i, cfg), LongBefore(periods, j, cfg)) <= TurnoverBetween(periods, i, j)
    decreases j
  {
    var a := LongBefore(periods, i, cfg);
    if i == j {
      TurnoverIsDistance(a, a);
    } else {
      TurnoverIsAtLeastDirect(periods, cfg, i, j - 1);
      TurnoverTriangle(a, LongBefore(periods, j - 1, cfg), LongBefore(periods, j, cfg));
    }
  }

  /** Keeping the same names costs nothing in a long-only run, and only then. */
  lemma UnchangedBookIsFreeOnlyLongOnly(periods: seq<Period>, cfg: Config, i: nat)
    requires TurnoversAccounted(periods, cfg) && SomethingSelected(periods, cfg) && 0 < i < |periods|
    requires LongBook(cfg, periods[i - 1].longs) == LongBook(cfg, periods[i].longs)
    requires ShortBook(cfg, periods[i - 1].shorts) == ShortBook(cfg, periods[i].shorts)
    ensures periods[i].turnover == 0.0 <==> !cfg.strategy.LongShortQuintile?
    ensures cfg.strategy.LongShortQuintile? ==> periods[i].turnover == Total(ShortBook(cfg, periods[i].shorts))
  {
    var before, after := LongBefore(periods, i, cfg), LongBook(cfg, periods[i].longs);
    TurnoverIsDistance(before, after);
    if cfg.strategy.LongShortQuintile? {
      var shorts := ShortBook(cfg, periods[i].shorts);
      BoundedBook(periods[i].shorts, 0.5, cfg.maxPositionWeight);
      ShortLegTurnover(shorts, shorts);
    }
  }

  // ----- holding periods -----

  /** On a panel of weekdays, `n` panel dates are at least `n` business days. */
  lemma {:induction false} PanelDatesAreFurther(days: seq<Day>, i: nat, n: nat)
    requires StrictlyAscending(days) && forall d :: d in days ==> !IsWeekend(d)
    requires 1 <= n && i + n < |days|
    ensures BDay(days[i], n) <= days[i + n]
  {
    if n == 1 {
      BDayStep(days[i], 1);
      NextIsFirst(days[i], days[i + 1]);
    } else {
      PanelDatesAreFurther(days, i, n - 1);
      BDayStep(days[i], n - 1);
      assert BDay(days[i], n - 1) < days[i + n];
      NextIsFirst(BDay(days[i], n - 1), days[i + n]);
    }
  }

  lemma NextIsFirst(d: Day, e: Day)
    requires d < e && !IsWeekend(e)
    ensures NextBusinessDay(d) <= e
  {
  }

  lemma {:induction false} RebalanceDatesAreApart(days: seq<Day>, n: nat, i: nat, j: nat) returns (a: nat, b: nat)
    requires 0 < n && i < j < |EveryNth(days, n)|
    ensures a + n <= b < |days| && EveryNth(days, n)[i] == days[a] && EveryNth(days, n)[j] == days[b]
    decreases |days|
  {
    var rest := days[n..];
    if 0 < i {
      a, b := RebalanceDatesAreApart(rest, n, i - 1, j - 1);
      a, b := a + n, b + n;
    } else {
      a, b := 0, 0;
      b := NthOfEvery(rest, n, j - 1);
      b := b + n;
    }
  }

  lemma {:induction false} NthOfEvery(days: seq<Day>, n: nat, j: nat) returns (b: nat)
    requires 0 < n && j < |EveryNth(days, n)|
    ensures b < |days| && EveryNth(days, n)[j] == days[b]
    decreases |days|
  {
    if j == 0 {
      b := 0;
    } else {
      b := NthOfEvery(days[n..], n, j - 1);
      b := b + n;
    }
  }

  lemma RebalanceDatesAreFurther(panel: seq<PanelRow>, cfg: Config, i: nat, j: nat)
    requires 1 <= cfg.holdDays <= cfg.rebalanceDays && forall d :: d in UniqueDates(panel) ==> !IsWeekend(d)
    requires i < j < |RebalanceDates(panel, cfg.rebalanceDays)|
    ensures var dates := RebalanceDates(panel, cfg.rebalanceDays);
            BDay(dates[i], cfg.holdDays) <= dates[j]
  {
    var days := UniqueDates(panel);
    var a, b := i, j;
    if 1 < cfg.rebalanceDays {
      a, b := RebalanceDatesAreApart(days, cfg.rebalanceDays, i, j);
    }
    assert a + cfg.holdDays <= b;
    PanelDatesAreFurther(days, a, cfg.holdDays);
    assert a + cfg.holdDays < b ==> days[a + cfg.holdDays] < days[b];
  }

  /** Portfolios are announced as non-overlapping. They are when the panel holds weekdays
      only and positions are held no longer than the rebalance interval: each is closed by
      the entry of any later one, also when rebalance dates in between are skipped. */
  lemma HoldingPeriodsDoNotOverlap(periods: seq<Period>, panel: seq<PanelRow>, cfg: Config, rank: Ranking, i: nat,
                                   j: nat)
    requires PeriodsOfRun(periods, panel, cfg, rank)
    requires forall r :: r in panel ==> !IsWeekend(r.date)
    requires cfg.holdDays <= cfg.rebalanceDays
    requires i < j < |periods|
    ensures periods[i].exit <= periods[j].entry
  {
    RunIsAccounted(periods, panel, cfg, rank);
    forall d | d in UniqueDates(panel) ensures !IsWeekend(d) {
      UniqueDatesAreDatesOfRows(panel, d);
    }
    var at := PeriodsFollowDates(RebalanceDates(panel, cfg.rebalanceDays), panel, cfg, rank);
    RebalanceDatesAreFurther(panel, cfg, at[i], at[j]);
  }

  /** The interval condition cannot be dropped: on a panel with every business day, the
      `n`-th next panel date is exactly `n` business days away, so a position held longer
      than the interval is still open at the next rebalance date. */
  lemma {:induction false} FullPanelDatesAreExact(days: seq<Day>, i: nat, n: nat)
    requires forall k :: 0 < k < |days| ==> days[k] == NextBusinessDay(days[k - 1])
    requires 1 <= n && i + n < |days|
    ensures BDay(days[i], n) == days[i + n]
  {
    if n == 1 {
      BDayStep(days[i], 1);
    } else {
      FullPanelDatesAreExact(days, i, n - 1);
      BDayStep(days[i], n - 1);
    }
  }

  lemma LongerHoldsOverlap(days: seq<Day>, i: nat, interval: nat, hold: nat)
    requires forall k :: 0 < k < |days| ==> days[k] == NextBusinessDay(days[k - 1])
    requires 1 <= interval && i + interval < |days| && 1 <= hold
    ensures BDay(days[i], hold) <= days[i + interval] <==> hold <= interval
  {
    FullPanelDatesAreExact(days, i, interval);
    HoldsInOrder(days[i], if hold <= interval then hold else interval, if hold <= interval then interval else hold);
  }

  lemma {:induction false} HoldsInOrder(d: Day, m: nat, n: nat)
    requires 1 <= m <= n
    ensures BDay(d, m) <= BDay(d, n) && (m < n ==> BDay(d, m) < BDay(d, n))
  {
    if m < n {
      BDayStep(d, n - 1);
      if m < n - 1 {
        HoldsInOrder(d, m, n - 1);
      }
    }
  }
}
