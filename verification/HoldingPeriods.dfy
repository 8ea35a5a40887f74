/** When the holding periods of ranking runs overlap: exactly, for any calendar of panel dates. */
module HoldingPeriods {
  import opened Calendar
  import opened Numbers
  import opened RankingPortfolio
  import opened RankingResults
  import opened RankingRun
  import opened Sequences

  predicate DoNotOverlap(periods: seq<Period>) {
    forall i, j :: 0 <= i < j < |periods| ==> periods[i].exit <= periods[j].entry
  }

  function EveryRebalance(days: seq<Day>, n: nat): seq<Day> {
    if n <= 1 then days else EveryNth(days, n)
  }

  /** A position opened on a rebalance date is closed by the next one. */
  predicate ClosedByNext(dates: seq<Day>, hold: int) {
    forall k :: 0 < k < |dates| ==> BDay(dates[k - 1], hold) <= dates[k]
  }

  /** `long_top_n` with a count of zero never selects anything; every other configuration can. */
  predicate CanSelect(cfg: Config) {
    cfg.strategy.LongTopN? ==> cfg.topN != 0
  }

  predicate PositiveDays(cfg: Config) {
    0 < cfg.holdDays && 0 < cfg.rebalanceDays
  }

  // ----- closed by the next date, so closed by any later one -----

  lemma RebalanceDatesAscend(days: seq<Day>, n: nat)
    requires StrictlyAscending(days) && 0 < n
    ensures StrictlyAscending(EveryRebalance(days, n))
  {
    if 1 < n {
      forall i, j | 0 <= i < j < |EveryNth(days, n)| ensures EveryNth(days, n)[i] < EveryNth(days, n)[j] {
        var a, b := RebalanceDatesAreApart(days, n, i, j);
      }
    }
  }

  lemma ClosedPeriodsDoNotOverlap(periods: seq<Period>, panel: seq<PanelRow>, cfg: Config, rank: Ranking)
    requires PeriodsOfRun(periods, panel, cfg, rank)
    requires ClosedByNext(RebalanceDates(panel, cfg.rebalanceDays), cfg.holdDays)
    ensures DoNotOverlap(periods)
  {
    var dates := RebalanceDates(panel, cfg.rebalanceDays);
    RunIsAccounted(periods, panel, cfg, rank);
    RebalanceDatesAscend(UniqueDates(panel), cfg.rebalanceDays);
    var at := PeriodsFollowDates(dates, panel, cfg, rank);
    forall i, j | 0 <= i < j < |periods| ensures periods[i].exit <= periods[j].entry {
      assert at[i] + 1 <= at[j];
      assert BDay(dates[at[i] + 1 - 1], cfg.holdDays) <= dates[at[i] + 1];
    }
  }

  // ----- panels put together from the rows of each date -----

  type DayPanel = Day -> seq<PanelRow>

  ghost predicate IsDayPanel(rowsOf: DayPanel) {
    forall d :: rowsOf(d) != [] && forall r :: r in rowsOf(d) ==> r.date == d
  }

  function PanelOf(days: seq<Day>, rowsOf: DayPanel): seq<PanelRow> {
    if days == [] then [] else PanelOf(days[..|days| - 1], rowsOf) + rowsOf(days[|days| - 1])
  }

  lemma {:induction false} RowsOfPanel(days: seq<Day>, rowsOf: DayPanel, d: Day)
    requires StrictlyAscending(days) && IsDayPanel(rowsOf)
    ensures RowsOn(PanelOf(days, rowsOf), d) == if d in days then rowsOf(d) else []
  {
    if days != [] {
      var front, last := days[..|days| - 1], days[|days| - 1];
      assert days == front + [last];
      RowsOfPanel(front, rowsOf, d);
      FilterConcat(PanelOf(front, rowsOf), rowsOf(last), OnDate(d));
      if d == last {
        FilterKeepsAll(rowsOf(last), OnDate(d));
      } else {
        FilterKeepsNone(rowsOf(last), OnDate(d));
      }
    }
  }

  function Members(days: seq<Day>): set<Day> {
    set d | d in days
  }

  lemma {:induction false} AscendingWithSameMembers(s: seq<Day>, t: seq<Day>)
    requires StrictlyAscending(s) && StrictlyAscending(t) && Members(s) == Members(t)
    ensures s == t
  {
    NoMembers(s);
    NoMembers(t);
    if s != [] {
      var m, n := |s| - 1, |t| - 1;
      LastIsMember(s, t);
      LastIsMember(t, s);
      MembersButLast(s);
      MembersButLast(t);
      AscendingWithSameMembers(s[..m], t[..n]);
      EqualInParts(s, t);
    }
  }

  lemma NoMembers(s: seq<Day>)
    ensures Members(s) == {} <==> s == []
  {
    if s != [] {
      assert s[0] in Members(s);
    }
  }

  lemma LastIsMember(s: seq<Day>, t: seq<Day>)
    requires s != [] && t != [] && StrictlyAscending(t) && Members(s) == Members(t)
    ensures s[|s| - 1] <= t[|t| - 1]
  {
    assert s[|s| - 1] in Members(t);
  }

  lemma MembersButLast(s: seq<Day>)
    requires StrictlyAscending(s) && s != []
    ensures Members(s[..|s| - 1]) == Members(s) - {s[|s| - 1]}
  {
    assert s == s[..|s| - 1] + [s[|s| - 1]];
  }

  lemma DatesOfPanel(days: seq<Day>, rowsOf: DayPanel)
    requires StrictlyAscending(days) && IsDayPanel(rowsOf)
    ensures UniqueDates(PanelOf(days, rowsOf)) == days
    ensures forall r :: r in PanelOf(days, rowsOf) ==> r.date in days
  {
    var panel := PanelOf(days, rowsOf);
    forall d ensures d in UniqueDates(panel) <==> d in days {
      UniqueDatesAreDatesOfRows(panel, d);
      RowsOfPanel(days, rowsOf, d);
      var rows := RowsOn(panel, d);
      if d in days {
        assert rows[0] in rows;
      }
      if r :| r in panel && r.date == d {
        assert r in rows;
      }
    }
    assert Members(UniqueDates(panel)) == Members(days);
    AscendingWithSameMembers(UniqueDates(panel), days);
    forall r | r in panel ensures r.date in days {
      UniqueDatesAreDatesOfRows(panel, r.date);
    }
  }

  /** The loop trades on these rows: it selects something and can price it. */
  ghost predicate Tradable(rows: seq<PanelRow>, cfg: Config, rank: Ranking) {
    var (longs, shorts) := SelectLongShort(rank(rows), cfg);
    2 <= |rows| && !NothingSelected(cfg, longs, shorts) && !CannotPrice(cfg, rows, longs, shorts)
  }

  lemma DayIsTraded(st: RunState, entry: Day, panel: seq<PanelRow>, cfg: Config, rank: Ranking)
    requires Tradable(RowsOn(panel, entry), cfg, rank)
    ensures var next := Step(st, entry, panel, cfg, rank);
            && next.Success? && |next.value.periods| == |st.periods| + 1
            && next.value.periods[..|st.periods|] == st.periods && next.value.periods[|st.periods|].entry == entry
  {
  }

  lemma {:induction false} AllDaysAreTraded(dates: seq<Day>, panel: seq<PanelRow>, cfg: Config, rank: Ranking)
    requires forall d :: d in dates ==> Tradable(RowsOn(panel, d), cfg, rank)
    ensures var run := RunOver(dates, panel, cfg, rank);
            && run.Success? && |run.value.periods| == |dates|
            && forall k :: 0 <= k < |dates| ==> run.value.periods[k].entry == dates[k]
  {
    if dates != [] {
      var front, last := dates[..|dates| - 1], dates[|dates| - 1];
      assert last in dates && forall d :: d in front ==> d in dates;
      AllDaysAreTraded(front, panel, cfg, rank);
      var st := RunOver(front, panel, cfg, rank).value;
      DayIsTraded(st, last, panel, cfg, rank);
      EntriesSoFar(dates, st, Step(st, last, panel, cfg, rank).value);
    }
  }

  lemma EntriesSoFar(dates: seq<Day>, st: RunState, next: RunState)
    requires dates != [] && |st.periods| == |dates| - 1 && |next.periods| == |dates|
    requires forall k :: 0 <= k < |dates| - 1 ==> st.periods[k].entry == dates[..|dates| - 1][k]
    requires next.periods[..|st.periods|] == st.periods && next.periods[|st.periods|].entry == dates[|dates| - 1]
    ensures forall k :: 0 <= k < |dates| ==> next.periods[k].entry == dates[k]
  {
    forall k | 0 <= k < |dates| - 1 ensures next.periods[k].entry == dates[k] {
      assert next.periods[k] == next.periods[..|st.periods|][k];
    }
  }

  lemma {:induction false} EveryNthIsFromDays(days: seq<Day>, n: nat)
    requires 0 < n
    ensures forall d :: d in EveryRebalance(days, n) ==> d in days
  {
    if 1 < n {
      forall d | d in EveryNth(days, n) ensures d in days {
        var j :| 0 <= j < |EveryNth(days, n)| && EveryNth(days, n)[j] == d;
        var b := NthOfEvery(days, n, j);
      }
    }
  }

  /** The run over a panel of tradable days has a period for every rebalance date. */
  lemma RunOfTradableDays(days: seq<Day>, rowsOf: DayPanel, cfg: Config, rank: Ranking)
    returns (panel: seq<PanelRow>, periods: seq<Period>)
    requires StrictlyAscending(days) && PositiveDays(cfg) && IsDayPanel(rowsOf)
    requires forall d :: d in days ==> Tradable(rowsOf(d), cfg, rank)
    ensures UniqueDates(panel) == days && (forall r :: r in panel ==> r.date in days)
    ensures forall d :: d in days ==> RowsOn(panel, d) == rowsOf(d)
    ensures PeriodsOfRun(periods, panel, cfg, rank)
    ensures var dates := EveryRebalance(days, cfg.rebalanceDays);
            && |periods| == |dates|
            && forall k :: 0 <= k < |dates| ==>
                 dates[k] in days && periods[k].entry == dates[k] && periods[k].exit == BDay(dates[k], cfg.holdDays)
  {
    panel := PanelOf(days, rowsOf);
    DatesOfPanel(days, rowsOf);
    var dates := EveryRebalance(days, cfg.rebalanceDays);
    assert dates == RebalanceDates(panel, cfg.rebalanceDays);
    EveryNthIsFromDays(days, cfg.rebalanceDays);
    forall d | d in days ensures RowsOn(panel, d) == rowsOf(d) {
      RowsOfPanel(days, rowsOf, d);
    }
    AllDaysAreTraded(dates, panel, cfg, rank);
    periods := RunOf(panel, cfg, rank).value.periods;
    RunIsAccounted(periods, panel, cfg, rank);
  }

  // ----- a panel every configuration trades on -----

  function NameCount(cfg: Config): nat {
    if cfg.topN < 0 then 2 - cfg.topN else 2
  }

  /** A score no threshold rejects. */
  function TopScore(cfg: Config): real {
    if cfg.minUpProb.Some? then Max(0.65, cfg.minUpProb.value) else 0.65
  }

  function DayRows(d: Day, n: nat, score: real): (rows: seq<PanelRow>)
    ensures |rows| == n && forall i :: 0 <= i < n ==> rows[i] == PanelRow(d, i, score, 0.0)
  {
    seq(n, i requires 0 <= i < n => PanelRow(d, i, score, 0.0))
  }

  function FullDay(cfg: Config): DayPanel {
    d => DayRows(d, NameCount(cfg), TopScore(cfg))
  }

  predicate AllScored(rows: seq<PanelRow>, score: real) {
    forall i :: 0 <= i < |rows| ==> rows[i].score == score
  }

  lemma SelectsSomething(ranked: seq<PanelRow>, cfg: Config)
    requires CanSelect(cfg) && |ranked| == NameCount(cfg) && AllScored(ranked, TopScore(cfg))
    ensures var (longs, shorts) := SelectLongShort(ranked, cfg); !NothingSelected(cfg, longs, shorts)
  {
    NothingIsRejected(ranked, cfg);
  }

  lemma NothingIsRejected(ranked: seq<PanelRow>, cfg: Config)
    requires AllScored(ranked, TopScore(cfg))
    ensures Eligible(ranked, cfg) == ranked && Filter(ranked, ScoresAtLeast(LongThreshold(cfg))) == ranked
  {
    forall r | r in ranked
      ensures r.score >= LongThreshold(cfg) && (cfg.minUpProb.Some? ==> r.score >= cfg.minUpProb.value)
    {
    }
    if cfg.minUpProb.Some? {
      FilterKeepsAll(ranked, ScoresAtLeast(cfg.minUpProb.value));
    }
    FilterKeepsAll(ranked, ScoresAtLeast(LongThreshold(cfg)));
  }

  lemma FullDayIsTradable(d: Day, cfg: Config, rank: Ranking)
    requires RanksByScore(rank) && CanSelect(cfg)
    ensures Tradable(FullDay(cfg)(d), cfg, rank)
  {
    var rows := FullDay(cfg)(d);
    var ranked := rank(rows);
    assert |multiset(ranked)| == |multiset(rows)|;
    forall i | 0 <= i < |ranked| ensures ranked[i].score == TopScore(cfg) {
      assert ranked[i] in multiset(rows);
    }
    SelectsSomething(ranked, cfg);
    NoNameTwice(d, NameCount(cfg), TopScore(cfg));
  }

  lemma NoNameTwice(d: Day, n: nat, score: real)
    ensures forall s :: !Ambiguous(DayRows(d, n, score), s)
  {
  }

  lemma RunOfFullDays(days: seq<Day>, cfg: Config, rank: Ranking) returns (panel: seq<PanelRow>, periods: seq<Period>)
    requires StrictlyAscending(days) && PositiveDays(cfg) && RanksByScore(rank) && CanSelect(cfg)
    ensures UniqueDates(panel) == days && (forall r :: r in panel ==> r.date in days)
    ensures PeriodsOfRun(periods, panel, cfg, rank)
    ensures var dates := EveryRebalance(days, cfg.rebalanceDays);
            && |periods| == |dates|
            && forall k :: 0 <= k < |dates| ==>
                 periods[k].entry == dates[k] && periods[k].exit == BDay(dates[k], cfg.holdDays)
  {
    forall d ensures Tradable(FullDay(cfg)(d), cfg, rank) {
      FullDayIsTradable(d, cfg, rank);
    }
    panel, periods := RunOfTradableDays(days, FullDay(cfg), cfg, rank);
  }

  // ----- exactly when -----

  /** For any panel dates, weekends included: no run over panels with these dates has overlapping
      periods if and only if a position opened on a rebalance date is closed by the next one. */
  lemma PeriodsDoNotOverlapExactlyWhen(days: seq<Day>, cfg: Config, rank: Ranking)
    requires StrictlyAscending(days) && PositiveDays(cfg) && RanksByScore(rank) && CanSelect(cfg)
    ensures ClosedByNext(EveryRebalance(days, cfg.rebalanceDays), cfg.holdDays) <==>
      forall panel, periods :: UniqueDates(panel) == days && PeriodsOfRun(periods, panel, cfg, rank) ==>
        DoNotOverlap(periods)
  {
    if ClosedByNext(EveryRebalance(days, cfg.rebalanceDays), cfg.holdDays) {
      forall panel: seq<PanelRow>, periods: seq<Period>
          | UniqueDates(panel) == days && PeriodsOfRun(periods, panel, cfg, rank)
        ensures DoNotOverlap(periods)
      {
        ClosedPeriodsDoNotOverlap(periods, panel, cfg, rank);
      }
    } else {
      var panel, periods := OpenPeriodsOverlap(days, cfg, rank);
    }
  }

  lemma OpenPeriodsOverlap(days: seq<Day>, cfg: Config, rank: Ranking)
    returns (panel: seq<PanelRow>, periods: seq<Period>)
    requires StrictlyAscending(days) && PositiveDays(cfg) && RanksByScore(rank) && CanSelect(cfg)
    requires !ClosedByNext(EveryRebalance(days, cfg.rebalanceDays), cfg.holdDays)
    ensures UniqueDates(panel) == days && (forall r :: r in panel ==> r.date in days)
    ensures PeriodsOfRun(periods, panel, cfg, rank) && !DoNotOverlap(periods)
  {
    panel, periods := RunOfFullDays(days, cfg, rank);
    var dates := EveryRebalance(days, cfg.rebalanceDays);
    var k :| 0 < k < |dates| && dates[k] < BDay(dates[k - 1], cfg.holdDays);
    assert periods[k].entry < periods[k - 1].exit;
  }

  ghost predicate OnWeekdays(panel: seq<PanelRow>) {
    forall r :: r in panel ==> !IsWeekend(r.date)
  }

  lemma OnlyFirstAndLast(days: seq<Day>, n: nat)
    requires 0 < n && |days| == n + 1
    ensures EveryRebalance(days, n) == [days[0], days[n]]
  {
    if 1 < n {
      assert days[n..] == [days[n]];
      assert EveryNth([days[n]], n) == [days[n]];
    }
  }

  /** Business days in a row, starting on a Monday. */
  function BusinessDays(n: nat): (days: seq<Day>)
    ensures |days| == n && forall k :: 0 <= k < n ==> days[k] == BusinessDay(k)
  {
    seq(n, k requires 0 <= k < n => BusinessDay(k))
  }

  lemma BusinessDaysFromBusinessDay(i: int, n: int)
    ensures BDay(BusinessDay(i), n) == BusinessDay(i + n)
  {
    BDayIsIndexed(BusinessDay(i), n);
    Sevenths(i / 5, i % 5);
  }

  lemma BusinessDaysAscend(n: nat)
    ensures StrictlyAscending(BusinessDays(n)) && forall d :: d in BusinessDays(n) ==> !IsWeekend(d)
    ensures forall k :: 0 < k < n ==> BusinessDays(n)[k] == NextBusinessDay(BusinessDays(n)[k - 1])
  {
    forall k | 0 < k < n ensures BusinessDay(k) == NextBusinessDay(BusinessDay(k - 1)) {
      BusinessDayOrder(k - 1, k);
    }
    forall i, j | 0 <= i < j < n ensures BusinessDay(i) < BusinessDay(j) {
      BusinessDayOrder(i, j);
    }
    forall i | 0 <= i < n ensures !IsWeekend(BusinessDay(i)) {
      BusinessDayOrder(i, i);
    }
  }

  /** Portfolios are announced as non-overlapping. For a given configuration this holds of every run
      on weekday panels if and only if positions are held no longer than the rebalance interval, apart
      from configurations that never trade at all. */
  lemma WeekdayPeriodsDoNotOverlapExactlyWhen(cfg: Config, rank: Ranking)
    requires RanksByScore(rank)
    ensures (forall panel, periods :: OnWeekdays(panel) && PeriodsOfRun(periods, panel, cfg, rank) ==>
             DoNotOverlap(periods))
            <==> cfg.holdDays <= cfg.rebalanceDays || cfg.rebalanceDays <= 0 || !CanSelect(cfg)
  {
    if cfg.holdDays <= cfg.rebalanceDays || cfg.rebalanceDays <= 0 || !CanSelect(cfg) {
      forall panel: seq<PanelRow>, periods: seq<Period> | OnWeekdays(panel) && PeriodsOfRun(periods, panel, cfg, rank)
        ensures DoNotOverlap(periods)
      {
        if CanSelect(cfg) {
          forall i, j | 0 <= i < j < |periods| ensures periods[i].exit <= periods[j].entry {
            HoldingPeriodsDoNotOverlap(periods, panel, cfg, rank, i, j);
          }
        } else if periods != [] {
          OnlySelectionsAreTraded(periods, panel, cfg, rank);
          assert false;
        }
      }
    } else {
      var panel, periods := LongHoldsOverlap(cfg, rank);
    }
  }

  lemma OnlySelectionsAreTraded(periods: seq<Period>, panel: seq<PanelRow>, cfg: Config, rank: Ranking)
    requires PeriodsOfRun(periods, panel, cfg, rank) && periods != []
    ensures CanSelect(cfg)
  {
    RunIsAccounted(periods, panel, cfg, rank);
    assert TradedFrom(periods[0], LongBefore(periods, 0, cfg), ShortBefore(periods, 0, cfg), panel, cfg, rank);
    ZeroSelectsNothing(rank(RowsOn(panel, periods[0].entry)), cfg);
  }

  lemma ZeroSelectsNothing(ranked: seq<PanelRow>, cfg: Config)
    ensures !CanSelect(cfg) ==> SelectLongShort(ranked, cfg).0 == []
  {
  }

  /** On a panel of consecutive business days the position is still open at the next rebalance date. */
  lemma LongHoldsOverlap(cfg: Config, rank: Ranking) returns (panel: seq<PanelRow>, periods: seq<Period>)
    requires RanksByScore(rank) && CanSelect(cfg) && 0 < cfg.rebalanceDays < cfg.holdDays
    ensures OnWeekdays(panel) && PeriodsOfRun(periods, panel, cfg, rank) && !DoNotOverlap(periods)
  {
    var n := cfg.rebalanceDays;
    var days := BusinessDays(n + 1);
    BusinessDaysAscend(n + 1);
    OnlyFirstAndLast(days, n);
    LongerHoldsOverlap(days, 0, n, cfg.holdDays);
    var dates := EveryRebalance(days, n);
    assert dates[1] < BDay(dates[1 - 1], cfg.holdDays);
    panel, periods := OpenPeriodsOverlap(days, cfg, rank);
  }

  /** Calendar days in a row, starting on a Friday. */
  function DaysFromFriday(n: nat): (days: seq<Day>)
    ensures |days| == n && forall k :: 0 <= k < n ==> days[k] == BusinessDay(4) + k
  {
    seq(n, k requires 0 <= k < n => BusinessDay(4) + k)
  }

  /** The weekday condition cannot be dropped: with panel dates on a weekend, runs overlap although
      positions are held no longer than the rebalance interval. With an interval of one day, Friday's
      position is open until Monday and Saturday's is already entered. */
  lemma WeekendDatesOverlap(cfg: Config, rank: Ranking) returns (panel: seq<PanelRow>, periods: seq<Period>)
    requires RanksByScore(rank) && CanSelect(cfg) && 0 < cfg.holdDays == cfg.rebalanceDays
    ensures PeriodsOfRun(periods, panel, cfg, rank) && !DoNotOverlap(periods)
  {
    var n := cfg.rebalanceDays;
    var days := DaysFromFriday(n + 1);
    OnlyFirstAndLast(days, n);
    BusinessDaysFromBusinessDay(4, n);
    LaterThanCalendarDays(n);
    var dates := EveryRebalance(days, n);
    assert dates[1] < BDay(dates[1 - 1], cfg.holdDays);
    panel, periods := OpenPeriodsOverlap(days, cfg, rank);
  }

  lemma LaterThanCalendarDays(n: nat)
    requires 0 < n
    ensures BusinessDay(4) + n < BusinessDay(4 + n)
  {
    var i := 4 + n;
    assert i == 5 * (i / 5) + i % 5 && 1 <= i / 5;
  }
}
