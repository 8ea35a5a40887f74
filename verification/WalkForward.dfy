/** Rolling walk-forward windows (`models/walk_forward.py`). */
module WalkForward {
  import opened Calendar
  import opened Sequences

  datatype Config = Config(trainYears: int, testYears: int, startDate: Option<Timestamp>, endDate: Option<Timestamp>,
                           minTrainSamples: int, minTestSamples: int)

  datatype Window = Window(id: nat, trainStart: Day, trainEnd: Day, testStart: Day, testEnd: Day)

  datatype ConfigError = YearsMustBePositive

  /** Adding years to a day. The windows need three laws of it, which `AddYears` obeys. */
  type YearOffset = (Day, int) -> Day

  ghost predicate CalendarLaws(plus: YearOffset) {
    && (forall d :: plus(d, 0) == d)
    && (forall d, e, m, n :: d <= e && m < n ==> plus(d, m) < plus(e, n))
    && (forall d, n :: plus(plus(d, n), 1) == plus(plus(d, 1), n))
  }

  lemma AddYearsObeysCalendarLaws()
    ensures CalendarLaws(AddYears)
  {
    forall d ensures AddYears(d, 0) == d {
      AddNoYears(d);
    }
    forall d, e, m, n | d <= e && m < n ensures AddYears(d, m) < AddYears(e, n) {
      AddYearsMonotone(d, e, m, n);
    }
    forall d, n ensures AddYears(AddYears(d, n), 1) == AddYears(AddYears(d, 1), n) {
      OneYearCommutes(d, n);
    }
  }

  // ----- windows -----

  function WindowAt(id: nat, trainStart: Day, cfg: Config, plus: YearOffset): Window {
    var trainEnd := plus(trainStart, cfg.trainYears) - 1;
    var testStart := trainEnd + 1;
    Window(id, trainStart, trainEnd, testStart, plus(testStart, cfg.testYears) - 1)
  }

  /** The first day of the k-th training span: one year is added at a time, so a start on
      29 February moves to the 28th once and stays there. */
  function TrainStart(first: Day, k: nat, plus: YearOffset): Day {
    if k == 0 then first else plus(TrainStart(first, k - 1, plus), 1)
  }

  function NthWindow(first: Day, k: nat, cfg: Config, plus: YearOffset): Window {
    WindowAt(k, TrainStart(first, k, plus), cfg, plus)
  }

  predicate PositiveYears(cfg: Config) {
    0 < cfg.trainYears && 0 < cfg.testYears
  }

  function Earliest(dates: seq<Timestamp>): (t: Timestamp)
    requires dates != []
    ensures t in dates && forall u :: u in dates ==> t <= u
  {
    if |dates| == 1 then dates[0]
    else
      var t := Earliest(dates[1..]);
      assert dates == [dates[0]] + dates[1..];
      if dates[0] <= t then dates[0] else t
  }

  function Latest(dates: seq<Timestamp>): (t: Timestamp)
    requires dates != []
    ensures t in dates && forall u :: u in dates ==> u <= t
  {
    if |dates| == 1 then dates[0]
    else
      var t := Latest(dates[1..]);
      assert dates == [dates[0]] + dates[1..];
      if t <= dates[0] then dates[0] else t
  }

  /** Where the first training span starts, and the last moment a window may reach. */
  function FirstDay(dates: seq<Timestamp>, cfg: Config): Day
    requires dates != []
  {
    DayOf(if cfg.startDate.Some? then cfg.startDate.value else Earliest(dates))
  }

  function LastMoment(dates: seq<Timestamp>, cfg: Config): Timestamp
    requires dates != []
  {
    if cfg.endDate.Some? then cfg.endDate.value else Latest(dates)
  }

  /** The windows are the first ones of the sequence, as many as end by `last`. */
  ghost predicate AreWindows(windows: seq<Window>, first: Day, last: Timestamp, cfg: Config, plus: YearOffset) {
    && AreFirstWindows(windows, first, last, cfg, plus)
    && last < Midnight(NthWindow(first, |windows|, cfg, plus).testEnd)
  }

  ghost predicate AreFirstWindows(windows: seq<Window>, first: Day, last: Timestamp, cfg: Config, plus: YearOffset) {
    forall k :: 0 <= k < |windows| ==>
      windows[k] == NthWindow(first, k, cfg, plus) && Midnight(windows[k].testEnd) <= last
  }

  lemma OneMoreWindow(windows: seq<Window>, w: Window, first: Day, last: Timestamp, cfg: Config, plus: YearOffset)
    requires AreFirstWindows(windows, first, last, cfg, plus)
    requires w == NthWindow(first, |windows|, cfg, plus) && Midnight(w.testEnd) <= last
    ensures AreFirstWindows(windows + [w], first, last, cfg, plus)
  {
  }

  lemma WindowShape(id: nat, trainStart: Day, cfg: Config, plus: YearOffset)
    requires CalendarLaws(plus) && PositiveYears(cfg)
    ensures var w := WindowAt(id, trainStart, cfg, plus);
            w.trainStart <= w.trainEnd && w.testStart == w.trainEnd + 1 && w.testStart <= w.testEnd
  {
    assert plus(trainStart, 0) < plus(trainStart, cfg.trainYears);
    var testStart := plus(trainStart, cfg.trainYears);
    assert plus(testStart, 0) < plus(testStart, cfg.testYears);
  }

  /** A window trains `trainYears` years and tests the next `testYears` years. */
  predicate SpansYears(w: Window, cfg: Config, plus: YearOffset) {
    && plus(w.trainStart, cfg.trainYears) == w.trainEnd + 1 == w.testStart
    && plus(w.testStart, cfg.testYears) == w.testEnd + 1
  }

  /** Windows numbered from zero that start a year apart, the first at `first`, and end by `last`; one more
      would end after it. */
  ghost predicate RollForward(windows: seq<Window>, first: Day, last: Timestamp, cfg: Config, plus: YearOffset) {
    && (forall k :: 0 <= k < |windows| ==>
         windows[k].id == k && SpansYears(windows[k], cfg, plus) && Midnight(windows[k].testEnd) <= last)
    && (windows != [] ==> windows[0].trainStart == first)
    && (forall k :: 0 < k < |windows| ==> windows[k].trainStart == plus(windows[k - 1].trainStart, 1))
    && (forall w: Window :: SpansYears(w, cfg, plus) ==>
          w.trainStart == (if windows == [] then first else plus(windows[|windows| - 1].trainStart, 1)) ==>
          last < Midnight(w.testEnd))
  }

  lemma WindowsRollForward(windows: seq<Window>, first: Day, last: Timestamp, cfg: Config, plus: YearOffset)
    requires AreWindows(windows, first, last, cfg, plus)
    ensures RollForward(windows, first, last, cfg, plus)
  {
    forall k | 0 <= k < |windows|
      ensures windows[k].id == k && SpansYears(windows[k], cfg, plus)
      ensures windows[k].trainStart == TrainStart(first, k, plus)
    {
      assert windows[k] == NthWindow(first, k, cfg, plus);
    }
    var next := NthWindow(first, |windows|, cfg, plus);
    assert next.trainStart == if windows == [] then first else plus(windows[|windows| - 1].trainStart, 1);
  }

  method GenerateWalkForwardWindows(dates: seq<Timestamp>, cfg: Config) returns (r: Result<seq<Window>, ConfigError>)
    ensures r.Failure? <==> !PositiveYears(cfg)
    ensures r.Success? ==>
      if dates == [] then r.value == []
      else
        && AreWindows(r.value, FirstDay(dates, cfg), LastMoment(dates, cfg), cfg, AddYears)
        && RollForward(r.value, DayOf(if cfg.startDate.Some? then cfg.startDate.value else Earliest(dates)),
                       if cfg.endDate.Some? then cfg.endDate.value else Latest(dates), cfg, AddYears)
  {
    if cfg.trainYears <= 0 || cfg.testYears <= 0 {
      return Failure(YearsMustBePositive);
    }
    if dates == [] {
      return Success([]);
    }
    AddYearsObeysCalendarLaws();
    var windows := WindowsUpTo(FirstDay(dates, cfg), LastMoment(dates, cfg), cfg, AddYears);
    return Success(windows);
  }

  /** The window loop. It ends because training starts move on while test spans may not pass
      the last moment. */
  method WindowsUpTo(first: Day, last: Timestamp, cfg: Config, plus: YearOffset) returns (windows: seq<Window>)
    requires CalendarLaws(plus) && PositiveYears(cfg)
    ensures AreWindows(windows, first, last, cfg, plus)
    ensures RollForward(windows, first, last, cfg, plus)
  {
    windows := [];
    var trainStart, windowId := first, 0;
    while true
      invariant windowId == |windows| && trainStart == TrainStart(first, windowId, plus)
      invariant AreFirstWindows(windows, first, last, cfg, plus)
      decreases DayOf(last) - trainStart
    {
      var trainEnd := plus(trainStart, cfg.trainYears) - 1;
      var testStart := trainEnd + 1;
      var testEnd := plus(testStart, cfg.testYears) - 1;
      WindowShape(windowId, trainStart, cfg, plus);
      if Midnight(testStart) > last {
        break;
      }
      if Midnight(testEnd) > last {
        break;
      }
      var window := Window(windowId, trainStart, trainEnd, testStart, testEnd);
      OneMoreWindow(windows, window, first, last, cfg, plus);
      windows := windows + [window];
      assert plus(trainStart, 0) < plus(trainStart, 1);
      windowId := windowId + 1;
      trainStart := plus(trainStart, 1);
    }
    WindowsRollForward(windows, first, last, cfg, plus);
  }

  // ----- how test spans fit together -----

  /** Windows whose training ends the day before testing starts. */
  predicate TestsAfterTraining(windows: seq<Window>) {
    forall k :: 0 <= k < |windows| ==>
      windows[k].trainStart <= windows[k].trainEnd && windows[k].testStart == windows[k].trainEnd + 1
      && windows[k].testStart <= windows[k].testEnd
  }

  /** Each test span starts the day after the one before it ends. */
  predicate TestSpansTile(windows: seq<Window>) {
    && TestsAfterTraining(windows)
    && forall k :: 0 < k < |windows| ==> windows[k].testStart == windows[k - 1].testEnd + 1
  }

  predicate InTestSpan(t: Timestamp, w: Window) {
    Midnight(w.testStart) <= t <= Midnight(w.testEnd)
  }

  ghost predicate TestSpansDisjoint(windows: seq<Window>) {
    forall j, k, t :: 0 <= j < k < |windows| ==> !(InTestSpan(t, windows[j]) && InTestSpan(t, windows[k]))
  }

  /** With one test year the spans tile one interval, even from a 29 February start; training
      always ends the day before testing starts. */
  lemma OneTestYearTiles(windows: seq<Window>, first: Day, last: Timestamp, cfg: Config, plus: YearOffset)
    requires CalendarLaws(plus) && PositiveYears(cfg) && AreWindows(windows, first, last, cfg, plus)
    ensures TestsAfterTraining(windows)
    ensures cfg.testYears == 1 ==> TestSpansTile(windows)
  {
    forall k | 0 <= k < |windows|
      ensures windows[k].trainStart <= windows[k].trainEnd && windows[k].testStart == windows[k].trainEnd + 1
      ensures windows[k].testStart <= windows[k].testEnd
    {
      WindowShape(k, TrainStart(first, k, plus), cfg, plus);
    }
    if cfg.testYears == 1 {
      forall k | 0 < k < |windows| ensures windows[k].testStart == windows[k - 1].testEnd + 1 {
        var d := TrainStart(first, k - 1, plus);
        assert windows[k] == NthWindow(first, k, cfg, plus) && windows[k - 1] == NthWindow(first, k - 1, cfg, plus);
        assert plus(plus(d, cfg.trainYears), 1) == plus(plus(d, 1), cfg.trainYears);
      }
    }
  }

  lemma {:induction false} TiledSpansAreInOrder(windows: seq<Window>, j: nat, k: nat)
    requires TestSpansTile(windows) && j < k < |windows|
    ensures windows[j].testEnd < windows[k].testStart
    decreases k
  {
    if j < k - 1 {
      TiledSpansAreInOrder(windows, j, k - 1);
    }
  }

  lemma TiledSpansAreDisjoint(windows: seq<Window>)
    requires TestSpansTile(windows)
    ensures TestSpansDisjoint(windows)
  {
    forall j, k, t | 0 <= j < k < |windows| ensures !(InTestSpan(t, windows[j]) && InTestSpan(t, windows[k])) {
      TiledSpansAreInOrder(windows, j, k);
    }
  }

  /** The last day of the second test span, counted from the first training day: a year on, then the
      training years, then the test years. */
  function SecondTestEnd(first: Day, cfg: Config, plus: YearOffset): Day {
    plus(plus(plus(first, 1), cfg.trainYears), cfg.testYears) - 1
  }

  lemma SecondWindowExactlyWhen(windows: seq<Window>, first: Day, last: Timestamp, cfg: Config, plus: YearOffset)
    requires CalendarLaws(plus) && PositiveYears(cfg) && AreWindows(windows, first, last, cfg, plus)
    ensures 1 < |windows| <==> Midnight(SecondTestEnd(first, cfg, plus)) <= last
  {
    assert TrainStart(first, 1, plus) == plus(TrainStart(first, 0, plus), 1);
    assert NthWindow(first, 1, cfg, plus).testEnd == SecondTestEnd(first, cfg, plus);
    if |windows| == 0 {
      var testStart := plus(first, cfg.trainYears);
      assert plus(testStart, 1) == plus(plus(first, 1), cfg.trainYears);
      assert plus(plus(testStart, cfg.testYears), 1) == plus(plus(testStart, 1), cfg.testYears);
      var testEnd := plus(testStart, cfg.testYears);
      assert plus(testEnd, 0) < plus(testEnd, 1);
      assert NthWindow(first, 0, cfg, plus).testEnd == testEnd - 1;
    } else if 1 < |windows| {
      assert windows[1] == NthWindow(first, 1, cfg, plus);
    }
  }

  lemma NeighboursShareDay(windows: seq<Window>, first: Day, last: Timestamp, cfg: Config, plus: YearOffset)
    requires CalendarLaws(plus) && PositiveYears(cfg) && AreWindows(windows, first, last, cfg, plus)
    requires 1 < cfg.testYears && 1 < |windows|
    ensures var day := plus(plus(first, 1), cfg.trainYears);
            InTestSpan(Midnight(day), windows[0]) && InTestSpan(Midnight(day), windows[1])
  {
    var testStart, next := windows[0].testStart, windows[1].testStart;
    assert windows[0] == NthWindow(first, 0, cfg, plus) && windows[1] == NthWindow(first, 1, cfg, plus);
    assert TrainStart(first, 1, plus) == plus(TrainStart(first, 0, plus), 1);
    assert plus(plus(first, cfg.trainYears), 1) == plus(plus(first, 1), cfg.trainYears);
    assert next == plus(testStart, 1);
    assert plus(testStart, 0) < plus(testStart, 1) < plus(testStart, cfg.testYears);
  }

  lemma NeighboursOverlap(windows: seq<Window>, first: Day, last: Timestamp, cfg: Config, plus: YearOffset)
    requires CalendarLaws(plus) && PositiveYears(cfg) && AreWindows(windows, first, last, cfg, plus)
    requires 1 < cfg.testYears && 1 < |windows|
    ensures !TestSpansDisjoint(windows)
  {
    NeighboursShareDay(windows, first, last, cfg, plus);
  }

  /** The windows are announced as non-overlapping. They are exactly when each tests one year, or the
      data end before the second test span does: with more test years neighbours overlap. */
  lemma TestSpansDisjointExactlyForOneTestYear(windows: seq<Window>, first: Day, last: Timestamp, cfg: Config,
                                               plus: YearOffset)
    requires CalendarLaws(plus) && PositiveYears(cfg) && AreWindows(windows, first, last, cfg, plus)
    ensures TestSpansDisjoint(windows) <==> cfg.testYears == 1 || last < Midnight(SecondTestEnd(first, cfg, plus))
  {
    SecondWindowExactlyWhen(windows, first, last, cfg, plus);
    if cfg.testYears == 1 {
      OneTestYearTiles(windows, first, last, cfg, plus);
      TiledSpansAreDisjoint(windows);
    } else if 1 < |windows| {
      NeighboursOverlap(windows, first, last, cfg, plus);
    }
  }

  lemma AddYearsOfDate(c: Civil, n: int)
    requires c.Valid()
    ensures AddYears(DayNumber(c), n) == DayNumber(AddYearsCivil(c, n))
  {
    CivilRoundTrip(c);
  }

  function NewYear(y: int): Day {
    DayNumber(Civil(y, 0))
  }

  lemma YearsFromNewYear(y: int, n: int)
    ensures AddYears(NewYear(y), n) == NewYear(y + n)
  {
    AddYearsOfDate(Civil(y, 0), n);
  }

  lemma SecondTestEndInSteps(first: Day, cfg: Config, plus: YearOffset, next: Day, testStart: Day, after: Day)
    requires plus(first, 1) == next && plus(next, cfg.trainYears) == testStart &&
             plus(testStart, cfg.testYears) == after
    ensures SecondTestEnd(first, cfg, plus) == after - 1
  {
  }

  /** A failing configuration: two test years and one training year, on data from 1 January 2000 to
      31 December 2003, give two windows that both test 2002. */
  lemma TwoTestYearsOverlap(windows: seq<Window>, cfg: Config, dates: seq<Timestamp>)
    requires cfg == Config(1, 2, None, None, 0, 0)
    requires dates == [Midnight(NewYear(2000)), Midnight(NewYear(2004) - 1)]
    requires AreWindows(windows, FirstDay(dates, cfg), LastMoment(dates, cfg), cfg, AddYears)
    ensures 1 < |windows| && !TestSpansDisjoint(windows)
  {
    var first := NewYear(2000);
    DayNumberOrder(Civil(2000, 0), Civil(2004, 0));
    EndsOfPair(dates, cfg, first, NewYear(2004) - 1);
    BothTest2002(windows, cfg);
  }

  lemma BothTest2002(windows: seq<Window>, cfg: Config)
    requires cfg.trainYears == 1 && cfg.testYears == 2
    requires AreWindows(windows, NewYear(2000), Midnight(NewYear(2004) - 1), cfg, AddYears)
    ensures 1 < |windows|
    ensures InTestSpan(Midnight(NewYear(2002)), windows[0]) && InTestSpan(Midnight(NewYear(2002)), windows[1])
  {
    var first, last := NewYear(2000), Midnight(NewYear(2004) - 1);
    YearsFromNewYear(2000, 1);
    YearsFromNewYear(2001, 1);
    YearsFromNewYear(2002, 2);
    SecondTestEndInSteps(first, cfg, AddYears, NewYear(2001), NewYear(2002), NewYear(2004));
    AddYearsObeysCalendarLaws();
    SecondWindowExactlyWhen(windows, first, last, cfg, AddYears);
    NeighboursShareDay(windows, first, last, cfg, AddYears);
  }

  lemma EndsOfPair(dates: seq<Timestamp>, cfg: Config, first: Day, last: Day)
    requires dates == [Midnight(first), Midnight(last)] && first <= last && cfg.startDate == None && cfg.endDate == None
    ensures FirstDay(dates, cfg) == first && LastMoment(dates, cfg) == Midnight(last)
  {
    assert dates[1..] == [Midnight(last)];
    assert dates[0] in dates && dates[1] in dates;
  }

  /** Between the first test start and the last test end, a row falls in exactly one test
      span, unless it is stamped within the last day of a span: spans end at midnight. */
  lemma {:induction false} EveryMidnightIsTestedOnce(windows: seq<Window>, t: Timestamp)
    requires TestSpansTile(windows) && windows != []
    requires Midnight(windows[0].testStart) <= t < Midnight(windows[|windows| - 1].testEnd + 1)
    ensures TestSpansDisjoint(windows)
    ensures (exists k :: 0 <= k < |windows| && InTestSpan(t, windows[k])) <==>
            !(ClockOf(t) > 0 && exists k :: 0 <= k < |windows| && DayOf(t) == windows[k].testEnd)
  {
    TiledSpansAreDisjoint(windows);
    var k := SpanAround(windows, t);
    var w := windows[k];
    assert InTestSpan(t, w) <==> !(ClockOf(t) > 0 && DayOf(t) == w.testEnd);
    forall j | 0 <= j < |windows| && j != k ensures !InTestSpan(t, windows[j]) && DayOf(t) != windows[j].testEnd {
      if j < k {
        TiledSpansAreInOrder(windows, j, k);
      } else {
        TiledSpansAreInOrder(windows, k, j);
      }
    }
  }

  lemma {:induction false} SpanAround(windows: seq<Window>, t: Timestamp) returns (k: nat)
    requires TestSpansTile(windows) && windows != []
    requires Midnight(windows[0].testStart) <= t < Midnight(windows[|windows| - 1].testEnd + 1)
    ensures k < |windows| && windows[k].testStart <= DayOf(t) <= windows[k].testEnd
  {
    k := |windows| - 1;
    if t < Midnight(windows[k].testStart) {
      k := SpanAround(windows[..k], t);
    }
  }
}
