/** Training and predicting over the walk-forward windows (`run_walk_forward`). The model is
    any function from the training rows to a prediction for each test row. */
module WalkForwardRun {
  import opened Calendar
  import opened Sequences
  import opened WalkForward

  datatype Row = Row(symbol: nat, date: Timestamp, features: seq<real>, outcome: int, futureReturn: real)

  datatype Predicted = Predicted(windowId: nat, row: Row, yPred: int)

  type Learner = seq<Row> -> Row -> int

  function InSpan(start: Day, end: Day): Row -> bool {
    (r: Row) => Midnight(start) <= r.date <= Midnight(end)
  }

  function SliceWindow(panel: seq<Row>, start: Day, end: Day): seq<Row> {
    Filter(panel, InSpan(start, end))
  }

  function TrainRows(panel: seq<Row>, w: Window): seq<Row> {
    SliceWindow(panel, w.trainStart, w.trainEnd)
  }

  function TestRows(panel: seq<Row>, w: Window): seq<Row> {
    SliceWindow(panel, w.testStart, w.testEnd)
  }

  predicate Executed(panel: seq<Row>, w: Window, cfg: Config) {
    cfg.minTrainSamples <= |TrainRows(panel, w)| && cfg.minTestSamples <= |TestRows(panel, w)|
  }

  function PredictWith(id: nat, model: Row -> int): Row -> Predicted {
    (r: Row) => Predicted(id, r, model(r))
  }

  function WindowPredictions(panel: seq<Row>, w: Window, cfg: Config, learn: Learner): seq<Predicted> {
    if Executed(panel, w, cfg) then Map(TestRows(panel, w), PredictWith(w.id, learn(TrainRows(panel, w)))) else []
  }

  function AllPredictions(panel: seq<Row>, windows: seq<Window>, cfg: Config, learn: Learner): seq<Predicted> {
    if windows == [] then []
    else
      AllPredictions(panel, windows[..|windows| - 1], cfg, learn)
      + WindowPredictions(panel, windows[|windows| - 1], cfg, learn)
  }

  function DateOf(r: Row): Timestamp {
    r.date
  }

  function Dates(panel: seq<Row>): seq<Timestamp> {
    Map(panel, DateOf)
  }

  ghost predicate WindowsOfPanel(windows: seq<Window>, panel: seq<Row>, cfg: Config) {
    if panel == [] then windows == []
    else AreWindows(windows, FirstDay(Dates(panel), cfg), LastMoment(Dates(panel), cfg), cfg, AddYears)
  }

  // ----- what is predicted, in the fields of rows and windows -----

  /** The rows dated from midnight of `start` to midnight of `end`, in the order of the panel. */
  ghost predicate IsSlice(slice: seq<Row>, panel: seq<Row>, start: Day, end: Day) {
    exists at: seq<nat> :: PicksDates(at, slice, panel, Midnight(start), Midnight(end))
  }

  ghost predicate PicksDates(at: seq<nat>, slice: seq<Row>, panel: seq<Row>, from: Timestamp, until: Timestamp) {
    && |at| == |slice|
    && (forall i :: 0 <= i < |at| ==> at[i] < |panel| && slice[i] == panel[at[i]])
    && (forall i, j :: 0 <= i < j < |at| ==> at[i] < at[j])
    && (forall k: nat :: k in at <==> k < |panel| && from <= panel[k].date <= until)
  }

  /** A window with enough training rows and enough test rows predicts each of its test rows with the model
      learned from its training rows; any other window predicts nothing. */
  ghost predicate IsBlock(block: seq<Predicted>, panel: seq<Row>, w: Window, cfg: Config, learn: Learner) {
    exists train, test ::
      && IsSlice(train, panel, w.trainStart, w.trainEnd) && IsSlice(test, panel, w.testStart, w.testEnd)
      && if |train| < cfg.minTrainSamples || |test| < cfg.minTestSamples then block == []
         else
           && |block| == |test|
           && forall i :: 0 <= i < |test| ==> block[i] == Predicted(w.id, test[i], learn(train)(test[i]))
  }

  /** The predictions are one block per window, in the order of the windows. */
  ghost predicate PredictedByWindow(predictions: seq<Predicted>, panel: seq<Row>, windows: seq<Window>, cfg: Config,
                                    learn: Learner)
    decreases |windows|
  {
    if windows == [] then predictions == []
    else
      var n := |windows| - 1;
      exists cut ::
        && 0 <= cut <= |predictions| && PredictedByWindow(predictions[..cut], panel, windows[..n], cfg, learn)
        && IsBlock(predictions[cut..], panel, windows[n], cfg, learn)
  }

  lemma {:induction false} FilteredPositions(panel: seq<Row>, start: Day, end: Day) returns (at: seq<nat>)
    ensures PicksDates(at, SliceWindow(panel, start, end), panel, Midnight(start), Midnight(end))
  {
    if panel == [] {
      at := [];
    } else {
      var n := |panel| - 1;
      at := FilteredPositions(panel[..n], start, end);
      if Midnight(start) <= panel[n].date <= Midnight(end) {
        OnePositionMore(at, SliceWindow(panel[..n], start, end), panel, Midnight(start), Midnight(end));
        at := at + [n];
      } else {
        assert SliceWindow(panel, start, end) == SliceWindow(panel[..n], start, end);
      }
    }
  }

  lemma OnePositionMore(at: seq<nat>, slice: seq<Row>, panel: seq<Row>, from: Timestamp, until: Timestamp)
    requires panel != [] && PicksDates(at, slice, panel[..|panel| - 1], from, until)
    requires from <= panel[|panel| - 1].date <= until
    ensures PicksDates(at + [|panel| - 1], slice + [panel[|panel| - 1]], panel, from, until)
  {
    var n := |panel| - 1;
    forall k: nat ensures k in at + [n] <==> k < |panel| && from <= panel[k].date <= until {
      assert k in at + [n] <==> k in at || k == n;
    }
    forall i, j | 0 <= i < j < |at + [n]| ensures (at + [n])[i] < (at + [n])[j] {
      assert at[i] in at;
    }
  }

  lemma WindowPredictsBlock(panel: seq<Row>, w: Window, cfg: Config, learn: Learner)
    ensures IsBlock(WindowPredictions(panel, w, cfg, learn), panel, w, cfg, learn)
  {
    var trainAt := FilteredPositions(panel, w.trainStart, w.trainEnd);
    var testAt := FilteredPositions(panel, w.testStart, w.testEnd);
    var train, test := TrainRows(panel, w), TestRows(panel, w);
    assert IsSlice(train, panel, w.trainStart, w.trainEnd) && IsSlice(test, panel, w.testStart, w.testEnd);
  }

  lemma {:induction false} AllPredictedByWindow(panel: seq<Row>, windows: seq<Window>, cfg: Config, learn: Learner)
    ensures PredictedByWindow(AllPredictions(panel, windows, cfg, learn), panel, windows, cfg, learn)
  {
    if windows != [] {
      var n := |windows| - 1;
      var before := AllPredictions(panel, windows[..n], cfg, learn);
      AllPredictedByWindow(panel, windows[..n], cfg, learn);
      WindowPredictsBlock(panel, windows[n], cfg, learn);
      CutAfter(before, WindowPredictions(panel, windows[n], cfg, learn), panel, windows, cfg, learn);
    }
  }

  lemma CutAfter(before: seq<Predicted>, block: seq<Predicted>, panel: seq<Row>, windows: seq<Window>, cfg: Config,
                 learn: Learner)
    requires windows != [] && PredictedByWindow(before, panel, windows[..|windows| - 1], cfg, learn)
    requires IsBlock(block, panel, windows[|windows| - 1], cfg, learn)
    ensures PredictedByWindow(before + block, panel, windows, cfg, learn)
  {
    assert (before + block)[..|before|] == before && (before + block)[|before|..] == block;
  }

  method RunWalkForward(panel: seq<Row>, cfg: Config, learn: Learner)
    returns (r: Result<seq<Predicted>, ConfigError>, windows: seq<Window>)
    ensures r.Failure? <==> panel != [] && !PositiveYears(cfg)
    ensures r.Success? ==>
      && WindowsOfPanel(windows, panel, cfg)
      && r.value == AllPredictions(panel, windows, cfg, learn)
    ensures r.Success? ==> PredictedByWindow(r.value, panel, windows, cfg, learn)
    ensures r.Success? ==>
      if panel == [] then windows == []
      else
        var dates := seq(|panel|, i requires 0 <= i < |panel| => panel[i].date);
        RollForward(windows, DayOf(if cfg.startDate.Some? then cfg.startDate.value else Earliest(dates)),
                    if cfg.endDate.Some? then cfg.endDate.value else Latest(dates), cfg, AddYears)
  {
    if panel == [] {
      return Success([]), [];
    }
    var generated := GenerateWalkForwardWindows(Dates(panel), cfg);
    assert Dates(panel) == seq(|panel|, i requires 0 <= i < |panel| => panel[i].date);
    if generated.Failure? {
      return Failure(generated.error), [];
    }
    windows := generated.value;
    var predictions := PredictWindows(panel, windows, cfg, learn);
    AllPredictedByWindow(panel, windows, cfg, learn);
    r := Success(predictions);
  }

  method PredictWindows(panel: seq<Row>, windows: seq<Window>, cfg: Config, learn: Learner)
    returns (predictions: seq<Predicted>)
    ensures predictions == AllPredictions(panel, windows, cfg, learn)
  {
    predictions := [];
    for k := 0 to |windows|
      invariant predictions == AllPredictions(panel, windows[..k], cfg, learn)
    {
      var window := windows[k];
      assert windows[..k + 1][..k] == windows[..k];
      var train := SliceWindow(panel, window.trainStart, window.trainEnd);
      var test := SliceWindow(panel, window.testStart, window.testEnd);
      if |train| < cfg.minTrainSamples || |test| < cfg.minTestSamples {
        continue;
      }
      var model := learn(train);
      predictions := predictions + Map(test, PredictWith(window.id, model));
    }
    assert windows[..|windows|] == windows;
  }

  // ----- no look-ahead -----

  /** The prediction for a row comes from a model trained only on rows dated before it. */
  ghost predicate TrainedOnThePast(p: Predicted, panel: seq<Row>, windows: seq<Window>, learn: Learner) {
    exists k :: 0 <= k < |windows| && FromWindow(p, panel, windows[k], learn)
  }

  ghost predicate FromWindow(p: Predicted, panel: seq<Row>, w: Window, learn: Learner) {
    && p.windowId == w.id && p.row in TestRows(panel, w)
    && p.yPred == learn(TrainRows(panel, w))(p.row)
    && (forall r :: r in TrainRows(panel, w) ==> r in panel && r.date < p.row.date)
  }

  lemma WindowTrainsOnThePast(p: Predicted, panel: seq<Row>, w: Window, cfg: Config, learn: Learner)
    requires w.trainEnd < w.testStart && p in WindowPredictions(panel, w, cfg, learn)
    ensures FromWindow(p, panel, w, learn)
  {
    var test := TestRows(panel, w);
    var i :| 0 <= i < |test| && p == PredictWith(w.id, learn(TrainRows(panel, w)))(test[i]);
    assert test[i] in test;
    assert Midnight(w.trainEnd) < Midnight(w.testStart);
  }

  lemma {:induction false} NoLookAhead(panel: seq<Row>, windows: seq<Window>, cfg: Config, learn: Learner)
    requires TestsAfterTraining(windows)
    ensures forall p :: p in AllPredictions(panel, windows, cfg, learn) ==> TrainedOnThePast(p, panel, windows, learn)
  {
    if windows != [] {
      var n := |windows| - 1;
      NoLookAhead(panel, windows[..n], cfg, learn);
      forall p | p in AllPredictions(panel, windows, cfg, learn) ensures TrainedOnThePast(p, panel, windows, learn) {
        if p in AllPredictions(panel, windows[..n], cfg, learn) {
          var k :| 0 <= k < n && FromWindow(p, panel, windows[..n][k], learn);
          assert FromWindow(p, panel, windows[k], learn);
        } else {
          WindowTrainsOnThePast(p, panel, windows[n], cfg, learn);
        }
      }
    }
  }

  // ----- each row is predicted at most once -----

  function RowOf(p: Predicted): Row {
    p.row
  }

  lemma WindowPredictsItsRows(panel: seq<Row>, w: Window, cfg: Config, learn: Learner, row: Row)
    ensures multiset(Map(WindowPredictions(panel, w, cfg, learn), RowOf))[row]
         == if Executed(panel, w, cfg) && InTestSpan(row.date, w) then multiset(panel)[row] else 0
  {
    if Executed(panel, w, cfg) {
      assert Map(WindowPredictions(panel, w, cfg, learn), RowOf) == TestRows(panel, w);
      FilterCounts(panel, InSpan(w.testStart, w.testEnd), row);
    }
  }

  /** The row lies in the test span of a window that was executed. */
  predicate Tested(row: Row, panel: seq<Row>, windows: seq<Window>, cfg: Config) {
    exists k :: 0 <= k < |windows| && Executed(panel, windows[k], cfg) && InTestSpan(row.date, windows[k])
  }

  lemma TestedInLastOrBefore(row: Row, panel: seq<Row>, windows: seq<Window>, cfg: Config)
    requires windows != [] && TestSpansDisjoint(windows)
    ensures var front, last := windows[..|windows| - 1], windows[|windows| - 1];
            var now := Executed(panel, last, cfg) && InTestSpan(row.date, last);
            && TestSpansDisjoint(front)
            && (Tested(row, panel, windows, cfg) <==> Tested(row, panel, front, cfg) || now)
            && !(Tested(row, panel, front, cfg) && now)
  {
    var front := windows[..|windows| - 1];
    forall j, k, t | 0 <= j < k < |front| ensures !(InTestSpan(t, front[j]) && InTestSpan(t, front[k])) {
      assert front[j] == windows[j] && front[k] == windows[k];
    }
    assert forall k :: 0 <= k < |front| ==> front[k] == windows[k];
  }

  lemma RowsOfBoth(before: seq<Predicted>, now: seq<Predicted>, row: Row)
    ensures multiset(Map(before + now, RowOf))[row]
            == multiset(Map(before, RowOf))[row] + multiset(Map(now, RowOf))[row]
  {
    assert Map(before + now, RowOf) == Map(before, RowOf) + Map(now, RowOf);
  }

  lemma {:induction false} PredictedAsOftenAsPresent(panel: seq<Row>, windows: seq<Window>, cfg: Config, learn: Learner,
                                                     row: Row)
    requires TestSpansDisjoint(windows)
    ensures multiset(Map(AllPredictions(panel, windows, cfg, learn), RowOf))[row]
         == if Tested(row, panel, windows, cfg) then multiset(panel)[row] else 0
  {
    if windows != [] {
      var front, last := windows[..|windows| - 1], windows[|windows| - 1];
      TestedInLastOrBefore(row, panel, windows, cfg);
      PredictedAsOftenAsPresent(panel, front, cfg, learn, row);
      WindowPredictsItsRows(panel, last, cfg, learn, row);
      RowsOfBoth(AllPredictions(panel, front, cfg, learn), WindowPredictions(panel, last, cfg, learn), row);
    }
  }

  /** With one test year, every row of the panel is predicted at most as often as it occurs:
      a panel with one row per symbol and date gets one prediction at most for each. */
  lemma OneTestYearPredictsOnce(panel: seq<Row>, windows: seq<Window>, cfg: Config, learn: Learner)
    requires PositiveYears(cfg) && cfg.testYears == 1 && WindowsOfPanel(windows, panel, cfg)
    ensures multiset(Map(AllPredictions(panel, windows, cfg, learn), RowOf)) <= multiset(panel)
    ensures forall p :: p in AllPredictions(panel, windows, cfg, learn) ==> TrainedOnThePast(p, panel, windows, learn)
  {
    if panel != [] {
      AddYearsObeysCalendarLaws();
      OneTestYearTiles(windows, FirstDay(Dates(panel), cfg), LastMoment(Dates(panel), cfg), cfg, AddYears);
      TiledSpansAreDisjoint(windows);
    }
    forall row ensures multiset(Map(AllPredictions(panel, windows, cfg, learn), RowOf))[row] <= multiset(panel)[row] {
      PredictedAsOftenAsPresent(panel, windows, cfg, learn, row);
    }
    NoLookAhead(panel, windows, cfg, learn);
  }

  // ----- how often a row is predicted -----

  predicate Holds(w: Window, row: Row, panel: seq<Row>, cfg: Config) {
    Executed(panel, w, cfg) && InTestSpan(row.date, w)
  }

  /** The number of executed windows that test the row. */
  function Holding(row: Row, panel: seq<Row>, windows: seq<Window>, cfg: Config): nat {
    if windows == [] then 0
    else
      var last := windows[|windows| - 1];
      Holding(row, panel, windows[..|windows| - 1], cfg) + if Holds(last, row, panel, cfg) then 1 else 0
  }

  ghost predicate HeldTwice(row: Row, panel: seq<Row>, windows: seq<Window>, cfg: Config) {
    exists j, k :: 0 <= j < k < |windows| && Holds(windows[j], row, panel, cfg) && Holds(windows[k], row, panel, cfg)
  }

  lemma {:induction false} NotHeld(row: Row, panel: seq<Row>, windows: seq<Window>, cfg: Config)
    ensures Holding(row, panel, windows, cfg) == 0 <==>
            forall k :: 0 <= k < |windows| ==> !Holds(windows[k], row, panel, cfg)
  {
    if windows != [] {
      var front := windows[..|windows| - 1];
      NotHeld(row, panel, front, cfg);
      assert forall k :: 0 <= k < |front| ==> front[k] == windows[k];
    }
  }

  lemma {:induction false} HeldTwiceByCount(row: Row, panel: seq<Row>, windows: seq<Window>, cfg: Config)
    ensures 2 <= Holding(row, panel, windows, cfg) <==> HeldTwice(row, panel, windows, cfg)
  {
    if windows != [] {
      var n := |windows| - 1;
      var front := windows[..n];
      HeldTwiceByCount(row, panel, front, cfg);
      NotHeld(row, panel, front, cfg);
      assert forall k :: 0 <= k < n ==> front[k] == windows[k];
      if j, k :| 0 <= j < k < n && Holds(front[j], row, panel, cfg) && Holds(front[k], row, panel, cfg) {
        assert Holds(windows[j], row, panel, cfg) && Holds(windows[k], row, panel, cfg);
      }
      if j, k :| 0 <= j < k < |windows| && Holds(windows[j], row, panel, cfg) && Holds(windows[k], row, panel, cfg) {
        assert Holds(front[j], row, panel, cfg) && (k < n ==> Holds(windows[k], row, panel, cfg));
      }
    }
  }

  /** How often the row is predicted. */
  function Predictions(panel: seq<Row>, windows: seq<Window>, cfg: Config, learn: Learner, row: Row): nat {
    multiset(Map(AllPredictions(panel, windows, cfg, learn), RowOf))[row]
  }

  lemma PredictedInLast(panel: seq<Row>, windows: seq<Window>, cfg: Config, learn: Learner, row: Row)
    requires windows != []
    ensures var front, last := windows[..|windows| - 1], windows[|windows| - 1];
            Predictions(panel, windows, cfg, learn, row)
              == Predictions(panel, front, cfg, learn, row)
                 + if Holds(last, row, panel, cfg) then multiset(panel)[row] else 0
  {
    var front, last := windows[..|windows| - 1], windows[|windows| - 1];
    WindowPredictsItsRows(panel, last, cfg, learn, row);
    RowsOfBoth(AllPredictions(panel, front, cfg, learn), WindowPredictions(panel, last, cfg, learn), row);
  }

  lemma {:induction false} PredictedOncePerSpan(panel: seq<Row>, windows: seq<Window>, cfg: Config, learn: Learner,
                                                row: Row)
    ensures Predictions(panel, windows, cfg, learn, row) == Holding(row, panel, windows, cfg) * multiset(panel)[row]
  {
    if windows != [] {
      PredictedOncePerSpan(panel, windows[..|windows| - 1], cfg, learn, row);
      PredictedInLast(panel, windows, cfg, learn, row);
      CountStep(Predictions(panel, windows[..|windows| - 1], cfg, learn, row),
                Predictions(panel, windows, cfg, learn, row),
        Holding(row, panel, windows[..|windows| - 1], cfg), multiset(panel)[row],
        Holds(windows[|windows| - 1], row, panel, cfg));
    }
  }

  lemma CountStep(before: nat, now: nat, times: nat, n: nat, more: bool)
    requires before == times * n && now == before + if more then n else 0
    ensures now == (times + if more then 1 else 0) * n
  {
  }

  /** For any windows, overlapping or not: a row is predicted more often than it occurs exactly when it
      occurs and two executed windows test it. */
  lemma PredictedTooOftenExactlyWhen(panel: seq<Row>, windows: seq<Window>, cfg: Config, learn: Learner, row: Row)
    ensures Predictions(panel, windows, cfg, learn, row) > multiset(panel)[row] <==>
            row in panel && HeldTwice(row, panel, windows, cfg)
  {
    PredictedOncePerSpan(panel, windows, cfg, learn, row);
    HeldTwiceByCount(row, panel, windows, cfg);
    MoreThanOnce(Holding(row, panel, windows, cfg), multiset(panel)[row]);
    assert row in panel <==> multiset(panel)[row] > 0;
  }

  lemma MoreThanOnce(times: nat, n: nat)
    ensures times * n > n <==> n > 0 && times >= 2
  {
    if times >= 2 {
      assert times * n == (times - 2) * n + 2 * n && (times - 2) * n >= 0;
    } else if times == 1 {
      assert times * n == n;
    }
  }

  /** A failing input: two test years on 2000 to 2003 predict a row of 1 January 2002 twice. */
  lemma TwoTestYearsPredictTwice(panel: seq<Row>, windows: seq<Window>, cfg: Config, learn: Learner, row: Row)
    requires cfg == Config(1, 2, Some(Midnight(NewYear(2000))), Some(Midnight(NewYear(2004) - 1)), 0, 0)
    requires panel == [row] && row.date == Midnight(NewYear(2002)) && WindowsOfPanel(windows, panel, cfg)
    ensures Predictions(panel, windows, cfg, learn, row) > multiset(panel)[row] == 1
  {
    ConfiguredSpan(windows, panel, cfg, NewYear(2000), Midnight(NewYear(2004) - 1));
    BothTest2002(windows, cfg);
    TestedTwice(panel, windows, cfg, learn, row);
  }

  lemma ConfiguredSpan(windows: seq<Window>, panel: seq<Row>, cfg: Config, first: Day, last: Timestamp)
    requires panel != [] && WindowsOfPanel(windows, panel, cfg)
    requires cfg.startDate == Some(Midnight(first)) && cfg.endDate == Some(last)
    ensures AreWindows(windows, first, last, cfg, AddYears)
  {
    DayOfMidnight(first);
    assert FirstDay(Dates(panel), cfg) == first && LastMoment(Dates(panel), cfg) == last;
  }

  lemma TestedTwice(panel: seq<Row>, windows: seq<Window>, cfg: Config, learn: Learner, row: Row)
    requires panel == [row] && 1 < |windows| && cfg.minTrainSamples <= 0 && cfg.minTestSamples <= 0
    requires InTestSpan(row.date, windows[0]) && InTestSpan(row.date, windows[1])
    ensures Predictions(panel, windows, cfg, learn, row) > multiset(panel)[row] == 1
  {
    assert Holds(windows[0], row, panel, cfg) && Holds(windows[1], row, panel, cfg);
    PredictedTooOftenExactlyWhen(panel, windows, cfg, learn, row);
  }

  // ----- later data never rewrites a prediction -----

  ghost predicate AllLater(extra: seq<Row>, panel: seq<Row>) {
    forall r, s :: r in extra && s in panel ==> s.date < r.date
  }

  lemma SliceOfLongerPanel(panel: seq<Row>, extra: seq<Row>, start: Day, end: Day)
    requires forall r :: r in extra ==> Midnight(end) < r.date
    ensures SliceWindow(panel + extra, start, end) == SliceWindow(panel, start, end)
  {
    FilterConcat(panel, extra, InSpan(start, end));
    FilterKeepsNone(extra, InSpan(start, end));
  }

  lemma {:induction false} PredictionsOfLongerPanel(panel: seq<Row>, extra: seq<Row>, windows: seq<Window>, cfg: Config,
                                                    learn: Learner)
    requires TestsAfterTraining(windows)
    requires forall k, r :: 0 <= k < |windows| && r in extra ==> Midnight(windows[k].testEnd) < r.date
    ensures AllPredictions(panel + extra, windows, cfg, learn) == AllPredictions(panel, windows, cfg, learn)
  {
    if windows != [] {
      var n := |windows| - 1;
      var w := windows[n];
      PredictionsOfLongerPanel(panel, extra, windows[..n], cfg, learn);
      SliceOfLongerPanel(panel, extra, w.trainStart, w.trainEnd);
      SliceOfLongerPanel(panel, extra, w.testStart, w.testEnd);
    }
  }

  lemma {:induction false} PredictionsOfMoreWindows(panel: seq<Row>, windows: seq<Window>, more: seq<Window>,
                                                    cfg: Config,
                                                    learn: Learner)
    requires windows <= more
    ensures AllPredictions(panel, windows, cfg, learn) <= AllPredictions(panel, more, cfg, learn)
  {
    if |windows| < |more| {
      PredictionsOfMoreWindows(panel, windows, more[..|more| - 1], cfg, learn);
    } else {
      assert windows == more;
    }
  }

  lemma DatesOfRows(panel: seq<Row>, t: Timestamp)
    ensures t in Dates(panel) <==> exists r :: r in panel && r.date == t
  {
    if t in Dates(panel) {
      var i :| 0 <= i < |panel| && panel[i].date == t;
      assert panel[i] in panel;
    }
    if r :| r in panel && r.date == t {
      var i :| 0 <= i < |panel| && panel[i] == r;
      assert Dates(panel)[i] == t;
    }
  }

  lemma LaterDatesKeepStart(panel: seq<Row>, extra: seq<Row>, cfg: Config)
    requires panel != [] && AllLater(extra, panel)
    ensures FirstDay(Dates(panel + extra), cfg) == FirstDay(Dates(panel), cfg)
    ensures LastMoment(Dates(panel), cfg) <= LastMoment(Dates(panel + extra), cfg)
    ensures cfg.endDate.None? ==> forall r :: r in extra ==> LastMoment(Dates(panel), cfg) < r.date
  {
    var some, all := Dates(panel), Dates(panel + extra);
    DatesOfRows(panel, Earliest(some));
    DatesOfRows(panel, Latest(some));
    DatesOfRows(panel + extra, Earliest(some));
    DatesOfRows(panel + extra, Latest(some));
    DatesOfRows(panel + extra, Earliest(all));
    var r :| r in panel && r.date == Earliest(some);
    var s :| s in panel + extra && s.date == Earliest(all);
    if s in panel {
      DatesOfRows(panel, s.date);
    }
    var l :| l in panel && l.date == Latest(some);
  }

  lemma MoreTimeMoreWindows(windows: seq<Window>, more: seq<Window>, first: Day, last: Timestamp, later: Timestamp,
                            cfg: Config, plus: YearOffset)
    requires AreWindows(windows, first, last, cfg, plus) && AreWindows(more, first, later, cfg, plus) && last <= later
    ensures windows <= more
  {
    assert |windows| <= |more|;
  }

  /** Without a configured end date, adding later rows to the panel only adds predictions:
      those already made come out the same, in the same order. */
  lemma LaterDataOnlyAddsPredictions(panel: seq<Row>, extra: seq<Row>, windows: seq<Window>, more: seq<Window>,
                                     cfg: Config,
                                     learn: Learner)
    requires PositiveYears(cfg) && cfg.endDate.None? && AllLater(extra, panel)
    requires WindowsOfPanel(windows, panel, cfg) && WindowsOfPanel(more, panel + extra, cfg)
    ensures AllPredictions(panel, windows, cfg, learn) <= AllPredictions(panel + extra, more, cfg, learn)
  {
    if panel != [] {
      var first, last := FirstDay(Dates(panel), cfg), LastMoment(Dates(panel), cfg);
      LaterDatesKeepStart(panel, extra, cfg);
      MoreTimeMoreWindows(windows, more, first, last, LastMoment(Dates(panel + extra), cfg), cfg, AddYears);
      AddYearsObeysCalendarLaws();
      OneTestYearTiles(windows, first, last, cfg, AddYears);
      PredictionsOfLongerPanel(panel, extra, windows, cfg, learn);
      PredictionsOfMoreWindows(panel + extra, windows, more, cfg, learn);
    }
  }
}
