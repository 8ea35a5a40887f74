/** The raw price file of one symbol (`data/store.py`): saves, appends and the guard on
    benchmark replacements. A rejected operation leaves the file as it was. */
module PriceStore {
  import opened Calendar
  import opened Sequences
  import opened PriceBars
  import opened PriceRows

  datatype Error = MissingColumns | EmptyData | OlderData | TruncatedData | FileNotFound

  /** A frame handed to the store. */
  datatype Frame = Frame(hasColumns: bool, rows: seq<RawRow>)

  type File = Option<seq<Row>>

  type Outcome = Result<seq<Row>, Error>

  predicate IsBenchmark(symbol: string) {
    symbol in {"SPY", "^VIX", "VIX"}
  }

  /** The rows of a frame that survive normalization, before sorting and deduplication. */
  function ValidRows(frame: Frame, symbol: string): seq<Row> {
    Filter(Complete(frame.rows), HasValidBar(AllowsZeroVolume(symbol)))
  }

  function NormalizeFrame(frame: Frame, symbol: string, sort: Sorter): Outcome {
    if !frame.hasColumns then Failure(MissingColumns)
    else Success(Normalize(Complete(frame.rows), AllowsZeroVolume(symbol), sort))
  }

  function AsFrame(rows: seq<Row>): Frame {
    Frame(true, Map(rows, AsRaw))
  }

  function LatestDay(rows: seq<Row>): Day
    requires rows != []
  {
    DayOf(rows[|rows| - 1].date)
  }

  predicate TooOld(existing: seq<Row>, incoming: seq<Row>)
    requires existing != [] && incoming != []
  {
    LatestDay(incoming) < LatestDay(existing)
  }

  predicate TooShort(existing: seq<Row>, incoming: seq<Row>)
    requires existing != [] && incoming != []
  {
    |incoming| < |existing| / 2 && LatestDay(incoming) <= LatestDay(existing)
  }

  /** `merge_ohlcv`: the incoming frame is normalized before it is put behind the old rows. */
  function MergeFrame(existing: seq<Row>, frame: Frame, symbol: string, sort: Sorter): Outcome {
    match NormalizeFrame(frame, symbol, sort)
    case Failure(e) => Failure(e)
    case Success(incoming) => Success(Merge(existing, incoming, AllowsZeroVolume(symbol), sort))
  }

  /** `_prepare_benchmark_replacement`. */
  function Replacement(existing: seq<Row>, incoming: seq<Row>, symbol: string, sort: Sorter): Outcome {
    if incoming == [] then Failure(EmptyData)
    else if existing == [] then Success(incoming)
    else if TooOld(existing, incoming) then Failure(OlderData)
    else if TooShort(existing, incoming) then Failure(TruncatedData)
    else NonEmpty(MergeFrame(existing, AsFrame(incoming), symbol, sort))
  }

  function NonEmpty(o: Outcome): Outcome {
    if o == Success([]) then Failure(EmptyData) else o
  }

  function Loaded(rows: seq<Row>, symbol: string, sort: Sorter): seq<Row> {
    Normalize(rows, AllowsZeroVolume(symbol), sort)
  }

  /** What is written must still hold a valid row when it is read back. */
  function Written(rows: seq<Row>, symbol: string, sort: Sorter): Outcome {
    if rows == [] || Loaded(rows, symbol, sort) == [] then Failure(EmptyData) else Success(rows)
  }

  /** What `save_raw` writes, or why it refuses. */
  function Saved(file: File, frame: Frame, symbol: string, sort: Sorter): Outcome {
    match NonEmpty(NormalizeFrame(frame, symbol, sort))
    case Failure(e) => Failure(e)
    case Success(incoming) =>
      var out := if IsBenchmark(symbol) && file.Some?
        then Replacement(Loaded(file.value, symbol, sort), incoming, symbol, sort)
                 else Success(incoming);
      if out.Failure? then out else Written(out.value, symbol, sort)
  }

  /** What `append_raw` writes, or why it refuses. */
  function Appended(file: File, frame: Frame, symbol: string, sort: Sorter): Outcome {
    var merged := if file.Some? then MergeFrame(Loaded(file.value, symbol, sort), frame, symbol, sort)
                  else NormalizeFrame(frame, symbol, sort);
    if merged.Failure? then merged else Saved(file, AsFrame(merged.value), symbol, sort)
  }

  function After(file: File, outcome: Outcome): File {
    if outcome.Success? then Some(outcome.value) else file
  }

  // ----- what is stored, bar by bar -----

  ghost predicate GoodFile(file: File, symbol: string) {
    file.Some? ==> file.value != [] && AreGoodRows(file.value, symbol)
  }

  /** What becomes of incoming rows: nothing to save is refused. They are the new file, except for a benchmark
      that has a file. That one keeps the rows of other dates, and is not replaced by data of an earlier last
      day, nor by data with less than half of its rows and no later day. */
  ghost predicate RefusesOrStores(outcome: Outcome, file: File, incoming: seq<Row>, symbol: string)
    requires file.Some? ==> file.value != []
  {
    if incoming == [] then outcome == Failure(EmptyData)
    else if file.None? || (symbol != "SPY" && symbol != "^VIX" && symbol != "VIX") then outcome == Success(incoming)
    else
      var before := file.value;
      var lastDay, newDay := DayOf(before[|before| - 1].date), DayOf(incoming[|incoming| - 1].date);
      if newDay < lastDay then outcome == Failure(OlderData)
      else if |incoming| < |before| / 2 && newDay <= lastDay then outcome == Failure(TruncatedData)
      else outcome.Success? && HoldBoth(outcome.value, before, incoming, symbol)
  }

  /** What a save does with a frame. */
  ghost predicate StoresFrame(outcome: Outcome, file: File, frame: Frame, symbol: string)
    requires file.Some? ==> file.value != []
  {
    if !frame.hasColumns then outcome == Failure(MissingColumns)
    else exists incoming ::
      HoldGoodRows(incoming, frame.rows, symbol) && RefusesOrStores(outcome, file, incoming, symbol)
  }

  /** Of good rows on one date the last one to arrive is stored. */
  ghost predicate StoresLatest(outcome: Outcome, file: File, frame: Frame, symbol: string) {
    outcome.Success? ==> exists incoming ::
      && HoldGoodRows(incoming, frame.rows, symbol) && HoldLastRows(incoming, frame.rows, symbol)
      && HoldIncoming(outcome.value, if file.None? then [] else file.value, incoming)
  }

  /** What an append does: an existing file takes the incoming rows, whatever they are. */
  ghost predicate AppendsFrame(outcome: Outcome, file: File, frame: Frame, symbol: string) {
    if !frame.hasColumns then outcome == Failure(MissingColumns)
    else exists incoming ::
      && HoldGoodRows(incoming, frame.rows, symbol)
      && if file.None? then outcome == if incoming == [] then Failure(EmptyData) else Success(incoming)
         else outcome.Success? && HoldBoth(outcome.value, file.value, incoming, symbol)
  }

  class PriceFile {
    const symbol: string
    const sort: Sorter
    var file: File

    constructor (symbol: string, sort: Sorter)
      ensures this.symbol == symbol && this.sort == sort && file == None
    {
      this.symbol, this.sort, file := symbol, sort, None;
    }

    method LoadRaw() returns (outcome: Outcome)
      ensures outcome.Failure? <==> file.None?
      ensures outcome.Failure? ==> outcome.error == FileNotFound
      ensures outcome.Success? ==> outcome.value == Loaded(file.value, symbol, sort)
      ensures outcome.Success? && Sorts(sort) ==>
        && Normal(outcome.value, AllowsZeroVolume(symbol))
        && (forall d :: HasDate(outcome.value, d) <==>
            HasDate(Filter(file.value, HasValidBar(AllowsZeroVolume(symbol))), d))
        && (FileOk(file, symbol) ==> outcome == Success(file.value))
      ensures outcome.Success? && Sorts(sort) ==>
        && HoldGoodRows(outcome.value, Map(file.value, AsRaw), symbol)
        && (GoodFile(file, symbol) ==> outcome == Success(file.value))
      ensures outcome.Success? && SortsStably(sort) ==>
        HoldLastRows(outcome.value, Map(file.value, AsRaw), symbol)
    {
      if file.None? {
        return Failure(FileNotFound);
      }
      outcome := Success(Normalize(file.value, AllowsZeroVolume(symbol), sort));
      if Sorts(sort) {
        LoadedIsNormal(file.value, symbol, sort);
        LoadedBarByBar(file, symbol, sort);
      }
    }

    method AtomicWrite(rows: seq<Row>) returns (outcome: Outcome)
      modifies this
      ensures outcome == Written(rows, symbol, sort)
      ensures file == After(old(file), outcome)
      ensures file == if outcome.Success? then Some(rows) else old(file)
      ensures outcome.Failure? ==> outcome.error == EmptyData
      ensures Sorts(sort) ==> (outcome == Success(rows) <==> exists r :: r in rows && IsGoodBar(r.bar, symbol))
    {
      if Sorts(sort) {
        WrittenBarByBar(rows, symbol, sort);
      }
      if rows == [] {
        return Failure(EmptyData);
      }
      var validated := Normalize(rows, AllowsZeroVolume(symbol), sort);
      if validated == [] {
        return Failure(EmptyData);
      }
      file := Some(rows);
      outcome := Success(rows);
    }

    method SaveRaw(frame: Frame) returns (outcome: Outcome)
      modifies this
      ensures outcome == Saved(old(file), frame, symbol, sort)
      ensures file == After(old(file), outcome)
      ensures file == if outcome.Success? then Some(outcome.value) else old(file)
      ensures Sorts(sort) && GoodFile(old(file), symbol) ==> StoresFrame(outcome, old(file), frame, symbol)
      ensures SortsStably(sort) && GoodFile(old(file), symbol) && symbol in {"SPY", "^VIX", "VIX"} ==>
        StoresLatest(outcome, old(file), frame, symbol)
      ensures symbol !in {"SPY", "^VIX", "VIX"} ==>
        && (Sorts(sort) ==> StoresFrame(outcome, None, frame, symbol))
        && (SortsStably(sort) ==> StoresLatest(outcome, None, frame, symbol))
    {
      if Sorts(sort) {
        SavedBarByBar(file, frame, symbol, sort);
      }
      var incoming := NonEmpty(NormalizeFrame(frame, symbol, sort));
      if incoming.Failure? {
        return incoming;
      }
      var out := incoming.value;
      if IsBenchmark(symbol) && file.Some? {
        var existing := LoadRaw();
        var replacement := Replacement(existing.value, out, symbol, sort);
        if replacement.Failure? {
          return replacement;
        }
        out := replacement.value;
      }
      outcome := AtomicWrite(out);
    }

    method AppendRaw(frame: Frame) returns (outcome: Outcome)
      modifies this
      ensures outcome == Appended(old(file), frame, symbol, sort)
      ensures file == After(old(file), outcome)
      ensures file == if outcome.Success? then Some(outcome.value) else old(file)
      ensures Sorts(sort) && GoodFile(old(file), symbol) ==> AppendsFrame(outcome, old(file), frame, symbol)
      ensures SortsStably(sort) && GoodFile(old(file), symbol) ==> StoresLatest(outcome, old(file), frame, symbol)
    {
      if Sorts(sort) && GoodFile(file, symbol) {
        AppendedBarByBar(file, frame, symbol, sort);
      }
      var merged: Outcome;
      if file.Some? {
        var existing := LoadRaw();
        merged := MergeFrame(existing.value, frame, symbol, sort);
      } else {
        merged := NormalizeFrame(frame, symbol, sort);
      }
      if merged.Failure? {
        return merged;
      }
      outcome := SaveRaw(AsFrame(merged.value));
    }
  }

  // ----- one operation -----

  /** What every file written by the store is. */
  ghost predicate FileOk(file: File, symbol: string) {
    file.Some? ==> file.value != [] && Normal(file.value, AllowsZeroVolume(symbol))
  }

  ghost predicate KeepsDates(before: File, after: File) {
    before.Some? ==> after.Some? && forall d :: HasDate(before.value, d) ==> HasDate(after.value, d)
  }

  function Content(file: File): map<Timestamp, Bar> {
    if file.None? then map[] else AsMap(file.value)
  }

  lemma {:induction false} FramesKeepRows(rows: seq<Row>)
    ensures Complete(Map(rows, AsRaw)) == rows
  {
    if rows != [] {
      var n := |rows| - 1;
      assert Map(rows, AsRaw)[..n] == Map(rows[..n], AsRaw);
      FramesKeepRows(rows[..n]);
      assert rows == rows[..n] + [rows[n]];
    }
  }

  /** Normal rows pass through normalization, reading and writing unchanged. */
  lemma NormalRowsPass(rows: seq<Row>, symbol: string, sort: Sorter)
    requires Sorts(sort) && Normal(rows, AllowsZeroVolume(symbol))
    ensures NormalizeFrame(AsFrame(rows), symbol, sort) == Success(rows)
    ensures Loaded(rows, symbol, sort) == rows
    ensures Written(rows, symbol, sort) == NonEmpty(Success(rows))
  {
    FramesKeepRows(rows);
    NormalizeIsIdempotent(rows, AllowsZeroVolume(symbol), sort);
  }

  lemma LoadedIsNormal(rows: seq<Row>, symbol: string, sort: Sorter)
    requires Sorts(sort)
    ensures var out := Loaded(rows, symbol, sort);
            && Normal(out, AllowsZeroVolume(symbol))
            && (forall d :: HasDate(out, d) <==> HasDate(Filter(rows, HasValidBar(AllowsZeroVolume(symbol))), d))
            && (Normal(rows, AllowsZeroVolume(symbol)) ==> out == rows)
  {
    NormalizeIsNormal(rows, AllowsZeroVolume(symbol), sort);
    if Normal(rows, AllowsZeroVolume(symbol)) {
      NormalRowsPass(rows, symbol, sort);
    }
  }

  lemma FramesAreNormalized(frame: Frame, symbol: string, sort: Sorter)
    requires Sorts(sort) && frame.hasColumns
    ensures var rows := NormalizeFrame(frame, symbol, sort).value;
            && Normal(rows, AllowsZeroVolume(symbol))
            && (forall d :: HasDate(rows, d) <==> HasDate(ValidRows(frame, symbol), d))
            && (rows == [] <==> ValidRows(frame, symbol) == [])
            && (KeepsLastRows(sort, AllowsZeroVolume(symbol)) ==> AsMap(rows) == AsMap(ValidRows(frame, symbol)))
  {
    var rows, valid := NormalizeFrame(frame, symbol, sort).value, ValidRows(frame, symbol);
    NormalizeIsNormal(Complete(frame.rows), AllowsZeroVolume(symbol), sort);
    if rows != [] {
      assert rows[0] in rows;
      assert HasDate(valid, rows[0].date);
    }
    if valid != [] {
      assert valid[0] in valid;
      assert HasDate(rows, valid[0].date);
    }
    if KeepsLastRows(sort, AllowsZeroVolume(symbol)) {
      NormalizeKeepsLastValid(Complete(frame.rows), AllowsZeroVolume(symbol), sort);
    }
  }

  lemma ReplacementOutcome(existing: seq<Row>, incoming: seq<Row>, symbol: string, sort: Sorter)
    requires Sorts(sort) && Normal(existing, AllowsZeroVolume(symbol)) && Normal(incoming, AllowsZeroVolume(symbol))
    requires existing != [] && incoming != []
    ensures Replacement(existing, incoming, symbol, sort) ==
              if TooOld(existing, incoming) then Failure(OlderData)
              else if TooShort(existing, incoming) then Failure(TruncatedData)
              else Success(Merge(existing, incoming, AllowsZeroVolume(symbol), sort))
  {
    NormalRowsPass(incoming, symbol, sort);
    MergedIsNotEmpty(existing, incoming, symbol, sort);
  }

  /** The whole outcome of a save, on normal rows: when it is refused and what it writes. */
  lemma SaveOutcome(file: File, frame: Frame, symbol: string, sort: Sorter)
    requires Sorts(sort) && FileOk(file, symbol) && frame.hasColumns
    ensures var incoming := NormalizeFrame(frame, symbol, sort).value;
            Saved(file, frame, symbol, sort) ==
              if ValidRows(frame, symbol) == [] then Failure(EmptyData)
              else if !IsBenchmark(symbol) || file.None? then Success(incoming)
              else if TooOld(file.value, incoming) then Failure(OlderData)
              else if TooShort(file.value, incoming) then Failure(TruncatedData)
              else Success(Merge(file.value, incoming, AllowsZeroVolume(symbol), sort))
  {
    var incoming := NormalizeFrame(frame, symbol, sort).value;
    FramesAreNormalized(frame, symbol, sort);
    NormalRowsPass(incoming, symbol, sort);
    if file.Some? && incoming != [] {
      NormalRowsPass(file.value, symbol, sort);
      ReplacementOutcome(file.value, incoming, symbol, sort);
      MergedIsNotEmpty(file.value, incoming, symbol, sort);
    }
  }

  lemma MergedIsNotEmpty(existing: seq<Row>, incoming: seq<Row>, symbol: string, sort: Sorter)
    requires Sorts(sort) && Normal(existing, AllowsZeroVolume(symbol)) && Normal(incoming, AllowsZeroVolume(symbol))
    requires existing != []
    ensures var merged := Merge(existing, incoming, AllowsZeroVolume(symbol), sort);
            merged != [] && Written(merged, symbol, sort) == Success(merged)
  {
    MergeOverrides(existing, incoming, AllowsZeroVolume(symbol), sort);
    assert existing[0] in existing;
    assert HasDate(existing, existing[0].date);
    NormalRowsPass(Merge(existing, incoming, AllowsZeroVolume(symbol), sort), symbol, sort);
  }

  lemma SaveKeepsFile(file: File, frame: Frame, symbol: string, sort: Sorter)
    requires Sorts(sort) && FileOk(file, symbol)
    ensures var after := After(file, Saved(file, frame, symbol, sort));
            FileOk(after, symbol) && (IsBenchmark(symbol) ==> KeepsDates(file, after))
  {
    if frame.hasColumns {
      SaveOutcome(file, frame, symbol, sort);
      FramesAreNormalized(frame, symbol, sort);
      if file.Some? {
        MergeOverrides(file.value, NormalizeFrame(frame, symbol, sort).value, AllowsZeroVolume(symbol), sort);
        MergedIsNotEmpty(file.value, NormalizeFrame(frame, symbol, sort).value, symbol, sort);
      }
    }
  }

  lemma LaterRowsHaveLaterDates(rows: seq<Row>, d: Timestamp)
    requires InDateOrder(rows) && HasDate(rows, d)
    ensures rows != [] && d <= rows[|rows| - 1].date
  {
    var r :| r in rows && r.date == d;
    var i :| 0 <= i < |rows| && rows[i] == r;
    assert i < |rows| - 1 ==> rows[i].date < rows[|rows| - 1].date;
  }

  lemma KeptDatesKeepLatest(before: seq<Row>, after: seq<Row>)
    requires before != [] && InDateOrder(after) && forall d :: HasDate(before, d) ==> HasDate(after, d)
    ensures after != [] && before[|before| - 1].date <= after[|after| - 1].date
    ensures LatestDay(before) <= LatestDay(after)
  {
    assert before[|before| - 1] in before;
    assert HasDate(before, before[|before| - 1].date);
    LaterRowsHaveLaterDates(after, before[|before| - 1].date);
    TimestampOrder(before[|before| - 1].date, after[|after| - 1].date);
  }

  /** An append to an existing file gets past the guard whatever it holds: it fails exactly for
      missing columns. Without a file it also needs a valid row. */
  lemma AppendOutcome(file: File, frame: Frame, symbol: string, sort: Sorter)
    requires Sorts(sort) && FileOk(file, symbol)
    ensures var outcome := Appended(file, frame, symbol, sort);
            && (outcome == Failure(MissingColumns) <==> !frame.hasColumns)
            && (outcome == Failure(EmptyData) <==> frame.hasColumns && file.None? && ValidRows(frame, symbol) == [])
            && (outcome.Failure? ==> outcome.error in {MissingColumns, EmptyData})
  {
    if frame.hasColumns {
      var incoming := NormalizeFrame(frame, symbol, sort).value;
      FramesAreNormalized(frame, symbol, sort);
      if file.None? {
        NormalRowsPass(incoming, symbol, sort);
      } else {
        AppendWritesMerged(file.value, frame, symbol, sort);
      }
    }
  }

  /** What passes the guard is what was merged, or (benchmarks) that merged once more. */
  lemma AppendWritesMerged(rows: seq<Row>, frame: Frame, symbol: string, sort: Sorter)
    requires Sorts(sort) && FileOk(Some(rows), symbol) && frame.hasColumns
    ensures var merged := Merge(rows, NormalizeFrame(frame, symbol, sort).value, AllowsZeroVolume(symbol), sort);
            Appended(Some(rows), frame, symbol, sort) ==
              Success(if IsBenchmark(symbol) then Merge(rows, merged, AllowsZeroVolume(symbol), sort) else merged)
  {
    var incoming := NormalizeFrame(frame, symbol, sort).value;
    var merged := Merge(rows, incoming, AllowsZeroVolume(symbol), sort);
    FramesAreNormalized(frame, symbol, sort);
    NormalRowsPass(rows, symbol, sort);
    MergeOverrides(rows, incoming, AllowsZeroVolume(symbol), sort);
    MergedIsNotEmpty(rows, incoming, symbol, sort);
    KeptDatesKeepLatest(rows, merged);
    MoreDatesMoreRows(rows, merged);
    NormalRowsPass(merged, symbol, sort);
    FramesKeepRows(merged);
    FilterKeepsAll(merged, HasValidBar(AllowsZeroVolume(symbol)));
    SaveOutcome(Some(rows), AsFrame(merged), symbol, sort);
  }

  // ----- the same outcomes, bar by bar -----

  lemma GoodFilesAreOk(file: File, symbol: string)
    ensures GoodFile(file, symbol) <==> FileOk(file, symbol)
  {
    if file.Some? {
      GoodRowsAreNormal(file.value, symbol);
    }
  }

  lemma LoadedBarByBar(file: File, symbol: string, sort: Sorter)
    requires Sorts(sort) && file.Some?
    ensures var rows := Loaded(file.value, symbol, sort);
            && HoldGoodRows(rows, Map(file.value, AsRaw), symbol)
            && (SortsStably(sort) ==> HoldLastRows(rows, Map(file.value, AsRaw), symbol))
            && (GoodFile(file, symbol) ==> rows == file.value)
  {
    FramesKeepRows(file.value);
    NormalizedRowsAreGood(Map(file.value, AsRaw), symbol, sort);
    if SortsStably(sort) {
      NormalizedRowsAreLast(Map(file.value, AsRaw), symbol, sort);
    }
    GoodFilesAreOk(file, symbol);
    if GoodFile(file, symbol) {
      NormalRowsPass(file.value, symbol, sort);
    }
  }

  lemma WrittenBarByBar(rows: seq<Row>, symbol: string, sort: Sorter)
    requires Sorts(sort)
    ensures Written(rows, symbol, sort) == Success(rows) <==> exists r :: r in rows && IsGoodBar(r.bar, symbol)
  {
    var loaded := Loaded(rows, symbol, sort);
    LoadedBarByBar(Some(rows), symbol, sort);
    if loaded != [] {
      assert loaded[0] in loaded;
      assert AsRaw(loaded[0]) in Map(rows, AsRaw);
      RawRowsAreRows(rows, loaded[0]);
    }
    if r :| r in rows && IsGoodBar(r.bar, symbol) {
      RawRowsAreRows(rows, r);
      assert IsGoodRow(AsRaw(r), symbol);
    }
  }

  lemma RawRowsAreRows(rows: seq<Row>, r: Row)
    ensures r in rows <==> AsRaw(r) in Map(rows, AsRaw)
  {
    if r in rows {
      var i :| 0 <= i < |rows| && rows[i] == r;
      assert Map(rows, AsRaw)[i] == AsRaw(r);
    }
    if AsRaw(r) in Map(rows, AsRaw) {
      var i :| 0 <= i < |rows| && AsRaw(rows[i]) == AsRaw(r);
      assert rows[i] == r;
    }
  }

  /** What arrives, once it is normalized. */
  lemma IncomingBarByBar(frame: Frame, symbol: string, sort: Sorter) returns (incoming: seq<Row>)
    requires Sorts(sort) && frame.hasColumns
    ensures NormalizeFrame(frame, symbol, sort) == Success(incoming)
    ensures HoldGoodRows(incoming, frame.rows, symbol) && Normal(incoming, AllowsZeroVolume(symbol))
    ensures incoming == [] <==> ValidRows(frame, symbol) == []
    ensures SortsStably(sort) ==> HoldLastRows(incoming, frame.rows, symbol)
    ensures SortsStably(sort) ==> AsMap(incoming) == AsMap(ValidRows(frame, symbol))
  {
    incoming := NormalizeFrame(frame, symbol, sort).value;
    NormalizedRowsAreGood(frame.rows, symbol, sort);
    FramesAreNormalized(frame, symbol, sort);
    if SortsStably(sort) {
      NormalizedRowsAreLast(frame.rows, symbol, sort);
      StableSortsKeepLastRows(sort, AllowsZeroVolume(symbol));
    }
  }

  lemma SavedBarByBar(file: File, frame: Frame, symbol: string, sort: Sorter)
    requires Sorts(sort)
    ensures var outcome := Saved(file, frame, symbol, sort);
            && (GoodFile(file, symbol) ==> StoresFrame(outcome, file, frame, symbol))
            && (!IsBenchmark(symbol) ==> StoresFrame(outcome, None, frame, symbol))
            && (SortsStably(sort) && GoodFile(file, symbol) && IsBenchmark(symbol) ==>
                  StoresLatest(outcome, file, frame, symbol))
            && (SortsStably(sort) && !IsBenchmark(symbol) ==> StoresLatest(outcome, None, frame, symbol))
  {
    if GoodFile(file, symbol) {
      SavedToGoodFile(file, frame, symbol, sort);
    }
    if !IsBenchmark(symbol) {
      assert Saved(file, frame, symbol, sort) == Saved(None, frame, symbol, sort);
      SavedToGoodFile(None, frame, symbol, sort);
    }
  }

  lemma SavedToGoodFile(file: File, frame: Frame, symbol: string, sort: Sorter)
    requires Sorts(sort) && GoodFile(file, symbol)
    ensures StoresFrame(Saved(file, frame, symbol, sort), file, frame, symbol)
    ensures SortsStably(sort) && (file.None? || IsBenchmark(symbol)) ==>
      StoresLatest(Saved(file, frame, symbol, sort), file, frame, symbol)
  {
    if frame.hasColumns {
      var incoming := IncomingBarByBar(frame, symbol, sort);
      SavedOrRefused(file, frame, symbol, sort, incoming);
      if SortsStably(sort) && (file.None? || IsBenchmark(symbol)) {
        SavedLatest(file, frame, symbol, sort, incoming);
      }
    }
  }

  lemma SavedOrRefused(file: File, frame: Frame, symbol: string, sort: Sorter, incoming: seq<Row>)
    requires Sorts(sort) && GoodFile(file, symbol) && frame.hasColumns
    requires NormalizeFrame(frame, symbol, sort) == Success(incoming) && AreGoodRows(incoming, symbol)
    requires incoming == [] <==> ValidRows(frame, symbol) == []
    ensures RefusesOrStores(Saved(file, frame, symbol, sort), file, incoming, symbol)
  {
    GoodFilesAreOk(file, symbol);
    SaveOutcome(file, frame, symbol, sort);
    if file.Some? {
      MergedRowsHoldBoth(file.value, incoming, symbol, sort);
    }
  }

  lemma SavedLatest(file: File, frame: Frame, symbol: string, sort: Sorter, incoming: seq<Row>)
    requires SortsStably(sort) && GoodFile(file, symbol) && frame.hasColumns && (file.None? || IsBenchmark(symbol))
    requires HoldGoodRows(incoming, frame.rows, symbol) && HoldLastRows(incoming, frame.rows, symbol)
    requires AsMap(incoming) == AsMap(ValidRows(frame, symbol))
    ensures StoresLatest(Saved(file, frame, symbol, sort), file, frame, symbol)
  {
    var outcome := Saved(file, frame, symbol, sort);
    if outcome.Success? {
      GoodFilesAreOk(file, symbol);
      StableSortsKeepLastRows(sort, AllowsZeroVolume(symbol));
      SavedContent(file, frame, symbol, sort, outcome.value);
      OverridingHoldsIncoming(outcome.value, if file.None? then [] else file.value, incoming);
    }
  }

  lemma AppendedBarByBar(file: File, frame: Frame, symbol: string, sort: Sorter)
    requires Sorts(sort) && GoodFile(file, symbol)
    ensures AppendsFrame(Appended(file, frame, symbol, sort), file, frame, symbol)
    ensures SortsStably(sort) ==> StoresLatest(Appended(file, frame, symbol, sort), file, frame, symbol)
  {
    if frame.hasColumns {
      var incoming := IncomingBarByBar(frame, symbol, sort);
      GoodFilesAreOk(file, symbol);
      if file.None? {
        NormalRowsPass(incoming, symbol, sort);
        FramesKeepRows(incoming);
        SaveOutcome(None, AsFrame(incoming), symbol, sort);
        FilterKeepsAll(incoming, HasValidBar(AllowsZeroVolume(symbol)));
      } else {
        AppendedRowsHoldBoth(file.value, frame, symbol, sort, incoming);
      }
      if SortsStably(sort) {
        AppendedLatest(file, frame, symbol, sort, incoming);
      }
    }
  }

  lemma AppendedRowsHoldBoth(rows: seq<Row>, frame: Frame, symbol: string, sort: Sorter, incoming: seq<Row>)
    requires Sorts(sort) && FileOk(Some(rows), symbol) && frame.hasColumns
    requires NormalizeFrame(frame, symbol, sort) == Success(incoming) && AreGoodRows(incoming, symbol)
    ensures var outcome := Appended(Some(rows), frame, symbol, sort);
            outcome.Success? && HoldBoth(outcome.value, rows, incoming, symbol)
  {
    GoodFilesAreOk(Some(rows), symbol);
    AppendWritesMerged(rows, frame, symbol, sort);
    MergedRowsHoldBoth(rows, incoming, symbol, sort);
    var merged := Merge(rows, incoming, AllowsZeroVolume(symbol), sort);
    MergedRowsHoldBoth(rows, merged, symbol, sort);
    var again := Merge(rows, merged, AllowsZeroVolume(symbol), sort);
    forall b | b in rows || b in incoming ensures exists r :: r in again && r.date == b.date {
      var r :| r in merged && r.date == b.date;
    }
  }

  lemma AppendedLatest(file: File, frame: Frame, symbol: string, sort: Sorter, incoming: seq<Row>)
    requires SortsStably(sort) && GoodFile(file, symbol) && frame.hasColumns
    requires HoldGoodRows(incoming, frame.rows, symbol) && HoldLastRows(incoming, frame.rows, symbol)
    requires AsMap(incoming) == AsMap(ValidRows(frame, symbol))
    ensures StoresLatest(Appended(file, frame, symbol, sort), file, frame, symbol)
  {
    var outcome := Appended(file, frame, symbol, sort);
    if outcome.Success? {
      GoodFilesAreOk(file, symbol);
      StableSortsKeepLastRows(sort, AllowsZeroVolume(symbol));
      AppendedContent(file, frame, symbol, sort, outcome.value);
      OverridingHoldsIncoming(outcome.value, if file.None? then [] else file.value, incoming);
    }
  }

  // ----- contents, with a sort that keeps last rows -----

  lemma DatesAreKeys(rows: seq<Row>, d: Timestamp)
    ensures d in AsMap(rows) <==> HasDate(rows, d)
  {
    MapHoldsLastOfDate(rows, d);
    var same := Filter(rows, OnDate(d));
    if same != [] {
      assert same[0] in same;
    }
  }

  lemma NoContentNoRows(rows: seq<Row>)
    ensures AsMap(rows) == map[] <==> rows == []
  {
    if rows != [] {
      assert rows[|rows| - 1].date in AsMap(rows);
    }
  }

  /** Equal contents, equal files. */
  lemma {:induction false} ContentDeterminesRows(s: seq<Row>, t: seq<Row>)
    requires InDateOrder(s) && InDateOrder(t) && AsMap(s) == AsMap(t)
    ensures s == t
  {
    NoContentNoRows(s);
    NoContentNoRows(t);
    if s != [] {
      var m, n := |s| - 1, |t| - 1;
      LastDateIsLatest(s, t);
      LastDateIsLatest(t, s);
      LastDateIsNew(s);
      LastDateIsNew(t);
      ContentDeterminesRows(s[..m], t[..n]);
      assert s[m].bar == AsMap(s)[s[m].date] && t[n].bar == AsMap(t)[t[n].date];
      assert s == s[..m] + [s[m]] && t == t[..n] + [t[n]];
    }
  }

  lemma LastDateIsLatest(s: seq<Row>, t: seq<Row>)
    requires s != [] && t != [] && InDateOrder(t) && AsMap(s) == AsMap(t)
    ensures s[|s| - 1].date <= t[|t| - 1].date
  {
    var d := s[|s| - 1].date;
    DatesAreKeys(t, d);
    LaterRowsHaveLaterDates(t, d);
  }

  lemma LastDateIsNew(s: seq<Row>)
    requires s != [] && InDateOrder(s)
    ensures AsMap(s[..|s| - 1]) == AsMap(s) - {s[|s| - 1].date}
  {
    var front, d := s[..|s| - 1], s[|s| - 1].date;
    DatesAreKeys(front, d);
    if HasDate(front, d) {
      LaterRowsHaveLaterDates(front, d);
    }
  }

  lemma SameContentSameFile(a: File, b: File, symbol: string)
    requires FileOk(a, symbol) && FileOk(b, symbol) && Content(a) == Content(b)
    ensures a == b
  {
    var s, t := if a.Some? then a.value else [], if b.Some? then b.value else [];
    ContentDeterminesRows(s, t);
  }

  lemma OverridingTwice(m: map<Timestamp, Bar>, a: map<Timestamp, Bar>, b: map<Timestamp, Bar>)
    ensures (m + a) + b == m + (a + b)
  {
  }

  lemma OverridingAgain(m: map<Timestamp, Bar>, a: map<Timestamp, Bar>)
    ensures m + (m + a) == m + a && (m + a) + a == m + a
  {
  }

  lemma MergeContent(existing: seq<Row>, incoming: seq<Row>, valid: seq<Row>, symbol: string, sort: Sorter)
    requires KeepsLastRows(sort, AllowsZeroVolume(symbol)) && Normal(existing, AllowsZeroVolume(symbol)) &&
             Normal(incoming, AllowsZeroVolume(symbol))
    requires AsMap(incoming) == AsMap(valid)
    ensures AsMap(Merge(existing, incoming, AllowsZeroVolume(symbol), sort)) == AsMap(existing) + AsMap(valid)
  {
    MergeOverrides(existing, incoming, AllowsZeroVolume(symbol), sort);
  }

  lemma MergingTwice(existing: seq<Row>, incoming: seq<Row>, valid: seq<Row>, symbol: string, sort: Sorter)
    requires KeepsLastRows(sort, AllowsZeroVolume(symbol)) && Normal(existing, AllowsZeroVolume(symbol)) &&
             Normal(incoming, AllowsZeroVolume(symbol))
    requires AsMap(incoming) == AsMap(valid)
    ensures var merged := Merge(existing, incoming, AllowsZeroVolume(symbol), sort);
            AsMap(Merge(existing, merged, AllowsZeroVolume(symbol), sort)) == AsMap(existing) + AsMap(valid)
  {
    var merged := Merge(existing, incoming, AllowsZeroVolume(symbol), sort);
    MergeOverrides(existing, incoming, AllowsZeroVolume(symbol), sort);
    MergeContent(existing, merged, merged, symbol, sort);
    MergeContent(existing, incoming, valid, symbol, sort);
    OverridingAgain(AsMap(existing), AsMap(valid));
  }

  lemma SavedRows(file: File, frame: Frame, symbol: string, sort: Sorter, out: seq<Row>)
    requires Sorts(sort) && FileOk(file, symbol) && Saved(file, frame, symbol, sort) == Success(out)
    ensures frame.hasColumns
    ensures var incoming := NormalizeFrame(frame, symbol, sort).value;
            out == if IsBenchmark(symbol) && file.Some? then Merge(file.value, incoming, AllowsZeroVolume(symbol), sort)
                   else incoming
  {
    SaveOutcome(file, frame, symbol, sort);
  }

  /** A save that is accepted overrides, for a benchmark; for any other symbol it replaces. */
  lemma SavedContent(file: File, frame: Frame, symbol: string, sort: Sorter, out: seq<Row>)
    requires KeepsLastRows(sort, AllowsZeroVolume(symbol)) && FileOk(file, symbol) &&
             Saved(file, frame, symbol, sort) == Success(out)
    ensures AsMap(out) == (if IsBenchmark(symbol) then Content(file) else map[]) + AsMap(ValidRows(frame, symbol))
  {
    SavedRows(file, frame, symbol, sort, out);
    FramesAreNormalized(frame, symbol, sort);
    RowsContent(file, NormalizeFrame(frame, symbol, sort).value, ValidRows(frame, symbol), symbol, sort, out);
  }

  lemma RowsContent(file: File, incoming: seq<Row>, valid: seq<Row>, symbol: string, sort: Sorter, out: seq<Row>)
    requires KeepsLastRows(sort, AllowsZeroVolume(symbol)) && FileOk(file, symbol)
    requires Normal(incoming, AllowsZeroVolume(symbol)) && AsMap(incoming) == AsMap(valid)
    requires out == if IsBenchmark(symbol) && file.Some?
             then Merge(file.value, incoming, AllowsZeroVolume(symbol), sort)
                    else incoming
    ensures AsMap(out) == (if IsBenchmark(symbol) then Content(file) else map[]) + AsMap(valid)
  {
    if file.Some? {
      MergeContent(file.value, incoming, valid, symbol, sort);
    }
  }

  /** An append that is accepted overrides, for every symbol. */
  lemma AppendedContent(file: File, frame: Frame, symbol: string, sort: Sorter, out: seq<Row>)
    requires KeepsLastRows(sort, AllowsZeroVolume(symbol)) && FileOk(file, symbol) &&
             Appended(file, frame, symbol, sort) == Success(out)
    ensures AsMap(out) == Content(file) + AsMap(ValidRows(frame, symbol))
  {
    var incoming := NormalizeFrame(frame, symbol, sort).value;
    FramesAreNormalized(frame, symbol, sort);
    if file.Some? {
      AppendWritesMerged(file.value, frame, symbol, sort);
      MergingTwice(file.value, incoming, ValidRows(frame, symbol), symbol, sort);
      MergeContent(file.value, incoming, ValidRows(frame, symbol), symbol, sort);
    } else {
      NormalRowsPass(incoming, symbol, sort);
    }
  }

  lemma AppendKeepsFile(file: File, frame: Frame, symbol: string, sort: Sorter)
    requires Sorts(sort) && FileOk(file, symbol)
    ensures var after := After(file, Appended(file, frame, symbol, sort));
            FileOk(after, symbol) && KeepsDates(file, after)
  {
    if frame.hasColumns {
      var incoming := NormalizeFrame(frame, symbol, sort).value;
      FramesAreNormalized(frame, symbol, sort);
      NormalRowsPass(incoming, symbol, sort);
      if file.Some? {
        var zero := AllowsZeroVolume(symbol);
        AppendWritesMerged(file.value, frame, symbol, sort);
        MergeOverrides(file.value, incoming, zero, sort);
        MergedIsNotEmpty(file.value, incoming, symbol, sort);
        MergeOverrides(file.value, Merge(file.value, incoming, zero, sort), zero, sort);
        MergedIsNotEmpty(file.value, Merge(file.value, incoming, zero, sort), symbol, sort);
      }
    }
  }

  // ----- whole runs -----

  datatype Operation = Save(frame: Frame) | Append(frame: Frame)

  function OutcomeOf(file: File, op: Operation, symbol: string, sort: Sorter): Outcome {
    if op.Save? then Saved(file, op.frame, symbol, sort) else Appended(file, op.frame, symbol, sort)
  }

  type Performer = (File, Operation) -> Outcome

  function Perform(symbol: string, sort: Sorter): Performer {
    (file: File, op: Operation) => OutcomeOf(file, op, symbol, sort)
  }

  function Run(file: File, ops: seq<Operation>, perform: Performer): File {
    if ops == [] then file
    else
      var before := Run(file, ops[..|ops| - 1], perform);
      After(before, perform(before, ops[|ops| - 1]))
  }

  /** The valid rows of the operations that were accepted, in the order they came. */
  function AcceptedRows(file: File, ops: seq<Operation>, perform: Performer, symbol: string): seq<Row> {
    if ops == [] then []
    else
      var front, op := ops[..|ops| - 1], ops[|ops| - 1];
      AcceptedRows(file, front, perform, symbol) + AcceptedOf(Run(file, front, perform), op, perform, symbol)
  }

  function AcceptedOf(file: File, op: Operation, perform: Performer, symbol: string): seq<Row> {
    if perform(file, op).Success? then ValidRows(op.frame, symbol) else []
  }

  /** An append, or a save that merges. */
  predicate Adds(op: Operation, symbol: string) {
    IsBenchmark(symbol) || op.Append?
  }

  ghost predicate OnlyAdds(ops: seq<Operation>, symbol: string) {
    forall op :: op in ops ==> Adds(op, symbol)
  }

  ghost predicate KeepsFile(perform: Performer, symbol: string) {
    forall file, op :: FileOk(file, symbol) ==>
      var after := After(file, perform(file, op));
      FileOk(after, symbol) && (Adds(op, symbol) ==> KeepsDates(file, after))
  }

  ghost predicate Overrides(perform: Performer, symbol: string) {
    forall file, op :: FileOk(file, symbol) && Adds(op, symbol) ==>
      Content(After(file, perform(file, op))) == Content(file) + AsMap(AcceptedOf(file, op, perform, symbol))
  }

  lemma {:induction false} RunKeeps(file: File, ops: seq<Operation>, perform: Performer, symbol: string)
    requires KeepsFile(perform, symbol) && FileOk(file, symbol)
    ensures FileOk(Run(file, ops, perform), symbol)
    ensures OnlyAdds(ops, symbol) ==> KeepsDates(file, Run(file, ops, perform))
  {
    if ops != [] {
      RunKeeps(file, ops[..|ops| - 1], perform, symbol);
      assert ops[|ops| - 1] in ops;
    }
  }

  lemma {:induction false} RunAdds(file: File, ops: seq<Operation>, perform: Performer, symbol: string)
    requires KeepsFile(perform, symbol) && Overrides(perform, symbol) && FileOk(file, symbol) && OnlyAdds(ops, symbol)
    ensures Content(Run(file, ops, perform)) == Content(file) + AsMap(AcceptedRows(file, ops, perform, symbol))
  {
    if ops != [] {
      var front, op := ops[..|ops| - 1], ops[|ops| - 1];
      var before := Run(file, front, perform);
      RunAdds(file, front, perform, symbol);
      RunKeeps(file, front, perform, symbol);
      assert op in ops;
      var accepted, last := AcceptedRows(file, front, perform, symbol), AcceptedOf(before, op, perform, symbol);
      MapOfBoth(accepted, last);
      OverridingTwice(Content(file), AsMap(accepted), AsMap(last));
    }
  }

  lemma StoreKeepsFile(symbol: string, sort: Sorter)
    requires Sorts(sort)
    ensures KeepsFile(Perform(symbol, sort), symbol)
  {
    forall file, op | FileOk(file, symbol)
      ensures FileOk(After(file, OutcomeOf(file, op, symbol, sort)), symbol)
      ensures Adds(op, symbol) ==> KeepsDates(file, After(file, OutcomeOf(file, op, symbol, sort)))
    {
      if op.Save? {
        SaveKeepsFile(file, op.frame, symbol, sort);
      } else {
        AppendKeepsFile(file, op.frame, symbol, sort);
      }
    }
  }

  lemma OperationContent(file: File, op: Operation, symbol: string, sort: Sorter, out: seq<Row>)
    requires KeepsLastRows(sort, AllowsZeroVolume(symbol)) && FileOk(file, symbol) && Adds(op, symbol)
    requires OutcomeOf(file, op, symbol, sort) == Success(out)
    ensures AsMap(out) == Content(file) + AsMap(ValidRows(op.frame, symbol))
  {
    if op.Save? {
      SavedContent(file, op.frame, symbol, sort, out);
    } else {
      AppendedContent(file, op.frame, symbol, sort, out);
    }
  }

  lemma StoreOverrides(symbol: string, sort: Sorter)
    requires KeepsLastRows(sort, AllowsZeroVolume(symbol))
    ensures Overrides(Perform(symbol, sort), symbol)
  {
    var perform := Perform(symbol, sort);
    forall file, op | FileOk(file, symbol) && Adds(op, symbol)
      ensures Content(After(file, perform(file, op))) == Content(file) + AsMap(AcceptedOf(file, op, perform, symbol))
    {
      StepOverrides(file, op, symbol, sort, OutcomeOf(file, op, symbol, sort));
    }
  }

  lemma StepOverrides(file: File, op: Operation, symbol: string, sort: Sorter, outcome: Outcome)
    requires KeepsLastRows(sort, AllowsZeroVolume(symbol)) && FileOk(file, symbol) && Adds(op, symbol) &&
             outcome == OutcomeOf(file, op, symbol, sort)
    ensures Content(After(file, outcome))
            == Content(file) + AsMap(if outcome.Success? then ValidRows(op.frame, symbol) else [])
  {
    if outcome.Success? {
      OperationContent(file, op, symbol, sort, outcome.value);
    }
  }

  /** Over any run, refusals included, the file stays normal; while nothing but appends and
      benchmark saves touch it no date is ever lost and the latest date never goes back. */
  lemma RunKeepsFile(file: File, ops: seq<Operation>, symbol: string, sort: Sorter)
    requires Sorts(sort) && FileOk(file, symbol)
    ensures var after := Run(file, ops, Perform(symbol, sort));
            && FileOk(after, symbol)
            && (OnlyAdds(ops, symbol) ==> KeepsDates(file, after))
            && (OnlyAdds(ops, symbol) && file.Some? ==>
                  file.value[|file.value| - 1].date <= after.value[|after.value| - 1].date)
  {
    StoreKeepsFile(symbol, sort);
    RunKeeps(file, ops, Perform(symbol, sort), symbol);
    if OnlyAdds(ops, symbol) && file.Some? {
      KeptDatesKeepLatest(file.value, Run(file, ops, Perform(symbol, sort)).value);
    }
  }

  /** The file after such a run is the old one overridden by everything that was accepted. */
  lemma RunOverrides(file: File, ops: seq<Operation>, symbol: string, sort: Sorter)
    requires KeepsLastRows(sort, AllowsZeroVolume(symbol)) && FileOk(file, symbol) && OnlyAdds(ops, symbol)
    ensures var perform := Perform(symbol, sort);
            Content(Run(file, ops, perform)) == Content(file) + AsMap(AcceptedRows(file, ops, perform, symbol))
  {
    StoreKeepsFile(symbol, sort);
    StoreOverrides(symbol, sort);
    RunAdds(file, ops, Perform(symbol, sort), symbol);
  }

  lemma AppendAdds(file: File, frame: Frame, symbol: string, sort: Sorter)
    requires KeepsLastRows(sort, AllowsZeroVolume(symbol)) && FileOk(file, symbol) && frame.hasColumns
    ensures var after := After(file, Appended(file, frame, symbol, sort));
            FileOk(after, symbol) && Content(after) == Content(file) + AsMap(ValidRows(frame, symbol))
  {
    AppendKeepsFile(file, frame, symbol, sort);
    AppendOutcome(file, frame, symbol, sort);
    if Appended(file, frame, symbol, sort).Success? {
      AppendedContent(file, frame, symbol, sort, Appended(file, frame, symbol, sort).value);
    }
  }

  lemma {:induction false} CompleteConcat(s: seq<RawRow>, t: seq<RawRow>)
    ensures Complete(s + t) == Complete(s) + Complete(t)
  {
    if t == [] {
      assert s + t == s;
    } else {
      assert (s + t)[..|s + t| - 1] == s + t[..|t| - 1];
      CompleteConcat(s, t[..|t| - 1]);
    }
  }

  function AppendRows(file: File, rows: seq<RawRow>, symbol: string, sort: Sorter): File {
    After(file, Appended(file, Frame(true, rows), symbol, sort))
  }

  lemma AppendRowsAdds(file: File, rows: seq<RawRow>, symbol: string, sort: Sorter)
    requires KeepsLastRows(sort, AllowsZeroVolume(symbol)) && FileOk(file, symbol)
    ensures FileOk(AppendRows(file, rows, symbol, sort), symbol)
    ensures Content(AppendRows(file, rows, symbol, sort)) == Content(file) + AsMap(ValidRows(Frame(true, rows), symbol))
  {
    AppendAdds(file, Frame(true, rows), symbol, sort);
  }

  /** Appending rows in two batches or in one gives the same file. */
  lemma AppendingInBatches(file: File, first: seq<RawRow>, second: seq<RawRow>, symbol: string, sort: Sorter)
    requires KeepsLastRows(sort, AllowsZeroVolume(symbol)) && FileOk(file, symbol)
    ensures AppendRows(AppendRows(file, first, symbol, sort), second, symbol, sort)
            == AppendRows(file, first + second, symbol, sort)
  {
    var once := AppendRows(file, first, symbol, sort);
    AppendRowsAdds(file, first, symbol, sort);
    var twice := AppendRows(once, second, symbol, sort);
    AppendRowsAdds(once, second, symbol, sort);
    var both := AppendRows(file, first + second, symbol, sort);
    AppendRowsAdds(file, first + second, symbol, sort);
    assert Content(twice) == Content(both) by {
      ValidRowsOfBoth(first, second, symbol);
      OverridingTwice(Content(file), AsMap(ValidRows(Frame(true, first), symbol)),
                      AsMap(ValidRows(Frame(true, second), symbol)));
    }
    SameContentSameFile(twice, both, symbol);
  }

  /** Appending the same rows again changes nothing. */
  lemma AppendingAgain(file: File, rows: seq<RawRow>, symbol: string, sort: Sorter)
    requires KeepsLastRows(sort, AllowsZeroVolume(symbol)) && FileOk(file, symbol)
    ensures AppendRows(AppendRows(file, rows, symbol, sort), rows, symbol, sort) == AppendRows(file, rows, symbol, sort)
  {
    var once := AppendRows(file, rows, symbol, sort);
    AppendRowsAdds(file, rows, symbol, sort);
    AppendRowsAdds(once, rows, symbol, sort);
    OverridingAgain(Content(file), AsMap(ValidRows(Frame(true, rows), symbol)));
    SameContentSameFile(AppendRows(once, rows, symbol, sort), once, symbol);
  }

  lemma ValidRowsOfBoth(first: seq<RawRow>, second: seq<RawRow>, symbol: string)
    ensures AsMap(ValidRows(Frame(true, first + second), symbol)) ==
              AsMap(ValidRows(Frame(true, first), symbol)) + AsMap(ValidRows(Frame(true, second), symbol))
  {
    CompleteConcat(first, second);
    FilterConcat(Complete(first), Complete(second), HasValidBar(AllowsZeroVolume(symbol)));
    MapOfBoth(ValidRows(Frame(true, first), symbol), ValidRows(Frame(true, second), symbol));
  }

  // ----- what a save does not promise -----

  /** A benchmark save that was accepted can be repeated exactly if the frame holds at least half
      of the file it produced; then the file stays the same, otherwise it is called truncated. */
  lemma SavingAgain(file: File, frame: Frame, symbol: string, sort: Sorter)
    requires KeepsLastRows(sort, AllowsZeroVolume(symbol)) && FileOk(file, symbol) && IsBenchmark(symbol) &&
             Saved(file, frame, symbol, sort).Success?
    ensures var written := Saved(file, frame, symbol, sort).value;
            Saved(Some(written), frame, symbol, sort) ==
              if |NormalizeFrame(frame, symbol, sort).value| >= |written| / 2 then Success(written)
              else Failure(TruncatedData)
  {
    var written := Saved(file, frame, symbol, sort).value;
    var incoming := NormalizeFrame(frame, symbol, sort).value;
    SaveOutcome(file, frame, symbol, sort);
    SaveKeepsFile(file, frame, symbol, sort);
    SaveOutcome(Some(written), frame, symbol, sort);
    FramesAreNormalized(frame, symbol, sort);
    SavedDayIsIncoming(file, frame, symbol, sort);
    if |incoming| >= |written| / 2 {
      SavedAgainIsSame(file, frame, symbol, sort, written);
    }
  }

  /** Newer rows, fewer than half of what is stored: the save is accepted, and refused when repeated. */
  lemma FewNewerRowsAreSavedOnce(rows: seq<Row>, newer: seq<Row>, symbol: string, sort: Sorter)
    requires KeepsLastRows(sort, AllowsZeroVolume(symbol)) && IsBenchmark(symbol)
    requires FileOk(Some(rows), symbol) && FileOk(Some(newer), symbol)
    requires LatestDay(rows) < LatestDay(newer) && |newer| < |rows| / 2
    ensures var saved := Saved(Some(rows), AsFrame(newer), symbol, sort);
            saved.Success? && Saved(Some(saved.value), AsFrame(newer), symbol, sort) == Failure(TruncatedData)
  {
    var zero := AllowsZeroVolume(symbol);
    FramesKeepRows(newer);
    FilterKeepsAll(newer, HasValidBar(zero));
    NormalRowsPass(newer, symbol, sort);
    SaveOutcome(Some(rows), AsFrame(newer), symbol, sort);
    MergeOverrides(rows, newer, zero, sort);
    MoreDatesMoreRows(rows, Merge(rows, newer, zero, sort));
    SavingAgain(Some(rows), AsFrame(newer), symbol, sort);
  }

  function DailyRow(d: Day): Row {
    Row(Midnight(d), Bar(1.0, 1.0, 1.0, 1.0, 1.0))
  }

  lemma DailyRowDates(d: Day, e: Day)
    ensures DayOf(DailyRow(d).date) == d && (d < e ==> DailyRow(d).date < DailyRow(e).date)
  {
  }

  /** A failing input: one new row on top of four stored ones. */
  lemma OneNewRowIsSavedOnce(sort: Sorter)
    requires KeepsLastRows(sort, false)
    ensures var rows, newer := [DailyRow(0), DailyRow(1), DailyRow(2), DailyRow(3)], [DailyRow(4)];
            var saved := Saved(Some(rows), AsFrame(newer), "SPY", sort);
            saved.Success? && Saved(Some(saved.value), AsFrame(newer), "SPY", sort) == Failure(TruncatedData)
  {
    var rows, newer := [DailyRow(0), DailyRow(1), DailyRow(2), DailyRow(3)], [DailyRow(4)];
    assert "SPY"[0] == 'S' && "^VIX"[0] == '^' && "VIX"[0] == 'V';
    DailyRowDates(0, 1);
    DailyRowDates(1, 2);
    DailyRowDates(2, 3);
    DailyRowDates(3, 4);
    DailyRowDates(4, 5);
    assert InDateOrder(rows);
    FewNewerRowsAreSavedOnce(rows, newer, "SPY", sort);
  }

  lemma SavedAgainIsSame(file: File, frame: Frame, symbol: string, sort: Sorter, written: seq<Row>)
    requires KeepsLastRows(sort, AllowsZeroVolume(symbol)) && FileOk(file, symbol) && IsBenchmark(symbol) &&
             Saved(file, frame, symbol, sort) == Success(written)
    ensures var again := Saved(Some(written), frame, symbol, sort);
            again.Success? ==> again.value == written
  {
    var again := Saved(Some(written), frame, symbol, sort);
    SaveKeepsFile(file, frame, symbol, sort);
    SaveKeepsFile(Some(written), frame, symbol, sort);
    if again.Success? {
      SavedContent(file, frame, symbol, sort, written);
      SavedContent(Some(written), frame, symbol, sort, again.value);
      OverridingAgain(Content(file), AsMap(ValidRows(frame, symbol)));
      ContentDeterminesRows(again.value, written);
    }
  }

  lemma SavedDayIsIncoming(file: File, frame: Frame, symbol: string, sort: Sorter)
    requires Sorts(sort) && FileOk(file, symbol) && IsBenchmark(symbol) && Saved(file, frame, symbol, sort).Success?
    ensures var written, incoming := Saved(file, frame, symbol, sort).value, NormalizeFrame(frame, symbol, sort).value;
            written != [] && incoming != [] && LatestDay(written) == LatestDay(incoming)
  {
    var written, incoming := Saved(file, frame, symbol, sort).value, NormalizeFrame(frame, symbol, sort).value;
    SaveOutcome(file, frame, symbol, sort);
    FramesAreNormalized(frame, symbol, sort);
    if file.Some? {
      MergeOverrides(file.value, incoming, AllowsZeroVolume(symbol), sort);
      MergedIsNotEmpty(file.value, incoming, symbol, sort);
      KeptDatesKeepLatest(incoming, written);
      var last := written[|written| - 1];
      assert last in written;
      LatestOfBoth(file.value, incoming, last);
    }
  }

  lemma LatestOfBoth(existing: seq<Row>, incoming: seq<Row>, last: Row)
    requires InDateOrder(existing) && InDateOrder(incoming) && existing != [] && incoming != []
    requires !TooOld(existing, incoming) && (last in existing || last in incoming)
    ensures DayOf(last.date) <= LatestDay(incoming)
  {
    var home := if last in existing then existing else incoming;
    assert HasDate(home, last.date);
    LaterRowsHaveLaterDates(home, last.date);
    TimestampOrder(last.date, home[|home| - 1].date);
  }

  /** Only the three benchmark symbols are protected from losing stored dates to a save. */
  lemma SavesKeepDatesExactlyForBenchmarks(symbol: string, sort: Sorter)
    requires Sorts(sort)
    ensures IsBenchmark(symbol) <==>
            (forall file, frame :: FileOk(file, symbol) ==>
             KeepsDates(file, After(file, Saved(file, frame, symbol, sort))))
  {
    if IsBenchmark(symbol) {
      forall file, frame | FileOk(file, symbol)
        ensures KeepsDates(file, After(file, Saved(file, frame, symbol, sort)))
      {
        SaveKeepsFile(file, frame, symbol, sort);
      }
    } else {
      var file, frame := SaveThatLosesDate(symbol, sort);
    }
  }

  lemma SaveThatLosesDate(symbol: string, sort: Sorter) returns (file: File, frame: Frame)
    requires Sorts(sort) && !IsBenchmark(symbol)
    ensures FileOk(file, symbol) && !KeepsDates(file, After(file, Saved(file, frame, symbol, sort)))
  {
    var bar := Bar(1.0, 1.0, 1.0, 1.0, 1.0);
    var before, after := [Row(0, bar)], [Row(1, bar)];
    file, frame := Some(before), AsFrame(after);
    PlainSaveWrites(file, after, symbol, sort);
    assert before[0] in before;
    assert HasDate(before, 0) && !HasDate(after, 0);
  }

  lemma PlainSaveWrites(file: File, rows: seq<Row>, symbol: string, sort: Sorter)
    requires Sorts(sort) && FileOk(file, symbol) && FileOk(Some(rows), symbol) && !IsBenchmark(symbol)
    ensures Saved(file, AsFrame(rows), symbol, sort) == Success(rows)
  {
    FramesKeepRows(rows);
    FilterKeepsAll(rows, HasValidBar(AllowsZeroVolume(symbol)));
    NormalRowsPass(rows, symbol, sort);
    SaveOutcome(file, AsFrame(rows), symbol, sort);
  }
}
