/** The relative-strength percentile (`trade_planner/indicators.py`), on closing prices. */
module RelativeStrength {
  import opened Sequences

  /** `trend_strength_pct`: the change over the last `lookback` closes. */
  function TrendStrength(closes: seq<real>, lookback: int): Option<real> {
    if lookback < 2 || |closes| < lookback then None
    else
      var start, end := closes[|closes| - lookback], closes[|closes| - 1];
      if start <= 0.0 then None else Some((end - start) / start)
  }

  function Strength(stock: seq<real>, benchmark: seq<real>, lookback: int): Option<real> {
    var s, b := TrendStrength(stock, lookback), TrendStrength(benchmark, lookback);
    if s == None || b == None then None else Some(s.value - b.value)
  }

  function AtMost(v: real): real -> bool {
    (x: real) => x <= v
  }

  /** `percentile_rank`. */
  function PercentileRank(value: real, series: seq<real>): Option<real> {
    if series == [] then None else Some(|Filter(series, AtMost(value))| as real / |series| as real * 100.0)
  }

  /** The reading at the bar before `end`. */
  function Reading(stock: seq<real>, benchmark: seq<real>, lookback: nat, end: nat): Option<real>
    requires |stock| == |benchmark| && lookback <= end <= |stock|
  {
    Strength(stock[end - lookback..end], benchmark[end - lookback..end], lookback)
  }

  function ReadingAt(stock: seq<real>, benchmark: seq<real>, lookback: nat): nat -> Option<real> {
    (end: nat) =>
      if |stock| == |benchmark| && lookback <= end <= |stock| then Reading(stock, benchmark, lookback, end) else None
  }

  /** The readings for the ends from `first` on and before `last`, or nothing if one of them is missing. */
  function Readings(at: nat -> Option<real>, first: nat, last: nat): (r: Option<seq<real>>)
    requires first <= last
    ensures r.Some? ==> |r.value| == last - first
    decreases last
  {
    if first == last then Some([])
    else
      var before := Readings(at, first, last - 1);
      if before == None || at(last - 1) == None then None else Some(before.value + [at(last - 1).value])
  }

  /** What the percentile is of all the readings: the rank of the last one among the last `window`. */
  function RankOfLast(readings: Option<seq<real>>, window: nat): Option<real>
    requires readings.Some? ==> 0 < window <= |readings.value|
  {
    if readings == None then None
    else
      var recent := readings.value[|readings.value| - window..];
      PercentileRank(recent[|recent| - 1], recent)
  }

  function Percentile(stock: seq<real>, benchmark: seq<real>, lookback: int, window: int): Option<real> {
    if lookback < 2 || window < 2 || |stock| != |benchmark| || |stock| < lookback + window - 1 then None
    else RankOfLast(Readings(ReadingAt(stock, benchmark, lookback), lookback, |stock| + 1), window)
  }

  // ----- the percentile in closing prices -----

  function Change(first: real, last: real): real
    requires first > 0.0
  {
    (last - first) / first
  }

  /** A reading is the change of the stock over `lookback` closes less that of the benchmark. */
  predicate IsReading(x: real, stock: seq<real>, benchmark: seq<real>, first: nat, last: nat) {
    && last < |stock| && last < |benchmark| && first <= last
    && stock[first] > 0.0 && benchmark[first] > 0.0
    && x == Change(stock[first], stock[last]) - Change(benchmark[first], benchmark[last])
  }

  /** The last `window` readings, one for each of the last bars. */
  ghost predicate AreLastReadings(readings: seq<real>, stock: seq<real>, benchmark: seq<real>, lookback: nat,
                                  window: nat)
  {
    && |readings| == window && window + lookback <= |stock| + 1 && 1 <= lookback
    && forall i :: 0 <= i < window ==>
         var last := |stock| - window + i;
         last - lookback + 1 >= 0 && IsReading(readings[i], stock, benchmark, last - lookback + 1, last)
  }

  /** The share of readings that are not above the last one, in percent. */
  ghost predicate IsShare(percentile: real, readings: seq<real>)
    requires readings != []
  {
    var notAbove := set i: nat | i < |readings| && readings[i] <= readings[|readings| - 1];
    percentile == |notAbove| as real / |readings| as real * 100.0
  }

  lemma {:induction false} ReadingsInOrder(at: nat -> Option<real>, first: nat, last: nat, i: nat)
    requires first <= last && Readings(at, first, last).Some? && i < last - first
    ensures at(first + i) == Some(Readings(at, first, last).value[i])
    decreases last
  {
    if i < last - 1 - first {
      ReadingsInOrder(at, first, last - 1, i);
    }
  }

  lemma ReadingInCloses(stock: seq<real>, benchmark: seq<real>, lookback: nat, end: nat)
    requires |stock| == |benchmark| && 2 <= lookback <= end <= |stock|
    requires ReadingAt(stock, benchmark, lookback)(end).Some?
    ensures IsReading(ReadingAt(stock, benchmark, lookback)(end).value, stock, benchmark, end - lookback, end - 1)
  {
    var first := end - lookback;
    assert stock[first..end][0] == stock[first] && benchmark[first..end][0] == benchmark[first];
    assert stock[first..end][lookback - 1] == stock[end - 1];
    assert benchmark[first..end][lookback - 1] == benchmark[end - 1];
  }

  lemma RankIsShare(readings: seq<real>)
    requires readings != []
    ensures IsShare(PercentileRank(readings[|readings| - 1], readings).value, readings)
  {
    var v := readings[|readings| - 1];
    FilterSize(readings, AtMost(v));
    assert Positions(readings, AtMost(v)) == set i: nat | i < |readings| && readings[i] <= v;
  }

  lemma ReadingOf(stock: seq<real>, benchmark: seq<real>, lookback: nat, all: seq<real>, k: nat)
    requires 2 <= lookback <= |stock| == |benchmark| && k <= |stock| - lookback
    requires Readings(ReadingAt(stock, benchmark, lookback), lookback, |stock| + 1) == Some(all)
    ensures IsReading(all[k], stock, benchmark, k, k + lookback - 1)
  {
    ReadingsInOrder(ReadingAt(stock, benchmark, lookback), lookback, |stock| + 1, k);
    ReadingInCloses(stock, benchmark, lookback, lookback + k);
  }

  lemma RecentAreLast(stock: seq<real>, benchmark: seq<real>, lookback: nat, window: nat, all: seq<real>)
    requires 2 <= lookback && 1 <= window <= |all| && |stock| == |benchmark| && |all| == |stock| - lookback + 1
    requires forall k :: 0 <= k < |all| ==> IsReading(all[k], stock, benchmark, k, k + lookback - 1)
    ensures AreLastReadings(all[|all| - window..], stock, benchmark, lookback, window)
  {
    var recent := all[|all| - window..];
    forall i | 0 <= i < window
      ensures IsReading(recent[i], stock, benchmark, |stock| - window + i - lookback + 1, |stock| - window + i)
    {
      assert recent[i] == all[|all| - window + i];
    }
  }

  lemma LastReadings(stock: seq<real>, benchmark: seq<real>, lookback: nat, window: nat) returns (recent: seq<real>)
    requires 2 <= lookback && 2 <= window && |stock| == |benchmark| && lookback + window - 1 <= |stock|
    requires Percentile(stock, benchmark, lookback, window).Some?
    ensures AreLastReadings(recent, stock, benchmark, lookback, window)
    ensures IsShare(Percentile(stock, benchmark, lookback, window).value, recent)
  {
    var all := Readings(ReadingAt(stock, benchmark, lookback), lookback, |stock| + 1).value;
    recent := all[|all| - window..];
    RankIsShare(recent);
    forall k | 0 <= k < |all| ensures IsReading(all[k], stock, benchmark, k, k + lookback - 1) {
      ReadingOf(stock, benchmark, lookback, all, k);
    }
    RecentAreLast(stock, benchmark, lookback, window, all);
  }

  /** `relative_strength_percentile`. */
  method RelativeStrengthPercentile(stock: seq<real>, benchmark: seq<real>, lookback: int, window: int)
    returns (percentile: Option<real>)
    ensures percentile == Percentile(stock, benchmark, lookback, window)
    ensures percentile.Some? <==>
      && 2 <= lookback && 2 <= window && |stock| == |benchmark| && lookback + window - 1 <= |stock|
      && forall k :: 0 <= k <= |stock| - lookback ==> stock[k] > 0.0 && benchmark[k] > 0.0
    ensures percentile.Some? ==> exists recent ::
      && AreLastReadings(recent, stock, benchmark, lookback, window) && recent != []
      && IsShare(percentile.value, recent)
  {
    if 2 <= lookback && 2 <= window && |stock| == |benchmark| && lookback + window - 1 <= |stock| {
      PercentileIsInRange(stock, benchmark, lookback, window);
      if Percentile(stock, benchmark, lookback, window).Some? {
        var recent := LastReadings(stock, benchmark, lookback, window);
      }
    }
    if lookback < 2 || window < 2 {
      return None;
    }
    if |stock| != |benchmark| {
      return None;
    }
    if |stock| < lookback + window - 1 {
      return None;
    }
    var values := AllReadings(stock, benchmark, lookback);
    if values == None {
      return None;
    }
    if |values.value| < window {
      return None;
    }
    percentile := RankOfLast(values, window);
  }

  method AllReadings(stock: seq<real>, benchmark: seq<real>, lookback: nat) returns (values: Option<seq<real>>)
    requires |stock| == |benchmark| && lookback <= |stock|
    ensures values == Readings(ReadingAt(stock, benchmark, lookback), lookback, |stock| + 1)
  {
    var at := ReadingAt(stock, benchmark, lookback);
    var found := [];
    for end := lookback to |stock| + 1
      invariant Readings(at, lookback, end) == Some(found)
    {
      var rs := at(end);
      if rs == None {
        MissingStaysMissing(at, lookback, end + 1, |stock| + 1);
        return None;
      }
      found := found + [rs.value];
    }
    values := Some(found);
  }

  lemma {:induction false} MissingStaysMissing(at: nat -> Option<real>, first: nat, last: nat, later: nat)
    requires first <= last <= later && Readings(at, first, last) == None
    ensures Readings(at, first, later) == None
    decreases later
  {
    if last < later {
      MissingStaysMissing(at, first, last, later - 1);
    }
  }

  function Joined(early: Option<seq<real>>, late: Option<seq<real>>): Option<seq<real>> {
    if early == None || late == None then None else Some(early.value + late.value)
  }

  lemma {:induction false} ReadingsInTwoParts(at: nat -> Option<real>, first: nat, middle: nat, last: nat)
    requires first <= middle <= last
    ensures Readings(at, first, last) == Joined(Readings(at, first, middle), Readings(at, middle, last))
    decreases last
  {
    var early := Readings(at, first, middle);
    if middle == last {
      assert early.Some? ==> early.value + [] == early.value;
    } else {
      ReadingsInTwoParts(at, first, middle, last - 1);
      var late := Readings(at, middle, last - 1);
      if early.Some? && late.Some? && at(last - 1).Some? {
        assert early.value + (late.value + [at(last - 1).value]) == early.value + late.value + [at(last - 1).value];
      }
    }
  }

  lemma {:induction false} ReadingsShifted(at: nat -> Option<real>, shifted: nat -> Option<real>, offset: nat,
                                           first: nat, last: nat,
                                           atFirst: nat, atLast: nat)
    requires first <= last && atFirst == first + offset && atLast == last + offset
    requires forall end :: first <= end < last ==> shifted(end) == at(end + offset)
    ensures Readings(shifted, first, last) == Readings(at, atFirst, atLast)
    decreases last
  {
    if first < last {
      ReadingsShifted(at, shifted, offset, first, last - 1, atFirst, atLast - 1);
      assert shifted(last - 1) == at(last - 1 + offset);
    }
  }

  lemma ReadingAfterOlder(oldStock: seq<real>, oldBenchmark: seq<real>, stock: seq<real>, benchmark: seq<real>,
                          lookback: nat, end: nat)
    requires |oldStock| == |oldBenchmark| && |stock| == |benchmark| && lookback <= end <= |stock|
    ensures ReadingAt(stock, benchmark, lookback)(end) ==
              ReadingAt(oldStock + stock, oldBenchmark + benchmark, lookback)(end + |oldStock|)
  {
    var n, start := |oldStock|, end - lookback;
    assert (oldStock + stock)[n + start..n + end] == stock[start..end];
    assert (oldBenchmark + benchmark)[n + start..n + end] == benchmark[start..end];
  }

  predicate PositiveUpTo(closes: seq<real>, n: nat) {
    forall k :: 0 <= k < |closes| && k < n ==> closes[k] > 0.0
  }

  lemma ReadingExistsExactlyWhen(stock: seq<real>, benchmark: seq<real>, lookback: nat, end: nat)
    requires |stock| == |benchmark| && 2 <= lookback <= end <= |stock|
    ensures ReadingAt(stock, benchmark, lookback)(end).Some? <==>
            stock[end - lookback] > 0.0 && benchmark[end - lookback] > 0.0
  {
    var start := end - lookback;
    assert stock[start..end][0] == stock[start] && benchmark[start..end][0] == benchmark[start];
  }

  lemma {:induction false} NoneMissing(at: nat -> Option<real>, first: nat, last: nat)
    requires first <= last
    ensures Readings(at, first, last).Some? <==> forall end :: first <= end < last ==> at(end).Some?
    decreases last
  {
    if first < last {
      NoneMissing(at, first, last - 1);
    }
  }

  lemma ReadingsExistExactlyWhen(stock: seq<real>, benchmark: seq<real>, lookback: nat, n: nat)
    requires |stock| == |benchmark| && 2 <= lookback && lookback + n <= |stock| + 1
    ensures Readings(ReadingAt(stock, benchmark, lookback), lookback, lookback + n).Some? <==>
              PositiveUpTo(stock, n) && PositiveUpTo(benchmark, n)
  {
    var at := ReadingAt(stock, benchmark, lookback);
    NoneMissing(at, lookback, lookback + n);
    forall k: nat | k < n ensures at(lookback + k).Some? <==> stock[k] > 0.0 && benchmark[k] > 0.0 {
      ReadingExistsExactlyWhen(stock, benchmark, lookback, lookback + k);
    }
    EndsAreStarts(at, stock, benchmark, lookback, n);
  }

  lemma EndsAreStarts(at: nat -> Option<real>, stock: seq<real>, benchmark: seq<real>, lookback: nat, n: nat)
    requires |stock| == |benchmark| && n <= |stock|
    requires forall k: nat :: k < n ==> (at(lookback + k).Some? <==> stock[k] > 0.0 && benchmark[k] > 0.0)
    ensures (forall end :: lookback <= end < lookback + n ==> at(end).Some?) <==>
            PositiveUpTo(stock, n) && PositiveUpTo(benchmark, n)
  {
    if PositiveUpTo(stock, n) && PositiveUpTo(benchmark, n) {
      forall end | lookback <= end < lookback + n ensures at(end).Some? {
        var k := end - lookback;
        assert stock[k] > 0.0 && benchmark[k] > 0.0;
        assert at(lookback + k).Some?;
      }
    }
  }

  lemma RecentOfJoined(early: Option<seq<real>>, late: Option<seq<real>>, window: nat)
    requires window > 0 && (late.Some? ==> |late.value| >= window)
    ensures RankOfLast(Joined(early, late), window) == if early == None then None else RankOfLast(late, window)
  {
    if early.Some? && late.Some? {
      var all := early.value + late.value;
      assert all[|all| - window..] == late.value[|late.value| - window..];
    }
  }

  lemma PercentileIsRank(stock: seq<real>, benchmark: seq<real>, lookback: nat, window: nat, last: nat)
    requires lookback >= 2 && window >= 2 && |stock| == |benchmark| && |stock| >= lookback + window - 1 &&
             last == |stock| + 1
    ensures Percentile(stock, benchmark, lookback, window) ==
              RankOfLast(Readings(ReadingAt(stock, benchmark, lookback), lookback, last), window)
  {
  }

  lemma RankInTwoParts(at: nat -> Option<real>, first: nat, middle: nat, last: nat, window: nat)
    requires first <= middle && window > 0 && last >= middle + window
    ensures RankOfLast(Readings(at, first, last), window) ==
              if Readings(at, first, middle) == None then None else RankOfLast(Readings(at, middle, last), window)
  {
    ReadingsInTwoParts(at, first, middle, last);
    RecentOfJoined(Readings(at, first, middle), Readings(at, middle, last), window);
  }

  lemma RecentReadings(oldStock: seq<real>, oldBenchmark: seq<real>, stock: seq<real>, benchmark: seq<real>,
                       lookback: nat,
                       middle: nat, last: nat)
    requires |oldStock| == |oldBenchmark| && |stock| == |benchmark| && lookback <= |stock|
    requires middle == lookback + |oldStock| && last == |oldStock + stock| + 1
    ensures Readings(ReadingAt(oldStock + stock, oldBenchmark + benchmark, lookback), middle, last) ==
              Readings(ReadingAt(stock, benchmark, lookback), lookback, |stock| + 1)
  {
    var at, recent := ReadingAt(oldStock + stock, oldBenchmark + benchmark, lookback),
      ReadingAt(stock, benchmark, lookback);
    forall end | lookback <= end < |stock| + 1 ensures recent(end) == at(end + |oldStock|) {
      ReadingAfterOlder(oldStock, oldBenchmark, stock, benchmark, lookback, end);
    }
    ReadingsShifted(at, recent, |oldStock|, lookback, |stock| + 1, middle, last);
  }

  lemma OlderReadings(oldStock: seq<real>, oldBenchmark: seq<real>, stock: seq<real>, benchmark: seq<real>,
                      lookback: nat, middle: nat)
    requires |oldStock| == |oldBenchmark| && |stock| == |benchmark| && 2 <= lookback <= |stock| &&
             middle == lookback + |oldStock|
    ensures Readings(ReadingAt(oldStock + stock, oldBenchmark + benchmark, lookback), lookback, middle).Some? <==>
              AllPositive(oldStock) && AllPositive(oldBenchmark)
  {
    ReadingsExistExactlyWhen(oldStock + stock, oldBenchmark + benchmark, lookback, |oldStock|);
    PositivePrefix(oldStock, stock);
    PositivePrefix(oldBenchmark, benchmark);
  }

  predicate AllPositive(closes: seq<real>) {
    PositiveUpTo(closes, |closes|)
  }

  lemma PositivePrefix(older: seq<real>, closes: seq<real>)
    ensures PositiveUpTo(older + closes, |older|) <==> AllPositive(older)
  {
    if PositiveUpTo(older + closes, |older|) {
      forall k | 0 <= k < |older| ensures older[k] > 0.0 {
        assert (older + closes)[k] == older[k];
      }
    }
  }

  /** Once there are `lookback + window - 1` bars, older bars do not matter, except that one close among
      them that is not positive makes the result missing. */
  lemma OlderBarsDoNotMatter(oldStock: seq<real>, oldBenchmark: seq<real>, stock: seq<real>, benchmark: seq<real>,
                             lookback: nat, window: nat)
    requires lookback >= 2 && window >= 2 && |oldStock| == |oldBenchmark|
    requires |stock| == |benchmark| && |stock| >= lookback + window - 1
    ensures Percentile(oldStock + stock, oldBenchmark + benchmark, lookback, window) ==
              if AllPositive(oldStock) && AllPositive(oldBenchmark) then Percentile(stock, benchmark, lookback, window)
              else None
  {
    var at := ReadingAt(oldStock + stock, oldBenchmark + benchmark, lookback);
    var middle, last := lookback + |oldStock|, |oldStock + stock| + 1;
    PercentileIsRank(oldStock + stock, oldBenchmark + benchmark, lookback, window, last);
    PercentileIsRank(stock, benchmark, lookback, window, |stock| + 1);
    RankInTwoParts(at, lookback, middle, last, window);
    RecentReadings(oldStock, oldBenchmark, stock, benchmark, lookback, middle, last);
    OlderReadings(oldStock, oldBenchmark, stock, benchmark, lookback, middle);
  }

  /** There is a result exactly if the closes that readings start from are positive; it lies between the
      share of one reading and 100. */
  lemma PercentileIsInRange(stock: seq<real>, benchmark: seq<real>, lookback: nat, window: nat)
    requires lookback >= 2 && window >= 2 && |stock| == |benchmark| && |stock| >= lookback + window - 1
    ensures var p := Percentile(stock, benchmark, lookback, window);
            && (p.Some? <==>
                  PositiveUpTo(stock, |stock| - lookback + 1) && PositiveUpTo(benchmark, |stock| - lookback + 1))
            && (p.Some? ==> 100.0 / window as real <= p.value <= 100.0)
  {
    ReadingsExistExactlyWhen(stock, benchmark, lookback, |stock| - lookback + 1);
    var readings := Readings(ReadingAt(stock, benchmark, lookback), lookback, |stock| + 1);
    if readings.Some? {
      var recent := readings.value[|readings.value| - window..];
      RankIsInRange(recent[|recent| - 1], recent);
    }
  }

  lemma RankIsInRange(value: real, series: seq<real>)
    requires value in series
    ensures var p := PercentileRank(value, series);
            p.Some? && 100.0 / |series| as real <= p.value <= 100.0
  {
    var low := Filter(series, AtMost(value));
    assert value in low && |low| >= 1;
    FilterIsNoLonger(series, AtMost(value));
    ShareIsInRange(|low| as real, |series| as real);
  }

  lemma ShareIsInRange(k: real, n: real)
    requires 1.0 <= k <= n
    ensures 100.0 / n <= k / n * 100.0 <= 100.0
  {
    var x, y := k / n, 1.0 / n;
    assert x * n == k && y * n == 1.0;
    assert x > 1.0 ==> (x - 1.0) * n > 0.0;
    assert x < y ==> (y - x) * n > 0.0;
    assert 100.0 / n == y * 100.0;
  }

  lemma {:induction false} FilterIsNoLonger(s: seq<real>, p: real -> bool)
    ensures |Filter(s, p)| <= |s|
  {
    if s != [] {
      FilterIsNoLonger(s[..|s| - 1], p);
    }
  }
}
