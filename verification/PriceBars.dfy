/** Which bars a price file holds, in the fields of bars and of the rows that arrive. */
module PriceBars {
  import opened Calendar
  import opened PriceRows
  import opened Sequences

  /** A row as it arrives when no field of it is missing. */
  function AsRaw(r: Row): RawRow {
    RawRow(r.date, Some(r.bar.open), Some(r.bar.high), Some(r.bar.low), Some(r.bar.close), Some(r.bar.volume))
  }

  /** Positive prices, and a positive volume; a volatility index may have none. */
  predicate IsGoodBar(b: Bar, symbol: string) {
    && b.open > 0.0 && b.high > 0.0 && b.low > 0.0 && b.close > 0.0
    && if symbol == "^VIX" || symbol == "VIX" then b.volume >= 0.0 else b.volume > 0.0
  }

  predicate IsGoodRow(raw: RawRow, symbol: string) {
    && raw.open.Some? && raw.high.Some? && raw.low.Some? && raw.close.Some? && raw.volume.Some?
    && IsGoodBar(Bar(raw.open.value, raw.high.value, raw.low.value, raw.close.value, raw.volume.value), symbol)
  }

  /** Good bars in the order of their dates. */
  ghost predicate AreGoodRows(rows: seq<Row>, symbol: string) {
    && (forall i, j :: 0 <= i < j < |rows| ==> rows[i].date < rows[j].date)
    && (forall r :: r in rows ==> IsGoodBar(r.bar, symbol))
  }

  /** Rows that arrived, one for each date on which a good one arrived. */
  ghost predicate HoldGoodRows(rows: seq<Row>, raws: seq<RawRow>, symbol: string) {
    && AreGoodRows(rows, symbol)
    && (forall r :: r in rows ==> AsRaw(r) in raws)
    && (forall raw :: raw in raws && IsGoodRow(raw, symbol) ==> exists r :: r in rows && r.date == raw.date)
  }

  /** Of several good rows on one date the last one is held. */
  ghost predicate HoldLastRows(rows: seq<Row>, raws: seq<RawRow>, symbol: string) {
    forall k ::
      0 <= k < |raws| && IsGoodRow(raws[k], symbol)
      && (forall j :: k < j < |raws| && raws[j].date == raws[k].date ==> !IsGoodRow(raws[j], symbol)) ==>
      exists r :: r in rows && AsRaw(r) == raws[k]
  }

  /** Rows of both files, one for each date of either. */
  ghost predicate HoldBoth(rows: seq<Row>, before: seq<Row>, incoming: seq<Row>, symbol: string) {
    && AreGoodRows(rows, symbol)
    && (forall r :: r in rows ==> r in before || r in incoming)
    && (forall b :: b in before || b in incoming ==> exists r :: r in rows && r.date == b.date)
  }

  /** The incoming rows, and the rows before on other dates. */
  ghost predicate HoldIncoming(rows: seq<Row>, before: seq<Row>, incoming: seq<Row>) {
    && (forall r :: r in incoming ==> r in rows)
    && (forall r :: r in before && (forall n :: n in incoming ==> n.date != r.date) ==> r in rows)
  }

  predicate AllowsZeroVolume(symbol: string) {
    symbol in {"^VIX", "VIX"}
  }

  lemma GoodBarsAreValid(r: Row, symbol: string)
    ensures HasValidBar(AllowsZeroVolume(symbol))(r) <==> IsGoodBar(r.bar, symbol)
  {
  }

  lemma GoodRowsAreNormal(rows: seq<Row>, symbol: string)
    ensures Normal(rows, AllowsZeroVolume(symbol)) <==> AreGoodRows(rows, symbol)
  {
    forall r ensures HasValidBar(AllowsZeroVolume(symbol))(r) <==> IsGoodBar(r.bar, symbol) {
      GoodBarsAreValid(r, symbol);
    }
  }

  lemma {:induction false} CompleteRows(raws: seq<RawRow>, r: Row)
    ensures r in Complete(raws) <==> AsRaw(r) in raws
  {
    if raws != [] {
      CompleteRows(raws[..|raws| - 1], r);
      assert raws == raws[..|raws| - 1] + [raws[|raws| - 1]];
    }
  }

  lemma ValidRowsArrive(raws: seq<RawRow>, symbol: string, r: Row)
    ensures r in Filter(Complete(raws), HasValidBar(AllowsZeroVolume(symbol))) <==>
            AsRaw(r) in raws && IsGoodBar(r.bar, symbol)
  {
    CompleteRows(raws, r);
    GoodBarsAreValid(r, symbol);
  }

  lemma NormalizedRowsAreGood(raws: seq<RawRow>, symbol: string, sort: Sorter)
    requires Sorts(sort)
    ensures HoldGoodRows(Normalize(Complete(raws), AllowsZeroVolume(symbol), sort), raws, symbol)
  {
    var rows := Normalize(Complete(raws), AllowsZeroVolume(symbol), sort);
    NormalizeIsNormal(Complete(raws), AllowsZeroVolume(symbol), sort);
    GoodRowsAreNormal(rows, symbol);
    forall r | r in rows ensures AsRaw(r) in raws {
      CompleteRows(raws, r);
    }
    forall raw | raw in raws && IsGoodRow(raw, symbol) ensures exists r :: r in rows && r.date == raw.date {
      GoodRowIsDated(raws, symbol, raw);
      assert HasDate(rows, raw.date);
    }
  }

  function BarOf(raw: RawRow): Bar
    requires raw.open.Some? && raw.high.Some? && raw.low.Some? && raw.close.Some? && raw.volume.Some?
  {
    Bar(raw.open.value, raw.high.value, raw.low.value, raw.close.value, raw.volume.value)
  }

  lemma GoodRowIsDated(raws: seq<RawRow>, symbol: string, raw: RawRow)
    requires raw in raws && IsGoodRow(raw, symbol)
    ensures HasDate(Filter(Complete(raws), HasValidBar(AllowsZeroVolume(symbol))), raw.date)
  {
    var r := Row(raw.date, BarOf(raw));
    assert AsRaw(r) == raw;
    ValidRowsArrive(raws, symbol, r);
  }

  // ----- the last row of a date -----

  function ValidOf(raws: seq<RawRow>, symbol: string): seq<Row> {
    Filter(Complete(raws), HasValidBar(AllowsZeroVolume(symbol)))
  }

  lemma ValidOfOneMore(raws: seq<RawRow>, symbol: string)
    requires raws != []
    ensures var raw := raws[|raws| - 1];
            ValidOf(raws, symbol) == ValidOf(raws[..|raws| - 1], symbol)
                                     + if IsGoodRow(raw, symbol) then [Row(raw.date, BarOf(raw))] else []
  {
    var front, raw := raws[..|raws| - 1], raws[|raws| - 1];
    var p := HasValidBar(AllowsZeroVolume(symbol));
    if raw.open.Some? && raw.high.Some? && raw.low.Some? && raw.close.Some? && raw.volume.Some? {
      FilterOneMore(Complete(front), Row(raw.date, BarOf(raw)), p);
      GoodBarsAreValid(Row(raw.date, BarOf(raw)), symbol);
    } else {
      assert Complete(raws) == Complete(front);
    }
  }

  lemma LastRowOverrides(front: seq<Row>, last: Row)
    ensures AsMap(front + [last]) == AsMap(front)[last.date := last.bar]
  {
    assert (front + [last])[..|front|] == front;
  }

  lemma {:induction false} LastGoodRowCounts(raws: seq<RawRow>, symbol: string, k: nat)
    requires k < |raws| && IsGoodRow(raws[k], symbol)
    requires forall j :: k < j < |raws| && raws[j].date == raws[k].date ==> !IsGoodRow(raws[j], symbol)
    ensures var m := AsMap(ValidOf(raws, symbol));
            raws[k].date in m && m[raws[k].date] == BarOf(raws[k])
    decreases |raws|
  {
    var n := |raws| - 1;
    var front := ValidOf(raws[..n], symbol);
    ValidOfOneMore(raws, symbol);
    if k < n {
      LastGoodRowCounts(raws[..n], symbol, k);
    }
    if IsGoodRow(raws[n], symbol) {
      LastRowOverrides(front, Row(raws[n].date, BarOf(raws[n])));
    } else {
      assert ValidOf(raws, symbol) == front;
    }
  }

  lemma RowOfDate(rows: seq<Row>, d: Timestamp)
    requires d in AsMap(rows)
    ensures Row(d, AsMap(rows)[d]) in rows
  {
    MapHoldsLastOfDate(rows, d);
    var same := Filter(rows, OnDate(d));
    assert same[|same| - 1] in same;
  }

  lemma NormalizedRowsAreLast(raws: seq<RawRow>, symbol: string, sort: Sorter)
    requires SortsStably(sort)
    ensures HoldLastRows(Normalize(Complete(raws), AllowsZeroVolume(symbol), sort), raws, symbol)
  {
    var rows := Normalize(Complete(raws), AllowsZeroVolume(symbol), sort);
    StableSortsKeepLastRows(sort, AllowsZeroVolume(symbol));
    NormalizeKeepsLastValid(Complete(raws), AllowsZeroVolume(symbol), sort);
    forall k |
      0 <= k < |raws| && IsGoodRow(raws[k], symbol)
      && (forall j :: k < j < |raws| && raws[j].date == raws[k].date ==> !IsGoodRow(raws[j], symbol))
      ensures exists r :: r in rows && AsRaw(r) == raws[k]
    {
      LastGoodRowCounts(raws, symbol, k);
      RowOfDate(rows, raws[k].date);
      assert AsRaw(Row(raws[k].date, BarOf(raws[k]))) == raws[k];
    }
  }

  // ----- merging -----

  lemma MergedRowsHoldBoth(before: seq<Row>, incoming: seq<Row>, symbol: string, sort: Sorter)
    requires Sorts(sort) && AreGoodRows(before, symbol) && AreGoodRows(incoming, symbol)
    ensures HoldBoth(Merge(before, incoming, AllowsZeroVolume(symbol), sort), before, incoming, symbol)
  {
    var rows := Merge(before, incoming, AllowsZeroVolume(symbol), sort);
    GoodRowsAreNormal(before, symbol);
    GoodRowsAreNormal(incoming, symbol);
    MergeOverrides(before, incoming, AllowsZeroVolume(symbol), sort);
    GoodRowsAreNormal(rows, symbol);
    forall b | b in before || b in incoming ensures exists r :: r in rows && r.date == b.date {
      assert HasDate(before, b.date) || HasDate(incoming, b.date);
      assert HasDate(rows, b.date);
    }
  }

  lemma OnlyRowOfDate(rows: seq<Row>, r: Row)
    requires InDateOrder(rows) && r in rows
    ensures r.date in AsMap(rows) && AsMap(rows)[r.date] == r.bar
  {
    MapHoldsLastOfDate(rows, r.date);
    var same := Filter(rows, OnDate(r.date));
    assert r in same;
    assert same[|same| - 1] in same;
    assert same[|same| - 1] in rows && same[|same| - 1].date == r.date;
  }

  lemma NoRowOfDate(rows: seq<Row>, d: Timestamp)
    requires forall r :: r in rows ==> r.date != d
    ensures d !in AsMap(rows)
  {
    MapHoldsLastOfDate(rows, d);
    FilterKeepsNone(rows, OnDate(d));
  }

  /** Rows that hold what one file holds overridden by another. */
  lemma OverridingHoldsIncoming(rows: seq<Row>, before: seq<Row>, incoming: seq<Row>)
    requires InDateOrder(before) && InDateOrder(incoming) && AsMap(rows) == AsMap(before) + AsMap(incoming)
    ensures HoldIncoming(rows, before, incoming)
  {
    forall r | r in incoming ensures r in rows {
      OnlyRowOfDate(incoming, r);
      RowOfDate(rows, r.date);
    }
    forall r | r in before && (forall n :: n in incoming ==> n.date != r.date) ensures r in rows {
      OnlyRowOfDate(before, r);
      NoRowOfDate(incoming, r.date);
      RowOfDate(rows, r.date);
    }
  }
}
