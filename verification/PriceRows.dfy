/** Normalizing and merging daily price rows (`data/store.py`). */
module PriceRows {
  import opened Calendar
  import opened Sequences

  datatype Bar = Bar(open: real, high: real, low: real, close: real, volume: real)

  datatype Row = Row(date: Timestamp, bar: Bar)

  /** A row as it arrives: a field that is not a number is `None`. */
  datatype RawRow = RawRow(date: Timestamp, open: Option<real>, high: Option<real>, low: Option<real>,
                           close: Option<real>,
                           volume: Option<real>)

  function Complete(raw: seq<RawRow>): seq<Row> {
    if raw == [] then []
    else
      var r := raw[|raw| - 1];
      Complete(raw[..|raw| - 1])
      + if r.open.Some? && r.high.Some? && r.low.Some? && r.close.Some? && r.volume.Some?
        then [Row(r.date, Bar(r.open.value, r.high.value, r.low.value, r.close.value, r.volume.value))] else []
  }

  function HasValidBar(allowZeroVolume: bool): Row -> bool {
    (r: Row) =>
      r.bar.open > 0.0 && r.bar.high > 0.0 && r.bar.low > 0.0 && r.bar.close > 0.0
      && (if allowZeroVolume then r.bar.volume >= 0.0 else r.bar.volume > 0.0)
  }

  predicate DatedNoLater(a: Row, b: Row) {
    a.date <= b.date
  }

  /** `sort_index()`: sorting by date is assumed, keeping the order of equal dates is not. */
  type Sorter = seq<Row> -> seq<Row>

  ghost predicate Sorts(sort: Sorter) {
    forall rows :: multiset(sort(rows)) == multiset(rows) && SortedBy(sort(rows), DatedNoLater)
  }

  function OnDate(d: Timestamp): Row -> bool {
    (r: Row) => r.date == d
  }

  /** A sort that keeps the rows of a date in order, as a stable sort does. */
  ghost predicate SortsStably(sort: Sorter) {
    Sorts(sort) && forall rows, d :: Filter(sort(rows), OnDate(d)) == Filter(rows, OnDate(d))
  }

  function LastOn(rows: seq<Row>, d: Timestamp): Option<Row> {
    var same := Filter(rows, OnDate(d));
    if same == [] then None else Some(same[|same| - 1])
  }

  ghost predicate AllValid(rows: seq<Row>, allowZeroVolume: bool) {
    forall r :: r in rows ==> HasValidBar(allowZeroVolume)(r)
  }

  /** The assumption behind "last wins": among valid rows, the last of each date stays the last. */
  ghost predicate KeepsLastRows(sort: Sorter, allowZeroVolume: bool) {
    Sorts(sort) && forall rows, d :: AllValid(rows, allowZeroVolume) ==> LastOn(sort(rows), d) == LastOn(rows, d)
  }

  lemma StableSortsKeepLastRows(sort: Sorter, allowZeroVolume: bool)
    requires SortsStably(sort)
    ensures KeepsLastRows(sort, allowZeroVolume)
  {
    forall rows, d ensures LastOn(sort(rows), d) == LastOn(rows, d) {
      assert Filter(sort(rows), OnDate(d)) == Filter(rows, OnDate(d));
    }
  }

  /** `~index.duplicated(keep="last")` on sorted rows. */
  function KeepLast(rows: seq<Row>): (kept: seq<Row>)
    ensures forall r :: r in kept ==> r in rows
  {
    if rows == [] then []
    else
      assert rows == rows[..|rows| - 1] + [rows[|rows| - 1]];
      ReplaceLast(KeepLast(rows[..|rows| - 1]), rows[|rows| - 1])
  }

  /** Adds a row, in place of the last one if that has the same date. */
  function ReplaceLast(kept: seq<Row>, r: Row): (now: seq<Row>)
    ensures now != [] && now[|now| - 1] == r && forall x :: x in now ==> x in kept || x == r
  {
    (if kept != [] && kept[|kept| - 1].date == r.date then kept[..|kept| - 1] else kept) + [r]
  }

  function Normalize(rows: seq<Row>, allowZeroVolume: bool, sort: Sorter): seq<Row> {
    KeepLast(sort(Filter(rows, HasValidBar(allowZeroVolume))))
  }

  predicate InDateOrder(rows: seq<Row>) {
    forall i, j :: 0 <= i < j < |rows| ==> rows[i].date < rows[j].date
  }

  /** What every normalized price file is: dates strictly increasing, all bars valid. */
  ghost predicate Normal(rows: seq<Row>, allowZeroVolume: bool) {
    InDateOrder(rows) && forall r :: r in rows ==> HasValidBar(allowZeroVolume)(r)
  }

  ghost predicate HasDate(rows: seq<Row>, d: Timestamp) {
    exists r :: r in rows && r.date == d
  }

  lemma ReplacingLastKeepsOrder(kept: seq<Row>, r: Row)
    requires InDateOrder(kept) && (kept != [] ==> kept[|kept| - 1].date <= r.date)
    ensures InDateOrder(ReplaceLast(kept, r))
  {
    forall i | 0 <= i < |kept| - 1 ensures kept[i].date < r.date {
      assert kept[i].date < kept[|kept| - 1].date;
    }
  }

  lemma ReplacingLastKeepsDates(kept: seq<Row>, last: Row, d: Timestamp)
    ensures HasDate(ReplaceLast(kept, last), d) <==> HasDate(kept, d) || last.date == d
  {
    var now := ReplaceLast(kept, last);
    assert now[|now| - 1] == last && last in now;
    if HasDate(kept, d) {
      var r :| r in kept && r.date == d;
      var i :| 0 <= i < |kept| && kept[i] == r;
      if i < |now| - 1 {
        assert now[i] == r;
      }
    }
  }

  lemma {:induction false} KeepLastKeepsOrder(rows: seq<Row>)
    requires SortedBy(rows, DatedNoLater)
    ensures InDateOrder(KeepLast(rows))
  {
    if rows != [] {
      var n := |rows| - 1;
      var kept := KeepLast(rows[..n]);
      KeepLastKeepsOrder(rows[..n]);
      if kept != [] {
        assert kept[|kept| - 1] in rows[..n];
        var j :| 0 <= j < n && rows[j] == kept[|kept| - 1];
        assert DatedNoLater(rows[j], rows[n]);
      }
      ReplacingLastKeepsOrder(kept, rows[n]);
    }
  }

  lemma {:induction false} KeepLastKeepsDates(rows: seq<Row>, d: Timestamp)
    ensures HasDate(KeepLast(rows), d) <==> HasDate(rows, d)
  {
    if rows != [] {
      var front, last := rows[..|rows| - 1], rows[|rows| - 1];
      assert rows == front + [last];
      KeepLastKeepsDates(front, d);
      ReplacingLastKeepsDates(KeepLast(front), last, d);
      DatesOfBoth(front, [last], d);
      assert HasDate([last], d) <==> last.date == d by {
        assert [last][0] in [last];
      }
    }
  }

  lemma SortKeepsDates(rows: seq<Row>, sort: Sorter, d: Timestamp)
    requires Sorts(sort)
    ensures HasDate(sort(rows), d) <==> HasDate(rows, d)
    ensures forall r :: r in sort(rows) <==> r in rows
  {
    forall r ensures r in sort(rows) <==> r in rows {
      assert r in multiset(sort(rows)) <==> r in multiset(rows);
    }
  }

  /** Normalizing gives a normal file with exactly the dates that have a valid row. */
  lemma NormalizeIsNormal(rows: seq<Row>, allowZeroVolume: bool, sort: Sorter)
    requires Sorts(sort)
    ensures var out := Normalize(rows, allowZeroVolume, sort);
            && Normal(out, allowZeroVolume)
            && (forall d :: HasDate(out, d) <==> HasDate(Filter(rows, HasValidBar(allowZeroVolume)), d))
            && (forall r :: r in out ==> r in rows)
  {
    var valid := Filter(rows, HasValidBar(allowZeroVolume));
    KeepLastKeepsOrder(sort(valid));
    forall d ensures HasDate(KeepLast(sort(valid)), d) <==> HasDate(valid, d) {
      KeepLastKeepsDates(sort(valid), d);
      SortKeepsDates(valid, sort, d);
    }
    SortKeepsDates(valid, sort, 0);
  }

  lemma {:induction false} KeepLastOfOrdered(rows: seq<Row>)
    requires InDateOrder(rows)
    ensures KeepLast(rows) == rows
  {
    if rows != [] {
      var n := |rows| - 1;
      assert rows == rows[..n] + [rows[n]];
      KeepLastOfOrdered(rows[..n]);
      LaterRowIsAdded(rows[..n], rows[n]);
    }
  }

  lemma LaterRowIsAdded(kept: seq<Row>, r: Row)
    requires InDateOrder(kept + [r])
    ensures ReplaceLast(kept, r) == kept + [r]
  {
    if kept != [] {
      assert (kept + [r])[|kept| - 1].date < (kept + [r])[|kept|].date;
    }
  }

  lemma {:induction false} OrderedPermutationsAreEqual(s: seq<Row>, t: seq<Row>)
    requires InDateOrder(s) && SortedBy(t, DatedNoLater) && multiset(s) == multiset(t)
    ensures s == t
  {
    if s != [] || t != [] {
      LastHasLatestDate(s, t);
      SameFront(s, t);
      OrderedPermutationsAreEqual(s[..|s| - 1], t[..|t| - 1]);
      EqualInParts(s, t);
    }
  }

  lemma LastHasLatestDate(s: seq<Row>, t: seq<Row>)
    requires InDateOrder(s) && SortedBy(t, DatedNoLater) && multiset(s) == multiset(t) && (s != [] || t != [])
    ensures s != [] && t != [] && s[|s| - 1] == t[|t| - 1]
  {
    assert |multiset(s)| == |multiset(t)|;
    var m, n := |s| - 1, |t| - 1;
    assert t[n] in multiset(t) && s[m] in multiset(s);
    var i :| 0 <= i < |s| && s[i] == t[n];
    var j :| 0 <= j < |t| && t[j] == s[m];
    assert j < n ==> DatedNoLater(t[j], t[n]);
  }

  /** Normalizing a normal file changes nothing: what is written is what is loaded. */
  lemma NormalizeIsIdempotent(rows: seq<Row>, allowZeroVolume: bool, sort: Sorter)
    requires Sorts(sort) && Normal(rows, allowZeroVolume)
    ensures Normalize(rows, allowZeroVolume, sort) == rows
  {
    FilterKeepsAll(rows, HasValidBar(allowZeroVolume));
    OrderedPermutationsAreEqual(rows, sort(rows));
    KeepLastOfOrdered(rows);
  }

  // ----- files as maps -----

  /** Bars by date; of several rows on one date the last one counts. */
  function AsMap(rows: seq<Row>): map<Timestamp, Bar> {
    if rows == [] then map[] else AsMap(rows[..|rows| - 1])[rows[|rows| - 1].date := rows[|rows| - 1].bar]
  }

  lemma {:induction false} MapHoldsLastOfDate(rows: seq<Row>, d: Timestamp)
    ensures var same := Filter(rows, OnDate(d));
            && (d in AsMap(rows) <==> same != [])
            && (same != [] ==> AsMap(rows)[d] == same[|same| - 1].bar)
  {
    if rows != [] {
      MapHoldsLastOfDate(rows[..|rows| - 1], d);
    }
  }

  lemma {:induction false} KeepLastIsSameMap(rows: seq<Row>)
    requires SortedBy(rows, DatedNoLater)
    ensures AsMap(KeepLast(rows)) == AsMap(rows)
  {
    if rows != [] {
      var front, last := rows[..|rows| - 1], rows[|rows| - 1];
      KeepLastIsSameMap(front);
      ReplacingIsOverriding(KeepLast(front), last);
    }
  }

  lemma ReplacingIsOverriding(kept: seq<Row>, last: Row)
    ensures AsMap(ReplaceLast(kept, last)) == AsMap(kept)[last.date := last.bar]
  {
    if kept != [] && kept[|kept| - 1].date == last.date {
      assert (kept[..|kept| - 1] + [last])[..|kept| - 1] == kept[..|kept| - 1];
    } else {
      assert (kept + [last])[..|kept|] == kept;
    }
  }

  lemma MapHoldsLastOn(rows: seq<Row>, d: Timestamp)
    ensures d in AsMap(rows) <==> LastOn(rows, d).Some?
    ensures d in AsMap(rows) ==> LastOn(rows, d) == Some(Row(d, AsMap(rows)[d]))
  {
    MapHoldsLastOfDate(rows, d);
    var same := Filter(rows, OnDate(d));
    if same != [] {
      assert same[|same| - 1] in same;
    }
  }

  predicate SameAt(m: map<Timestamp, Bar>, n: map<Timestamp, Bar>, d: Timestamp) {
    if d in m then d in n && m[d] == n[d] else d !in n
  }

  lemma SameEverywhere(m: map<Timestamp, Bar>, n: map<Timestamp, Bar>)
    requires forall d :: SameAt(m, n, d)
    ensures m == n
  {
    forall d ensures (d in m <==> d in n) && (d in m ==> m[d] == n[d]) {
      assert SameAt(m, n, d);
    }
  }

  lemma SameAtExactlyWhenSameLastRow(s: seq<Row>, t: seq<Row>, d: Timestamp)
    ensures SameAt(AsMap(s), AsMap(t), d) <==> LastOn(s, d) == LastOn(t, d)
  {
    MapHoldsLastOn(s, d);
    MapHoldsLastOn(t, d);
  }

  lemma SameMapOfSameLastRows(s: seq<Row>, t: seq<Row>)
    requires forall d :: LastOn(s, d) == LastOn(t, d)
    ensures AsMap(s) == AsMap(t)
  {
    forall d ensures SameAt(AsMap(s), AsMap(t), d) {
      SameAtExactlyWhenSameLastRow(s, t, d);
    }
    SameEverywhere(AsMap(s), AsMap(t));
  }

  /** With such a sort, normalizing keeps the last valid row of each date. */
  lemma NormalizeKeepsLastValid(rows: seq<Row>, allowZeroVolume: bool, sort: Sorter)
    requires KeepsLastRows(sort, allowZeroVolume)
    ensures AsMap(Normalize(rows, allowZeroVolume, sort)) == AsMap(Filter(rows, HasValidBar(allowZeroVolume)))
  {
    var valid := Filter(rows, HasValidBar(allowZeroVolume));
    assert AllValid(valid, allowZeroVolume);
    SameMapOfSameLastRows(sort(valid), valid);
    KeepLastIsSameMap(sort(valid));
  }

  /** And it does so for all rows only with such a sort. */
  lemma LastValidIsKeptExactlyWhen(allowZeroVolume: bool, sort: Sorter)
    requires Sorts(sort)
    ensures KeepsLastRows(sort, allowZeroVolume) <==>
      forall rows :: AsMap(Normalize(rows, allowZeroVolume, sort)) == AsMap(Filter(rows, HasValidBar(allowZeroVolume)))
  {
    if KeepsLastRows(sort, allowZeroVolume) {
      forall rows
        ensures AsMap(Normalize(rows, allowZeroVolume, sort)) == AsMap(Filter(rows, HasValidBar(allowZeroVolume)))
      {
        NormalizeKeepsLastValid(rows, allowZeroVolume, sort);
      }
    } else {
      var rows, d :| AllValid(rows, allowZeroVolume) && LastOn(sort(rows), d) != LastOn(rows, d);
      FilterKeepsAll(rows, HasValidBar(allowZeroVolume));
      KeepLastIsSameMap(sort(rows));
      SameAtExactlyWhenSameLastRow(sort(rows), rows, d);
    }
  }

  lemma {:induction false} MapOfBoth(s: seq<Row>, t: seq<Row>)
    ensures AsMap(s + t) == AsMap(s) + AsMap(t)
  {
    if t == [] {
      assert s + t == s;
    } else {
      assert (s + t)[..|s + t| - 1] == s + t[..|t| - 1];
      MapOfBoth(s, t[..|t| - 1]);
    }
  }

  /** `merge_ohlcv` on rows that are already normalized. */
  function Merge(existing: seq<Row>, incoming: seq<Row>, allowZeroVolume: bool, sort: Sorter): seq<Row> {
    if existing == [] then incoming else Normalize(existing + incoming, allowZeroVolume, sort)
  }

  /** Merging never loses a date, and with a sort that keeps last rows it is overriding by the new ones. */
  lemma MergeOverrides(existing: seq<Row>, incoming: seq<Row>, allowZeroVolume: bool, sort: Sorter)
    requires Sorts(sort) && Normal(existing, allowZeroVolume) && Normal(incoming, allowZeroVolume)
    ensures var merged := Merge(existing, incoming, allowZeroVolume, sort);
            && Normal(merged, allowZeroVolume)
            && (forall d :: HasDate(merged, d) <==> HasDate(existing, d) || HasDate(incoming, d))
            && (forall r :: r in merged ==> r in existing || r in incoming)
            && (KeepsLastRows(sort, allowZeroVolume) ==> AsMap(merged) == AsMap(existing) + AsMap(incoming))
  {
    var both := existing + incoming;
    if existing != [] {
      FilterKeepsAll(both, HasValidBar(allowZeroVolume));
      NormalizeIsNormal(both, allowZeroVolume, sort);
      forall d ensures HasDate(both, d) <==> HasDate(existing, d) || HasDate(incoming, d) {
        DatesOfBoth(existing, incoming, d);
      }
      if KeepsLastRows(sort, allowZeroVolume) {
        NormalizeKeepsLastValid(both, allowZeroVolume, sort);
        MapOfBoth(existing, incoming);
      }
    }
  }

  lemma DatesOfBoth(s: seq<Row>, t: seq<Row>, d: Timestamp)
    ensures HasDate(s + t, d) <==> HasDate(s, d) || HasDate(t, d)
  {
    if HasDate(s, d) {
      var r :| r in s && r.date == d;
      assert r in s + t;
    }
    if HasDate(t, d) {
      var r :| r in t && r.date == d;
      assert r in s + t;
    }
  }

  lemma MoreDatesMoreRows(few: seq<Row>, many: seq<Row>)
    requires InDateOrder(few) && InDateOrder(many) && forall d :: HasDate(few, d) ==> HasDate(many, d)
    ensures |few| <= |many|
  {
    forall i | 0 <= i < |few| ensures HasDate(many, few[i].date) {
      assert few[i] in few;
      assert HasDate(few, few[i].date);
    }
    var at := map i: nat | i in Below(|few|) :: PositionOf(few[i].date, many);
    forall i, j | i in Below(|few|) && j in Below(|few|) && at[i] == at[j] ensures i == j {
      assert few[i].date == few[j].date;
    }
    Pigeonhole(Below(|few|), at, |many|);
  }

  ghost function PositionOf(d: Timestamp, rows: seq<Row>): (k: nat)
    requires HasDate(rows, d)
    ensures k < |rows| && rows[k].date == d
  {
    var r :| r in rows && r.date == d;
    var k :| 0 <= k < |rows| && rows[k].date == d;
    k
  }

  // ----- a stable sort exists -----

  lemma SwapIsStable(rows: seq<Row>, x: Row, y: Row, d: Timestamp)
    requires x.date != y.date
    ensures Filter(rows + [x] + [y], OnDate(d)) == Filter(rows + [y] + [x], OnDate(d))
  {
    FilterOneMore(rows, x, OnDate(d));
    FilterOneMore(rows, y, OnDate(d));
    FilterOneMore(rows + [x], y, OnDate(d));
    FilterOneMore(rows + [y], x, OnDate(d));
  }

  lemma FilterOneMore(rows: seq<Row>, x: Row, p: Row -> bool)
    ensures Filter(rows + [x], p) == Filter(rows, p) + if p(x) then [x] else []
  {
    assert (rows + [x])[..|rows|] == rows;
  }

  lemma {:induction false} InsertIsStable(s: seq<Row>, x: Row, d: Timestamp)
    ensures Filter(InsertSorted(s, x, DatedNoLater), OnDate(d)) == Filter(s + [x], OnDate(d))
  {
    if s != [] && !DatedNoLater(s[|s| - 1], x) {
      var front, last := s[..|s| - 1], s[|s| - 1];
      assert s == front + [last];
      InsertIsStable(front, x, d);
      FilterOneMore(InsertSorted(front, x, DatedNoLater), last, OnDate(d));
      FilterOneMore(front + [x], last, OnDate(d));
      SwapIsStable(front, x, last, d);
    }
  }

  lemma {:induction false} SortByIsStable(rows: seq<Row>, d: Timestamp)
    ensures Filter(SortBy(rows, DatedNoLater), OnDate(d)) == Filter(rows, OnDate(d))
  {
    if rows != [] {
      var front, last := rows[..|rows| - 1], rows[|rows| - 1];
      SortByIsStable(front, d);
      var sorted := SortBy(front, DatedNoLater);
      InsertIsStable(sorted, last, d);
      assert (sorted + [last])[..|sorted|] == sorted;
    }
  }

  /** Both assumptions can be met: insertion sort meets them. */
  lemma StableSortersExist(allowZeroVolume: bool)
    ensures SortsStably(rows => SortBy(rows, DatedNoLater))
    ensures KeepsLastRows(rows => SortBy(rows, DatedNoLater), allowZeroVolume)
  {
    var sort := rows => SortBy(rows, DatedNoLater);
    forall rows, d ensures Filter(sort(rows), OnDate(d)) == Filter(rows, OnDate(d)) {
      SortByIsStable(rows, d);
    }
    StableSortsKeepLastRows(sort, allowZeroVolume);
  }
}
