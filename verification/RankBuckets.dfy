/** Cross-sectional rank buckets and top-bottom spreads (`analysis/signal_diagnostics.py`). */
module RankBuckets {
  import opened RankedPanel
  import opened Ranks
  import opened Sequences

  datatype BucketRow = BucketRow(date: int, bucket: int, symbols: nat, average: real)

  datatype SpreadRow = SpreadRow(date: int, symbols: nat, top: int, bottom: int, topExcess: real, bottomExcess: real,
                                 spread: real)

  // ----- one date: bucket rows and the spread -----

  function MaxOf(xs: seq<int>): (m: int)
    requires xs != []
    ensures m in xs && forall x :: x in xs ==> x <= m
  {
    var last := xs[|xs| - 1];
    if |xs| == 1 then last
    else
      assert xs == xs[..|xs| - 1] + [last];
      var m := MaxOf(xs[..|xs| - 1]);
      if last > m then last else m
  }

  function MinOf(xs: seq<int>): (m: int)
    requires xs != []
    ensures m in xs && forall x :: x in xs ==> m <= x
  {
    var last := xs[|xs| - 1];
    if |xs| == 1 then last
    else
      assert xs == xs[..|xs| - 1] + [last];
      var m := MinOf(xs[..|xs| - 1]);
      if last < m then last else m
  }

  predicate Usable(g: Group) {
    |g.scores| == |g.returned| && |g.scores| >= 2
  }

  function SpreadOf(g: Group, buckets: nat): SpreadRow
    requires Usable(g) && buckets > 0
  {
    var ids := AssignRankBuckets(g.scores, buckets);
    var top, bottom := MaxOf(ids), MinOf(ids);
    BucketHasValues(g.returned, ids, top);
    BucketHasValues(g.returned, ids, bottom);
    var topExcess, bottomExcess := MeanOf(InBucket(g.returned, ids, top)), MeanOf(InBucket(g.returned, ids, bottom));
    SpreadRow(g.date, |ids|, top, bottom, topExcess, bottomExcess, topExcess - bottomExcess)
  }

  /** The rows of the buckets below `b`, empty buckets left out. */
  function RowsBelow(g: Group, ids: seq<int>, b: nat): seq<BucketRow>
    requires |g.returned| == |ids|
  {
    if b == 0 then []
    else
      var values := InBucket(g.returned, ids, b - 1);
      RowsBelow(g, ids, b - 1) + if values == [] then [] else [BucketRow(g.date, b - 1, |values|, MeanOf(values))]
  }

  function BucketRowsOf(g: Group, buckets: nat): seq<BucketRow>
    requires Usable(g)
  {
    RowsBelow(g, AssignRankBuckets(g.scores, buckets), buckets)
  }

  /** `groupby("date", sort=True)`: the dates in order, and the observations of one. */
  function DatesOf(panel: seq<Observation>): (dates: seq<int>)
    ensures StrictlyAscending(dates)
  {
    SortedWithoutRepeats(Map(panel, DateOf))
  }

  function AllRows(panel: seq<Observation>, dates: seq<int>, buckets: nat): seq<BucketRow> {
    if dates == [] then []
    else
      var g := GroupOn(panel, dates[|dates| - 1]);
      AllRows(panel, dates[..|dates| - 1], buckets) + if |g.scores| < 2 then [] else BucketRowsOf(g, buckets)
  }

  function AllSpreads(panel: seq<Observation>, dates: seq<int>, buckets: nat): seq<SpreadRow>
    requires buckets > 0
  {
    if dates == [] then []
    else
      var g := GroupOn(panel, dates[|dates| - 1]);
      AllSpreads(panel, dates[..|dates| - 1], buckets) + if |g.scores| < 2 then [] else [SpreadOf(g, buckets)]
  }

  lemma {:induction false} BucketHasValues(values: seq<real>, ids: seq<int>, b: int)
    requires |values| == |ids|
    ensures InBucket(values, ids, b) != [] <==> b in ids
  {
    if values != [] {
      var n := |values| - 1;
      BucketHasValues(values[..n], ids[..n], b);
      assert ids == ids[..n] + [ids[n]];
    }
  }

  /** One spread for every date with two observations or more, in order of dates. */
  ghost predicate SpreadsArePerDate(spreads: seq<SpreadRow>, panel: seq<Observation>, dates: seq<int>, buckets: nat) {
    && (forall i, j :: 0 <= i < j < |spreads| ==> spreads[i].date < spreads[j].date)
    && (forall s :: s in spreads ==> IsSpread(s, panel, buckets) && s.date in dates)
    && (forall d :: d in dates && 2 <= |SameDate(panel, d)| ==> HasSpreadFor(spreads, d))
  }

  predicate HasSpreadFor(spreads: seq<SpreadRow>, d: int) {
    exists i :: 0 <= i < |spreads| && spreads[i].date == d
  }

  // ----- rows and spreads by position in the panel -----

  /** The symbols of one bucket on a date with at least two, and their average return. */
  ghost predicate IsBucketRow(row: BucketRow, panel: seq<Observation>, buckets: nat) {
    var at := BucketMembers(panel, row.date, row.bucket, buckets);
    && 2 <= |SameDate(panel, row.date)| && at != {}
    && row.symbols == |at| && row.average == ExcessOver(panel, at) / |at| as real
  }

  predicate RowsAscend(rows: seq<BucketRow>) {
    forall i, j :: 0 <= i < j < |rows| ==>
      rows[i].date < rows[j].date || (rows[i].date == rows[j].date && rows[i].bucket < rows[j].bucket)
  }

  ghost predicate HasRowFor(rows: seq<BucketRow>, panel: seq<Observation>, i: nat, buckets: nat)
    requires i < |panel|
  {
    exists row :: row in rows && row.date == panel[i].date && row.bucket == BucketAt(panel, i, buckets)
  }

  /** By date and bucket, one row for every bucket an observation of the dates is in. */
  ghost predicate AreBucketRows(rows: seq<BucketRow>, panel: seq<Observation>, dates: seq<int>, buckets: nat) {
    && RowsAscend(rows)
    && (forall row :: row in rows ==> IsBucketRow(row, panel, buckets) && row.date in dates)
    && (forall i: nat :: i < |panel| && panel[i].date in dates && 2 <= |SameDate(panel, panel[i].date)| ==>
          HasRowFor(rows, panel, i, buckets))
  }

  /** The best bucket of a date, the worst one, and the average return of one less that of the other. */
  ghost predicate IsSpread(spread: SpreadRow, panel: seq<Observation>, buckets: nat) {
    var top, bottom := BucketMembers(panel, spread.date, spread.top, buckets),
                       BucketMembers(panel, spread.date, spread.bottom, buckets);
    && spread.symbols == |SameDate(panel, spread.date)| && 2 <= spread.symbols
    && (forall i :: i in SameDate(panel, spread.date) ==> spread.bottom <= BucketAt(panel, i, buckets) <= spread.top)
    && top != {} && spread.topExcess == ExcessOver(panel, top) / |top| as real
    && bottom != {} && spread.bottomExcess == ExcessOver(panel, bottom) / |bottom| as real
    && spread.spread == spread.topExcess - spread.bottomExcess
  }

  lemma BucketOfDate(panel: seq<Observation>, i: nat, buckets: nat)
    requires i < |panel| && 0 < buckets && 2 <= |SameDate(panel, panel[i].date)|
    ensures var ids := AssignRankBuckets(GroupOn(panel, panel[i].date).scores, buckets);
            BucketAt(panel, i, buckets) in ids && InRange(ids, buckets)
  {
    var d := panel[i].date;
    BucketsByPosition(panel, d, buckets, BucketAt(panel, i, buckets));
    assert i in BucketMembers(panel, d, BucketAt(panel, i, buckets), buckets);
    IdsOfGroup(GroupOn(panel, d), buckets);
  }

  lemma RowByPosition(panel: seq<Observation>, d: int, buckets: nat, row: BucketRow)
    requires 0 < buckets && 2 <= |SameDate(panel, d)| && Usable(GroupOn(panel, d))
    requires row in BucketRowsOf(GroupOn(panel, d), buckets)
    ensures row.date == d && IsBucketRow(row, panel, buckets)
  {
    var g := GroupOn(panel, d);
    RowIsOfBucket(g, AssignRankBuckets(g.scores, buckets), buckets, row);
    BucketsByPosition(panel, d, buckets, row.bucket);
  }

  lemma RowsByPosition(panel: seq<Observation>, d: int, buckets: nat)
    requires 0 < buckets && 2 <= |SameDate(panel, d)| && Usable(GroupOn(panel, d))
    ensures AreBucketRows(BucketRowsOf(GroupOn(panel, d), buckets), panel, [d], buckets)
  {
    var g := GroupOn(panel, d);
    var ids, rows := AssignRankBuckets(g.scores, buckets), BucketRowsOf(g, buckets);
    RowsAreAscending(g, ids, buckets);
    forall row | row in rows ensures IsBucketRow(row, panel, buckets) && row.date == d {
      RowByPosition(panel, d, buckets, row);
    }
    forall i: nat | i < |panel| && panel[i].date in [d] ensures HasRowFor(rows, panel, i, buckets) {
      BucketOfDate(panel, i, buckets);
      var k := RowOfBucket(g, ids, buckets, BucketAt(panel, i, buckets));
      assert rows[k] in rows;
    }
    forall i, j | 0 <= i < j < |rows| ensures rows[i].date == rows[j].date && rows[i].bucket < rows[j].bucket {
      assert rows[i] in rows && rows[j] in rows;
    }
  }

  lemma RowsOfMoreDates(before: seq<BucketRow>, rows: seq<BucketRow>, panel: seq<Observation>, front: seq<int>, d: int,
                        buckets: nat)
    requires AreBucketRows(before, panel, front, buckets) && AreBucketRows(rows, panel, [d], buckets)
    requires forall e :: e in front ==> e < d
    ensures AreBucketRows(before + rows, panel, front + [d], buckets)
  {
    var now := before + rows;
    forall i, j | 0 <= i < j < |now|
      ensures now[i].date < now[j].date || (now[i].date == now[j].date && now[i].bucket < now[j].bucket)
    {
      if i < |before| <= j {
        assert now[i] in before && now[j] in rows;
      }
    }
    forall i: nat | i < |panel| && panel[i].date in front + [d] && 2 <= |SameDate(panel, panel[i].date)|
      ensures HasRowFor(now, panel, i, buckets)
    {
      assert HasRowFor(if panel[i].date in front then before else rows, panel, i, buckets);
    }
  }

  lemma NoRowsOfDate(panel: seq<Observation>, d: int, buckets: nat)
    requires |SameDate(panel, d)| < 2
    ensures AreBucketRows([], panel, [d], buckets)
  {
  }

  lemma {:induction false} AllRowsByPosition(panel: seq<Observation>, dates: seq<int>, buckets: nat)
    requires StrictlyAscending(dates) && 0 < buckets
    ensures AreBucketRows(AllRows(panel, dates, buckets), panel, dates, buckets)
  {
    if dates != [] {
      var front, d := dates[..|dates| - 1], dates[|dates| - 1];
      AllRowsByPosition(panel, front, buckets);
      SizeOfDate(panel, d);
      assert dates == front + [d];
      if |SameDate(panel, d)| < 2 {
        NoRowsOfDate(panel, d, buckets);
        RowsOfMoreDates(AllRows(panel, front, buckets), [], panel, front, d, buckets);
      } else {
        RowsByPosition(panel, d, buckets);
        RowsOfMoreDates(AllRows(panel, front, buckets), BucketRowsOf(GroupOn(panel, d), buckets), panel, front, d,
                        buckets);
      }
    }
  }

  lemma SpreadByPosition(panel: seq<Observation>, d: int, buckets: nat)
    requires 0 < buckets && 2 <= |SameDate(panel, d)| && Usable(GroupOn(panel, d))
    ensures IsSpread(SpreadOf(GroupOn(panel, d), buckets), panel, buckets)
  {
    var g := GroupOn(panel, d);
    var ids := AssignRankBuckets(g.scores, buckets);
    BucketsByPosition(panel, d, buckets, MaxOf(ids));
    BucketsByPosition(panel, d, buckets, MinOf(ids));
    forall i | i in SameDate(panel, d) ensures MinOf(ids) <= BucketAt(panel, i, buckets) <= MaxOf(ids) {
      BucketOfDate(panel, i, buckets);
    }
  }

  /** The date loop of `decile_portfolio_analysis`: a spread for every date with two observations, and
      bucket rows that hold all observations of these dates and all their return. */
  method DecilePortfolio(panel: seq<Observation>, buckets: nat) returns (rows: seq<BucketRow>, spreads: seq<SpreadRow>)
    requires buckets > 0
    ensures rows == AllRows(panel, DatesOf(panel), buckets)
    ensures exists dates ::
      && (forall d :: d in dates <==> exists o :: o in panel && o.date == d)
      && AreBucketRows(rows, panel, dates, buckets) && SpreadsArePerDate(spreads, panel, dates, buckets)
    ensures SymbolsIn(rows) == CountOf(panel, Compared(panel)) && ReturnIn(rows) == ExcessSum(panel, Compared(panel))
  {
    rows, spreads := [], [];
    var dates := DatesOf(panel);
    for k := 0 to |dates|
      invariant rows == AllRows(panel, dates[..k], buckets) && spreads == AllSpreads(panel, dates[..k], buckets)
    {
      var g := GroupOn(panel, dates[k]);
      assert dates[..k + 1][..k] == dates[..k];
      if |g.scores| < 2 {
        continue;
      }
      spreads := spreads + [SpreadOf(g, buckets)];
      var ofDate := RowsOfDate(g, AssignRankBuckets(g.scores, buckets), buckets);
      rows := rows + ofDate;
    }
    assert dates[..|dates|] == dates;
    SpreadsOfDates(panel, dates, buckets);
    AllRowsByPosition(panel, dates, buckets);
    DatesAreOfObservations(panel);
    RowsHoldPanel(panel, buckets);
  }

  lemma DatesAreOfObservations(panel: seq<Observation>)
    ensures forall d :: d in DatesOf(panel) <==> exists o :: o in panel && o.date == d
  {
    var days := Map(panel, DateOf);
    forall o | o in panel ensures o.date in days {
      var i :| 0 <= i < |panel| && panel[i] == o;
      assert days[i] == o.date;
    }
    forall d | d in days ensures exists o :: o in panel && o.date == d {
      var i :| 0 <= i < |panel| && panel[i].date == d;
      assert panel[i] in panel;
    }
  }

  method RowsOfDate(g: Group, ids: seq<int>, buckets: nat) returns (rows: seq<BucketRow>)
    requires |g.returned| == |ids|
    ensures rows == RowsBelow(g, ids, buckets)
  {
    rows := [];
    for b := 0 to buckets
      invariant rows == RowsBelow(g, ids, b)
    {
      var values := InBucket(g.returned, ids, b);
      if values != [] {
        rows := rows + [BucketRow(g.date, b, |values|, MeanOf(values))];
      }
    }
  }

  // ----- top and bottom -----

  /** The bottom bucket is 0; the top one is the last exactly when there are at least as many scores
      as buckets; from two buckets on they are different ones. */
  lemma TopBucketIsLast(scores: seq<real>, buckets: nat)
    requires |scores| >= 2 && buckets > 0
    ensures var ids := AssignRankBuckets(scores, buckets);
            && MinOf(ids) == 0
            && MaxOf(ids) == UnclippedBucket(|scores| - 1, |scores|, buckets)
            && (MaxOf(ids) == buckets - 1 <==> |scores| >= buckets)
            && (buckets >= 2 ==> MaxOf(ids) > MinOf(ids))
  {
    var n, ids := |scores|, AssignRankBuckets(scores, buckets);
    RanksAreNumbering(scores);
    var first := IndexOf(n, RankIn(scores), 0);
    var last := IndexOf(n, RankIn(scores), n - 1);
    FirstAndLastRank(n, buckets);
    forall i: nat | i < n
      ensures UnclippedBucket(0, n, buckets) <= ids[i] <= UnclippedBucket(n - 1, n, buckets)
    {
      BucketInBetween(scores, i, buckets);
    }
    BucketIsOfRank(scores, first, buckets);
    BucketIsOfRank(scores, last, buckets);
    ExtremesOf(ids, first, last);
  }

  lemma ExtremesOf(ids: seq<int>, first: nat, last: nat)
    requires first < |ids| && last < |ids| && forall i :: 0 <= i < |ids| ==> ids[first] <= ids[i] <= ids[last]
    ensures MinOf(ids) == ids[first] && MaxOf(ids) == ids[last]
  {
    assert ids[first] in ids && ids[last] in ids;
  }

  lemma BucketInBetween(scores: seq<real>, i: nat, buckets: nat)
    requires i < |scores| && buckets > 0
    ensures UnclippedBucket(0, |scores|, buckets) <= BucketOf(scores, i, buckets)
    ensures BucketOf(scores, i, buckets) <= UnclippedBucket(|scores| - 1, |scores|, buckets)
  {
    BucketIsOfRank(scores, i, buckets);
    RanksAreOrdered(scores, i, i);
    QuotientsAreOrdered(0, Rank(scores, i), |scores|, buckets);
    QuotientsAreOrdered(Rank(scores, i), |scores| - 1, |scores|, buckets);
  }

  lemma FirstAndLastRank(n: nat, buckets: nat)
    requires n >= 2 && buckets > 0
    ensures UnclippedBucket(0, n, buckets) == 0
    ensures UnclippedBucket(n - 1, n, buckets) == buckets - 1 <==> n >= buckets
    ensures buckets >= 2 ==> UnclippedBucket(n - 1, n, buckets) > 0
  {
    FloorIsQuotient(0, n, buckets);
    FloorIsQuotient(n - 1, n, buckets);
    LastQuotient(n, buckets, (n - 1) * buckets);
  }

  lemma LastQuotient(n: nat, buckets: nat, x: int)
    requires n >= 2 && buckets > 0 && x == (n - 1) * buckets
    ensures x / n == buckets - 1 <==> n >= buckets
    ensures buckets >= 2 ==> x / n > 0
  {
    assert x == n * buckets - buckets && (buckets - 1) * n == n * buckets - n;
    QuotientBounds(x, n, buckets - 1);
    QuotientBounds(x, n, 0);
    TimesIsMonotone(2, buckets, n - 1);
    assert (n - 1) * buckets == buckets * (n - 1);
    QuotientIsMonotone(0, x, n);
  }

  // ----- the rows of a date -----

  lemma {:induction false} BucketSize(values: seq<real>, ids: seq<int>, bucket: nat -> int, b: int)
    requires |values| == |ids| && forall i :: 0 <= i < |ids| ==> ids[i] == bucket(i)
    ensures |InBucket(values, ids, b)| == |Where(|ids|, bucket, b)|
  {
    if values == [] {
      assert Where(0, bucket, b) == {};
    } else {
      var n := |values| - 1;
      BucketSize(values[..n], ids[..n], bucket, b);
      WhereGrows(n, bucket, b);
    }
  }

  lemma WhereGrows(n: nat, bucket: nat -> int, b: int)
    ensures |Where(n + 1, bucket, b)| == |Where(n, bucket, b)| + if bucket(n) == b then 1 else 0
  {
    assert Where(n + 1, bucket, b) == Where(n, bucket, b) + if bucket(n) == b then {n} else {};
  }

  function SymbolsIn(rows: seq<BucketRow>): nat {
    if rows == [] then 0 else SymbolsIn(rows[..|rows| - 1]) + rows[|rows| - 1].symbols
  }

  function ReturnIn(rows: seq<BucketRow>): real {
    if rows == [] then 0.0
    else ReturnIn(rows[..|rows| - 1]) + rows[|rows| - 1].symbols as real * rows[|rows| - 1].average
  }

  /** The values whose bucket is below `b`. */
  function ValuesBelow(values: seq<real>, ids: seq<int>, b: int): seq<real>
    requires |values| == |ids|
  {
    if values == [] then []
    else
      var n := |values| - 1;
      ValuesBelow(values[..n], ids[..n], b) + if ids[n] < b then [values[n]] else []
  }

  lemma {:induction false} NextBucket(values: seq<real>, ids: seq<int>, b: int)
    requires |values| == |ids|
    ensures SumOf(ValuesBelow(values, ids, b + 1))
            == SumOf(ValuesBelow(values, ids, b)) + SumOf(InBucket(values, ids, b))
    ensures |ValuesBelow(values, ids, b + 1)| == |ValuesBelow(values, ids, b)| + |InBucket(values, ids, b)|
  {
    if values != [] {
      var n := |values| - 1;
      NextBucket(values[..n], ids[..n], b);
      SumOfOneMore(ValuesBelow(values[..n], ids[..n], b + 1), values[n]);
      SumOfOneMore(ValuesBelow(values[..n], ids[..n], b), values[n]);
      SumOfOneMore(InBucket(values[..n], ids[..n], b), values[n]);
    }
  }

  predicate InRange(ids: seq<int>, buckets: nat) {
    forall i :: 0 <= i < |ids| ==> 0 <= ids[i] < buckets
  }

  lemma {:induction false} NoneBelow(values: seq<real>, ids: seq<int>, buckets: nat)
    requires |values| == |ids| && InRange(ids, buckets)
    ensures ValuesBelow(values, ids, 0) == []
  {
    if values != [] {
      NoneBelow(values[..|values| - 1], ids[..|values| - 1], buckets);
    }
  }

  lemma {:induction false} AllBelow(values: seq<real>, ids: seq<int>, buckets: nat)
    requires |values| == |ids| && InRange(ids, buckets)
    ensures ValuesBelow(values, ids, buckets) == values
  {
    if values != [] {
      var n := |values| - 1;
      AllBelow(values[..n], ids[..n], buckets);
      assert values == values[..n] + [values[n]];
    }
  }

  lemma AddingRow(rows: seq<BucketRow>, row: BucketRow)
    ensures ReturnIn(rows + [row]) == ReturnIn(rows) + row.symbols as real * row.average
    ensures SymbolsIn(rows + [row]) == SymbolsIn(rows) + row.symbols
  {
    assert (rows + [row])[..|rows|] == rows;
  }

  lemma MeanTimesCount(xs: seq<real>)
    requires xs != []
    ensures |xs| as real * MeanOf(xs) == SumOf(xs)
  {
  }

  ghost predicate RowsHoldBelow(g: Group, ids: seq<int>, b: nat)
    requires |g.returned| == |ids|
  {
    && ReturnIn(RowsBelow(g, ids, b)) == SumOf(ValuesBelow(g.returned, ids, b))
    && SymbolsIn(RowsBelow(g, ids, b)) == |ValuesBelow(g.returned, ids, b)|
  }

  lemma {:induction false} RowsAccount(g: Group, ids: seq<int>, b: nat, buckets: nat)
    requires |g.returned| == |ids| && InRange(ids, buckets)
    ensures RowsHoldBelow(g, ids, b)
  {
    if b == 0 {
      NoRowsAtZero(g, ids, buckets);
    } else {
      RowsAccount(g, ids, b - 1, buckets);
      RowsAccountStep(g, ids, b - 1);
    }
  }

  lemma NoRowsAtZero(g: Group, ids: seq<int>, buckets: nat)
    requires |g.returned| == |ids| && InRange(ids, buckets)
    ensures RowsHoldBelow(g, ids, 0)
  {
    NoneBelow(g.returned, ids, buckets);
  }

  lemma RowsAccountStep(g: Group, ids: seq<int>, b: nat)
    requires |g.returned| == |ids| && RowsHoldBelow(g, ids, b)
    ensures RowsHoldBelow(g, ids, b + 1)
  {
    NextBucket(g.returned, ids, b);
    RowsOfNextBucket(g, ids, b);
  }

  lemma RowsOfNextBucket(g: Group, ids: seq<int>, b: nat)
    requires |g.returned| == |ids|
    ensures ReturnIn(RowsBelow(g, ids, b + 1)) == ReturnIn(RowsBelow(g, ids, b)) + SumOf(InBucket(g.returned, ids, b))
    ensures SymbolsIn(RowsBelow(g, ids, b + 1)) == SymbolsIn(RowsBelow(g, ids, b)) + |InBucket(g.returned, ids, b)|
  {
    var values, before := InBucket(g.returned, ids, b), RowsBelow(g, ids, b);
    if values == [] {
      assert before + [] == before;
    } else {
      AddingRow(before, BucketRow(g.date, b, |values|, MeanOf(values)));
      MeanTimesCount(values);
    }
  }

  predicate BucketsAscend(rows: seq<BucketRow>, b: nat) {
    && (forall i, j :: 0 <= i < j < |rows| ==> rows[i].bucket < rows[j].bucket)
    && (forall i :: 0 <= i < |rows| ==> 0 <= rows[i].bucket < b)
  }

  lemma {:induction false} RowsAreAscending(g: Group, ids: seq<int>, b: nat)
    requires |g.returned| == |ids|
    ensures BucketsAscend(RowsBelow(g, ids, b), b)
  {
    if b > 0 {
      RowsAreAscending(g, ids, b - 1);
      var before := RowsBelow(g, ids, b - 1);
      assert before + [] == before;
    }
  }

  lemma {:induction false} RowOfBucket(g: Group, ids: seq<int>, b: nat, id: nat) returns (i: nat)
    requires |g.returned| == |ids| && id < b && id in ids
    ensures i < |RowsBelow(g, ids, b)| && RowsBelow(g, ids, b)[i].bucket == id
  {
    if id == b - 1 {
      BucketHasValues(g.returned, ids, id);
      i := |RowsBelow(g, ids, b)| - 1;
    } else {
      i := RowOfBucket(g, ids, b - 1, id);
    }
  }

  lemma {:induction false} RowIsOfBucket(g: Group, ids: seq<int>, b: nat, row: BucketRow)
    requires |g.returned| == |ids| && row in RowsBelow(g, ids, b)
    ensures 0 <= row.bucket < b && IsRowOf(row, g, ids)
  {
    var values, before := InBucket(g.returned, ids, b - 1), RowsBelow(g, ids, b - 1);
    if values == [] {
      assert row in before + [];
      RowIsOfBucket(g, ids, b - 1, row);
    } else if row in before {
      RowIsOfBucket(g, ids, b - 1, row);
    } else {
      assert row in [BucketRow(g.date, b - 1, |values|, MeanOf(values))];
    }
  }

  predicate IsRowOf(row: BucketRow, g: Group, ids: seq<int>)
    requires |g.returned| == |ids|
  {
    var values := InBucket(g.returned, ids, row.bucket);
    values != [] && row == BucketRow(g.date, row.bucket, |values|, MeanOf(values))
  }

  lemma IdsOfGroup(g: Group, buckets: nat)
    requires Usable(g) && buckets > 0
    ensures InRange(AssignRankBuckets(g.scores, buckets), buckets)
  {
    forall i: nat | i < |g.scores| ensures 0 <= BucketOf(g.scores, i, buckets) < buckets {
      BucketIsOfRank(g.scores, i, buckets);
    }
  }

  /** The rows of a date hold all its symbols and all its return. */
  lemma RowsConserveReturn(g: Group, buckets: nat)
    requires Usable(g) && buckets > 0
    ensures SymbolsIn(BucketRowsOf(g, buckets)) == |g.scores|
    ensures ReturnIn(BucketRowsOf(g, buckets)) == SumOf(g.returned)
  {
    var ids := AssignRankBuckets(g.scores, buckets);
    IdsOfGroup(g, buckets);
    RowsAccount(g, ids, buckets, buckets);
    AllBelow(g.returned, ids, buckets);
  }

  lemma GroupBucketSize(g: Group, buckets: nat, b: nat)
    requires Usable(g) && buckets > 0 && b < buckets
    ensures var size := |InBucket(g.returned, AssignRankBuckets(g.scores, buckets), b)|;
            |g.scores| / buckets <= size <= CeilDiv(|g.scores|, buckets)
  {
    BucketSize(g.returned, AssignRankBuckets(g.scores, buckets), BucketIn(g.scores, buckets), b);
    BucketsAreBalanced(g.scores, buckets, b);
  }

  /** The sizes of a date's rows differ by at most one. */
  lemma RowsAreBalanced(g: Group, buckets: nat, row: BucketRow)
    requires Usable(g) && buckets > 0 && row in BucketRowsOf(g, buckets)
    ensures 0 < row.symbols && |g.scores| / buckets <= row.symbols <= CeilDiv(|g.scores|, buckets)
  {
    var ids := AssignRankBuckets(g.scores, buckets);
    RowIsOfBucket(g, ids, buckets, row);
    GroupBucketSize(g, buckets, row.bucket);
  }

  /** The spread is the average of the last row of the date less that of the first. */
  lemma SpreadIsLastLessFirst(g: Group, buckets: nat)
    requires Usable(g) && buckets > 0
    ensures var rows, spread := BucketRowsOf(g, buckets), SpreadOf(g, buckets);
            && rows != [] && rows[0].bucket == spread.bottom && rows[|rows| - 1].bucket == spread.top
            && spread.spread == rows[|rows| - 1].average - rows[0].average
  {
    var ids, rows := AssignRankBuckets(g.scores, buckets), BucketRowsOf(g, buckets);
    var spread := SpreadOf(g, buckets);
    IdsOfGroup(g, buckets);
    RowsAreAscending(g, ids, buckets);
    var first := RowOfBucket(g, ids, buckets, spread.bottom);
    var last := RowOfBucket(g, ids, buckets, spread.top);
    RowIsOfBucket(g, ids, buckets, rows[0]);
    RowIsOfBucket(g, ids, buckets, rows[|rows| - 1]);
    BucketHasValues(g.returned, ids, rows[0].bucket);
    BucketHasValues(g.returned, ids, rows[|rows| - 1].bucket);
    assert first == 0;
    assert last == |rows| - 1;
  }

  /** A date has a row for every bucket, or for every symbol if there are fewer symbols. */
  lemma RowsOfDateCount(g: Group, buckets: nat)
    requires Usable(g) && buckets > 0
    ensures |BucketRowsOf(g, buckets)| == if |g.scores| < buckets then |g.scores| else buckets
  {
    var n, ids, rows := |g.scores|, AssignRankBuckets(g.scores, buckets), BucketRowsOf(g, buckets);
    if n < buckets {
      forall i | 0 <= i < |rows| ensures rows[i].symbols == 1 {
        RowsAreBalanced(g, buckets, rows[i]);
        EvenSplit(n, buckets, 0);
        QuotientBounds(n, buckets, 0);
      }
      SingleRows(rows);
      RowsConserveReturn(g, buckets);
    } else {
      forall b: nat | b < buckets ensures InBucket(g.returned, ids, b) != [] {
        GroupBucketSize(g, buckets, b);
        QuotientIsMonotone(buckets, n, buckets);
      }
      FullRows(g, ids, buckets);
    }
  }

  lemma {:induction false} SingleRows(rows: seq<BucketRow>)
    requires forall i :: 0 <= i < |rows| ==> rows[i].symbols == 1
    ensures SymbolsIn(rows) == |rows|
  {
    if rows != [] {
      SingleRows(rows[..|rows| - 1]);
    }
  }

  lemma {:induction false} FullRows(g: Group, ids: seq<int>, b: nat)
    requires |g.returned| == |ids| && forall k: nat :: k < b ==> InBucket(g.returned, ids, k) != []
    ensures |RowsBelow(g, ids, b)| == b
  {
    if b > 0 {
      FullRows(g, ids, b - 1);
    }
  }

  // ----- all dates -----

  /** The observation is on a date with at least two. */
  function Compared(panel: seq<Observation>): Observation -> bool {
    (o: Observation) => 2 <= |Filter(panel, OnDate(o.date))|
  }

  function ComparedOn(panel: seq<Observation>, dates: seq<int>): Observation -> bool {
    (o: Observation) => o.date in dates && 2 <= |Filter(panel, OnDate(o.date))|
  }

  function CountOf(rows: seq<Observation>, p: Observation -> bool): nat {
    if rows == [] then 0 else CountOf(rows[..|rows| - 1], p) + if p(rows[|rows| - 1]) then 1 else 0
  }

  function ExcessSum(rows: seq<Observation>, p: Observation -> bool): real {
    if rows == [] then 0.0
    else ExcessSum(rows[..|rows| - 1], p) + if p(rows[|rows| - 1]) then rows[|rows| - 1].excess else 0.0
  }

  lemma {:induction false} SumsAgree(rows: seq<Observation>, p: Observation -> bool, q: Observation -> bool)
    requires forall o :: o in rows ==> p(o) == q(o)
    ensures CountOf(rows, p) == CountOf(rows, q) && ExcessSum(rows, p) == ExcessSum(rows, q)
  {
    if rows != [] {
      assert rows[|rows| - 1] in rows;
      SumsAgree(rows[..|rows| - 1], p, q);
    }
  }

  lemma {:induction false} SumsOfParts(rows: seq<Observation>, p: Observation -> bool, q: Observation -> bool,
                                       both: Observation -> bool)
    requires forall o :: o in rows ==> both(o) == (p(o) || q(o)) && !(p(o) && q(o))
    ensures CountOf(rows, both) == CountOf(rows, p) + CountOf(rows, q)
    ensures ExcessSum(rows, both) == ExcessSum(rows, p) + ExcessSum(rows, q)
  {
    if rows != [] {
      assert rows[|rows| - 1] in rows;
      SumsOfParts(rows[..|rows| - 1], p, q, both);
    }
  }

  lemma {:induction false} CountOfFiltered(rows: seq<Observation>, p: Observation -> bool)
    ensures |Filter(rows, p)| == CountOf(rows, p)
  {
    if rows != [] {
      CountOfFiltered(rows[..|rows| - 1], p);
    }
  }

  lemma {:induction false} SumOfFiltered(rows: seq<Observation>, p: Observation -> bool)
    ensures SumOf(Map(Filter(rows, p), ExcessOf)) == ExcessSum(rows, p)
  {
    if rows != [] {
      var front, last := rows[..|rows| - 1], rows[|rows| - 1];
      SumOfFiltered(front, p);
      if p(last) {
        ExcessIsAdded(Filter(front, p), last);
      } else {
        assert Filter(front, p) + [] == Filter(front, p);
      }
    }
  }

  lemma ExcessIsAdded(rows: seq<Observation>, o: Observation)
    ensures SumOf(Map(rows + [o], ExcessOf)) == SumOf(Map(rows, ExcessOf)) + o.excess
  {
    assert Map(rows + [o], ExcessOf) == Map(rows, ExcessOf) + [o.excess];
    SumOfOneMore(Map(rows, ExcessOf), o.excess);
  }

  lemma {:induction false} RowsOfBoth(s: seq<BucketRow>, t: seq<BucketRow>)
    ensures SymbolsIn(s + t) == SymbolsIn(s) + SymbolsIn(t) && ReturnIn(s + t) == ReturnIn(s) + ReturnIn(t)
  {
    if t == [] {
      assert s + t == s;
    } else {
      assert s + t == s + t[..|t| - 1] + [t[|t| - 1]];
      RowsOfBoth(s, t[..|t| - 1]);
      AddingRow(s + t[..|t| - 1], t[|t| - 1]);
      AddingRow(t[..|t| - 1], t[|t| - 1]);
      assert t == t[..|t| - 1] + [t[|t| - 1]];
    }
  }

  lemma {:induction false} RowsHoldDates(panel: seq<Observation>, dates: seq<int>, buckets: nat)
    requires StrictlyAscending(dates) && buckets > 0
    ensures SymbolsIn(AllRows(panel, dates, buckets)) == CountOf(panel, ComparedOn(panel, dates))
    ensures ReturnIn(AllRows(panel, dates, buckets)) == ExcessSum(panel, ComparedOn(panel, dates))
  {
    if dates == [] {
      NoDates(panel, panel);
    } else {
      var front, d := dates[..|dates| - 1], dates[|dates| - 1];
      RowsHoldDates(panel, front, buckets);
      RowsOfLastDate(panel, front, d, buckets);
      assert dates == front + [d];
    }
  }

  lemma {:induction false} NoDates(rows: seq<Observation>, panel: seq<Observation>)
    ensures CountOf(rows, ComparedOn(panel, [])) == 0 && ExcessSum(rows, ComparedOn(panel, [])) == 0.0
  {
    if rows != [] {
      NoDates(rows[..|rows| - 1], panel);
    }
  }

  lemma RowsOfLastDate(panel: seq<Observation>, front: seq<int>, d: int, buckets: nat)
    requires d !in front && buckets > 0
    ensures var g := GroupOn(panel, d);
            var before := AllRows(panel, front, buckets);
            var after := before + if |g.scores| < 2 then [] else BucketRowsOf(g, buckets);
            && SymbolsIn(after) - SymbolsIn(before)
               == CountOf(panel, ComparedOn(panel, front + [d])) - CountOf(panel, ComparedOn(panel, front))
            && ReturnIn(after) - ReturnIn(before)
               == ExcessSum(panel, ComparedOn(panel, front + [d])) - ExcessSum(panel, ComparedOn(panel, front))
  {
    var g := GroupOn(panel, d);
    if |g.scores| < 2 {
      SumsAgree(panel, ComparedOn(panel, front + [d]), ComparedOn(panel, front));
      assert AllRows(panel, front, buckets) + [] == AllRows(panel, front, buckets);
    } else {
      SumsOfParts(panel, ComparedOn(panel, front), OnDate(d), ComparedOn(panel, front + [d]));
      CountOfFiltered(panel, OnDate(d));
      SumOfFiltered(panel, OnDate(d));
      RowsConserveReturn(g, buckets);
      RowsOfBoth(AllRows(panel, front, buckets), BucketRowsOf(g, buckets));
    }
  }

  /** The bucket rows of all dates hold every observation of the dates compared, and their return. */
  lemma RowsHoldPanel(panel: seq<Observation>, buckets: nat)
    requires buckets > 0
    ensures SymbolsIn(AllRows(panel, DatesOf(panel), buckets)) == CountOf(panel, Compared(panel))
    ensures ReturnIn(AllRows(panel, DatesOf(panel), buckets)) == ExcessSum(panel, Compared(panel))
  {
    var dates := DatesOf(panel);
    RowsHoldDates(panel, dates, buckets);
    forall o | o in panel ensures o.date in dates {
      var i :| 0 <= i < |panel| && panel[i] == o;
      assert Map(panel, DateOf)[i] == o.date;
    }
    SumsAgree(panel, ComparedOn(panel, dates), Compared(panel));
  }

  lemma {:induction false} SpreadsOfDates(panel: seq<Observation>, dates: seq<int>, buckets: nat)
    requires StrictlyAscending(dates) && buckets > 0
    ensures SpreadsArePerDate(AllSpreads(panel, dates, buckets), panel, dates, buckets)
  {
    if dates != [] {
      var front, d := dates[..|dates| - 1], dates[|dates| - 1];
      SpreadsOfDates(panel, front, buckets);
      OneMoreSpread(AllSpreads(panel, front, buckets), panel, front, d, buckets);
      assert dates == front + [d];
    }
  }

  lemma OneMoreSpread(spreads: seq<SpreadRow>, panel: seq<Observation>, front: seq<int>, d: int, buckets: nat)
    requires buckets > 0 && SpreadsArePerDate(spreads, panel, front, buckets) && forall e :: e in front ==> e < d
    ensures var g := GroupOn(panel, d);
            var now := spreads + if |g.scores| < 2 then [] else [SpreadOf(g, buckets)];
            SpreadsArePerDate(now, panel, front + [d], buckets)
  {
    SizeOfDate(panel, d);
    if |SameDate(panel, d)| < 2 {
      assert spreads + [] == spreads;
    } else {
      SpreadByPosition(panel, d, buckets);
      SpreadIsAdded(spreads, SpreadOf(GroupOn(panel, d), buckets), panel, front, d, buckets);
    }
  }

  lemma SpreadIsAdded(spreads: seq<SpreadRow>, spread: SpreadRow, panel: seq<Observation>, front: seq<int>, d: int,
                      buckets: nat)
    requires SpreadsArePerDate(spreads, panel, front, buckets) && forall e :: e in front ==> e < d
    requires spread.date == d && IsSpread(spread, panel, buckets)
    ensures SpreadsArePerDate(spreads + [spread], panel, front + [d], buckets)
  {
    SpreadStaysPerDate(spreads, spread, d);
    LastSpreadIsLatest(spreads, spread, front);
    forall e | e in front + [d] && 2 <= |SameDate(panel, e)| ensures HasSpreadFor(spreads + [spread], e) {
      assert e in front ==> HasSpreadFor(spreads, e);
    }
  }

  lemma LastSpreadIsLatest(spreads: seq<SpreadRow>, spread: SpreadRow, front: seq<int>)
    requires forall i, j :: 0 <= i < j < |spreads| ==> spreads[i].date < spreads[j].date
    requires (forall s :: s in spreads ==> s.date in front) && forall e :: e in front ==> e < spread.date
    ensures var now := spreads + [spread]; forall i, j :: 0 <= i < j < |now| ==> now[i].date < now[j].date
  {
    forall i | 0 <= i < |spreads| ensures spreads[i].date < spread.date {
      assert spreads[i] in spreads;
    }
  }

  lemma SpreadStaysPerDate(spreads: seq<SpreadRow>, spread: SpreadRow, d: int)
    requires spread.date == d
    ensures forall e :: HasSpreadFor(spreads, e) || e == d ==> HasSpreadFor(spreads + [spread], e)
  {
    var now := spreads + [spread];
    assert now[|spreads|].date == d;
    forall e | HasSpreadFor(spreads, e) ensures HasSpreadFor(now, e) {
      var i :| 0 <= i < |spreads| && spreads[i].date == e;
      assert now[i].date == e;
    }
  }
}
