/** The observations of one date, by their positions in the panel. */
module RankedPanel {
  import opened Ranks
  import opened Sequences

  /** A prediction with its realized excess return. */
  datatype Observation = Observation(date: int, score: real, excess: real)

  /** The symbols of one date: score and excess return of each. */
  datatype Group = Group(date: int, scores: seq<real>, returned: seq<real>)

  function SumOf(xs: seq<real>): real {
    if xs == [] then 0.0 else SumOf(xs[..|xs| - 1]) + xs[|xs| - 1]
  }

  function MeanOf(xs: seq<real>): real
    requires xs != []
  {
    SumOf(xs) / |xs| as real
  }

  lemma SumOfOneMore(xs: seq<real>, x: real)
    ensures SumOf(xs + [x]) == SumOf(xs) + x && SumOf(xs + []) == SumOf(xs)
  {
    assert (xs + [x])[..|xs|] == xs && xs + [] == xs;
  }

  /** The values whose bucket is `b`, in order. */
  function InBucket(values: seq<real>, ids: seq<int>, b: int): seq<real>
    requires |values| == |ids|
  {
    if values == [] then []
    else
      var n := |values| - 1;
      InBucket(values[..n], ids[..n], b) + if ids[n] == b then [values[n]] else []
  }

  function DateOf(o: Observation): int {
    o.date
  }

  function ScoreOf(o: Observation): real {
    o.score
  }

  function ExcessOf(o: Observation): real {
    o.excess
  }

  function OnDate(d: int): Observation -> bool {
    (o: Observation) => o.date == d
  }

  function GroupOn(panel: seq<Observation>, d: int): (g: Group)
    ensures |g.scores| == |g.returned| == |Filter(panel, OnDate(d))| && g.date == d
  {
    var rows := Filter(panel, OnDate(d));
    Group(d, Map(rows, ScoreOf), Map(rows, ExcessOf))
  }

  // ----- by position in the panel -----

  /** The positions of a date. */
  function SameDate(panel: seq<Observation>, d: int): (at: set<nat>)
    ensures forall i: nat :: i in at <==> i < |panel| && panel[i].date == d
  {
    set i: nat | i < |panel| && panel[i].date == d
  }

  /** The positions of its date that score lower, or equally and come earlier. */
  function RankedLower(panel: seq<Observation>, i: nat): (at: set<nat>)
    requires i < |panel|
    ensures forall j: nat :: j in at <==>
      && j < |panel| && panel[j].date == panel[i].date
      && (panel[j].score < panel[i].score || (panel[j].score == panel[i].score && j < i))
  {
    set j: nat |
      && j < |panel| && panel[j].date == panel[i].date
      && (panel[j].score < panel[i].score || (panel[j].score == panel[i].score && j < i))
  }

  /** The share of its date that ranks lower, times the number of buckets, rounded down. */
  function BucketAt(panel: seq<Observation>, i: nat, buckets: nat): int
    requires i < |panel|
  {
    assert i in SameDate(panel, panel[i].date);
    |RankedLower(panel, i)| * buckets / |SameDate(panel, panel[i].date)|
  }

  /** The positions of a date in one bucket. */
  function BucketMembers(panel: seq<Observation>, d: int, b: int, buckets: nat): (at: set<nat>)
    ensures forall i: nat :: i in at <==> i < |panel| && panel[i].date == d && BucketAt(panel, i, buckets) == b
  {
    set i: nat | i < |panel| && panel[i].date == d && BucketAt(panel, i, buckets) == b
  }

  function ExcessOver(panel: seq<Observation>, at: set<nat>): real {
    if panel == [] then 0.0
    else
      var n := |panel| - 1;
      ExcessOver(panel[..n], at) + if n in at then panel[n].excess else 0.0
  }

  /** Positions of a date, ascending, and the observations at them. */
  ghost predicate ArePositions(at: seq<nat>, rows: seq<Observation>, panel: seq<Observation>, d: int) {
    && |at| == |rows|
    && (forall k :: 0 <= k < |at| ==> at[k] < |panel| && panel[at[k]] == rows[k])
    && (forall k, l :: 0 <= k < l < |at| ==> at[k] < at[l])
    && (forall i: nat :: i in at <==> i < |panel| && panel[i].date == d)
  }

  lemma PositionsGrow(at: seq<nat>, rows: seq<Observation>, panel: seq<Observation>, d: int)
    requires panel != [] && ArePositions(at, rows, panel[..|panel| - 1], d)
    ensures panel[|panel| - 1].date == d ==>
      ArePositions(at + [|panel| - 1], rows + [panel[|panel| - 1]], panel, d)
    ensures panel[|panel| - 1].date != d ==> ArePositions(at, rows, panel, d)
  {
    var n := |panel| - 1;
    forall i: nat ensures i in at + [n] <==> i in at || i == n {
    }
    forall k | 0 <= k < |at| ensures at[k] < n && panel[at[k]] == rows[k] {
      assert panel[..n][at[k]] == rows[k];
    }
  }

  /** The positions of a date, ascending: where its group comes from. */
  function PositionsOn(panel: seq<Observation>, d: int): (at: seq<nat>)
    ensures ArePositions(at, Filter(panel, OnDate(d)), panel, d)
  {
    if panel == [] then []
    else
      var n := |panel| - 1;
      var before := PositionsOn(panel[..n], d);
      PositionsGrow(before, Filter(panel[..n], OnDate(d)), panel, d);
      assert Filter(panel[..n], OnDate(d)) + [] == Filter(panel[..n], OnDate(d));
      if panel[n].date == d then before + [n] else before
  }

  function PositionIn(at: seq<nat>): nat -> nat {
    (k: nat) => if k < |at| then at[k] else 0
  }

  lemma AscendingPositions(at: seq<nat>, k: nat, l: nat)
    requires forall i, j :: 0 <= i < j < |at| ==> at[i] < at[j]
    requires k < |at| && l < |at|
    ensures at[k] < at[l] <==> k < l
    ensures at[k] == at[l] <==> k == l
  {
  }

  lemma ImageOfPositions(at: seq<nat>, I: set<nat>)
    requires forall i, j :: 0 <= i < j < |at| ==> at[i] < at[j]
    requires forall k :: k in I ==> k < |at|
    ensures |Image(I, PositionIn(at))| == |I|
  {
    forall i, j | i in I && j in I && PositionIn(at)(i) == PositionIn(at)(j) ensures i == j {
      AscendingPositions(at, i, j);
    }
    ImageSize(I, PositionIn(at));
  }

  lemma SizeOfDate(panel: seq<Observation>, d: int)
    ensures |SameDate(panel, d)| == |GroupOn(panel, d).scores|
  {
    var at := PositionsOn(panel, d);
    ImageOfPositions(at, Below(|at|));
    forall i: nat ensures i in Image(Below(|at|), PositionIn(at)) <==> i in SameDate(panel, d) {
      if i in SameDate(panel, d) {
        assert i in at;
        var k: nat :| k < |at| && at[k] == i;
        assert PositionIn(at)(k) == i && k in Below(|at|);
      }
    }
    assert Image(Below(|at|), PositionIn(at)) == SameDate(panel, d);
  }

  lemma ScoreOfPosition(panel: seq<Observation>, d: int, k: nat)
    requires k < |PositionsOn(panel, d)|
    ensures GroupOn(panel, d).scores[k] == panel[PositionsOn(panel, d)[k]].score
    ensures GroupOn(panel, d).returned[k] == panel[PositionsOn(panel, d)[k]].excess
    ensures panel[PositionsOn(panel, d)[k]].date == d
  {
    assert PositionsOn(panel, d)[k] in PositionsOn(panel, d);
  }

  lemma RankOfPosition(panel: seq<Observation>, d: int, k: nat)
    requires k < |PositionsOn(panel, d)|
    ensures Rank(GroupOn(panel, d).scores, k) == |RankedLower(panel, PositionsOn(panel, d)[k])|
  {
    var at, scores := PositionsOn(panel, d), GroupOn(panel, d).scores;
    var lower := Lower(scores, k);
    ImageOfPositions(at, lower);
    ScoreOfPosition(panel, d, k);
    forall i: nat ensures i in Image(lower, PositionIn(at)) <==> i in RankedLower(panel, at[k]) {
      LowerPosition(panel, d, k, i);
    }
    assert Image(lower, PositionIn(at)) == RankedLower(panel, at[k]);
  }

  lemma LowerByScore(panel: seq<Observation>, d: int, j: nat, k: nat)
    requires j < |PositionsOn(panel, d)| && k < |PositionsOn(panel, d)|
    ensures var at := PositionsOn(panel, d);
            j in Lower(GroupOn(panel, d).scores, k) <==> at[j] in RankedLower(panel, at[k])
  {
    ScoreOfPosition(panel, d, k);
    ScoreOfPosition(panel, d, j);
    AscendingPositions(PositionsOn(panel, d), j, k);
  }

  lemma LowerPosition(panel: seq<Observation>, d: int, k: nat, i: nat)
    requires k < |PositionsOn(panel, d)|
    ensures i in Image(Lower(GroupOn(panel, d).scores, k), PositionIn(PositionsOn(panel, d))) <==>
            i in RankedLower(panel, PositionsOn(panel, d)[k])
  {
    var at, lower := PositionsOn(panel, d), Lower(GroupOn(panel, d).scores, k);
    if i in Image(lower, PositionIn(at)) {
      var j :| j in lower && PositionIn(at)(j) == i;
      LowerByScore(panel, d, j, k);
    }
    if i in RankedLower(panel, at[k]) {
      ScoreOfPosition(panel, d, k);
      assert i in at;
      var j: nat :| j < |at| && at[j] == i;
      LowerByScore(panel, d, j, k);
      assert PositionIn(at)(j) == i;
    }
  }

  /** The bucket a group assigns to its `k`-th score is that of the score's position. */
  lemma BucketOfPosition(panel: seq<Observation>, d: int, k: nat, buckets: nat)
    requires k < |PositionsOn(panel, d)| && 0 < buckets
    ensures BucketOf(GroupOn(panel, d).scores, k, buckets) == BucketAt(panel, PositionsOn(panel, d)[k], buckets)
  {
    var i, scores := PositionsOn(panel, d)[k], GroupOn(panel, d).scores;
    ScoreOfPosition(panel, d, k);
    RankOfPosition(panel, d, k);
    SizeOfDate(panel, d);
    BucketIsOfRank(scores, k, buckets);
    FloorIsQuotient(Rank(scores, k), |scores|, buckets);
  }

  // ----- sums over a bucket -----

  type IdOf = nat -> int

  function Selected(panel: seq<Observation>, d: int, id: IdOf, b: int): (at: set<nat>)
    ensures forall i: nat :: i in at <==> i < |panel| && panel[i].date == d && id(i) == b
  {
    set i: nat | i < |panel| && panel[i].date == d && id(i) == b
  }

  lemma {:induction false} ExcessOfSame(panel: seq<Observation>, at: set<nat>, also: set<nat>)
    requires forall i: nat :: i < |panel| ==> (i in at <==> i in also)
    ensures ExcessOver(panel, at) == ExcessOver(panel, also)
  {
    if panel != [] {
      ExcessOfSame(panel[..|panel| - 1], at, also);
    }
  }

  lemma GroupOfOneMore(panel: seq<Observation>, d: int)
    requires panel != []
    ensures var o := panel[|panel| - 1];
            GroupOn(panel, d).returned
              == GroupOn(panel[..|panel| - 1], d).returned + if o.date == d then [o.excess] else []
  {
    var front, o := panel[..|panel| - 1], panel[|panel| - 1];
    if o.date == d {
      assert Map(Filter(front, OnDate(d)) + [o], ExcessOf) == Map(Filter(front, OnDate(d)), ExcessOf) + [o.excess];
    } else {
      assert Filter(panel, OnDate(d)) == Filter(front, OnDate(d));
    }
  }

  lemma InBucketOfOneMore(values: seq<real>, ids: seq<int>, b: int, value: real, id: int)
    requires |values| == |ids|
    ensures InBucket(values + [value], ids + [id], b) == InBucket(values, ids, b) + if id == b then [value] else []
  {
    assert (values + [value])[..|values|] == values && (ids + [id])[..|ids|] == ids;
  }

  function IdsOn(panel: seq<Observation>, d: int, id: IdOf): seq<int> {
    Map(PositionsOn(panel, d), id)
  }

  lemma SelectedOfOneMore(panel: seq<Observation>, d: int, id: IdOf, b: int)
    requires panel != []
    ensures var n := |panel| - 1;
            |Selected(panel, d, id, b)|
              == |Selected(panel[..n], d, id, b)| + if panel[n].date == d && id(n) == b then 1 else 0
  {
    var n := |panel| - 1;
    var before := Selected(panel[..n], d, id, b);
    assert Selected(panel, d, id, b) == before + if panel[n].date == d && id(n) == b then {n} else {};
  }

  lemma ExcessOfOneMore(panel: seq<Observation>, d: int, id: IdOf, b: int)
    requires panel != []
    ensures var n := |panel| - 1;
            ExcessOver(panel, Selected(panel, d, id, b)) == ExcessOver(panel[..n], Selected(panel[..n], d, id, b))
              + if panel[n].date == d && id(n) == b then panel[n].excess else 0.0
  {
    ExcessOfSame(panel[..|panel| - 1], Selected(panel[..|panel| - 1], d, id, b), Selected(panel, d, id, b));
  }

  function Held(panel: seq<Observation>, d: int, id: IdOf, b: int): seq<real> {
    InBucket(GroupOn(panel, d).returned, IdsOn(panel, d, id), b)
  }

  lemma {:induction false} SumOverPositions(panel: seq<Observation>, d: int, id: IdOf, b: int)
    ensures SumOf(Held(panel, d, id, b)) == ExcessOver(panel, Selected(panel, d, id, b))
  {
    if panel != [] {
      SumOverPositions(panel[..|panel| - 1], d, id, b);
      NextPosition(panel, d, id, b);
      ExcessOfOneMore(panel, d, id, b);
    }
  }

  lemma {:induction false} SizeOverPositions(panel: seq<Observation>, d: int, id: IdOf, b: int)
    ensures |Held(panel, d, id, b)| == |Selected(panel, d, id, b)|
  {
    if panel == [] {
      assert Selected(panel, d, id, b) == {};
    } else {
      SizeOverPositions(panel[..|panel| - 1], d, id, b);
      NextPosition(panel, d, id, b);
      SelectedOfOneMore(panel, d, id, b);
    }
  }

  lemma IdsOfOneMore(panel: seq<Observation>, d: int, id: IdOf)
    requires panel != []
    ensures var n := |panel| - 1;
            IdsOn(panel, d, id) == IdsOn(panel[..n], d, id) + if panel[n].date == d then [id(n)] else []
  {
  }

  lemma BucketWithOneMore(values: seq<real>, ids: seq<int>, b: int, value: real, id: int, here: bool)
    requires |values| == |ids|
    ensures var now := InBucket(values + (if here then [value] else []), ids + (if here then [id] else []), b);
            && SumOf(now) == SumOf(InBucket(values, ids, b)) + (if here && id == b then value else 0.0)
            && |now| == |InBucket(values, ids, b)| + if here && id == b then 1 else 0
  {
    if here {
      InBucketOfOneMore(values, ids, b, value, id);
      SumOfOneMore(InBucket(values, ids, b), value);
    } else {
      assert values + [] == values && ids + [] == ids;
    }
  }

  lemma NextPosition(panel: seq<Observation>, d: int, id: IdOf, b: int)
    requires panel != []
    ensures var n := |panel| - 1;
            var before, now := Held(panel[..n], d, id, b), Held(panel, d, id, b);
            && SumOf(now) == SumOf(before) + (if panel[n].date == d && id(n) == b then panel[n].excess else 0.0)
            && |now| == |before| + if panel[n].date == d && id(n) == b then 1 else 0
  {
    var n := |panel| - 1;
    GroupOfOneMore(panel, d);
    IdsOfOneMore(panel, d, id);
    BucketWithOneMore(GroupOn(panel[..n], d).returned, IdsOn(panel[..n], d, id), b, panel[n].excess, id(n),
                      panel[n].date == d);
  }

  function IdAt(panel: seq<Observation>, buckets: nat): IdOf {
    (i: nat) => if i < |panel| then BucketAt(panel, i, buckets) else -1
  }

  /** The buckets assigned to a date's scores, and what they hold, by position. */
  lemma BucketsByPosition(panel: seq<Observation>, d: int, buckets: nat, b: int)
    requires 0 < buckets && 2 <= |SameDate(panel, d)|
    ensures var g := GroupOn(panel, d);
            var ids := AssignRankBuckets(g.scores, buckets);
            var at := BucketMembers(panel, d, b, buckets);
            && |ids| == |g.returned| == |SameDate(panel, d)|
            && SumOf(InBucket(g.returned, ids, b)) == ExcessOver(panel, at)
            && |InBucket(g.returned, ids, b)| == |at|
            && (b in ids <==> at != {})
  {
    var g, positions := GroupOn(panel, d), PositionsOn(panel, d);
    var ids, id := AssignRankBuckets(g.scores, buckets), IdAt(panel, buckets);
    SizeOfDate(panel, d);
    forall k: nat | k < |ids| ensures ids[k] == id(positions[k]) {
      BucketOfPosition(panel, d, k, buckets);
    }
    assert ids == IdsOn(panel, d, id);
    SumOverPositions(panel, d, id, b);
    SizeOverPositions(panel, d, id, b);
    assert Selected(panel, d, id, b) == BucketMembers(panel, d, b, buckets);
    BucketIsHeld(panel, d, b, buckets, ids);
  }

  lemma BucketIsHeld(panel: seq<Observation>, d: int, b: int, buckets: nat, ids: seq<int>)
    requires ids == IdsOn(panel, d, IdAt(panel, buckets))
    ensures b in ids <==> BucketMembers(panel, d, b, buckets) != {}
  {
    var positions := PositionsOn(panel, d);
    if b in ids {
      var k :| 0 <= k < |ids| && ids[k] == b;
      assert positions[k] in positions;
      assert positions[k] in BucketMembers(panel, d, b, buckets);
    }
    if i :| i in BucketMembers(panel, d, b, buckets) {
      assert i in positions;
      var k :| 0 <= k < |positions| && positions[k] == i;
      assert ids[k] == b;
    }
  }
}
