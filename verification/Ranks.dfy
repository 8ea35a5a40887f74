/** Ranks of scores, ties in order of appearance, and the buckets they are cut into
    (`_assign_rank_buckets` in `analysis/signal_diagnostics.py`). */
module Ranks {
  import opened Sequences

  /** Lower score first; equal scores in the order they come. */
  predicate RankedBefore(scores: seq<real>, i: nat, j: nat)
    requires i < |scores| && j < |scores|
  {
    scores[i] < scores[j] || (scores[i] == scores[j] && i < j)
  }

  function Lower(scores: seq<real>, i: nat): set<nat>
    requires i < |scores|
  {
    set j: nat | j in Below(|scores|) && RankedBefore(scores, j, i)
  }

  function Rank(scores: seq<real>, i: nat): nat
    requires i < |scores|
  {
    |Lower(scores, i)|
  }

  function UnclippedBucket(rank: nat, n: nat, buckets: nat): int
    requires n > 0
  {
    (rank as real / n as real * buckets as real).Floor
  }

  function Clip(x: int, low: int, high: int): int {
    if x > high then high else if x < low then low else x
  }

  function BucketOf(scores: seq<real>, i: nat, buckets: nat): int
    requires i < |scores|
  {
    Clip(UnclippedBucket(Rank(scores, i), |scores|, buckets), 0, buckets - 1)
  }

  /** `_assign_rank_buckets`; fewer than two scores get no buckets. */
  function AssignRankBuckets(scores: seq<real>, buckets: nat): seq<int> {
    if |scores| < 2 then [] else seq(|scores|, i requires 0 <= i < |scores| => BucketOf(scores, i, buckets))
  }

  // ----- ranks are a numbering -----

  lemma RanksAreOrdered(scores: seq<real>, i: nat, j: nat)
    requires i < |scores| && j < |scores|
    ensures RankedBefore(scores, i, j) <==> Rank(scores, i) < Rank(scores, j)
    ensures Rank(scores, i) < |scores|
  {
    if RankedBefore(scores, i, j) {
      LowerIsSmaller(scores, i, j);
    } else if i != j {
      LowerIsSmaller(scores, j, i);
    }
    SmallerSubset(Lower(scores, i), Below(|scores|) - {i});
  }

  lemma LowerIsSmaller(scores: seq<real>, i: nat, j: nat)
    requires i < |scores| && j < |scores| && RankedBefore(scores, i, j)
    ensures Rank(scores, i) < Rank(scores, j)
  {
    assert i in Lower(scores, j);
    SmallerSubset(Lower(scores, i), Lower(scores, j) - {i});
  }

  lemma {:induction false} SmallerSubset<T>(s: set<T>, t: set<T>)
    requires s <= t
    ensures |s| <= |t|
    ensures s != t ==> |s| < |t|
  {
    if s != t {
      assert t == s + (t - s) && t - s != {};
    }
  }

  ghost function Image(I: set<nat>, f: nat -> nat): set<nat> {
    set i | i in I :: f(i)
  }

  lemma {:induction false} ImageSize(I: set<nat>, f: nat -> nat)
    requires forall i, j :: i in I && j in I && f(i) == f(j) ==> i == j
    ensures |Image(I, f)| == |I|
  {
    if I != {} {
      var x :| x in I;
      ImageSize(I - {x}, f);
      assert Image(I, f) == Image(I - {x}, f) + {f(x)};
    }
  }

  /** `f` gives the indices below `n` different numbers below `n`. */
  ghost predicate Numbers(n: nat, f: nat -> nat) {
    && (forall i, j :: 0 <= i < j < n ==> f(i) != f(j))
    && (forall i :: 0 <= i < n ==> f(i) < n)
  }

  /** The ranks of `n` scores are the numbers below `n`, each once. */
  lemma RanksAreNumbering(scores: seq<real>)
    ensures Numbers(|scores|, RankIn(scores))
  {
    var n, f := |scores|, RankIn(scores);
    forall i, j | 0 <= i < j < n ensures f(i) != f(j) {
      RanksAreOrdered(scores, i, j);
      RanksAreOrdered(scores, j, i);
    }
    forall i | 0 <= i < n ensures f(i) < n {
      RanksAreOrdered(scores, i, i);
    }
  }

  lemma IndexOf(n: nat, f: nat -> nat, r: nat) returns (i: nat)
    requires Numbers(n, f) && r < n
    ensures i < n && f(i) == r
  {
    if r !in Image(Below(n), f) {
      ImageSize(Below(n), f);
      SmallerSubset(Image(Below(n), f), Below(n) - {r});
      assert false;
    }
    i :| i in Below(n) && f(i) == r;
  }

  /** As many indices have a rank in an interval as the interval has ranks. */
  lemma RanksFillInterval(n: nat, f: nat -> nat, bucket: nat -> int, b: int, low: nat, high: nat)
    requires Numbers(n, f) && low <= high <= n
    requires forall i :: 0 <= i < n ==> (bucket(i) == b <==> low <= f(i) < high)
    ensures |Where(n, bucket, b)| == high - low
  {
    var M := Where(n, bucket, b);
    ImageSize(M, f);
    forall r: nat | low <= r < high ensures r in Image(M, f) {
      var i := IndexOf(n, f, r);
      assert i in M;
    }
    assert Image(M, f) == Interval(low, high);
  }

  function Interval(low: nat, high: nat): (s: set<nat>)
    requires low <= high
    ensures |s| == high - low && forall i: nat :: i in s <==> low <= i < high
    decreases high - low
  {
    if low == high then {} else Interval(low, high - 1) + {high - 1}
  }

  function RankIn(scores: seq<real>): nat -> nat {
    (i: nat) => if i < |scores| then Rank(scores, i) else 0
  }

  // ----- bucket ids -----

  lemma TimesIsMonotone(a: int, b: int, d: nat)
    ensures a <= b ==> a * d <= b * d
  {
    assert a <= b ==> (b - a) * d >= 0;
  }

  lemma QuotientBounds(x: int, d: nat, q: int)
    requires d > 0
    ensures q == x / d <==> q * d <= x < q * d + d
  {
    var r := x - d * (x / d);
    assert 0 <= r < d;
    assert (q + 1) * d == q * d + d && (x / d + 1) * d == x / d * d + d;
    TimesIsMonotone(q + 1, x / d, d);
    TimesIsMonotone(x / d + 1, q, d);
  }

  lemma FloorIsQuotient(r: nat, n: nat, buckets: nat)
    requires n > 0
    ensures UnclippedBucket(r, n, buckets) == r * buckets / n
  {
    var exact := r as real / n as real * buckets as real;
    var q := r * buckets / n;
    QuotientBounds(r * buckets, n, q);
    RatioTimes(r as real, n as real, buckets as real);
    assert exact * n as real == (r * buckets) as real;
    assert q as real * n as real == (q * n) as real;
    BetweenProducts(exact, n as real, q as real, (r * buckets) as real, (q * n) as real);
  }

  lemma RatioTimes(r: real, n: real, b: real)
    requires n > 0.0
    ensures r / n * b * n == r * b
  {
    var x := r / n;
    assert x * n == r;
    assert x * b * n == x * n * b;
  }

  lemma BetweenProducts(x: real, n: real, q: real, xn: real, qn: real)
    requires n > 0.0 && qn <= xn < qn + n && x * n == xn && q * n == qn
    ensures q <= x < q + 1.0
  {
    var d := x - q;
    assert d * n == xn - qn;
    assert d < 0.0 ==> d * n < 0.0;
    assert d >= 1.0 ==> (d - 1.0) * n >= 0.0;
  }

  function CeilDiv(x: nat, d: nat): (q: nat)
    requires d > 0
  {
    (x + d - 1) / d
  }

  /** The lowest rank that goes to bucket `b` or a higher one. */
  function FirstRank(n: nat, buckets: nat, b: nat): nat
    requires buckets > 0
  {
    CeilDiv(b * n, buckets)
  }

  lemma CeilDivBounds(x: nat, d: nat, r: nat)
    requires d > 0
    ensures r >= CeilDiv(x, d) <==> r * d >= x
  {
    QuotientBounds(x + d - 1, d, CeilDiv(x, d));
    TimesIsMonotone(CeilDiv(x, d), r, d);
    TimesIsMonotone(r + 1, CeilDiv(x, d), d);
    assert (r + 1) * d == r * d + d;
  }

  /** Ids are within range before clipping, and id `b` goes to the ranks of one interval. */
  lemma BucketsNeedNoClip(r: nat, n: nat, buckets: nat, b: nat)
    requires r < n && buckets > 0
    ensures 0 <= UnclippedBucket(r, n, buckets) < buckets
    ensures UnclippedBucket(r, n, buckets) == b <==> FirstRank(n, buckets, b) <= r < FirstRank(n, buckets, b + 1)
  {
    FloorIsQuotient(r, n, buckets);
    var id := r * buckets / n;
    QuotientBounds(r * buckets, n, id);
    assert r * buckets < n * buckets;
    TimesIsMonotone(buckets, id, n);
    TimesIsMonotone(id + 1, 0, n);
    assert (id + 1) * n == id * n + n;
    QuotientBounds(r * buckets, n, b);
    CeilDivBounds(b * n, buckets, r);
    CeilDivBounds((b + 1) * n, buckets, r);
    assert (b + 1) * n == b * n + n;
  }

  lemma BucketIsOfRank(scores: seq<real>, i: nat, buckets: nat)
    requires i < |scores| && buckets > 0
    ensures BucketOf(scores, i, buckets) == UnclippedBucket(Rank(scores, i), |scores|, buckets)
    ensures 0 <= BucketOf(scores, i, buckets) < buckets
  {
    RanksAreOrdered(scores, i, i);
    BucketsNeedNoClip(Rank(scores, i), |scores|, buckets, 0);
  }

  lemma QuotientsAreOrdered(r: nat, s: nat, n: nat, buckets: nat)
    requires r <= s < n && buckets > 0
    ensures UnclippedBucket(r, n, buckets) <= UnclippedBucket(s, n, buckets)
  {
    FloorIsQuotient(r, n, buckets);
    FloorIsQuotient(s, n, buckets);
    TimesIsMonotone(r, s, buckets);
    QuotientIsMonotone(r * buckets, s * buckets, n);
  }

  lemma QuotientIsMonotone(x: nat, y: nat, n: nat)
    requires x <= y && n > 0
    ensures x / n <= y / n
  {
    QuotientBounds(x, n, x / n);
    QuotientBounds(y, n, y / n);
    assert (y / n + 1) * n == y / n * n + n;
    TimesIsMonotone(y / n + 1, x / n, n);
  }

  /** A higher score never has a lower bucket. */
  lemma BucketsFollowScores(scores: seq<real>, i: nat, j: nat, buckets: nat)
    requires i < |scores| && j < |scores| && buckets > 0
    ensures RankedBefore(scores, i, j) ==> BucketOf(scores, i, buckets) <= BucketOf(scores, j, buckets)
    ensures BucketOf(scores, i, buckets) < BucketOf(scores, j, buckets) ==> scores[i] <= scores[j]
  {
    BucketIsOfRank(scores, i, buckets);
    BucketIsOfRank(scores, j, buckets);
    RanksAreOrdered(scores, i, j);
    RanksAreOrdered(scores, j, i);
    var r, s := Rank(scores, i), Rank(scores, j);
    if r <= s {
      QuotientsAreOrdered(r, s, |scores|, buckets);
    } else {
      QuotientsAreOrdered(s, r, |scores|, buckets);
    }
  }

  // ----- bucket sizes -----

  function Members(scores: seq<real>, buckets: nat, b: int): set<nat> {
    Where(|scores|, BucketIn(scores, buckets), b)
  }

  function Where(n: nat, bucket: nat -> int, b: int): set<nat> {
    set i: nat | i in Below(n) && bucket(i) == b
  }

  function BucketIn(scores: seq<real>, buckets: nat): nat -> int {
    (i: nat) => if i < |scores| then BucketOf(scores, i, buckets) else -1
  }

  lemma MembersAreRankInterval(scores: seq<real>, buckets: nat, b: nat)
    requires buckets > 0 && b < buckets
    ensures |Members(scores, buckets, b)| == FirstRank(|scores|, buckets, b + 1) - FirstRank(|scores|, buckets, b)
  {
    forall i: nat | i < |scores|
      ensures BucketIn(scores, buckets)(i) == b <==>
              FirstRank(|scores|, buckets, b) <= RankIn(scores)(i) < FirstRank(|scores|, buckets, b + 1)
    {
      MemberByRank(scores, buckets, b, i);
    }
    IntervalIsWithin(|scores|, buckets, b);
    RanksAreNumbering(scores);
    RanksFillInterval(|scores|, RankIn(scores), BucketIn(scores, buckets), b,
      FirstRank(|scores|, buckets, b), FirstRank(|scores|, buckets, b + 1));
  }

  lemma MemberByRank(scores: seq<real>, buckets: nat, b: nat, i: nat)
    requires i < |scores| && buckets > 0
    ensures BucketOf(scores, i, buckets) == b <==>
              FirstRank(|scores|, buckets, b) <= RankIn(scores)(i) < FirstRank(|scores|, buckets, b + 1)
  {
    BucketIsOfRank(scores, i, buckets);
    RanksAreOrdered(scores, i, i);
    BucketsNeedNoClip(Rank(scores, i), |scores|, buckets, b);
  }

  lemma IntervalIsWithin(n: nat, buckets: nat, b: nat)
    requires buckets > 0 && b < buckets
    ensures FirstRank(n, buckets, b) <= FirstRank(n, buckets, b + 1) <= n
  {
    assert (b + 1) * n == b * n + n;
    QuotientIsMonotone(b * n + buckets - 1, (b + 1) * n + buckets - 1, buckets);
    TimesIsMonotone(b + 1, buckets, n);
    CeilDivBounds((b + 1) * n, buckets, n);
  }

  /** Every bucket has the size of an even split, rounded down or up. */
  lemma BucketsAreBalanced(scores: seq<real>, buckets: nat, b: nat)
    requires buckets > 0 && b < buckets
    ensures |scores| / buckets <= |Members(scores, buckets, b)| <= CeilDiv(|scores|, buckets)
    ensures |scores| % buckets == 0 ==> |Members(scores, buckets, b)| == |scores| / buckets
  {
    MembersAreRankInterval(scores, buckets, b);
    EvenSplit(|scores|, buckets, b);
  }

  lemma EvenSplit(n: nat, buckets: nat, b: nat)
    requires buckets > 0
    ensures n / buckets <= FirstRank(n, buckets, b + 1) - FirstRank(n, buckets, b) <= CeilDiv(n, buckets)
    ensures CeilDiv(n, buckets) <= n / buckets + 1 && (n % buckets == 0 ==> CeilDiv(n, buckets) == n / buckets)
  {
    var x := b * n;
    assert (b + 1) * n == x + n;
    QuotientBounds(x + buckets - 1, buckets, CeilDiv(x, buckets));
    QuotientBounds(x + n + buckets - 1, buckets, CeilDiv(x + n, buckets));
    QuotientBounds(n + buckets - 1, buckets, CeilDiv(n, buckets));
    QuotientBounds(n, buckets, n / buckets);
    StepsApart(CeilDiv(x, buckets), CeilDiv(x + n, buckets), n / buckets, CeilDiv(n, buckets), x, n, buckets);
  }

  lemma StepsApart(low: int, high: int, down: int, up: int, x: nat, n: nat, d: nat)
    requires d > 0
    requires low * d <= x + d - 1 < low * d + d && high * d <= x + n + d - 1 < high * d + d
    requires up * d <= n + d - 1 < up * d + d && down * d <= n < down * d + d
    ensures down <= high - low <= up
    ensures up <= down + 1 && (n % d == 0 ==> up == down)
  {
    assert (high - low - up) * d == high * d - low * d - up * d;
    assert (high - low - down) * d == high * d - low * d - down * d;
    assert (up - down) * d == up * d - down * d;
    FewerThanOne(high - low - up, d);
    FewerThanOne(down - (high - low), d);
    FewerThanOne(up - down - 1, d);
    if n % d == 0 {
      QuotientBounds(n, d, down);
      FewerThanOne(up - down, d);
      FewerThanOne(down - up, d);
    }
  }

  lemma FewerThanOne(k: int, d: nat)
    requires d > 0 && k * d < d
    ensures k <= 0
  {
    TimesIsMonotone(1, k, d);
  }
}
