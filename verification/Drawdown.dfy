/** Equity curves, drawdowns and losing streaks (`trade_planner/indicators.py`,
    `backtest/metrics.py`, `scripts/run_momentum_robustness_study.py`). */
module Drawdown {
  import opened Numbers
  import opened Sequences

  function Drop(peak: real, value: real): real {
    if peak > 0.0 then (peak - value) / peak else 0.0
  }

  /** The highest value of a curve. */
  function Peak(curve: seq<real>): real
    requires curve != []
  {
    if |curve| == 1 then curve[0] else Max(Peak(curve[..|curve| - 1]), curve[|curve| - 1])
  }

  /** What the one-pass loop arrives at. */
  function OnePass(curve: seq<real>): real {
    if curve == [] then 0.0 else Max(OnePass(curve[..|curve| - 1]), Drop(Peak(curve), curve[|curve| - 1]))
  }

  /** `max_drawdown_pct`. */
  method MaxDrawdownPct(curve: seq<real>) returns (drawdown: real)
    ensures drawdown == OnePass(curve) && IsDeepestDrop(curve, drawdown)
  {
    OnePassIsDeepestDrop(curve);
    if curve == [] {
      return 0.0;
    }
    var peak := curve[0];
    drawdown := 0.0;
    for k := 0 to |curve|
      invariant drawdown == OnePass(curve[..k]) && peak == Peak(curve[..if k == 0 then 1 else k])
    {
      assert curve[..k + 1][..k] == curve[..k];
      if curve[k] > peak {
        peak := curve[k];
      }
      if peak > 0.0 {
        drawdown := Max(drawdown, (peak - curve[k]) / peak);
      }
      OnePassIsNotNegative(curve[..k]);
    }
    assert curve[..|curve|] == curve;
  }

  lemma {:induction false} OnePassIsNotNegative(curve: seq<real>)
    ensures OnePass(curve) >= 0.0
  {
    if curve != [] {
      OnePassIsNotNegative(curve[..|curve| - 1]);
    }
  }

  // ----- what one pass finds on any curve -----

  function Fall(curve: seq<real>, i: nat, j: nat): real
    requires i < |curve| && j < |curve| && curve[i] != 0.0
  {
    (curve[i] - curve[j]) / curve[i]
  }

  /** Value `i` is positive and the high of all values up to `j`. */
  predicate IsHighUpTo(curve: seq<real>, i: nat, j: nat) {
    i <= j < |curve| && curve[i] > 0.0 && forall k :: 0 <= k <= j ==> curve[k] <= curve[i]
  }

  /** The largest relative fall from a running high, on any curve. */
  ghost predicate IsDeepestDrop(curve: seq<real>, drawdown: real) {
    && 0.0 <= drawdown
    && (forall i: nat, j: nat :: IsHighUpTo(curve, i, j) ==> Fall(curve, i, j) <= drawdown)
    && (0.0 < drawdown ==>
          exists i: nat, j: nat :: IsHighUpTo(curve, i, j) && Fall(curve, i, j) == drawdown)
  }

  lemma HighIsPeak(curve: seq<real>, i: nat, j: nat)
    requires IsHighUpTo(curve, i, j)
    ensures curve[i] == Peak(curve[..j + 1])
  {
    var at := PeakIsHighest(curve[..j + 1]);
    assert curve[..j + 1][i] == curve[i];
  }

  lemma HighInFront(curve: seq<real>, n: nat, i: nat, j: nat)
    requires n < |curve| && j < n
    ensures IsHighUpTo(curve[..n], i, j) <==> IsHighUpTo(curve, i, j)
  {
    if IsHighUpTo(curve[..n], i, j) {
      forall k | 0 <= k <= j ensures curve[k] <= curve[i] {
        assert curve[..n][k] <= curve[..n][i];
      }
    }
  }

  lemma {:induction false} OnePassIsDeepestDrop(curve: seq<real>)
    ensures IsDeepestDrop(curve, OnePass(curve))
  {
    if curve != [] {
      OnePassIsDeepestDrop(curve[..|curve| - 1]);
      DropsAreAtMost(curve, OnePass(curve[..|curve| - 1]));
      DeepestDropExists(curve, OnePass(curve[..|curve| - 1]));
      OnePassIsNotNegative(curve);
    }
  }

  lemma EarlierDropIsAtMost(curve: seq<real>, n: nat, before: real, i: nat, j: nat)
    requires n < |curve| && IsDeepestDrop(curve[..n], before) && IsHighUpTo(curve, i, j) && j < n
    ensures Fall(curve, i, j) <= before
  {
    HighInFront(curve, n, i, j);
    assert Fall(curve[..n], i, j) == Fall(curve, i, j);
  }

  lemma LastDropIsFromPeak(curve: seq<real>, i: nat, j: nat)
    requires IsHighUpTo(curve, i, j) && j == |curve| - 1
    ensures Fall(curve, i, j) == Drop(Peak(curve), curve[j])
  {
    HighIsPeak(curve, i, j);
    assert curve[..j + 1] == curve;
  }

  lemma DropIsAtMost(curve: seq<real>, before: real, i: nat, j: nat)
    requires curve != [] && IsDeepestDrop(curve[..|curve| - 1], before) && IsHighUpTo(curve, i, j)
    ensures Fall(curve, i, j) <= Max(before, Drop(Peak(curve), curve[|curve| - 1]))
  {
    if j < |curve| - 1 {
      EarlierDropIsAtMost(curve, |curve| - 1, before, i, j);
    } else {
      LastDropIsFromPeak(curve, i, j);
    }
  }

  lemma DropsAreAtMost(curve: seq<real>, before: real)
    requires curve != [] && IsDeepestDrop(curve[..|curve| - 1], before)
    ensures forall i: nat, j: nat :: IsHighUpTo(curve, i, j) ==>
      Fall(curve, i, j) <= Max(before, Drop(Peak(curve), curve[|curve| - 1]))
  {
    forall i: nat, j: nat | IsHighUpTo(curve, i, j)
      ensures Fall(curve, i, j) <= Max(before, Drop(Peak(curve), curve[|curve| - 1]))
    {
      DropIsAtMost(curve, before, i, j);
    }
  }

  lemma LastDropFalls(curve: seq<real>, n: nat) returns (at: nat)
    requires n < |curve| && 0.0 < Drop(Peak(curve), curve[n]) && n == |curve| - 1
    ensures IsHighUpTo(curve, at, n) && Fall(curve, at, n) == Drop(Peak(curve), curve[n])
  {
    at := PeakIsHighest(curve);
  }

  lemma DeepestDropExists(curve: seq<real>, before: real)
    requires curve != [] && IsDeepestDrop(curve[..|curve| - 1], before)
    ensures var now := Max(before, Drop(Peak(curve), curve[|curve| - 1]));
            0.0 < now ==> exists i: nat, j: nat ::
              IsHighUpTo(curve, i, j) && Fall(curve, i, j) == now
  {
    var n := |curve| - 1;
    if before < Drop(Peak(curve), curve[n]) {
      var at := LastDropFalls(curve, n);
    } else if 0.0 < before {
      var i: nat, j: nat :|
        IsHighUpTo(curve[..n], i, j) && Fall(curve[..n], i, j) == before;
      HighInFront(curve, n, i, j);
      assert Fall(curve, i, j) == before;
    }
  }

  // ----- the largest drop from an earlier value to a later one -----

  predicate Positive(curve: seq<real>) {
    forall i :: 0 <= i < |curve| ==> curve[i] > 0.0
  }

  ghost predicate IsLargestFall(curve: seq<real>, drawdown: real)
    requires Positive(curve)
  {
    && (exists i: nat, j: nat :: i <= j < |curve| && Fall(curve, i, j) == drawdown)
    && (forall i: nat, j: nat :: i <= j < |curve| ==> Fall(curve, i, j) <= drawdown)
  }

  lemma CancelFactor(a: real, b: real, p: real)
    requires p > 0.0 && a * p <= b * p
    ensures a <= b
  {
    assert a > b ==> (a - b) * p > 0.0;
  }

  lemma FallIsOneLessRatio(p: real, v: real)
    requires p > 0.0
    ensures (p - v) / p == 1.0 - v / p == -(v / p - 1.0)
  {
    var x, y := (p - v) / p, 1.0 - v / p;
    assert x * p == p - v && v / p * p == v;
    assert y * p == p - v / p * p;
    CancelFactor(x, y, p);
    CancelFactor(y, x, p);
  }

  lemma DropGrowsWithPeak(p: real, q: real, v: real)
    requires 0.0 < p <= q && v >= 0.0
    ensures (p - v) / p <= (q - v) / q
  {
    FallIsOneLessRatio(p, v);
    FallIsOneLessRatio(q, v);
    var x, y := v / p, v / q;
    assert x * p == v && y * q == v && y >= 0.0;
    assert y * q - y * p == y * (q - p);
    CancelFactor(y, x, p);
  }

  lemma {:induction false} PeakIsHighest(curve: seq<real>) returns (at: nat)
    requires curve != []
    ensures at < |curve| && Peak(curve) == curve[at] && forall k :: 0 <= k < |curve| ==> curve[k] <= Peak(curve)
  {
    if |curve| == 1 {
      at := 0;
    } else {
      at := PeakIsHighest(curve[..|curve| - 1]);
      if curve[|curve| - 1] > Peak(curve[..|curve| - 1]) {
        at := |curve| - 1;
      }
    }
  }

  lemma FallsToLast(curve: seq<real>, drawdown: real)
    requires Positive(curve) && |curve| > 1 && IsLargestFall(curve[..|curve| - 1], drawdown)
    ensures IsLargestFall(curve, Max(drawdown, Drop(Peak(curve), curve[|curve| - 1])))
  {
    var n := |curve| - 1;
    var front, last := curve[..n], Drop(Peak(curve), curve[n]);
    var now := Max(drawdown, last);
    var at := PeakIsHighest(curve);
    forall i: nat, j: nat | i <= j < |curve| ensures Fall(curve, i, j) <= now {
      if j < n {
        assert Fall(curve, i, j) == Fall(front, i, j);
      } else {
        DropGrowsWithPeak(curve[i], Peak(curve), curve[n]);
      }
    }
    var i: nat, j: nat :| i <= j < |front| && Fall(front, i, j) == drawdown;
    assert Fall(curve, i, j) == drawdown && Fall(curve, at, n) == last;
  }

  /** On a positive curve one pass finds the largest relative fall from any value to a later one. */
  lemma {:induction false} OnePassIsLargestFall(curve: seq<real>)
    requires Positive(curve) && curve != []
    ensures IsLargestFall(curve, OnePass(curve))
    ensures 0.0 <= OnePass(curve) < 1.0
  {
    if |curve| == 1 {
      assert Fall(curve, 0, 0) == 0.0;
      assert OnePass(curve[..0]) == 0.0;
    } else {
      OnePassIsLargestFall(curve[..|curve| - 1]);
      FallsToLast(curve, OnePass(curve[..|curve| - 1]));
    }
    LargestFallIsBelowOne(curve, OnePass(curve));
  }

  lemma LargestFallIsBelowOne(curve: seq<real>, drawdown: real)
    requires Positive(curve) && curve != [] && IsLargestFall(curve, drawdown)
    ensures 0.0 <= drawdown < 1.0
  {
    assert Fall(curve, 0, 0) == 0.0;
    var i: nat, j: nat :| i <= j < |curve| && Fall(curve, i, j) == drawdown;
    FallIsOneLessRatio(curve[i], curve[j]);
    assert curve[j] / curve[i] > 0.0;
  }

  /** With a value below zero it need not be: the fall to -1 is larger from 1 than from the peak 2. */
  lemma NegativeValuesDefeatOnePass()
    ensures OnePass([1.0, 2.0, -1.0]) == 1.5 < Fall([1.0, 2.0, -1.0], 0, 2)
  {
    var curve := [1.0, 2.0, -1.0];
    assert curve[..2] == [1.0, 2.0] && [1.0, 2.0][..1] == [1.0] && [1.0][..0] == [];
    assert Peak([1.0]) == 1.0 && Peak([1.0, 2.0]) == 2.0 && Peak(curve) == 2.0;
    assert OnePass([1.0]) == 0.0;
    assert OnePass([1.0, 2.0]) == 0.0;
  }

  // ----- curves with values that are not positive -----

  predicate SomePositive(curve: seq<real>) {
    exists i :: 0 <= i < |curve| && curve[i] > 0.0
  }

  /** The largest relative fall from a positive value to a later one. */
  ghost predicate IsLargestFallFromPositive(curve: seq<real>, drawdown: real) {
    && (exists i: nat, j: nat :: i <= j < |curve| && curve[i] > 0.0 && Fall(curve, i, j) == drawdown)
    && (forall i: nat, j: nat :: i <= j < |curve| && curve[i] > 0.0 ==> Fall(curve, i, j) <= drawdown)
  }

  ghost predicate OnePassIsRight(curve: seq<real>) {
    SomePositive(curve) ==> IsLargestFallFromPositive(curve, OnePass(curve))
  }

  ghost predicate NoneNegative(values: iset<real>) {
    forall v :: v in values ==> v >= 0.0
  }

  ghost predicate OnePositiveAtMost(values: iset<real>) {
    forall v, w :: v in values && w in values && v > 0.0 && w > 0.0 ==> v == w
  }

  ghost predicate DrawnFrom(curve: seq<real>, values: iset<real>) {
    forall i :: 0 <= i < |curve| ==> curve[i] in values
  }

  lemma {:induction false} NothingPositiveNothingDrops(curve: seq<real>)
    requires !SomePositive(curve)
    ensures OnePass(curve) == 0.0
  {
    if curve != [] {
      var front := curve[..|curve| - 1];
      assert forall i :: 0 <= i < |front| ==> front[i] == curve[i];
      NothingPositiveNothingDrops(front);
      var at := PeakIsHighest(curve);
    }
  }

  lemma FallIsAtMostFromPeak(p: real, peak: real, v: real, values: iset<real>)
    requires 0.0 < p <= peak && p in values && peak in values && v in values
    requires NoneNegative(values) || OnePositiveAtMost(values)
    ensures (p - v) / p <= Drop(peak, v)
  {
    if v >= 0.0 {
      DropGrowsWithPeak(p, peak, v);
    } else {
      assert p == peak;
    }
  }

  lemma FirstPositiveIsLast(curve: seq<real>)
    requires SomePositive(curve) && !SomePositive(curve[..|curve| - 1])
    ensures IsLargestFallFromPositive(curve, OnePass(curve))
  {
    var n := |curve| - 1;
    var front := curve[..n];
    NothingPositiveNothingDrops(front);
    assert forall i :: 0 <= i < n ==> front[i] == curve[i];
    assert curve[n] > 0.0;
    var at := PeakIsHighest(curve);
    assert Drop(Peak(curve), curve[n]) == 0.0;
    assert Fall(curve, n, n) == 0.0;
  }

  lemma PositiveFallsToLast(curve: seq<real>, drawdown: real, values: iset<real>)
    requires DrawnFrom(curve, values) && (NoneNegative(values) || OnePositiveAtMost(values))
    requires |curve| > 0 && SomePositive(curve[..|curve| - 1]) &&
             IsLargestFallFromPositive(curve[..|curve| - 1], drawdown)
    ensures IsLargestFallFromPositive(curve, Max(drawdown, Drop(Peak(curve), curve[|curve| - 1])))
  {
    var n := |curve| - 1;
    var front, last := curve[..n], Drop(Peak(curve), curve[n]);
    var now := Max(drawdown, last);
    var at := PeakIsHighest(curve);
    var first :| 0 <= first < n && front[first] > 0.0;
    assert curve[first] > 0.0;
    forall i: nat, j: nat | i <= j < |curve| && curve[i] > 0.0 ensures Fall(curve, i, j) <= now {
      if j < n {
        assert Fall(curve, i, j) == Fall(front, i, j);
      } else {
        FallIsAtMostFromPeak(curve[i], curve[at], curve[n], values);
      }
    }
    var i: nat, j: nat :| i <= j < |front| && front[i] > 0.0 && Fall(front, i, j) == drawdown;
    assert Fall(curve, i, j) == drawdown && Fall(curve, at, n) == last;
  }

  lemma {:induction false} OnePassIsRightOver(curve: seq<real>, values: iset<real>)
    requires DrawnFrom(curve, values) && (NoneNegative(values) || OnePositiveAtMost(values))
    ensures OnePassIsRight(curve)
  {
    if SomePositive(curve) {
      var front := curve[..|curve| - 1];
      OnePassIsRightOver(front, values);
      if SomePositive(front) {
        PositiveFallsToLast(curve, OnePass(front), values);
      } else {
        FirstPositiveIsLast(curve);
      }
    }
  }

  lemma NegativeFallIsLargerFromLess(p: real, q: real, v: real)
    requires 0.0 < p < q && v < 0.0
    ensures (p - v) / p > (q - v) / q > 0.0
  {
    FallIsOneLessRatio(p, v);
    FallIsOneLessRatio(q, v);
    var x, y := v / p, v / q;
    assert x * p == v && y * q == v;
    assert y * q - y * p == y * (q - p);
    assert y >= 0.0 ==> y * q >= 0.0;
    assert y * (q - p) < 0.0;
    assert x >= y ==> (x - y) * p >= 0.0;
  }

  lemma TwoPeaksDefeatOnePass(p: real, q: real, v: real)
    requires 0.0 < p < q && v < 0.0
    ensures SomePositive([p, q, v]) && !OnePassIsRight([p, q, v])
  {
    var curve := [p, q, v];
    assert curve[..2] == [p, q] && [p, q][..1] == [p] && [p][..0] == [];
    assert Peak([p]) == p && Peak([p, q]) == q && Peak(curve) == q;
    assert OnePass([p]) == 0.0;
    assert OnePass([p, q]) == 0.0;
    NegativeFallIsLargerFromLess(p, q, v);
    assert curve[0] > 0.0 && Fall(curve, 0, 2) > OnePass(curve);
  }

  /** Over a set of values, one pass finds the largest relative fall from a positive value for every curve
      that has one, if and only if no value is negative or at most one is positive. */
  lemma OnePassIsRightExactlyWhen(values: iset<real>)
    ensures NoneNegative(values) || OnePositiveAtMost(values) <==>
            forall curve :: DrawnFrom(curve, values) ==> OnePassIsRight(curve)
  {
    if NoneNegative(values) || OnePositiveAtMost(values) {
      forall curve | DrawnFrom(curve, values) ensures OnePassIsRight(curve) {
        OnePassIsRightOver(curve, values);
      }
    } else {
      var v :| v in values && v < 0.0;
      var p, q :| p in values && q in values && 0.0 < p < q;
      TwoPeaksDefeatOnePass(p, q, v);
      assert DrawnFrom([p, q, v], values);
    }
  }

  // ----- the form with a running maximum -----

  /** `equity / equity.cummax() - 1.0`. */
  function Underwater(curve: seq<real>): seq<real>
    requires Positive(curve)
  {
    seq(|curve|, k requires 0 <= k < |curve| => PeakIsPositive(curve, k); Under(Peak(curve[..k + 1]), curve[k]))
  }

  function Under(peak: real, value: real): real
    requires peak > 0.0
  {
    value / peak - 1.0
  }

  lemma PeakIsPositive(curve: seq<real>, k: nat)
    requires Positive(curve) && k < |curve|
    ensures Peak(curve[..k + 1]) > 0.0
  {
    var at := PeakIsHighest(curve[..k + 1]);
  }

  function Lowest(xs: seq<real>): real
    requires xs != []
  {
    if |xs| == 1 then xs[0]
    else
      var m := Lowest(xs[..|xs| - 1]);
      if xs[|xs| - 1] < m then xs[|xs| - 1] else m
  }

  /** `max_drawdown`; an empty curve has none. */
  function MaxDrawdown(equity: seq<real>): Option<real>
    requires Positive(equity)
  {
    if equity == [] then None else Some(Lowest(Underwater(equity)))
  }

  /** The two drawdowns of one curve are each other's negation. */
  lemma {:induction false} FormsAgree(curve: seq<real>)
    requires Positive(curve) && curve != []
    ensures MaxDrawdown(curve) == Some(-OnePass(curve))
  {
    var n := |curve| - 1;
    LastUnderwater(curve);
    FrontUnderwater(curve);
    if n > 0 {
      FormsAgree(curve[..n]);
    } else {
      assert Peak(curve) == curve[0] && OnePass(curve[..n]) == 0.0;
    }
  }

  lemma UnderwaterAt(curve: seq<real>, k: nat)
    requires Positive(curve) && k < |curve|
    ensures Peak(curve[..k + 1]) > 0.0 && Underwater(curve)[k] == Under(Peak(curve[..k + 1]), curve[k])
  {
    PeakIsPositive(curve, k);
  }

  lemma LastUnderwater(curve: seq<real>)
    requires Positive(curve) && curve != []
    ensures Underwater(curve)[|curve| - 1] == -Drop(Peak(curve), curve[|curve| - 1])
  {
    var n := |curve| - 1;
    assert curve[..n + 1] == curve;
    UnderwaterAt(curve, n);
    UnderIsDrop(Peak(curve), curve[n]);
  }

  lemma FrontUnderwater(curve: seq<real>)
    requires Positive(curve) && curve != []
    ensures Underwater(curve)[..|curve| - 1] == Underwater(curve[..|curve| - 1])
  {
    var n := |curve| - 1;
    forall k | 0 <= k < n ensures Underwater(curve)[k] == Underwater(curve[..n])[k] {
      UnderwaterAt(curve, k);
      UnderwaterAt(curve[..n], k);
      assert curve[..k + 1] == curve[..n][..k + 1];
    }
  }

  lemma UnderIsDrop(peak: real, value: real)
    requires peak > 0.0
    ensures Under(peak, value) == -Drop(peak, value)
  {
    FallIsOneLessRatio(peak, value);
  }

  // ----- equity curves -----

  function Grown(equity: real, r: real): real {
    equity * (1.0 + r)
  }

  /** `(1.0 + returns).cumprod()`. */
  function Compounded(returned: seq<real>): (curve: seq<real>)
    ensures |curve| == |returned|
  {
    if returned == [] then []
    else
      var n := |returned| - 1;
      var before := Compounded(returned[..n]);
      before + [Grown(if n == 0 then 1.0 else before[n - 1], returned[n])]
  }

  lemma {:induction false} CompoundedIsPositive(returned: seq<real>)
    requires forall i :: 0 <= i < |returned| ==> returned[i] > -1.0
    ensures Positive(Compounded(returned))
  {
    if returned != [] {
      var n := |returned| - 1;
      var before := Compounded(returned[..n]);
      CompoundedIsPositive(returned[..n]);
      GrownIsPositive(if n == 0 then 1.0 else before[n - 1], returned[n]);
    }
  }

  lemma GrownIsPositive(equity: real, r: real)
    requires equity > 0.0 && r > -1.0
    ensures Grown(equity, r) > 0.0
  {
  }

  datatype Trade = Trade(exit: int, returned: real)

  datatype Point = Point(date: int, value: real)

  predicate ExitsNoLater(a: Trade, b: Trade) {
    a.exit <= b.exit
  }

  /** Python's `sorted` by exit date, which keeps trades with equal dates in order. */
  function InExitOrder(trades: seq<Trade>): (ordered: seq<Trade>)
    ensures |ordered| == |trades| && multiset(ordered) == multiset(trades) && SortedBy(ordered, ExitsNoLater)
  {
    SortBy(trades, ExitsNoLater)
  }

  /** The values of the study's curve: 1, then the compounded returns in order of exit. */
  function StudyValues(trades: seq<Trade>): seq<real> {
    StartedAtOne(InExitOrder(trades))
  }

  function StartedAtOne(ordered: seq<Trade>): seq<real> {
    [1.0] + Compounded(ReturnsOf(ordered))
  }

  /** The trades by exit date; the curve starts at 1 on the first exit, or today without trades, and grows
      by each trade's return on its exit. */
  ghost predicate IsStudyCurve(curve: seq<Point>, trades: seq<Trade>, today: int) {
    exists ordered: seq<Trade> ::
      && multiset(ordered) == multiset(trades)
      && (forall i, j :: 0 <= i < j < |ordered| ==> ordered[i].exit <= ordered[j].exit)
      && |curve| == |ordered| + 1
      && curve[0] == Point(if ordered == [] then today else ordered[0].exit, 1.0)
      && forall k :: 0 <= k < |ordered| ==>
           curve[k + 1] == Point(ordered[k].exit, Grown(curve[k].value, ordered[k].returned))
  }

  /** The study's `equity_curve`. */
  method EquityCurve(trades: seq<Trade>, today: int) returns (curve: seq<Point>)
    ensures IsStudyCurve(curve, trades, today)
    ensures |curve| == |trades| + 1 && ValuesOf(curve) == StudyValues(trades)
    ensures curve[0].date == if trades == [] then today else InExitOrder(trades)[0].exit
    ensures forall k :: 0 <= k < |trades| ==> curve[k + 1].date == InExitOrder(trades)[k].exit
  {
    curve := CurveOf(InExitOrder(trades), today);
    CurveFieldByField(curve, trades, InExitOrder(trades), today);
  }

  lemma {:induction false} CompoundedStep(returned: seq<real>, k: nat)
    requires k < |returned|
    ensures Compounded(returned)[k] == Grown(if k == 0 then 1.0 else Compounded(returned)[k - 1], returned[k])
  {
    var n := |returned| - 1;
    if k < n {
      CompoundedStep(returned[..n], k);
    }
  }

  lemma ValueStep(curve: seq<Point>, ordered: seq<Trade>, k: nat)
    requires |curve| == |ordered| + 1 && ValuesOf(curve) == StartedAtOne(ordered) && k < |ordered|
    ensures curve[0].value == 1.0 && curve[k + 1].value == Grown(curve[k].value, ordered[k].returned)
  {
    CompoundedStep(ReturnsOf(ordered), k);
    assert ValuesOf(curve)[k + 1] == StartedAtOne(ordered)[k + 1] && ValuesOf(curve)[k] == StartedAtOne(ordered)[k];
    assert ValuesOf(curve)[0] == 1.0;
  }

  lemma CurveFieldByField(curve: seq<Point>, trades: seq<Trade>, ordered: seq<Trade>, today: int)
    requires multiset(ordered) == multiset(trades) && SortedBy(ordered, ExitsNoLater)
    requires |curve| == |ordered| + 1 && ValuesOf(curve) == StartedAtOne(ordered)
    requires curve[0].date == if ordered == [] then today else ordered[0].exit
    requires forall k :: 0 <= k < |ordered| ==> curve[k + 1].date == ordered[k].exit
    ensures IsStudyCurve(curve, trades, today)
  {
    assert ValuesOf(curve)[0] == 1.0;
    forall k | 0 <= k < |ordered|
      ensures curve[k + 1] == Point(ordered[k].exit, Grown(curve[k].value, ordered[k].returned))
    {
      ValueStep(curve, ordered, k);
    }
    forall i, j | 0 <= i < j < |ordered| ensures ordered[i].exit <= ordered[j].exit {
      assert ExitsNoLater(ordered[i], ordered[j]);
    }
  }

  method CurveOf(ordered: seq<Trade>, today: int) returns (curve: seq<Point>)
    ensures |curve| == |ordered| + 1 && ValuesOf(curve) == StartedAtOne(ordered)
    ensures curve[0].date == if ordered == [] then today else ordered[0].exit
    ensures forall k :: 0 <= k < |ordered| ==> curve[k + 1].date == ordered[k].exit
  {
    var equity := 1.0;
    curve := [Point(if ordered != [] then ordered[0].exit else today, 1.0)];
    for k := 0 to |ordered|
      invariant |curve| == k + 1 && curve[k].value == equity
      invariant ValuesOf(curve) == StartedAtOne(ordered[..k])
      invariant curve[0].date == if ordered == [] then today else ordered[0].exit
      invariant forall i :: 0 <= i < k ==> curve[i + 1].date == ordered[i].exit
    {
      OneMoreTrade(curve, ordered, k, Point(ordered[k].exit, Grown(equity, ordered[k].returned)));
      equity := Grown(equity, ordered[k].returned);
      curve := curve + [Point(ordered[k].exit, equity)];
    }
    assert ordered[..|ordered|] == ordered;
  }

  lemma OneMoreTrade(curve: seq<Point>, ordered: seq<Trade>, k: nat, p: Point)
    requires k < |ordered| && |curve| == k + 1 && ValuesOf(curve) == StartedAtOne(ordered[..k])
    requires p.value == Grown(curve[k].value, ordered[k].returned)
    ensures ValuesOf(curve + [p]) == StartedAtOne(ordered[..k + 1])
  {
    assert ReturnsOf(ordered[..k + 1])[..k] == ReturnsOf(ordered[..k]);
    var before := StartedAtOne(ordered[..k]);
    assert before[k] == curve[k].value;
    assert StartedAtOne(ordered[..k + 1]) == before + [p.value];
    assert ValuesOf(curve + [p]) == ValuesOf(curve) + [p.value];
  }

  /** `max_dd_from_trades`. */
  method MaxDdFromTrades(trades: seq<Trade>, today: int) returns (drawdown: real)
    ensures drawdown == OnePass(StudyValues(trades))
  {
    if trades == [] {
      NoTradesNoDrawdown();
      return 0.0;
    }
    var curve := EquityCurve(trades, today);
    drawdown := MaxDrawdownPct(ValuesOf(curve));
  }

  lemma NoTradesNoDrawdown()
    ensures OnePass(StudyValues([])) == 0.0
  {
    assert ReturnsOf(InExitOrder([])) == [];
    assert StudyValues([]) == [1.0] && [1.0][..0] == [];
  }

  function ReturnsOf(trades: seq<Trade>): seq<real> {
    Map(trades, (t: Trade) => t.returned)
  }

  function ValuesOf(curve: seq<Point>): seq<real> {
    Map(curve, (p: Point) => p.value)
  }

  // ----- the study's start value -----

  lemma LargestFallIsUnique(curve: seq<real>, a: real, b: real)
    requires Positive(curve) && IsLargestFall(curve, a) && IsLargestFall(curve, b)
    ensures a == b
  {
    var i: nat, j: nat :| i <= j < |curve| && Fall(curve, i, j) == a;
    var k: nat, l: nat :| k <= l < |curve| && Fall(curve, k, l) == b;
  }

  lemma {:induction false} LowestIsLowest(xs: seq<real>) returns (at: nat)
    requires xs != []
    ensures at < |xs| && xs[at] == Lowest(xs) && forall k :: 0 <= k < |xs| ==> Lowest(xs) <= xs[k]
  {
    if |xs| == 1 {
      at := 0;
    } else {
      at := LowestIsLowest(xs[..|xs| - 1]);
      if xs[|xs| - 1] < Lowest(xs[..|xs| - 1]) {
        at := |xs| - 1;
      }
    }
  }

  lemma FallOfStarted(curve: seq<real>, i: nat, j: nat)
    requires Positive(curve) && i <= j <= |curve|
    ensures Fall([1.0] + curve, i, j) ==
              if i > 0 then Fall(curve, i - 1, j - 1) else if j > 0 then 1.0 - curve[j - 1] else 0.0
  {
  }

  lemma StartedFallsAtMost(curve: seq<real>, drawdown: real)
    requires Positive(curve) && curve != [] && IsLargestFall(curve, drawdown)
    ensures IsLargestFall([1.0] + curve, Max(drawdown, 1.0 - Lowest(curve)))
  {
    var started, now := [1.0] + curve, Max(drawdown, 1.0 - Lowest(curve));
    var at := LowestIsLowest(curve);
    assert Fall(curve, 0, 0) == 0.0;
    forall i: nat, j: nat | i <= j < |started| ensures Fall(started, i, j) <= now {
      FallOfStarted(curve, i, j);
    }
    var i: nat, j: nat :| i <= j < |curve| && Fall(curve, i, j) == drawdown;
    FallOfStarted(curve, i + 1, j + 1);
    FallOfStarted(curve, 0, at + 1);
  }

  /** Starting the curve at 1 adds the fall from 1 to the lowest value. */
  lemma StartAddsFallFromOne(curve: seq<real>)
    requires Positive(curve) && curve != []
    ensures OnePass([1.0] + curve) == Max(OnePass(curve), 1.0 - Lowest(curve))
  {
    OnePassIsLargestFall(curve);
    OnePassIsLargestFall([1.0] + curve);
    StartedFallsAtMost(curve, OnePass(curve));
    LargestFallIsUnique([1.0] + curve, Max(OnePass(curve), 1.0 - Lowest(curve)), OnePass([1.0] + curve));
  }

  /** The fall from value `i` to value `j` is as large as the one from 1 to the lowest value. */
  predicate FallsAsFarAsFromOne(curve: seq<real>, i: nat, j: nat)
    requires i <= j < |curve|
  {
    AtMostTimes(curve[j], curve[i], Lowest(curve))
  }

  predicate AtMostTimes(v: real, p: real, low: real) {
    v <= p * low
  }

  lemma FallIsAtLeast(p: real, v: real, low: real)
    requires p > 0.0
    ensures 1.0 - low <= (p - v) / p <==> AtMostTimes(v, p, low)
  {
    FallIsOneLessRatio(p, v);
    var y := v / p;
    assert y * p == v;
    assert y <= low ==> (low - y) * p >= 0.0;
    assert y > low ==> (y - low) * p > 0.0;
    assert (low - y) * p == p * low - v;
  }

  lemma AgreesUnlessFurtherBelowStart(curve: seq<real>)
    requires Positive(curve) && curve != []
    ensures MaxDrawdown(curve).Some? && -MaxDrawdown(curve).value <= OnePass([1.0] + curve)
    ensures -MaxDrawdown(curve).value == OnePass([1.0] + curve) <==> 1.0 - Lowest(curve) <= OnePass(curve)
  {
    FormsAgree(curve);
    StartAddsFallFromOne(curve);
  }

  lemma FarFallIsWithin(curve: seq<real>, drawdown: real, i: nat, j: nat)
    requires Positive(curve) && IsLargestFall(curve, drawdown) && i <= j < |curve| && FallsAsFarAsFromOne(curve, i, j)
    ensures 1.0 - Lowest(curve) <= drawdown
  {
    FallIsAtLeast(curve[i], curve[j], Lowest(curve));
    assert Fall(curve, i, j) <= drawdown;
  }

  lemma FarFallExists(curve: seq<real>, drawdown: real) returns (i: nat, j: nat)
    requires Positive(curve) && curve != [] && IsLargestFall(curve, drawdown) && 1.0 - Lowest(curve) <= drawdown
    ensures i <= j < |curve| && FallsAsFarAsFromOne(curve, i, j)
  {
    i, j :| i <= j < |curve| && Fall(curve, i, j) == drawdown;
    FallIsAtLeast(curve[i], curve[j], Lowest(curve));
  }

  /** On the same returns the backtest's drawdown is the study's exactly when the equity falls as far
      from one of its own values as it falls below its start. */
  lemma DrawdownsAgreeExactlyWhen(curve: seq<real>)
    requires Positive(curve) && curve != []
    ensures MaxDrawdown(curve).Some? && -MaxDrawdown(curve).value <= OnePass([1.0] + curve)
    ensures -MaxDrawdown(curve).value == OnePass([1.0] + curve) <==>
              exists i: nat, j: nat :: i <= j < |curve| && FallsAsFarAsFromOne(curve, i, j)
  {
    AgreesUnlessFurtherBelowStart(curve);
    OnePassIsLargestFall(curve);
    if 1.0 - Lowest(curve) <= OnePass(curve) {
      var i, j := FarFallExists(curve, OnePass(curve));
    } else {
      forall i: nat, j: nat | i <= j < |curve| ensures !FallsAsFarAsFromOne(curve, i, j) {
        if FallsAsFarAsFromOne(curve, i, j) {
          FarFallIsWithin(curve, OnePass(curve), i, j);
        }
      }
    }
  }

  /** A single trade that loses half: no drawdown in the backtest, one half in the study. */
  lemma FirstLossIsMissed()
    ensures Compounded([-0.5]) == [0.5]
    ensures MaxDrawdown([0.5]) == Some(0.0) && OnePass([1.0] + [0.5]) == 0.5
  {
    assert [-0.5][..0] == [] && [0.5][..0] == [];
    assert OnePass([0.5]) == 0.0;
    FormsAgree([0.5]);
    StartAddsFallFromOne([0.5]);
  }

  // ----- the study's tracker -----

  /** The first highest value. */
  function PeakIndex(curve: seq<real>): (at: nat)
    requires curve != []
    ensures at < |curve|
  {
    if |curve| == 1 then 0
    else
      var at := PeakIndex(curve[..|curve| - 1]);
      if curve[|curve| - 1] > curve[at] then |curve| - 1 else at
  }

  /** The first value at which the drawdown is reached; 0 when there is none. */
  function TroughIndex(curve: seq<real>): (at: nat)
    requires curve != []
    ensures at < |curve|
  {
    if |curve| == 1 then 0
    else if Drop(Peak(curve), curve[|curve| - 1]) > OnePass(curve[..|curve| - 1]) then |curve| - 1
    else TroughIndex(curve[..|curve| - 1])
  }

  datatype Tracked = Tracked(drawdown: real, peakDate: int, troughDate: int, troughValue: real, peakAtTrough: real)

  /** The drawdown of the values, the date of the first highest one, and the first trough with its
      value and the peak before it. */
  predicate IsTracked(t: Tracked, dates: seq<int>, values: seq<real>)
    requires |dates| == |values| && values != []
  {
    && t.drawdown == OnePass(values)
    && t.peakDate == dates[PeakIndex(values)] && t.troughDate == dates[TroughIndex(values)]
    && t.troughValue == values[TroughIndex(values)] && t.peakAtTrough == Peak(values[..TroughIndex(values) + 1])
  }

  /** The drawdown loop of `drawdown_investigation`, over the dates and values of its curve. */
  method TrackDrawdown(dates: seq<int>, values: seq<real>) returns (t: Tracked)
    requires |dates| == |values| && values != [] && values[0] == 1.0
    ensures IsTracked(t, dates, values)
  {
    var peak, peakDate, drawdown, troughDate := values[0], dates[0], 0.0, dates[0];
    var troughValue, peakAtTrough := 1.0, 1.0;
    ghost var seen := values[..1];
    for k := 0 to |values|
      invariant seen == values[..if k == 0 then 1 else k]
      invariant drawdown == OnePass(seen) && peak == Peak(seen)
      invariant peak == values[PeakIndex(seen)] && peakDate == dates[PeakIndex(seen)]
      invariant troughDate == dates[TroughIndex(seen)] && troughValue == values[TroughIndex(seen)]
      invariant peakAtTrough == Peak(values[..TroughIndex(seen) + 1])
    {
      var dt, value := dates[k], values[k];
      if k > 0 {
        OneMoreValue(values, k);
      }
      seen := values[..k + 1];
      if value > peak {
        peak := value;
        peakDate := dt;
      }
      var dd := Drop(peak, value);
      if dd > drawdown {
        drawdown := dd;
        troughDate := dt;
        troughValue := value;
        peakAtTrough := peak;
      }
    }
    assert values[..|values|] == values;
    t := Tracked(drawdown, peakDate, troughDate, troughValue, peakAtTrough);
  }

  lemma OneMoreValue(values: seq<real>, k: nat)
    requires 0 < k < |values|
    ensures var seen, now := values[..k], values[..k + 1];
            && Peak(now) == Max(Peak(seen), values[k])
            && OnePass(now) == Max(OnePass(seen), Drop(Peak(now), values[k]))
            && PeakIndex(now) == (if values[k] > values[PeakIndex(seen)] then k else PeakIndex(seen))
            && TroughIndex(now) == (if Drop(Peak(now), values[k]) > OnePass(seen) then k else TroughIndex(seen))
  {
    assert values[..k + 1][..k] == values[..k];
  }

  /** The tracked values are those of the drawdown: it is the fall from the peak before the trough to the trough. */
  lemma {:induction false} TroughHasDrawdown(curve: seq<real>)
    requires Positive(curve) && curve != []
    ensures Drop(Peak(curve[..TroughIndex(curve) + 1]), curve[TroughIndex(curve)]) == OnePass(curve)
  {
    var n, at := |curve| - 1, TroughIndex(curve);
    assert curve[..n + 1] == curve;
    if n == 0 {
      assert OnePass(curve[..0]) == 0.0;
    } else if at != n {
      TroughHasDrawdown(curve[..n]);
      assert curve[..n][..at + 1] == curve[..at + 1];
    }
  }

  lemma {:induction false} PeakIndexIsFirst(curve: seq<real>)
    requires curve != []
    ensures curve[PeakIndex(curve)] == Peak(curve)
    ensures forall k :: 0 <= k < PeakIndex(curve) ==> curve[k] < Peak(curve)
    ensures forall k :: 0 <= k < |curve| ==> curve[k] <= Peak(curve)
  {
    if |curve| > 1 {
      PeakIndexIsFirst(curve[..|curve| - 1]);
    }
  }

  /** How far a value is below the highest one up to it. */
  function DropAt(curve: seq<real>, j: nat): real
    requires j < |curve|
  {
    Drop(Peak(curve[..j + 1]), curve[j])
  }

  /** The trough is the first value with the deepest drop, if anything drops at all. */
  lemma {:induction false} TroughIsFirstDeepest(curve: seq<real>)
    requires curve != []
    ensures forall l :: 0 <= l < |curve| ==> DropAt(curve, l) <= OnePass(curve)
    ensures OnePass(curve) > 0.0 ==> DropAt(curve, TroughIndex(curve)) == OnePass(curve)
    ensures OnePass(curve) > 0.0 ==> forall l :: 0 <= l < TroughIndex(curve) ==> DropAt(curve, l) < OnePass(curve)
    ensures OnePass(curve) == 0.0 ==> TroughIndex(curve) == 0
    ensures OnePass(curve) >= 0.0 && DropAt(curve, 0) == 0.0
  {
    var n := |curve| - 1;
    assert curve[..n + 1] == curve;
    if n == 0 {
      assert OnePass(curve[..0]) == 0.0;
    } else {
      var front := curve[..n];
      TroughIsFirstDeepest(front);
      forall l | 0 <= l < n ensures DropAt(curve, l) == DropAt(front, l) {
        assert front[..l + 1] == curve[..l + 1];
      }
    }
  }

  predicate IsFirstHigh(curve: seq<real>, high: nat) {
    && high < |curve|
    && (forall k :: 0 <= k < high ==> curve[k] < curve[high])
    && (forall k :: 0 <= k < |curve| ==> curve[k] <= curve[high])
  }

  /** Some drop from the `high`-th value on is deeper than all drops before it. */
  predicate DeepestFrom(curve: seq<real>, high: nat) {
    exists j :: high <= j < |curve| && forall l :: 0 <= l < high < |curve| ==> DropAt(curve, l) < DropAt(curve, j)
  }

  /** The reported peak is not after the reported trough exactly when the curve starts at its high, or
      some drop after the first high is deeper than all drops before it. */
  lemma PeakIsBeforeTroughExactlyWhen(curve: seq<real>)
    requires curve != []
    ensures PeakIndex(curve) <= TroughIndex(curve) <==>
            forall high: nat :: IsFirstHigh(curve, high) ==> high == 0 || DeepestFrom(curve, high)
    ensures PeakIndex(curve) <= TroughIndex(curve) <==>
            forall k :: TroughIndex(curve) < k < |curve| ==> curve[k] <= Peak(curve[..TroughIndex(curve) + 1])
  {
    PeakIsWithinExactlyWhen(curve, TroughIndex(curve));
    PeakIndexIsFirst(curve);
    var high := PeakIndex(curve);
    assert IsFirstHigh(curve, high);
    forall other: nat | IsFirstHigh(curve, other) ensures other == high {
      assert curve[other] == curve[high];
    }
    DeepestFromExactlyWhen(curve, high);
  }

  lemma DeepestFromExactlyWhen(curve: seq<real>, high: nat)
    requires high < |curve|
    ensures high <= TroughIndex(curve) <==> high == 0 || DeepestFrom(curve, high)
  {
    TroughIsFirstDeepest(curve);
    if 0 < high {
      if high <= TroughIndex(curve) {
        assert forall l :: 0 <= l < high ==> DropAt(curve, l) < DropAt(curve, TroughIndex(curve));
        assert DeepestFrom(curve, high);
      }
    }
  }

  /** A curve that halves and then doubles its start: the reported peak is the last value, after the trough. */
  lemma PeakAfterTrough()
    ensures PeakIndex([1.0, 0.5, 2.0]) == 2 && TroughIndex([1.0, 0.5, 2.0]) == 1
  {
    var curve := [1.0, 0.5, 2.0];
    assert curve[..2] == [1.0, 0.5] && [1.0, 0.5][..1] == [1.0] && [1.0][..0] == [];
    assert Peak([1.0]) == 1.0 && Peak([1.0, 0.5]) == 1.0 && Peak(curve) == 2.0;
    assert OnePass([1.0]) == 0.0 && OnePass([1.0, 0.5]) == 0.5;
    assert PeakIndex([1.0, 0.5]) == 0 && TroughIndex([1.0, 0.5]) == 1;
  }

  lemma PeakIsWithinExactlyWhen(curve: seq<real>, at: nat)
    requires at < |curve|
    ensures PeakIndex(curve) <= at <==> (forall k :: at < k < |curve| ==> curve[k] <= Peak(curve[..at + 1]))
  {
    var head := curve[..at + 1];
    PeakIndexIsFirst(curve);
    PeakIndexIsFirst(head);
    if PeakIndex(curve) <= at {
      assert head[PeakIndex(curve)] == Peak(curve);
    } else {
      assert curve[PeakIndex(head)] == Peak(head);
      assert curve[PeakIndex(curve)] > Peak(head);
    }
  }

  // ----- losing streaks -----

  /** `length` trades from the `i`-th on, none of which gained. */
  predicate LosingRun(ordered: seq<Trade>, i: int, length: int) {
    0 <= i <= i + length <= |ordered| && forall k :: i <= k < i + length ==> ordered[k].returned <= 0.0
  }

  /** The longest run of trades that did not gain, and the exit date of the first trade of the first
      such run. */
  ghost predicate IsLongestStreak(ordered: seq<Trade>, longest: nat, start: Option<int>) {
    && (forall i, length :: LosingRun(ordered, i, length) ==> length <= longest)
    && (start == None <==> longest == 0)
    && (longest > 0 ==>
          exists i :: LosingRun(ordered, i, longest) && start == Some(ordered[i].exit)
                      && forall h :: 0 <= h < i ==> !LosingRun(ordered, h, longest))
  }

  /** The streak loop of `drawdown_investigation`. */
  method LongestStreak(ordered: seq<Trade>) returns (longest: nat, start: Option<int>)
    ensures IsLongestStreak(ordered, longest, start)
  {
    longest, start := 0, None;
    var streak := 0;
    var streakStart: Option<int> := None;
    ghost var at := 0;
    for k := 0 to |ordered|
      invariant 0 <= streak <= k && streak <= longest
      invariant LosingRun(ordered, k - streak, streak) && (streak < k ==> ordered[k - streak - 1].returned > 0.0)
      invariant streak > 0 ==> streakStart == Some(ordered[k - streak].exit)
      invariant forall i, length :: LosingRun(ordered, i, length) && i + length <= k ==> length <= longest
      invariant start == None <==> longest == 0
      invariant longest > 0 ==> LosingRun(ordered, at, longest) && at + longest <= k && start == Some(ordered[at].exit)
      invariant longest > 0 ==> forall h :: 0 <= h < at ==> !LosingRun(ordered, h, longest)
    {
      var t := ordered[k];
      if t.returned <= 0.0 {
        streak := streak + 1;
        if streak == 1 {
          streakStart := Some(t.exit);
        }
        if streak > longest {
          longest := streak;
          start := streakStart;
          at := k + 1 - streak;
        }
      } else {
        streak := 0;
      }
    }
  }

  datatype Investigation = Investigation(tracked: Tracked, longestStreak: nat, streakStart: Option<int>)

  /** The drawdown and streak parts of `drawdown_investigation`; nothing without trades. */
  method DrawdownInvestigation(trades: seq<Trade>, today: int) returns (found: Option<Investigation>)
    ensures found == None <==> trades == []
    ensures found.Some? ==>
      && IsTracked(found.value.tracked, StudyDates(trades), StudyValues(trades))
      && IsLongestStreak(InExitOrder(trades), found.value.longestStreak, found.value.streakStart)
  {
    if trades == [] {
      return None;
    }
    var curve := EquityCurve(trades, today);
    assert Map(curve, (p: Point) => p.date) == StudyDates(trades);
    var tracked := TrackDrawdown(Map(curve, (p: Point) => p.date), ValuesOf(curve));
    var longest, start := LongestStreak(InExitOrder(trades));
    found := Some(Investigation(tracked, longest, start));
  }

  /** The dates of the study's curve: the first exit once more than the exits. */
  function StudyDates(trades: seq<Trade>): (dates: seq<int>)
    requires trades != []
    ensures |dates| == |trades| + 1
  {
    var exits := Map(InExitOrder(trades), (t: Trade) => t.exit);
    [exits[0]] + exits
  }
}
