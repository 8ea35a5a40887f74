/** First-fit clustering of support and resistance prices
    (`analysis/pattern_intelligence/chart_analysis.py`). */
module LevelClusters {
  import opened Numbers
  import opened Sequences

  datatype Level = Level(price: real, source: nat)

  datatype ClusterConfig = ClusterConfig(tolerancePct: real, atrBand: real)

  /** How far from its anchor a cluster reaches. */
  function ClusterTolerance(anchor: real, cfg: ClusterConfig, atr: Option<real>): real {
    Max(Abs(anchor) * cfg.tolerancePct, AtrReach(cfg, atr))
  }

  function AtrReach(cfg: ClusterConfig, atr: Option<real>): real {
    (if atr.Some? then atr.value else 0.0) * cfg.atrBand
  }

  type Tolerance = real -> real

  function ToleranceOf(cfg: ClusterConfig, atr: Option<real>): Tolerance {
    anchor => ClusterTolerance(anchor, cfg, atr)
  }

  type Cluster = s: seq<Level> | s != [] witness [Level(0.0, 0)]

  predicate Fits(price: real, cluster: Cluster, tol: Tolerance) {
    Abs(price - cluster[0].price) <= tol(cluster[0].price)
  }

  predicate PricedNoHigher(a: Level, b: Level) {
    a.price <= b.price
  }

  // ----- what first-fit comes down to -----

  /** Joins the last cluster or opens a new one; earlier clusters are never looked at. */
  function JoinLast(clusters: seq<Cluster>, level: Level, tol: Tolerance): seq<Cluster> {
    var n := |clusters| - 1;
    if clusters != [] && Fits(level.price, clusters[n], tol) then clusters[..n] + [clusters[n] + [level]]
    else clusters + [[level]]
  }

  function LastFit(levels: seq<Level>, tol: Tolerance): seq<Cluster> {
    if levels == [] then [] else JoinLast(LastFit(levels[..|levels| - 1], tol), levels[|levels| - 1], tol)
  }

  function Flatten(clusters: seq<Cluster>): seq<Level> {
    if clusters == [] then [] else Flatten(clusters[..|clusters| - 1]) + clusters[|clusters| - 1]
  }

  /** The clusters cut the levels into consecutive runs: every price of a cluster is within
      tolerance above its anchor, and every later anchor is out of that tolerance. */
  ghost predicate RunsWithinTolerance(clusters: seq<Cluster>, tol: Tolerance) {
    && (forall k, x :: 0 <= k < |clusters| && x in clusters[k] ==>
          clusters[k][0].price <= x.price && Fits(x.price, clusters[k], tol))
    && (forall j, k :: 0 <= j < k < |clusters| ==>
        clusters[j][0].price + tol(clusters[j][0].price) < clusters[k][0].price)
  }

  lemma JoiningKeepsRuns(clusters: seq<Cluster>, level: Level, tol: Tolerance)
    requires RunsWithinTolerance(clusters, tol)
    requires forall k :: 0 <= k < |clusters| ==> clusters[k][0].price <= level.price
    requires 0.0 <= tol(level.price)
    ensures RunsWithinTolerance(JoinLast(clusters, level, tol), tol)
  {
    var after := JoinLast(clusters, level, tol);
    var n := |clusters| - 1;
    if clusters != [] && Fits(level.price, clusters[n], tol) {
      assert after[n] == clusters[n] + [level] && after[n][0] == clusters[n][0];
      forall k, x | 0 <= k < |after| && x in after[k]
        ensures after[k][0].price <= x.price && Fits(x.price, after[k], tol)
      {
        if k == n {
          assert x in clusters[n] || x == level;
        } else {
          assert after[k] == clusters[k];
        }
      }
    } else {
      forall j | 0 <= j < |clusters| ensures clusters[j][0].price + tol(clusters[j][0].price) < level.price {
        assert j < n ==> clusters[j][0].price + tol(clusters[j][0].price) < clusters[n][0].price;
      }
      forall k, x | 0 <= k < |after| && x in after[k]
        ensures after[k][0].price <= x.price && Fits(x.price, after[k], tol)
      {
        if k < |clusters| {
          assert after[k] == clusters[k];
        }
      }
    }
  }

  lemma FlattenJoin(clusters: seq<Cluster>, level: Level, tol: Tolerance)
    ensures Flatten(JoinLast(clusters, level, tol)) == Flatten(clusters) + [level]
  {
    var after := JoinLast(clusters, level, tol);
    var n := |clusters| - 1;
    if clusters != [] && Fits(level.price, clusters[n], tol) {
      assert after[..n] == clusters[..n];
    } else {
      assert after[..|clusters|] == clusters;
    }
  }

  lemma {:induction false} LastFitKeepsLevels(levels: seq<Level>, tol: Tolerance)
    ensures Flatten(LastFit(levels, tol)) == levels
    ensures forall k :: 0 <= k < |LastFit(levels, tol)| ==> LastFit(levels, tol)[k][0] in levels
  {
    if levels != [] {
      var n := |levels| - 1;
      LastFitKeepsLevels(levels[..n], tol);
      FlattenJoin(LastFit(levels[..n], tol), levels[n], tol);
      assert levels == levels[..n] + [levels[n]];
    }
  }

  lemma AnchorIsNoHigher(levels: seq<Level>, n: nat, k: nat, tol: Tolerance)
    requires SortedBy(levels, PricedNoHigher) && n < |levels| && k < |LastFit(levels[..n], tol)|
    ensures LastFit(levels[..n], tol)[k][0].price <= levels[n].price
  {
    LastFitKeepsLevels(levels[..n], tol);
    var anchor := LastFit(levels[..n], tol)[k][0];
    assert anchor in levels[..n];
    var i :| 0 <= i < n && levels[i] == anchor;
    assert PricedNoHigher(levels[i], levels[n]);
  }

  lemma {:induction false} LastFitMakesRuns(levels: seq<Level>, tol: Tolerance)
    requires SortedBy(levels, PricedNoHigher) && forall x :: x in levels ==> 0.0 <= tol(x.price)
    ensures RunsWithinTolerance(LastFit(levels, tol), tol)
  {
    if levels != [] {
      var n := |levels| - 1;
      var before := LastFit(levels[..n], tol);
      LastFitMakesRuns(levels[..n], tol);
      forall k | 0 <= k < |before| ensures before[k][0].price <= levels[n].price {
        AnchorIsNoHigher(levels, n, k, tol);
      }
      JoiningKeepsRuns(before, levels[n], tol);
    }
  }

  // ----- no grouping uses fewer clusters -----

  /** A grouping under the same rule: each group has all its prices within tolerance of its
      lowest one, and every level is in some group. */
  ghost predicate IsGrouping(groups: seq<set<Level>>, levels: seq<Level>, tol: Tolerance) {
    && (forall x :: x in levels ==> exists g :: 0 <= g < |groups| && x in groups[g])
    && (forall g, x :: 0 <= g < |groups| && x in groups[g] ==> x in levels)
    && (forall g, x, y :: 0 <= g < |groups| && x in groups[g] && y in groups[g] && IsLowest(x, groups[g]) ==>
          y.price <= x.price + tol(x.price))
  }

  ghost predicate IsLowest(x: Level, group: set<Level>) {
    x in group && forall y :: y in group ==> x.price <= y.price
  }

  /** A tolerance band moves up with its anchor. */
  ghost predicate ReachGrows(tol: Tolerance) {
    forall a, b :: 0.0 < a <= b ==> 0.0 <= tol(a) && a + tol(a) <= b + tol(b)
  }

  lemma ClusterToleranceGrows(a: real, b: real, cfg: ClusterConfig, atr: Option<real>)
    requires 0.0 <= cfg.tolerancePct
    ensures 0.0 <= ClusterTolerance(a, cfg, atr)
    ensures 0.0 < a <= b ==> ClusterTolerance(a, cfg, atr) <= ClusterTolerance(b, cfg, atr)
  {
    ProductGrows(0.0, Abs(a), cfg.tolerancePct);
    if 0.0 < a <= b {
      var x, y := Abs(a) * cfg.tolerancePct, Abs(b) * cfg.tolerancePct;
      ProductGrows(Abs(a), Abs(b), cfg.tolerancePct);
      MaxGrows(x, y, AtrReach(cfg, atr));
    }
  }

  lemma ConfiguredToleranceGrows(cfg: ClusterConfig, atr: Option<real>)
    requires 0.0 <= cfg.tolerancePct
    ensures ReachGrows(ToleranceOf(cfg, atr))
    ensures forall a :: 0.0 <= ToleranceOf(cfg, atr)(a)
  {
    var tol := ToleranceOf(cfg, atr);
    forall a ensures 0.0 <= tol(a) {
      ClusterToleranceGrows(a, a, cfg, atr);
    }
    forall a, b | 0.0 < a <= b ensures a + tol(a) <= b + tol(b) {
      ClusterToleranceGrows(a, b, cfg, atr);
    }
  }

  lemma MaxGrows(x: real, y: real, z: real)
    requires x <= y
    ensures Max(x, z) <= Max(y, z)
  {
  }

  lemma ProductGrows(a: real, b: real, p: real)
    requires a <= b && 0.0 <= p
    ensures a * p <= b * p
  {
  }

  lemma LowestExists(group: set<Level>) returns (x: Level)
    requires group != {}
    ensures IsLowest(x, group)
    decreases group
  {
    x :| x in group;
    if group != {x} {
      var y := LowestExists(group - {x});
      if y.price < x.price {
        x := y;
      }
    }
  }

  ghost function GroupOf(x: Level, groups: seq<set<Level>>): (g: nat)
    requires exists g :: 0 <= g < |groups| && x in groups[g]
    ensures g < |groups| && x in groups[g]
  {
    var g :| 0 <= g < |groups| && x in groups[g];
    g
  }

  /** Two anchors never share a group, so a grouping has a group for each anchor. */
  lemma NoGroupingIsSmaller(clusters: seq<Cluster>, groups: seq<set<Level>>, levels: seq<Level>, tol: Tolerance)
    requires RunsWithinTolerance(clusters, tol) && IsGrouping(groups, levels, tol) && ReachGrows(tol)
    requires forall k :: 0 <= k < |clusters| ==> clusters[k][0] in levels
    requires forall x :: x in levels ==> 0.0 < x.price
    ensures |clusters| <= |groups|
  {
    var I := Below(|clusters|);
    var at := map k: nat | k in I :: GroupOf(clusters[k][0], groups);
    forall j, k | j in I && k in I && at[j] == at[k] ensures j == k {
      if j < k {
        AnchorsApart(clusters, j, k, groups[at[j]], tol, groups, at[j], levels);
      } else if k < j {
        AnchorsApart(clusters, k, j, groups[at[j]], tol, groups, at[j], levels);
      }
    }
    Pigeonhole(I, at, |groups|);
  }

  lemma AnchorsApart(clusters: seq<Cluster>, j: nat, k: nat, group: set<Level>, tol: Tolerance, groups: seq<set<Level>>,
                     g: nat, levels: seq<Level>)
    requires RunsWithinTolerance(clusters, tol) && IsGrouping(groups, levels, tol) && ReachGrows(tol)
    requires j < k < |clusters| && g < |groups| && group == groups[g] && clusters[j][0] in group
    requires forall x :: x in group ==> 0.0 < x.price
    ensures clusters[k][0] !in group
  {
    var low := LowestExists(group);
    var a := clusters[j][0].price;
    assert low.price + tol(low.price) <= a + tol(a);
  }

  /** How far a cluster reaches above its anchor: a share of the anchor's size, or a multiple of the average
      true range where that is more. */
  predicate Reaches(anchor: real, price: real, cfg: ClusterConfig, atr: Option<real>) {
    || price - anchor <= (if anchor < 0.0 then -anchor else anchor) * cfg.tolerancePct
    || price - anchor <= (if atr.Some? then atr.value else 0.0) * cfg.atrBand
  }

  /** Every level of a cluster is in reach of its first one, and every later cluster starts out of it. */
  ghost predicate CutWhereOutOfReach(clusters: seq<Cluster>, cfg: ClusterConfig, atr: Option<real>) {
    && (forall k, i :: 0 <= k < |clusters| && 0 <= i < |clusters[k]| ==>
          clusters[k][0].price <= clusters[k][i].price && Reaches(clusters[k][0].price, clusters[k][i].price, cfg, atr))
    && (forall j, k :: 0 <= j < k < |clusters| ==>
          clusters[j][0].price < clusters[k][0].price
          && !Reaches(clusters[j][0].price, clusters[k][0].price, cfg, atr))
  }

  lemma ReachIsTolerance(anchor: real, price: real, cfg: ClusterConfig, atr: Option<real>)
    ensures Reaches(anchor, price, cfg, atr) <==> price <= anchor + ClusterTolerance(anchor, cfg, atr)
  {
  }

  lemma RunsAreCutWhereOutOfReach(clusters: seq<Cluster>, cfg: ClusterConfig, atr: Option<real>)
    requires RunsWithinTolerance(clusters, ToleranceOf(cfg, atr)) && 0.0 <= cfg.tolerancePct
    ensures CutWhereOutOfReach(clusters, cfg, atr)
  {
    var tol := ToleranceOf(cfg, atr);
    forall k, i | 0 <= k < |clusters| && 0 <= i < |clusters[k]|
      ensures clusters[k][0].price <= clusters[k][i].price
      ensures Reaches(clusters[k][0].price, clusters[k][i].price, cfg, atr)
    {
      assert clusters[k][i] in clusters[k];
      assert Fits(clusters[k][i].price, clusters[k], tol);
      ReachIsTolerance(clusters[k][0].price, clusters[k][i].price, cfg, atr);
    }
    forall j, k | 0 <= j < k < |clusters|
      ensures clusters[j][0].price < clusters[k][0].price
      ensures !Reaches(clusters[j][0].price, clusters[k][0].price, cfg, atr)
    {
      ReachIsTolerance(clusters[j][0].price, clusters[k][0].price, cfg, atr);
      ClusterToleranceGrows(clusters[j][0].price, clusters[j][0].price, cfg, atr);
    }
  }

  // ----- the loop -----

  /** Two nested loops, as in the source: each level tries every cluster in turn. */
  method ClusterLevels(candidates: seq<Level>, cfg: ClusterConfig, atr: Option<real>) returns (clusters: seq<Cluster>)
    requires 0.0 <= cfg.tolerancePct
    ensures RunsWithinTolerance(clusters, ToleranceOf(cfg, atr)) && CutWhereOutOfReach(clusters, cfg, atr)
    ensures SortedBy(Flatten(clusters), PricedNoHigher) && multiset(Flatten(clusters)) == multiset(candidates)
    ensures (forall x :: x in candidates ==> 0.0 < x.price) ==>
      forall groups :: IsGrouping(groups, candidates, ToleranceOf(cfg, atr)) ==> |clusters| <= |groups|
  {
    var tol := ToleranceOf(cfg, atr);
    var levels := SortBy(candidates, PricedNoHigher);
    ConfiguredToleranceGrows(cfg, atr);
    SameMembers(levels, candidates);
    clusters := FirstFit(levels, tol);
    LastFitMakesRuns(levels, tol);
    RunsAreCutWhereOutOfReach(clusters, cfg, atr);
    LastFitKeepsLevels(levels, tol);
    forall groups | IsGrouping(groups, candidates, tol) && forall x :: x in candidates ==> 0.0 < x.price
      ensures |clusters| <= |groups|
    {
      NoGroupingIsSmaller(clusters, groups, candidates, tol);
    }
  }

  lemma EarlierAnchorsAreLower(levels: seq<Level>, i: nat, tol: Tolerance)
    requires SortedBy(levels, PricedNoHigher) && i < |levels| && forall x :: x in levels ==> 0.0 <= tol(x.price)
    ensures var clusters := LastFit(levels[..i], tol);
            && RunsWithinTolerance(clusters, tol)
            && forall k :: 0 <= k < |clusters| ==> clusters[k][0].price <= levels[i].price
  {
    LastFitMakesRuns(levels[..i], tol);
    forall k | 0 <= k < |LastFit(levels[..i], tol)| ensures LastFit(levels[..i], tol)[k][0].price <= levels[i].price {
      AnchorIsNoHigher(levels, i, k, tol);
    }
  }

  method FirstFit(levels: seq<Level>, tol: Tolerance) returns (clusters: seq<Cluster>)
    requires SortedBy(levels, PricedNoHigher) && forall x :: x in levels ==> 0.0 <= tol(x.price)
    ensures clusters == LastFit(levels, tol)
  {
    clusters := [];
    for i := 0 to |levels|
      invariant clusters == LastFit(levels[..i], tol)
    {
      assert levels[..i + 1][..i] == levels[..i];
      EarlierAnchorsAreLower(levels, i, tol);
      clusters := Place(clusters, levels[i], tol);
    }
    assert levels[..|levels|] == levels;
  }

  lemma EarlierClusterIsOutOfReach(clusters: seq<Cluster>, k: nat, level: Level, tol: Tolerance)
    requires RunsWithinTolerance(clusters, tol) && k < |clusters|
    requires forall j :: 0 <= j < |clusters| ==> clusters[j][0].price <= level.price
    ensures Fits(level.price, clusters[k], tol) ==> k == |clusters| - 1
  {
    var last := |clusters| - 1;
    assert k < last ==> clusters[k][0].price + tol(clusters[k][0].price) < clusters[last][0].price;
  }

  /** The inner loop: the first cluster the level fits gets it, and that can only be the
      last one, since all earlier anchors are out of reach. */
  method Place(clusters: seq<Cluster>, level: Level, tol: Tolerance) returns (after: seq<Cluster>)
    requires RunsWithinTolerance(clusters, tol)
    requires forall k :: 0 <= k < |clusters| ==> clusters[k][0].price <= level.price
    ensures after == JoinLast(clusters, level, tol)
  {
    var placed := false;
    after := clusters;
    for k := 0 to |clusters|
      invariant !placed && after == clusters
      invariant forall j :: 0 <= j < k ==> !Fits(level.price, clusters[j], tol)
    {
      if Fits(level.price, clusters[k], tol) {
        EarlierClusterIsOutOfReach(clusters, k, level, tol);
        after := clusters[k := clusters[k] + [level]];
        placed := true;
        break;
      }
    }
    if !placed {
      after := clusters + [[level]];
    }
  }
}
