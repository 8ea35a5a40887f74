/** The breakout scanner (`detect_breakout_events` in
    `analysis/pattern_intelligence/chart_analysis.py`): a backward scan over pierces of a
    level, a forward scan for what became of each, and an early exit. */
module BreakoutScan {
  import opened Sequences

  datatype Bar = Bar(high: real, low: real, close: real)

  datatype Zone = Zone(priceLow: real, priceHigh: real, zoneLabel: nat)

  datatype Outcome = FailedBreak | ConfirmedBreak

  /** What became of a pierce, and the bar on which it was decided. */
  datatype Decision = Decision(outcome: Outcome, bar: nat)

  datatype Side = ResistanceSide | SupportSide

  datatype Event = Event(side: Side, decision: Decision, zoneLabel: nat)

  predicate Pierces(b: Bar, side: Side, level: real) {
    match side
    case ResistanceSide => b.high > level * 1.001
    case SupportSide => b.low < level * 0.999
  }

  predicate FallsBack(b: Bar, side: Side, level: real) {
    match side
    case ResistanceSide => b.close < level
    case SupportSide => b.close > level
  }

  predicate FollowsThrough(b: Bar, side: Side, level: real) {
    match side
    case ResistanceSide => b.close > level * 1.002
    case SupportSide => b.close < level * 0.998
  }

  function EndIdx(n: nat, pierce: nat, followThrough: nat): (e: nat)
    requires pierce < n
    ensures pierce <= e < n
  {
    if pierce + followThrough < n - 1 then pierce + followThrough else n - 1
  }

  /** The first bar in `from..=upTo` that closes back through the level. */
  function FirstFallBack(bars: seq<Bar>, side: Side, level: real, from: nat, upTo: nat): (r: Option<nat>)
    requires upTo < |bars|
    ensures r.Some? ==> from <= r.value <= upTo && FallsBack(bars[r.value], side, level)
    ensures forall i :: from <= i <= upTo && (r.Some? ==> i < r.value) ==> !FallsBack(bars[i], side, level)
    decreases upTo + 1 - from
  {
    if upTo < from then None
    else if FallsBack(bars[from], side, level) then Some(from)
    else FirstFallBack(bars, side, level, from + 1, upTo)
  }

  /** What becomes of the pierce at one bar: it fails at the first close back through the
      level, else it is confirmed if the last bar of the follow-through closes well beyond
      the level, else it stays undecided. */
  function Decide(bars: seq<Bar>, side: Side, level: real, pierce: nat, followThrough: nat): Option<Decision>
    requires pierce < |bars|
  {
    if !Pierces(bars[pierce], side, level) then None
    else
      var end := EndIdx(|bars|, pierce, followThrough);
      var back := FirstFallBack(bars, side, level, pierce + 1, end);
      if back.Some? then Some(Decision(FailedBreak, back.value))
      else if FollowsThrough(bars[end], side, level) then Some(Decision(ConfirmedBreak, end))
      else None
  }

  /** Walking back from `pierce` down to, but not including, `start`: the first decided one. */
  function LatestDecision(bars: seq<Bar>, side: Side, level: real, start: nat, pierce: int,
                          followThrough: nat): Option<Decision>
    requires pierce < |bars|
    decreases pierce
  {
    if pierce <= start then None
    else
      var d := Decide(bars, side, level, pierce, followThrough);
      if d.Some? then d else LatestDecision(bars, side, level, start, pierce - 1, followThrough)
  }

  function RecentOnly(d: Option<Decision>, minBar: nat): Option<Decision> {
    if d.Some? && d.value.bar < minBar then None else d
  }

  // ----- why stopping at the first decided pierce is sound -----

  /** A later pierce is never decided before an earlier one. */
  lemma DecisionsAreInOrder(bars: seq<Bar>, side: Side, level: real, p: nat, q: nat, followThrough: nat)
    requires p <= q < |bars|
    ensures var d, e := Decide(bars, side, level, p, followThrough), Decide(bars, side, level, q, followThrough);
            d.Some? && e.Some? ==> d.value.bar <= e.value.bar
  {
    var ep, eq := EndIdx(|bars|, p, followThrough), EndIdx(|bars|, q, followThrough);
    assert ep <= eq;
    var bp := FirstFallBack(bars, side, level, p + 1, ep);
    var bq := FirstFallBack(bars, side, level, q + 1, eq);
    assert bp.Some? && q < bp.value ==> bq.Some? && bq.value == bp.value;
  }

  /** Pierces of a positive level decided on the same bar are decided the same way. */
  lemma SameBarSameOutcome(bars: seq<Bar>, side: Side, level: real, p: nat, q: nat, followThrough: nat)
    requires p <= q < |bars| && 0.0 < level
    ensures var d, e := Decide(bars, side, level, p, followThrough), Decide(bars, side, level, q, followThrough);
            d.Some? && e.Some? && d.value.bar == e.value.bar ==> d == e
  {
    var ep, eq := EndIdx(|bars|, p, followThrough), EndIdx(|bars|, q, followThrough);
    forall b: Bar ensures !(FallsBack(b, side, level) && FollowsThrough(b, side, level)) {
    }
    var bp := FirstFallBack(bars, side, level, p + 1, ep);
    var bq := FirstFallBack(bars, side, level, q + 1, eq);
    assert bp.Some? && bq.None? ==> FallsBack(bars[bp.value], side, level);
  }

  lemma {:induction false} LatestIsLastDecided(bars: seq<Bar>, side: Side, level: real, start: nat, pierce: int,
                                               followThrough: nat)
    requires pierce < |bars|
    ensures var r := LatestDecision(bars, side, level, start, pierce, followThrough);
            && (r.None? ==> forall p :: start < p <= pierce ==> Decide(bars, side, level, p, followThrough).None?)
            && (r.Some? ==> exists p :: start < p <= pierce && Decide(bars, side, level, p, followThrough) == r)
            && (r.Some? ==> forall q :: start < q <= pierce && Decide(bars, side, level, q, followThrough).Some? ==>
                  Decide(bars, side, level, q, followThrough).value.bar <= r.value.bar)
    decreases pierce
  {
    if start < pierce {
      var d := Decide(bars, side, level, pierce, followThrough);
      if d.None? {
        LatestIsLastDecided(bars, side, level, start, pierce - 1, followThrough);
      } else {
        forall q | start < q <= pierce && Decide(bars, side, level, q, followThrough).Some?
          ensures Decide(bars, side, level, q, followThrough).value.bar <= d.value.bar
        {
          DecisionsAreInOrder(bars, side, level, q, pierce, followThrough);
        }
      }
    }
  }

  /** The scan looks at one decided pierce only, and gives up if that one was decided too
      long ago. Nothing is missed: it reports exactly when some pierce in the lookback was
      decided recently, and what it reports has the latest deciding bar of all. */
  lemma EarlyExitIsSound(bars: seq<Bar>, side: Side, level: real, start: nat, minBar: nat, followThrough: nat)
    ensures var top := |bars| - 2;
            var r := RecentOnly(LatestDecision(bars, side, level, start, top, followThrough), minBar);
            && (r.Some? <==> exists p :: start < p <= top && Decide(bars, side, level, p, followThrough).Some?
                               && minBar <= Decide(bars, side, level, p, followThrough).value.bar)
            && (r.Some? ==> exists p :: start < p <= top && Decide(bars, side, level, p, followThrough) == r)
            && (r.Some? ==> forall q :: start < q <= top && Decide(bars, side, level, q, followThrough).Some? ==>
                  Decide(bars, side, level, q, followThrough).value.bar <= r.value.bar)
  {
    LatestIsLastDecided(bars, side, level, start, |bars| - 2, followThrough);
  }

  // ----- support is resistance upside down -----

  /** Bars reflected in the level: what was above is as far below. */
  function Reflect(bars: seq<Bar>, level: real): (r: seq<Bar>)
    ensures |r| == |bars|
    ensures forall i :: 0 <= i < |bars| ==>
      r[i] == Bar(2.0 * level - bars[i].low, 2.0 * level - bars[i].high, 2.0 * level - bars[i].close)
  {
    seq(|bars|, i requires 0 <= i < |bars| =>
      Bar(2.0 * level - bars[i].low, 2.0 * level - bars[i].high, 2.0 * level - bars[i].close))
  }

  lemma {:induction false} ReflectedFallBack(bars: seq<Bar>, level: real, from: nat, upTo: nat)
    requires upTo < |bars|
    ensures FirstFallBack(bars, SupportSide, level, from, upTo)
         == FirstFallBack(Reflect(bars, level), ResistanceSide, level, from, upTo)
    decreases upTo + 1 - from
  {
    if from <= upTo {
      ReflectedFallBack(bars, level, from + 1, upTo);
    }
  }

  lemma ReflectedDecision(bars: seq<Bar>, level: real, pierce: nat, followThrough: nat)
    requires pierce < |bars|
    ensures Decide(bars, SupportSide, level, pierce, followThrough)
         == Decide(Reflect(bars, level), ResistanceSide, level, pierce, followThrough)
  {
    var end := EndIdx(|bars|, pierce, followThrough);
    ReflectedFallBack(bars, level, pierce + 1, end);
    assert Pierces(bars[pierce], SupportSide, level) <==> Pierces(Reflect(bars, level)[pierce], ResistanceSide, level);
    assert FollowsThrough(bars[end], SupportSide, level) <==>
           FollowsThrough(Reflect(bars, level)[end], ResistanceSide, level);
  }

  /** The support scan is the resistance scan of the chart reflected in the level. */
  lemma {:induction false} SupportScanIsReflection(bars: seq<Bar>, level: real, start: nat, pierce: int,
                                                   followThrough: nat)
    requires pierce < |bars|
    ensures LatestDecision(bars, SupportSide, level, start, pierce, followThrough)
         == LatestDecision(Reflect(bars, level), ResistanceSide, level, start, pierce, followThrough)
    decreases pierce
  {
    if start < pierce {
      ReflectedDecision(bars, level, pierce, followThrough);
      SupportScanIsReflection(bars, level, start, pierce - 1, followThrough);
    }
  }

  // ----- the scans -----

  function MaxInt(x: int, y: int): int {
    if x < y then y else x
  }

  function ScanResult(bars: seq<Bar>, side: Side, level: real, lookback: int, followThrough: nat,
                      recent: int): Option<Decision> {
    RecentOnly(LatestDecision(bars, side, level, MaxInt(0, |bars| - lookback), |bars| - 2, followThrough),
               MaxInt(0, |bars| - recent))
  }

  // ----- the decisions, bar by bar -----

  /** A high over the level by 0.1% at bar `p`. It fails at the first later close below the level, or else is
      confirmed if the last bar followed, `followThrough` bars on or the last one there is, closes 0.2% over it. */
  ghost predicate DecidedAbove(bars: seq<Bar>, level: real, p: nat, d: Decision, followThrough: nat) {
    && p <= d.bar < |bars| && d.bar <= p + followThrough && bars[p].high > level * 1.001
    && (forall i :: p < i < d.bar ==> bars[i].close >= level)
    && match d.outcome
       case FailedBreak => p < d.bar && bars[d.bar].close < level
       case ConfirmedBreak =>
         && (d.bar == p + followThrough || d.bar == |bars| - 1)
         && (p < d.bar ==> bars[d.bar].close >= level) && bars[d.bar].close > level * 1.002
  }

  /** A low under the level by 0.1%, which fails at the first later close above the level, or else is
      confirmed by a close 0.2% under it. */
  ghost predicate DecidedBelow(bars: seq<Bar>, level: real, p: nat, d: Decision, followThrough: nat) {
    && p <= d.bar < |bars| && d.bar <= p + followThrough && bars[p].low < level * 0.999
    && (forall i :: p < i < d.bar ==> bars[i].close <= level)
    && match d.outcome
       case FailedBreak => p < d.bar && bars[d.bar].close > level
       case ConfirmedBreak =>
         && (d.bar == p + followThrough || d.bar == |bars| - 1)
         && (p < d.bar ==> bars[d.bar].close <= level) && bars[d.bar].close < level * 0.998
  }

  lemma DecisionAbove(bars: seq<Bar>, level: real, p: nat, d: Decision, followThrough: nat)
    requires p < |bars|
    ensures Decide(bars, ResistanceSide, level, p, followThrough) == Some(d)
       <==> DecidedAbove(bars, level, p, d, followThrough)
  {
    var end := EndIdx(|bars|, p, followThrough);
    var back := FirstFallBack(bars, ResistanceSide, level, p + 1, end);
  }

  lemma DecisionBelow(bars: seq<Bar>, level: real, p: nat, d: Decision, followThrough: nat)
    requires p < |bars|
    ensures Decide(bars, SupportSide, level, p, followThrough) == Some(d)
       <==> DecidedBelow(bars, level, p, d, followThrough)
  {
    var end := EndIdx(|bars|, p, followThrough);
    var back := FirstFallBack(bars, SupportSide, level, p + 1, end);
  }

  /** The pierces that are looked at: from the second last bar back to the one after the lookback starts,
      and never the first bar. */
  predicate LookedAt(bars: seq<Bar>, p: int, lookback: int) {
    0 < p <= |bars| - 2 && |bars| - lookback < p
  }

  ghost predicate LatestAbove(bars: seq<Bar>, level: real, lookback: int, followThrough: nat, recent: int,
                             d: Decision) {
    && |bars| - recent <= d.bar
    && (exists p :: LookedAt(bars, p, lookback) && DecidedAbove(bars, level, p, d, followThrough))
    && (forall q, e :: LookedAt(bars, q, lookback) && DecidedAbove(bars, level, q, e, followThrough) ==> e.bar <= d.bar)
  }

  ghost predicate NoneRecentlyAbove(bars: seq<Bar>, level: real, lookback: int, followThrough: nat, recent: int) {
    forall q, e :: LookedAt(bars, q, lookback) && DecidedAbove(bars, level, q, e, followThrough) ==>
      e.bar < |bars| - recent
  }

  ghost predicate LatestBelow(bars: seq<Bar>, level: real, lookback: int, followThrough: nat, recent: int,
                             d: Decision) {
    && |bars| - recent <= d.bar
    && (exists p :: LookedAt(bars, p, lookback) && DecidedBelow(bars, level, p, d, followThrough))
    && (forall q, e :: LookedAt(bars, q, lookback) && DecidedBelow(bars, level, q, e, followThrough) ==> e.bar <= d.bar)
  }

  ghost predicate NoneRecentlyBelow(bars: seq<Bar>, level: real, lookback: int, followThrough: nat, recent: int) {
    forall q, e :: LookedAt(bars, q, lookback) && DecidedBelow(bars, level, q, e, followThrough) ==>
      e.bar < |bars| - recent
  }

  lemma ScanAboveBarByBar(bars: seq<Bar>, level: real, lookback: int, followThrough: nat, recent: int)
    ensures var r := ScanResult(bars, ResistanceSide, level, lookback, followThrough, recent);
            if r.Some? then LatestAbove(bars, level, lookback, followThrough, recent, r.value)
            else NoneRecentlyAbove(bars, level, lookback, followThrough, recent)
  {
    ScanFindsLatestRecent(bars, ResistanceSide, level, lookback, followThrough, recent);
    forall p: nat, d | p < |bars|
      ensures Decide(bars, ResistanceSide, level, p, followThrough) == Some(d)
         <==> DecidedAbove(bars, level, p, d, followThrough)
    {
      DecisionAbove(bars, level, p, d, followThrough);
    }
  }

  lemma ScanBelowBarByBar(bars: seq<Bar>, level: real, lookback: int, followThrough: nat, recent: int)
    ensures var r := ScanResult(bars, SupportSide, level, lookback, followThrough, recent);
            if r.Some? then LatestBelow(bars, level, lookback, followThrough, recent, r.value)
            else NoneRecentlyBelow(bars, level, lookback, followThrough, recent)
  {
    ScanFindsLatestRecent(bars, SupportSide, level, lookback, followThrough, recent);
    forall p: nat, d | p < |bars|
      ensures Decide(bars, SupportSide, level, p, followThrough) == Some(d)
         <==> DecidedBelow(bars, level, p, d, followThrough)
    {
      DecisionBelow(bars, level, p, d, followThrough);
    }
  }

  method ScanResistance(bars: seq<Bar>, level: real, lookback: int, followThrough: nat, recent: int)
    returns (r: Option<Decision>)
    ensures r == ScanResult(bars, ResistanceSide, level, lookback, followThrough, recent)
    ensures if r.Some? then LatestAbove(bars, level, lookback, followThrough, recent, r.value)
            else NoneRecentlyAbove(bars, level, lookback, followThrough, recent)
  {
    ScanAboveBarByBar(bars, level, lookback, followThrough, recent);
    var n := |bars|;
    var start, minBar := MaxInt(0, n - lookback), MaxInt(0, n - recent);
    var pierce := n - 2;
    while start < pierce
      invariant pierce < n
      invariant LatestDecision(bars, ResistanceSide, level, start, n - 2, followThrough)
             == LatestDecision(bars, ResistanceSide, level, start, pierce, followThrough)
    {
      if bars[pierce].high > level * 1.001 {
        var end := EndIdx(n, pierce, followThrough);
        var check := pierce + 1;
        while check <= end
          invariant pierce < check <= end + 1
          invariant FirstFallBack(bars, ResistanceSide, level, pierce + 1, end)
                 == FirstFallBack(bars, ResistanceSide, level, check, end)
        {
          if bars[check].close < level {
            return if check < minBar then None else Some(Decision(FailedBreak, check));
          }
          check := check + 1;
        }
        if bars[end].close > level * 1.002 {
          return if end < minBar then None else Some(Decision(ConfirmedBreak, end));
        }
      }
      pierce := pierce - 1;
    }
    return None;
  }

  method ScanSupport(bars: seq<Bar>, level: real, lookback: int, followThrough: nat, recent: int)
    returns (r: Option<Decision>)
    ensures r == ScanResult(bars, SupportSide, level, lookback, followThrough, recent)
    ensures if r.Some? then LatestBelow(bars, level, lookback, followThrough, recent, r.value)
            else NoneRecentlyBelow(bars, level, lookback, followThrough, recent)
  {
    ScanBelowBarByBar(bars, level, lookback, followThrough, recent);
    var n := |bars|;
    var start, minBar := MaxInt(0, n - lookback), MaxInt(0, n - recent);
    var pierce := n - 2;
    while start < pierce
      invariant pierce < n
      invariant LatestDecision(bars, SupportSide, level, start, n - 2, followThrough)
             == LatestDecision(bars, SupportSide, level, start, pierce, followThrough)
    {
      if bars[pierce].low < level * 0.999 {
        var end := EndIdx(n, pierce, followThrough);
        var check := pierce + 1;
        while check <= end
          invariant pierce < check <= end + 1
          invariant FirstFallBack(bars, SupportSide, level, pierce + 1, end)
                 == FirstFallBack(bars, SupportSide, level, check, end)
        {
          if bars[check].close > level {
            return if check < minBar then None else Some(Decision(FailedBreak, check));
          }
          check := check + 1;
        }
        if bars[end].close < level * 0.998 {
          return if end < minBar then None else Some(Decision(ConfirmedBreak, end));
        }
      }
      pierce := pierce - 1;
    }
    return None;
  }

  const MIN_BARS := 25

  function LevelOf(zone: Zone, side: Side): real {
    if side.ResistanceSide? then zone.priceHigh else zone.priceLow
  }

  /** The events of some zones, in order: one at most for each. */
  function EventsOf(bars: seq<Bar>, zones: seq<Zone>, side: Side, lookback: int, followThrough: nat,
                    recent: int): seq<Event> {
    if zones == [] then []
    else
      var zone := zones[|zones| - 1];
      var r := ScanResult(bars, side, LevelOf(zone, side), lookback, followThrough, recent);
      EventsOf(bars, zones[..|zones| - 1], side, lookback, followThrough, recent)
      + if r.Some? then [Event(side, r.value, zone.zoneLabel)] else []
  }

  function FirstTwo(zones: seq<Zone>): seq<Zone> {
    if |zones| <= 2 then zones else zones[..2]
  }

  ghost predicate IsEventOf(e: Event, zone: Zone, bars: seq<Bar>, side: Side, lookback: int, followThrough: nat,
                            recent: int)
  {
    && e.side == side && e.zoneLabel == zone.zoneLabel
    && match side
       case ResistanceSide => LatestAbove(bars, zone.priceHigh, lookback, followThrough, recent, e.decision)
       case SupportSide => LatestBelow(bars, zone.priceLow, lookback, followThrough, recent, e.decision)
  }

  ghost predicate HasNoEvent(zone: Zone, bars: seq<Bar>, side: Side, lookback: int, followThrough: nat, recent: int) {
    match side
    case ResistanceSide => NoneRecentlyAbove(bars, zone.priceHigh, lookback, followThrough, recent)
    case SupportSide => NoneRecentlyBelow(bars, zone.priceLow, lookback, followThrough, recent)
  }

  /** Zone by zone, in order: the zone's event, unless it has none. */
  ghost predicate ZoneByZone(events: seq<Event>, zones: seq<Zone>, bars: seq<Bar>, side: Side, lookback: int,
                             followThrough: nat, recent: int)
    decreases |zones|
  {
    if zones == [] then events == []
    else
      var front, last := zones[..|zones| - 1], zones[|zones| - 1];
      if HasNoEvent(last, bars, side, lookback, followThrough, recent) then
        ZoneByZone(events, front, bars, side, lookback, followThrough, recent)
      else
        && events != [] && IsEventOf(events[|events| - 1], last, bars, side, lookback, followThrough, recent)
        && ZoneByZone(events[..|events| - 1], front, bars, side, lookback, followThrough, recent)
  }

  lemma EventIsBarByBar(zone: Zone, bars: seq<Bar>, side: Side, lookback: int, followThrough: nat, recent: int)
    ensures var r := ScanResult(bars, side, LevelOf(zone, side), lookback, followThrough, recent);
            && (r.None? <==> HasNoEvent(zone, bars, side, lookback, followThrough, recent))
            && (r.Some? ==>
                 IsEventOf(Event(side, r.value, zone.zoneLabel), zone, bars, side, lookback, followThrough, recent))
  {
    match side
    case ResistanceSide =>
      ScanAboveBarByBar(bars, zone.priceHigh, lookback, followThrough, recent);
    case SupportSide =>
      ScanBelowBarByBar(bars, zone.priceLow, lookback, followThrough, recent);
  }

  lemma {:induction false} EventsAreZoneByZone(zones: seq<Zone>, bars: seq<Bar>, side: Side, lookback: int,
                                               followThrough: nat, recent: int)
    ensures ZoneByZone(EventsOf(bars, zones, side, lookback, followThrough, recent), zones, bars, side, lookback,
                       followThrough, recent)
    decreases |zones|
  {
    if zones != [] {
      var front, last := zones[..|zones| - 1], zones[|zones| - 1];
      EventsAreZoneByZone(front, bars, side, lookback, followThrough, recent);
      EventIsBarByBar(last, bars, side, lookback, followThrough, recent);
      var events, before := EventsOf(bars, zones, side, lookback, followThrough, recent),
                            EventsOf(bars, front, side, lookback, followThrough, recent);
      assert events == before || events[..|events| - 1] == before;
    }
  }

  method DetectBreakoutEvents(bars: seq<Bar>, supports: seq<Zone>, resistances: seq<Zone>, lookback: int,
                              followThrough: nat, recent: int)
    returns (events: seq<Event>)
    ensures |bars| < 25 ==> events == []
    ensures 25 <= |bars| ==> exists cut ::
      && 0 <= cut <= |events|
      && ZoneByZone(events[..cut], if |resistances| <= 2 then resistances else resistances[..2], bars, ResistanceSide,
                    lookback, followThrough, recent)
      && ZoneByZone(events[cut..], if |supports| <= 2 then supports else supports[..2], bars, SupportSide,
                    lookback, followThrough, recent)
    ensures 25 <= |bars| ==>
      events == EventsOf(bars, FirstTwo(resistances), ResistanceSide, lookback, followThrough, recent)
              + EventsOf(bars, FirstTwo(supports), SupportSide, lookback, followThrough, recent)
  {
    if |bars| < MIN_BARS {
      return [];
    }
    var broken := ResistanceEvents(bars, FirstTwo(resistances), lookback, followThrough, recent);
    var lost := SupportEvents(bars, FirstTwo(supports), lookback, followThrough, recent);
    events := broken + lost;
    EventsAreZoneByZone(FirstTwo(resistances), bars, ResistanceSide, lookback, followThrough, recent);
    EventsAreZoneByZone(FirstTwo(supports), bars, SupportSide, lookback, followThrough, recent);
    assert events[..|broken|] == broken && events[|broken|..] == lost;
  }

  method ResistanceEvents(bars: seq<Bar>, zones: seq<Zone>, lookback: int, followThrough: nat, recent: int)
    returns (events: seq<Event>)
    requires MIN_BARS <= |bars|
    ensures events == EventsOf(bars, zones, ResistanceSide, lookback, followThrough, recent)
  {
    events := [];
    for k := 0 to |zones|
      invariant events == EventsOf(bars, zones[..k], ResistanceSide, lookback, followThrough, recent)
    {
      assert zones[..k + 1][..k] == zones[..k];
      var event := ScanResistance(bars, zones[k].priceHigh, lookback, followThrough, recent);
      if event.Some? {
        events := events + [Event(ResistanceSide, event.value, zones[k].zoneLabel)];
      }
    }
    assert zones[..|zones|] == zones;
  }

  method SupportEvents(bars: seq<Bar>, zones: seq<Zone>, lookback: int, followThrough: nat, recent: int)
    returns (events: seq<Event>)
    requires MIN_BARS <= |bars|
    ensures events == EventsOf(bars, zones, SupportSide, lookback, followThrough, recent)
  {
    events := [];
    for k := 0 to |zones|
      invariant events == EventsOf(bars, zones[..k], SupportSide, lookback, followThrough, recent)
    {
      assert zones[..k + 1][..k] == zones[..k];
      var event := ScanSupport(bars, zones[k].priceLow, lookback, followThrough, recent);
      if event.Some? {
        events := events + [Event(SupportSide, event.value, zones[k].zoneLabel)];
      }
    }
    assert zones[..|zones|] == zones;
  }

  /** The outcome of a pierce in the lookback, decided in the recent window and no earlier
      than that of any other pierce in the lookback. */
  ghost predicate IsLatestRecent(bars: seq<Bar>, side: Side, level: real, lookback: int, followThrough: nat,
                                 recent: int, d: Decision) {
    var start, top := MaxInt(0, |bars| - lookback), |bars| - 2;
    && MaxInt(0, |bars| - recent) <= d.bar < |bars|
    && (exists p :: start < p <= top && Decide(bars, side, level, p, followThrough) == Some(d))
    && (forall q :: start < q <= top && Decide(bars, side, level, q, followThrough).Some? ==>
          Decide(bars, side, level, q, followThrough).value.bar <= d.bar)
  }

  /** Some pierce in the lookback was decided in the recent window. */
  ghost predicate DecidedRecently(bars: seq<Bar>, side: Side, level: real, lookback: int, followThrough: nat,
                                  recent: int) {
    var start, top, minBar := MaxInt(0, |bars| - lookback), |bars| - 2, MaxInt(0, |bars| - recent);
    exists p :: start < p <= top && Decide(bars, side, level, p, followThrough).Some?
                && minBar <= Decide(bars, side, level, p, followThrough).value.bar
  }

  lemma ScanFindsLatestRecent(bars: seq<Bar>, side: Side, level: real, lookback: int, followThrough: nat, recent: int)
    ensures var r := ScanResult(bars, side, level, lookback, followThrough, recent);
            && (r.Some? <==> DecidedRecently(bars, side, level, lookback, followThrough, recent))
            && (r.Some? ==> IsLatestRecent(bars, side, level, lookback, followThrough, recent, r.value))
  {
    EarlyExitIsSound(bars, side, level, MaxInt(0, |bars| - lookback), MaxInt(0, |bars| - recent), followThrough);
  }

  ghost predicate ComesFrom(e: Event, zone: Zone, bars: seq<Bar>, side: Side, lookback: int, followThrough: nat,
                            recent: int) {
    && e.side == side && e.zoneLabel == zone.zoneLabel
    && IsLatestRecent(bars, side, LevelOf(zone, side), lookback, followThrough, recent, e.decision)
  }

  /** A zone has an event exactly when some pierce of its level in the lookback was decided in
      the recent window, and the event is the latest decided one. */
  lemma {:induction false} EventsAreRecentDecisions(bars: seq<Bar>, zones: seq<Zone>, side: Side, lookback: int,
                                                    followThrough: nat, recent: int)
    ensures var events := EventsOf(bars, zones, side, lookback, followThrough, recent);
            && |events| <= |zones|
            && (forall e :: e in events ==>
                  exists zone :: zone in zones && ComesFrom(e, zone, bars, side, lookback, followThrough, recent))
            && (forall zone :: zone in zones ==>
                  DecidedRecently(bars, side, LevelOf(zone, side), lookback, followThrough, recent) ==>
                  exists e :: e in events && ComesFrom(e, zone, bars, side, lookback, followThrough, recent))
  {
    if zones != [] {
      var front, last := zones[..|zones| - 1], zones[|zones| - 1];
      EventsAreRecentDecisions(bars, front, side, lookback, followThrough, recent);
      ScanFindsLatestRecent(bars, side, LevelOf(last, side), lookback, followThrough, recent);
      var events, before := EventsOf(bars, zones, side, lookback, followThrough, recent),
                            EventsOf(bars, front, side, lookback, followThrough, recent);
      assert zones == front + [last];
      forall zone | zone in zones && DecidedRecently(bars, side, LevelOf(zone, side), lookback, followThrough, recent)
        ensures exists e :: e in events && ComesFrom(e, zone, bars, side, lookback, followThrough, recent)
      {
        if zone in front {
          var e :| e in before && ComesFrom(e, zone, bars, side, lookback, followThrough, recent);
          assert e in events;
        } else {
          assert ComesFrom(events[|events| - 1], last, bars, side, lookback, followThrough, recent);
        }
      }
    }
  }
}
