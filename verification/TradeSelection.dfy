/** The non-overlapping trade selector (`backtest/baselines.py`): what it promises, and
    exactly when it keeps the promise. */
module TradeSelection {
  import opened Calendar
  import opened Sequences
  import opened IntervalGreedy

  const LABEL_HORIZON_DAYS: nat := 5

  /** The exit date of a trade held for `hold` business days. */
  function HoldExit(hold: nat): Timestamp -> Timestamp {
    t => AddBDay(t, hold)
  }

  lemma HoldExitIsNotBeforeEntry(hold: nat)
    ensures ExitsAfterEntry(HoldExit(hold))
  {
    forall t ensures t <= AddBDay(t, hold) {
      BDayOrder(DayOf(t), DayOf(t), hold);
      TimestampOrder(t, AddBDay(t, hold));
    }
  }

  /** Candidates from different days that share an exit day (a Friday and the weekend after it)
      have their times of day in order. */
  ghost predicate ClocksOrdered(dates: iset<Timestamp>, hold: nat) {
    forall a, b :: a in dates && b in dates && DayOf(a) < DayOf(b) && BDay(DayOf(a), hold) == BDay(DayOf(b), hold)
      ==> ClockOf(a) <= ClockOf(b)
  }

  /** What a caller can look at: where the times of day of two such candidates are not in order,
      no candidate of their exit day is stamped in between. */
  ghost predicate ClocksInTurn(dates: iset<Timestamp>, hold: nat) {
    forall a, b, c :: a in dates && b in dates && c in dates
      && DayOf(a) < DayOf(b) && BDay(DayOf(a), hold) == BDay(DayOf(b), hold) == DayOf(c) && ClockOf(b) < ClockOf(c)
      ==> ClockOf(a) < ClockOf(c)
  }

  lemma OrderedClocksAreInTurn(dates: iset<Timestamp>, hold: nat)
    ensures ClocksOrdered(dates, hold) ==> ClocksInTurn(dates, hold)
  {
  }

  lemma ExitsOrderedExactlyWhenClocksAre(dates: iset<Timestamp>, hold: nat)
    ensures ExitsOrdered(dates, HoldExit(hold)) <==> ClocksOrdered(dates, hold)
  {
    forall a, b ensures a <= b && HoldExit(hold)(b) < HoldExit(hold)(a) <==>
        DayOf(a) < DayOf(b) && BDay(DayOf(a), hold) == BDay(DayOf(b), hold) && ClockOf(b) < ClockOf(a) {
      OutOfOrder(a, b, hold);
    }
  }

  lemma OutOfOrder(a: Timestamp, b: Timestamp, hold: nat)
    ensures a <= b && HoldExit(hold)(b) < HoldExit(hold)(a) <==>
        DayOf(a) < DayOf(b) && BDay(DayOf(a), hold) == BDay(DayOf(b), hold) && ClockOf(b) < ClockOf(a)
  {
    TimestampOrder(a, b);
    TimestampOrder(HoldExit(hold)(a), HoldExit(hold)(b));
    BDayOrder(DayOf(a), DayOf(b), hold);
  }

  lemma StampedBetween(a: Timestamp, b: Timestamp, c: Timestamp, hold: nat)
    ensures a <= b && HoldExit(hold)(b) < c <= HoldExit(hold)(a) <==>
        && DayOf(a) < DayOf(b) && BDay(DayOf(a), hold) == BDay(DayOf(b), hold) == DayOf(c)
        && ClockOf(b) < ClockOf(c) <= ClockOf(a)
  {
    OutOfOrder(a, b, hold);
    TimestampOrder(c, HoldExit(hold)(a));
    TimestampOrder(c, HoldExit(hold)(b));
  }

  lemma ExitsInTurnExactlyWhenClocksAre(dates: iset<Timestamp>, hold: nat)
    ensures ExitsInTurn(dates, HoldExit(hold)) <==> ClocksInTurn(dates, hold)
  {
    if ClocksInTurn(dates, hold) {
      forall a, b, c | a in dates && b in dates && c in dates && a <= b && HoldExit(hold)(b) < c
        ensures HoldExit(hold)(a) < c
      {
        StampedBetween(a, b, c, hold);
      }
    }
    if ExitsInTurn(dates, HoldExit(hold)) {
      ClocksAreInTurn(dates, hold);
    }
  }

  lemma ClocksAreInTurn(dates: iset<Timestamp>, hold: nat)
    requires ExitsInTurn(dates, HoldExit(hold))
    ensures ClocksInTurn(dates, hold)
  {
    forall a, b, c | a in dates && b in dates && c in dates
        && DayOf(a) < DayOf(b) && BDay(DayOf(a), hold) == BDay(DayOf(b), hold) == DayOf(c) && ClockOf(b) < ClockOf(c)
      ensures ClockOf(a) < ClockOf(c)
    {
      StampedBetween(a, b, c, hold);
    }
  }

  /** Daily bars stamped at midnight meet the condition on any calendar day, and so do
      weekday bars at any time of day. */
  lemma DailyBarsHaveOrderedClocks(dates: iset<Timestamp>, hold: nat)
    requires (forall t :: t in dates ==> ClockOf(t) == 0)
      || (1 <= hold && forall t :: t in dates ==> !IsWeekend(DayOf(t)))
    ensures ClocksOrdered(dates, hold) && ClocksInTurn(dates, hold)
  {
    forall a, b | a in dates && b in dates && DayOf(a) < DayOf(b) && BDay(DayOf(a), hold) == BDay(DayOf(b), hold)
      ensures ClockOf(a) <= ClockOf(b)
    {
      if 1 <= hold {
        BDayMergesOnlyWeekends(DayOf(a), DayOf(b), hold);
      }
    }
    OrderedClocksAreInTurn(dates, hold);
  }

  /** The selector returns a largest set of non-overlapping trades from any candidate dates
      with clocks in turn, duplicates and weekends included. */
  lemma SelectionIsMaximumForClocksInTurn(dates: seq<Timestamp>, hold: nat)
    requires ClocksInTurn(AsSet(dates), hold)
    ensures SelectionIsMaximum(dates, HoldExit(hold))
  {
    HoldExitIsNotBeforeEntry(hold);
    ExitsInTurnExactlyWhenClocksAre(AsSet(dates), hold);
    SelectionIsLargest(dates, HoldExit(hold));
  }

  /** And exactly then: for any stock of candidates, every choice from it gets a maximum selection
      if and only if the clocks are in turn; likewise dropping candidates never gains a trade if
      and only if they are. */
  lemma SelectorIsRightExactlyWhenClocksAreInTurn(stock: iset<Timestamp>, hold: nat)
    ensures ClocksInTurn(stock, hold) <==>
      forall dates :: AsSet(dates) <= stock ==> SelectionIsMaximum(dates, HoldExit(hold))
    ensures ClocksInTurn(stock, hold) <==>
      forall sub, all :: AsSet(all) <= stock && AsSet(sub) <= AsSet(all) ==>
        |Selection(sub, HoldExit(hold))| <= |Selection(all, HoldExit(hold))|
  {
    HoldExitIsNotBeforeEntry(hold);
    ExitsInTurnExactlyWhenClocksAre(stock, hold);
    MaximumExactlyWhenExitsAreInTurn(stock, HoldExit(hold));
  }

  /** Clocks are ordered if and only if the selector is right for every choice from the stock and any one
      date that follows. */
  lemma SelectorIsRightExactlyWhenClocksAreOrdered(stock: iset<Timestamp>, hold: nat)
    ensures ClocksOrdered(stock, hold) <==>
      forall c, dates :: AsSet(dates) <= Followed(stock, c) ==> SelectionIsMaximum(dates, HoldExit(hold))
    ensures ClocksOrdered(stock, hold) <==>
      forall c, sub, all :: AsSet(all) <= Followed(stock, c) && AsSet(sub) <= AsSet(all) ==>
        |Selection(sub, HoldExit(hold))| <= |Selection(all, HoldExit(hold))|
  {
    HoldExitIsNotBeforeEntry(hold);
    ExitsOrderedExactlyWhenClocksAre(stock, hold);
    MaximumExactlyWhenExitsAreOrdered(stock, HoldExit(hold));
  }

  /** A timestamp of day `d` at time of day `c`. */
  function At(d: Day, c: int): (t: Timestamp)
    requires 0 <= c < DAY_NS
    ensures DayOf(t) == d && ClockOf(t) == c
  {
    Midnight(d) + c
  }

  /** The failures: a Friday trade, a Saturday trade at an earlier time of day, and the next
      Friday at the first one's time, for instance 7 January 2000 (day 730491) at 15:00,
      8 January at 10:00 and 14 January at 15:00. One trade is taken where two fit. */
  lemma SaturdayMorningDefeatsSelector(friday: Day, early: int, late: int)
    requires Weekday(friday) == 4 && 0 <= early < late < DAY_NS
    ensures var a, b, c := At(friday, late), At(friday + 1, early), At(friday + 7, late);
            var exit := HoldExit(LABEL_HORIZON_DAYS);
            && Selection([a, b, c], exit) == [a]
            && Selection([b, c], exit) == [b, c]
            && !SelectionIsMaximum([a, b, c], exit)
  {
    var exit := HoldExit(LABEL_HORIZON_DAYS);
    var a, b, c := At(friday, late), At(friday + 1, early), At(friday + 7, late);
    assert exit(a) == c && exit(b) == At(friday + 7, early);
    TimestampOrder(a, b);
    TimestampOrder(exit(b), exit(a));
    HoldExitIsNotBeforeEntry(LABEL_HORIZON_DAYS);
    EarlierExitDefeatsGreedy(a, b, c, exit);
  }

  // ----- the selector -----

  datatype Candidate = Candidate(entry: Timestamp, ret: real)

  datatype SelectionError =
    | LengthMismatch
    | TooManyRequested(requested: int, available: nat)

  function EntryOf(c: Candidate): Timestamp {
    c.entry
  }

  function Entries(s: seq<Candidate>): seq<Timestamp> {
    Map(s, EntryOf)
  }

  function Zip(dates: seq<Timestamp>, rets: seq<real>): (z: seq<Candidate>)
    requires |dates| == |rets|
    ensures Entries(z) == dates
  {
    seq(|dates|, i requires 0 <= i < |dates| => Candidate(dates[i], rets[i]))
  }

  /** Each of them is a date with the return that belongs to it. */
  ghost predicate AreCandidates(items: seq<Candidate>, dates: seq<Timestamp>, rets: seq<real>) {
    forall c :: c in items ==> exists k :: 0 <= k < |dates| && k < |rets| && c == Candidate(dates[k], rets[k])
  }

  lemma TakenFromLists(items: seq<Candidate>, dates: seq<Timestamp>, rets: seq<real>)
    requires |dates| == |rets| && multiset(items) <= multiset(Zip(dates, rets))
    ensures AreCandidates(items, dates, rets)
  {
    forall c | c in items ensures exists k :: 0 <= k < |dates| && k < |rets| && c == Candidate(dates[k], rets[k]) {
      assert c in multiset(items);
      assert c in multiset(Zip(dates, rets));
      var k :| 0 <= k < |dates| && Zip(dates, rets)[k] == c;
    }
  }

  lemma SortingItemsSortsDates(items: seq<Candidate>, ordered: seq<Candidate>)
    requires multiset(ordered) == multiset(items)
    requires forall i, j :: 0 <= i < j < |ordered| ==> ordered[i].entry <= ordered[j].entry
    ensures Entries(ordered) == SortedDates(Entries(items))
  {
    MapPermutation(ordered, items, EntryOf);
    AscendingPermutationsAreEqual(Entries(ordered), SortedDates(Entries(items)));
  }

  /** The selection, said of dates alone: each entry comes after the exit, `hold` business days on, of every
      entry before it, and every candidate lies in the holding period of some entry. */
  ghost predicate TakesAllThatFit(g: seq<Timestamp>, dates: seq<Timestamp>, hold: nat) {
    && (forall i, j :: 0 <= i < j < |g| ==> AddBDay(g[i], hold) < g[j])
    && (forall t :: t in g ==> t in dates)
    && (forall t :: t in dates ==> exists u :: u in g && u <= t <= AddBDay(u, hold))
  }

  lemma CoveredBySome(t: Timestamp, g: seq<Timestamp>, exit: Timestamp -> Timestamp)
    ensures CoveredBy(t, g, exit) <==> exists u :: u in g && u <= t <= exit(u)
  {
    if u :| u in g && u <= t <= exit(u) {
      var j :| 0 <= j < |g| && g[j] == u;
    }
  }

  lemma SelectionTakesAllThatFit(g: seq<Timestamp>, dates: seq<Timestamp>, hold: nat)
    ensures TakesAllThatFit(g, dates, hold) <==> g == Selection(dates, HoldExit(hold))
  {
    HoldExitIsNotBeforeEntry(hold);
    SelectionIsTheOnlySpacedCover(g, dates, HoldExit(hold));
    forall t ensures CoveredBy(t, g, HoldExit(hold)) <==> exists u :: u in g && u <= t <= AddBDay(u, hold) {
      CoveredBySome(t, g, HoldExit(hold));
    }
  }

  method BuildMaxNonOverlappingTradeSet(dates: seq<Timestamp>, rets: seq<real>, hold: nat)
    returns (r: Result<seq<Candidate>, SelectionError>)
    ensures r == Failure(LengthMismatch) <==> |dates| != |rets|
    ensures r.Failure? ==> r.error == LengthMismatch
    ensures r.Success? ==>
      && Entries(r.value) == Selection(dates, HoldExit(hold))
      && multiset(r.value) <= multiset(Zip(dates, rets))
    ensures r.Success? ==> TakesAllThatFit(Entries(r.value), dates, hold) && AreCandidates(r.value, dates, rets)
  {
    if |dates| != |rets| {
      return Failure(LengthMismatch);
    }
    var items := Zip(dates, rets);
    var ordered := SortBy(items, (a: Candidate, b: Candidate) => a.entry <= b.entry);
    SortingItemsSortsDates(items, ordered);
    var selected := TakeInOrder(ordered, HoldExit(hold));
    SelectionTakesAllThatFit(Entries(selected), dates, hold);
    TakenFromLists(selected, dates, rets);
    return Success(selected);
  }

  /** What the loop of the selector takes, for any exit rule. */
  function Taken(ordered: seq<Candidate>, exit: Timestamp -> Timestamp): seq<Candidate> {
    if ordered == [] then []
    else
      var taken, c := Taken(ordered[..|ordered| - 1], exit), ordered[|ordered| - 1];
      if taken != [] && c.entry <= exit(taken[|taken| - 1].entry) then taken else taken + [c]
  }

  lemma {:induction false} TakenIsGreedy(ordered: seq<Candidate>, exit: Timestamp -> Timestamp)
    ensures Entries(Taken(ordered, exit)) == Greedy(Entries(ordered), exit)
    ensures multiset(Taken(ordered, exit)) <= multiset(ordered)
  {
    if ordered != [] {
      var n := |ordered| - 1;
      TakenIsGreedy(ordered[..n], exit);
      assert Entries(ordered)[..n] == Entries(ordered[..n]);
      MapConcat(Taken(ordered[..n], exit), [ordered[n]], EntryOf);
      assert ordered == ordered[..n] + [ordered[n]];
    }
  }

  method TakeInOrder(ordered: seq<Candidate>, exit: Timestamp -> Timestamp) returns (selected: seq<Candidate>)
    ensures Entries(selected) == Greedy(Entries(ordered), exit)
    ensures multiset(selected) <= multiset(ordered)
  {
    selected := [];
    var blockedUntil: Option<Timestamp> := None;
    for i := 0 to |ordered|
      invariant selected == Taken(ordered[..i], exit)
      invariant blockedUntil == if selected == [] then None else Some(exit(selected[|selected| - 1].entry))
    {
      var c := ordered[i];
      assert ordered[..i + 1][..i] == ordered[..i];
      if blockedUntil.Some? && c.entry <= blockedUntil.value {
        continue;
      }
      selected := selected + [c];
      blockedUntil := Some(exit(c.entry));
    }
    assert ordered[..|ordered|] == ordered;
    TakenIsGreedy(ordered, exit);
  }

  method CountMaxNonOverlappingTrades(dates: seq<Timestamp>, hold: nat) returns (n: nat)
    ensures n == |Selection(dates, HoldExit(hold))|
    ensures exists g :: TakesAllThatFit(g, dates, hold) && n == |g|
  {
    var r := BuildMaxNonOverlappingTradeSet(dates, seq(|dates|, _ => 0.0), hold);
    n := |r.value|;
  }

  // ----- random selection -----

  /** Stands for `rng.choice(n, size=k, replace=False)`: any `k` different positions. */
  method RngChoice(n: nat, k: nat) returns (chosen: set<nat>)
    requires k <= n
    ensures |chosen| == k && forall i :: i in chosen ==> i < n
  {
    var pool := Below(n);
    chosen := {};
    while |chosen| < k
      invariant chosen !! pool && |chosen| + |pool| == n && |chosen| <= k
      invariant forall i :: i in chosen || i in pool ==> i < n
      decreases k - |chosen|
    {
      var i :| i in pool;
      chosen := chosen + {i};
      pool := pool - {i};
    }
  }

  /** `small` picks positions of `big` in order. */
  ghost predicate Subsequence<T>(small: seq<T>, big: seq<T>) {
    exists at: seq<nat> :: PicksInOrder(at, small, big)
  }

  ghost predicate PicksInOrder<T>(at: seq<nat>, small: seq<T>, big: seq<T>) {
    && |at| == |small|
    && (forall i :: 0 <= i < |at| ==> at[i] < |big| && small[i] == big[at[i]])
    && (forall i, j :: 0 <= i < j < |at| ==> at[i] < at[j])
  }

  lemma SubsequenceKeepsSpacing(small: seq<Candidate>, big: seq<Candidate>, exit: Timestamp -> Timestamp)
    requires Subsequence(small, big) && Spaced(Entries(big), exit)
    ensures Spaced(Entries(small), exit)
  {
    var at: seq<nat> :| PicksInOrder(at, small, big);
    forall i, j | 0 <= i < j < |small| ensures exit(small[i].entry) < small[j].entry {
      assert Entries(big)[at[i]] == small[i].entry && Entries(big)[at[j]] == small[j].entry;
    }
  }

  method SelectRandomNonOverlappingTrades(dates: seq<Timestamp>, rets: seq<real>, nTrades: int, hold: nat)
    returns (r: Result<seq<Candidate>, SelectionError>)
    ensures var best := |Selection(dates, HoldExit(hold))|;
            && (nTrades <= 0 ==> r == Success([]))
            && (0 < nTrades && |dates| != |rets| ==> r == Failure(LengthMismatch))
            && (0 < nTrades && |dates| == |rets| ==>
                 && (best == 0 ==> r == Success([]))
                 && (0 < best < nTrades ==> r == Failure(TooManyRequested(nTrades, best)))
                 && (nTrades <= best ==> r.Success? && |r.value| == nTrades))
    ensures r.Success? && |dates| == |rets| ==>
      && Spaced(Entries(r.value), HoldExit(hold))
      && (forall c :: c in r.value ==> c in Zip(dates, rets))
    ensures r.Success? && |dates| == |rets| ==>
      && (forall i, j :: 0 <= i < j < |r.value| ==> AddBDay(r.value[i].entry, hold) < r.value[j].entry)
      && AreCandidates(r.value, dates, rets)
  {
    if nTrades <= 0 {
      return Success([]);
    }
    var built := BuildMaxNonOverlappingTradeSet(dates, rets, hold);
    if built.Failure? {
      return built;
    }
    var maxSet := built.value;
    if maxSet == [] {
      return Success([]);
    }
    if nTrades > |maxSet| {
      return Failure(TooManyRequested(nTrades, |maxSet|));
    }
    HoldExitIsNotBeforeEntry(hold);
    SelectionIsSpacedAndCovers(dates, HoldExit(hold));
    forall c | c in maxSet ensures c in Zip(dates, rets) {
      assert c in multiset(maxSet);
      assert c in multiset(Zip(dates, rets));
    }
    if nTrades == |maxSet| {
      return Success(maxSet);
    }
    var chosen := RngChoice(|maxSet|, nTrades);
    var picked := PickInOrder(maxSet, chosen);
    SubsequenceKeepsSpacing(picked, maxSet, HoldExit(hold));
    return Success(picked);
  }

  /** `[max_set[i] for i in sorted(chosen)]` */
  method PickInOrder(items: seq<Candidate>, chosen: set<nat>) returns (picked: seq<Candidate>)
    requires forall i :: i in chosen ==> i < |items|
    ensures |picked| == |chosen| && Subsequence(picked, items)
    ensures forall c :: c in picked ==> c in items
  {
    picked := [];
    ghost var at: seq<nat> := [];
    ghost var done: set<nat> := {};
    for k := 0 to |items|
      invariant done == set i | i in chosen && i < k
      invariant |picked| == |done| && PicksInOrder(at, picked, items)
      invariant forall j :: 0 <= j < |at| ==> at[j] < k
      invariant forall c :: c in picked ==> c in items
    {
      if k in chosen {
        picked := picked + [items[k]];
        at := at + [k];
        done := done + {k};
      }
    }
    assert done == chosen;
  }
}
