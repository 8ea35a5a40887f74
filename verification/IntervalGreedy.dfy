/** Taking trades greedily in order of entry, for any rule that says when a trade exits:
    what the pass always gives, and exactly when it gives as many trades as possible. */
module IntervalGreedy {
  import opened Sequences

  type Time = int

  /** A trade never exits before it is entered. */
  ghost predicate ExitsAfterEntry(exit: Time -> Time) {
    forall t :: t <= exit(t)
  }

  predicate Overlap(a: Time, b: Time, exit: Time -> Time) {
    a <= exit(b) && b <= exit(a)
  }

  /** The entries taken from dates in ascending order: a date is skipped while the last
      trade taken is still open. */
  function TakeIfFree(g: seq<Time>, t: Time, exit: Time -> Time): seq<Time> {
    if g != [] && t <= exit(g[|g| - 1]) then g else g + [t]
  }

  function Greedy(s: seq<Time>, exit: Time -> Time): (g: seq<Time>)
    ensures forall t :: t in g ==> t in s
  {
    if s == [] then [] else TakeIfFree(Greedy(s[..|s| - 1], exit), s[|s| - 1], exit)
  }

  function SortedDates(dates: seq<Time>): (s: seq<Time>)
    ensures Ascending(s) && multiset(s) == multiset(dates)
  {
    SortBy(dates, (a: Time, b: Time) => a <= b)
  }

  /** The entries the greedy pass takes from candidate dates given in any order. */
  function Selection(dates: seq<Time>, exit: Time -> Time): seq<Time> {
    Greedy(SortedDates(dates), exit)
  }

  /** Each entry comes after the exit of every entry before it. */
  predicate Spaced(g: seq<Time>, exit: Time -> Time) {
    forall i, j :: 0 <= i < j < |g| ==> exit(g[i]) < g[j]
  }

  /** The date lies in the holding period of some entry of `g`. */
  predicate CoveredBy(t: Time, g: seq<Time>, exit: Time -> Time) {
    exists j :: 0 <= j < |g| && g[j] <= t <= exit(g[j])
  }

  lemma TakingKeepsSpacingAndCover(g: seq<Time>, t: Time, exit: Time -> Time)
    requires ExitsAfterEntry(exit) && Spaced(g, exit)
    requires g != [] ==> g[|g| - 1] <= t
    ensures Spaced(TakeIfFree(g, t, exit), exit)
    ensures CoveredBy(t, TakeIfFree(g, t, exit), exit)
    ensures forall u :: CoveredBy(u, g, exit) ==> CoveredBy(u, TakeIfFree(g, t, exit), exit)
  {
    var h := TakeIfFree(g, t, exit);
    assert h[|h| - 1] <= t <= exit(h[|h| - 1]);
    forall u | CoveredBy(u, g, exit) ensures CoveredBy(u, h, exit) {
      var j :| 0 <= j < |g| && g[j] <= u <= exit(g[j]);
      assert h[j] == g[j];
    }
    if h != g {
      forall i | 0 <= i < |g| ensures exit(g[i]) < t {
        assert i < |g| - 1 ==> exit(g[i]) < g[|g| - 1];
      }
    }
  }

  lemma {:induction false} GreedyIsSpacedAndCovers(s: seq<Time>, exit: Time -> Time)
    requires Ascending(s) && ExitsAfterEntry(exit)
    ensures Spaced(Greedy(s, exit), exit)
    ensures forall t :: t in s ==> CoveredBy(t, Greedy(s, exit), exit)
  {
    if s != [] {
      var n := |s| - 1;
      var g := Greedy(s[..n], exit);
      GreedyIsSpacedAndCovers(s[..n], exit);
      assert g != [] ==> g[|g| - 1] in s[..n];
      TakingKeepsSpacingAndCover(g, s[n], exit);
    }
  }

  /** The selection is one of non-overlapping candidates in chronological order, and every
      candidate it leaves out is blocked by one it took. */
  lemma SelectionIsSpacedAndCovers(dates: seq<Time>, exit: Time -> Time)
    requires ExitsAfterEntry(exit)
    ensures var g := Selection(dates, exit);
            && Spaced(g, exit)
            && (forall i, j :: 0 <= i < j < |g| ==> !Overlap(g[i], g[j], exit))
            && (forall t :: t in g ==> t in dates)
            && (forall t :: t in dates ==> CoveredBy(t, g, exit))
  {
    var s := SortedDates(dates);
    GreedyIsSpacedAndCovers(s, exit);
    forall t ensures t in s <==> t in dates {
      assert t in multiset(s) <==> t in multiset(dates);
    }
  }

  lemma {:induction false} SpacedCoversAgree(f: seq<Time>, g: seq<Time>, exit: Time -> Time, k: nat)
    requires ExitsAfterEntry(exit) && Spaced(f, exit) && Spaced(g, exit)
    requires forall t :: t in f ==> CoveredBy(t, g, exit)
    requires forall t :: t in g ==> CoveredBy(t, f, exit)
    requires k <= |f| && k <= |g|
    ensures forall m :: 0 <= m < k ==> f[m] == g[m]
  {
    if 0 < k {
      SpacedCoversAgree(f, g, exit, k - 1);
      assert f[k - 1] in f && g[k - 1] in g;
    }
  }

  lemma SpacedCoverIsNotLonger(f: seq<Time>, g: seq<Time>, exit: Time -> Time)
    requires ExitsAfterEntry(exit) && Spaced(f, exit) && Spaced(g, exit)
    requires forall t :: t in f ==> CoveredBy(t, g, exit)
    requires forall t :: t in g ==> CoveredBy(t, f, exit)
    ensures |g| <= |f|
  {
    SpacedCoversAgree(f, g, exit, if |f| < |g| then |f| else |g|);
    if g != [] {
      assert g[|g| - 1] in g;
    }
  }

  /** The selection is the only list of spaced candidates that covers all candidates. */
  lemma SelectionIsTheOnlySpacedCover(f: seq<Time>, dates: seq<Time>, exit: Time -> Time)
    requires ExitsAfterEntry(exit)
    ensures f == Selection(dates, exit) <==>
      && Spaced(f, exit)
      && (forall t :: t in f ==> t in dates)
      && (forall t :: t in dates ==> CoveredBy(t, f, exit))
  {
    var g := Selection(dates, exit);
    SelectionIsSpacedAndCovers(dates, exit);
    if Spaced(f, exit) && (forall t :: t in f ==> t in dates) && (forall t :: t in dates ==> CoveredBy(t, f, exit)) {
      SpacedCoverIsNotLonger(f, g, exit);
      SpacedCoverIsNotLonger(g, f, exit);
      SpacedCoversAgree(f, g, exit, |f|);
    }
  }

  // ----- when the selection is a maximum -----

  /** The trades on `dates` exit in the order they were entered. */
  ghost predicate ExitsOrdered(dates: iset<Time>, exit: Time -> Time) {
    forall a, b :: a in dates && b in dates && a <= b ==> exit(a) <= exit(b)
  }

  /** Whenever a candidate comes after the exit of some trade, it also comes after the exits of
      the trades entered before that one. */
  ghost predicate ExitsInTurn(dates: iset<Time>, exit: Time -> Time) {
    forall a, b, c :: a in dates && b in dates && c in dates && a <= b && exit(b) < c ==> exit(a) < c
  }

  /** The members up to `c`, with `c` as one more. */
  ghost function Followed(dates: iset<Time>, c: Time): iset<Time> {
    (iset t | t in dates && t <= c) + iset{c}
  }

  /** Exits are ordered exactly when they are in turn whatever single date follows. */
  lemma OrderedExitsAreInTurn(dates: iset<Time>, exit: Time -> Time)
    requires ExitsAfterEntry(exit)
    ensures ExitsOrdered(dates, exit) ==> ExitsInTurn(dates, exit)
    ensures ExitsOrdered(dates, exit) <==> forall c :: ExitsInTurn(Followed(dates, c), exit)
  {
    if ExitsOrdered(dates, exit) {
      forall c ensures ExitsInTurn(Followed(dates, c), exit) {
        LaterDateKeepsTurn(dates, c, exit);
      }
    } else {
      var a, b :| a in dates && b in dates && a <= b && exit(b) < exit(a);
      var c := exit(a);
      assert b <= exit(b);
      assert a in Followed(dates, c) && b in Followed(dates, c) && c in Followed(dates, c);
    }
  }

  lemma LaterDateKeepsTurn(dates: iset<Time>, c: Time, exit: Time -> Time)
    requires ExitsAfterEntry(exit) && ExitsOrdered(dates, exit)
    ensures ExitsInTurn(Followed(dates, c), exit)
  {
    var followed := Followed(dates, c);
    forall x, y, z | x in followed && y in followed && z in followed && x <= y && exit(y) < z ensures exit(x) < z {
      assert y <= exit(y) && z <= c;
      assert x in dates && y in dates;
    }
  }

  ghost function AsSet(dates: seq<Time>): iset<Time> {
    iset t | t in dates
  }

  /** A choice of candidates, by position, in which no two trades overlap. */
  ghost predicate NonOverlappingChoice(I: set<nat>, dates: seq<Time>, exit: Time -> Time) {
    && (forall i :: i in I ==> i < |dates|)
    && (forall i, j :: i in I && j in I && i != j ==> !Overlap(dates[i], dates[j], exit))
  }

  ghost predicate SelectionIsMaximum(dates: seq<Time>, exit: Time -> Time) {
    forall I: set<nat> :: NonOverlappingChoice(I, dates, exit) ==> |I| <= |Selection(dates, exit)|
  }

  ghost function Period(t: Time, g: seq<Time>, exit: Time -> Time): (j: nat)
    requires CoveredBy(t, g, exit)
    ensures j < |g| && g[j] <= t <= exit(g[j])
  {
    var j :| 0 <= j < |g| && g[j] <= t <= exit(g[j]);
    j
  }

  /** Greedy stays ahead: trades that do not overlap and all lie in holding periods of `g`
      are no more than the entries of `g`, since one period cannot hold two of them. */
  lemma OneTradePerPeriod(I: set<nat>, dates: seq<Time>, g: seq<Time>, exit: Time -> Time)
    requires ExitsAfterEntry(exit) && NonOverlappingChoice(I, dates, exit)
    requires forall i :: i in I ==> CoveredBy(dates[i], g, exit)
    requires ExitsInTurn(AsSet(dates) + AsSet(g), exit)
    ensures |I| <= |g|
  {
    var period := map i: nat | i in I :: Period(dates[i], g, exit);
    forall i, j | i in I && j in I && period[i] == period[j] ensures i == j {
      var k := period[i];
      assert dates[i] in AsSet(dates) && dates[j] in AsSet(dates) && g[k] in AsSet(g);
      var a, x, y := g[k], dates[i], dates[j];
      assert exit(x) < y ==> exit(a) < y;
      assert exit(y) < x ==> exit(a) < x;
      assert Overlap(dates[i], dates[j], exit);
    }
    Pigeonhole(I, period, |g|);
  }

  /** No choice of candidates without overlaps is larger than the selection. */
  lemma SelectionIsLargest(dates: seq<Time>, exit: Time -> Time)
    requires ExitsAfterEntry(exit) && ExitsInTurn(AsSet(dates), exit)
    ensures SelectionIsMaximum(dates, exit)
  {
    var g := Selection(dates, exit);
    SelectionIsSpacedAndCovers(dates, exit);
    assert AsSet(dates) + AsSet(g) == AsSet(dates);
    forall I: set<nat> | NonOverlappingChoice(I, dates, exit) ensures |I| <= |g| {
      forall i | i in I ensures CoveredBy(dates[i], g, exit) {
        assert dates[i] in dates;
      }
      OneTradePerPeriod(I, dates, g, exit);
    }
  }

  /** Spaced trades on dates that `g` covers are no more than the entries of `g`. */
  lemma SpacedTradesFit(f: seq<Time>, g: seq<Time>, exit: Time -> Time)
    requires ExitsAfterEntry(exit) && Spaced(f, exit)
    requires forall t :: t in f ==> CoveredBy(t, g, exit)
    requires ExitsInTurn(AsSet(f) + AsSet(g), exit)
    ensures |f| <= |g|
  {
    var I := Below(|f|);
    forall i, j | i in I && j in I && i != j ensures !Overlap(f[i], f[j], exit) {
      assert i < j ==> exit(f[i]) < f[j];
      assert j < i ==> exit(f[j]) < f[i];
    }
    OneTradePerPeriod(I, f, g, exit);
  }

  /** Fewer candidates never give more trades. */
  lemma FewerCandidatesFewerTrades(sub: seq<Time>, all: seq<Time>, exit: Time -> Time)
    requires ExitsAfterEntry(exit) && ExitsInTurn(AsSet(all), exit)
    requires AsSet(sub) <= AsSet(all)
    ensures |Selection(sub, exit)| <= |Selection(all, exit)|
  {
    var f, g := Selection(sub, exit), Selection(all, exit);
    SelectionIsSpacedAndCovers(sub, exit);
    SelectionIsSpacedAndCovers(all, exit);
    forall t | t in f ensures t in all {
      assert t in AsSet(sub);
      assert t in AsSet(all);
    }
    assert AsSet(f) + AsSet(g) <= AsSet(all);
    SpacedTradesFit(f, g, exit);
  }

  lemma SpacedDatesAreSelected(f: seq<Time>, exit: Time -> Time)
    requires ExitsAfterEntry(exit) && Spaced(f, exit)
    ensures Selection(f, exit) == f
  {
    forall t | t in f ensures CoveredBy(t, f, exit) {
      var j :| 0 <= j < |f| && f[j] == t;
      assert f[j] <= t <= exit(f[j]);
    }
    SelectionIsTheOnlySpacedCover(f, f, exit);
  }

  /** The smallest failure: a trade, a later one that exits sooner, and one entered between the
      two exits. The pass takes the first alone, though the other two fit. */
  lemma EarlierExitDefeatsGreedy(a: Time, b: Time, c: Time, exit: Time -> Time)
    requires ExitsAfterEntry(exit) && a <= b && exit(b) < c <= exit(a)
    ensures Selection([a, b, c], exit) == [a]
    ensures Selection([b, c], exit) == [b, c]
    ensures !SelectionIsMaximum([a, b, c], exit)
  {
    FirstBlocksAll(a, b, c, exit);
    SpacedDatesAreSelected([b, c], exit);
    LaterTwoFit([a, b, c], exit);
  }

  lemma FirstBlocksAll(a: Time, b: Time, c: Time, exit: Time -> Time)
    requires ExitsAfterEntry(exit) && a <= b && exit(b) < c <= exit(a)
    ensures Selection([a, b, c], exit) == [a]
  {
    var dates := [a, b, c];
    forall t | t in dates ensures CoveredBy(t, [a], exit) {
      assert b <= exit(b);
      assert [a][0] <= t <= exit([a][0]);
    }
    SelectionIsTheOnlySpacedCover([a], dates, exit);
  }

  lemma LaterTwoFit(dates: seq<Time>, exit: Time -> Time)
    requires |dates| == 3 && |Selection(dates, exit)| == 1
    requires !Overlap(dates[1], dates[2], exit) && !Overlap(dates[2], dates[1], exit)
    ensures !SelectionIsMaximum(dates, exit)
  {
    var I: set<nat> := {1, 2};
    assert NonOverlappingChoice(I, dates, exit);
    assert |I| == 2;
  }

  /** Exactly when the pass keeps its promise, for any stock of candidates, one list of them for
      instance: exits are in turn if and only if every choice from the stock gets a maximum
      selection, and if and only if dropping candidates never gains a trade. */
  lemma MaximumExactlyWhenExitsAreInTurn(stock: iset<Time>, exit: Time -> Time)
    requires ExitsAfterEntry(exit)
    ensures ExitsInTurn(stock, exit) <==> forall dates :: AsSet(dates) <= stock ==> SelectionIsMaximum(dates, exit)
    ensures ExitsInTurn(stock, exit) <==>
      forall sub, all :: AsSet(all) <= stock && AsSet(sub) <= AsSet(all) ==>
        |Selection(sub, exit)| <= |Selection(all, exit)|
  {
    if ExitsInTurn(stock, exit) {
      forall dates | AsSet(dates) <= stock ensures SelectionIsMaximum(dates, exit) {
        SelectionIsLargest(dates, exit);
      }
      forall sub, all | AsSet(all) <= stock && AsSet(sub) <= AsSet(all)
        ensures |Selection(sub, exit)| <= |Selection(all, exit)|
      {
        FewerCandidatesFewerTrades(sub, all, exit);
      }
    } else {
      var a, b, c :| a in stock && b in stock && c in stock && a <= b && exit(b) < c <= exit(a);
      EarlierExitDefeatsGreedy(a, b, c, exit);
      assert AsSet([a, b, c]) <= stock;
      assert AsSet([b, c]) <= AsSet([a, b, c]);
    }
  }

  /** Trades exit in the order they are entered if and only if every choice from the stock and any one
      date that follows gets a maximum selection, and if and only if dropping candidates never gains a
      trade in such a choice. */
  lemma MaximumExactlyWhenExitsAreOrdered(stock: iset<Time>, exit: Time -> Time)
    requires ExitsAfterEntry(exit)
    ensures ExitsOrdered(stock, exit) <==>
      forall c, dates :: AsSet(dates) <= Followed(stock, c) ==> SelectionIsMaximum(dates, exit)
    ensures ExitsOrdered(stock, exit) <==>
      forall c, sub, all :: AsSet(all) <= Followed(stock, c) && AsSet(sub) <= AsSet(all) ==>
        |Selection(sub, exit)| <= |Selection(all, exit)|
  {
    OrderedExitsAreInTurn(stock, exit);
    forall c
      ensures ExitsInTurn(Followed(stock, c), exit) <==>
        forall dates :: AsSet(dates) <= Followed(stock, c) ==> SelectionIsMaximum(dates, exit)
      ensures ExitsInTurn(Followed(stock, c), exit) <==>
        forall sub, all :: AsSet(all) <= Followed(stock, c) && AsSet(sub) <= AsSet(all) ==>
          |Selection(sub, exit)| <= |Selection(all, exit)|
    {
      MaximumExactlyWhenExitsAreInTurn(Followed(stock, c), exit);
    }
  }
}
