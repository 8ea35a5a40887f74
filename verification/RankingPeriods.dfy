/** What a period of a ranking run is, in the fields of the period, of the rows of its date and of the period
    before it. */
module RankingPeriods {
  import opened Books
  import opened Calendar
  import opened Numbers
  import opened PortfolioWeights
  import opened RankingPortfolio
  import opened Sequences

  ghost predicate AreRowsOn(rows: seq<PanelRow>, panel: seq<PanelRow>, d: Day) {
    forall r :: multiset(rows)[r] == if r.date == d then multiset(panel)[r] else 0
  }

  /** No symbol of the leg has two rows. */
  ghost predicate HasSingleRows(names: seq<Symbol>, rows: seq<PanelRow>) {
    forall i, j :: 0 <= i < j < |rows| && rows[i].symbol == rows[j].symbol ==> rows[i].symbol !in names
  }

  function ReturnSum(rows: seq<PanelRow>): real {
    if rows == [] then 0.0 else ReturnSum(rows[..|rows| - 1]) + rows[|rows| - 1].ret
  }

  function LegWeight(n: nat, gross: real, cap: Option<real>): real {
    if n == 0 then 0.0 else CappedWeight(n, gross, cap)
  }

  /** The return of a leg whose names all have its weight. */
  function LegReturn(leg: seq<PanelRow>, cap: Option<real>): real {
    Times(LegWeight(|leg|, 1.0, cap), ReturnSum(leg))
  }

  /** Half of what is sold, what is bought and what the names held before and after change by. */
  function LongTurnover(before: seq<Symbol>, after: seq<Symbol>, gross: real, cap: Option<real>): real {
    var a, b := Names(before), Names(after);
    var w, v := LegWeight(|before|, gross, cap), LegWeight(|after|, gross, cap);
    (Times(|a - b| as real, w) + Times(|b - a| as real, v) + Times(|a * b| as real, Abs(v - w))) / 2.0
  }

  /** Half of everything held before and after. */
  function ShortTurnover(before: seq<Symbol>, after: seq<Symbol>, gross: real, cap: Option<real>): real {
    (Times(|Names(before)| as real, LegWeight(|before|, gross, cap))
     + Times(|Names(after)| as real, LegWeight(|after|, gross, cap))) / 2.0
  }

  /** What is bought and shorted on a date with at least two rows, unless there is nothing to buy or, for two
      legs, nothing to short. */
  ghost predicate CanTrade(rows: seq<PanelRow>, panel: seq<PanelRow>, d: Day, cfg: Config, longs: seq<Symbol>,
                           shorts: seq<Symbol>, bought: seq<PanelRow>, shorted: seq<PanelRow>)
  {
    && AreRowsOn(rows, panel, d) && 2 <= |rows|
    && Selects(longs, shorts, bought, shorted, rows, cfg)
    && bought != [] && (cfg.strategy.LongShortQuintile? ==> shorted != [])
  }

  ghost predicate MayHoldAmbiguousName(panel: seq<PanelRow>, d: Day, cfg: Config) {
    exists rows, longs, shorts, bought, shorted ::
      && CanTrade(rows, panel, d, cfg, longs, shorts, bought, shorted)
      && (!HasSingleRows(longs, rows) || !HasSingleRows(shorts, rows))
  }

  ghost predicate HasReturns(p: Period, rows: seq<PanelRow>, bought: seq<PanelRow>, shorted: seq<PanelRow>,
                             cfg: Config)
  {
    && HasSingleRows(p.longs, rows) && HasSingleRows(p.shorts, rows)
    && p.grossReturn == LegReturn(bought, cfg.maxPositionWeight) - LegReturn(shorted, cfg.maxPositionWeight)
  }

  /** One leg holds the whole of the portfolio, two legs half of it each. */
  ghost predicate HasCosts(p: Period, prevLongs: seq<Symbol>, prevShorts: seq<Symbol>, cfg: Config) {
    && p.turnover == (
         if cfg.strategy.LongShortQuintile? then
           LongTurnover(prevLongs, p.longs, 0.5, cfg.maxPositionWeight)
           + ShortTurnover(prevShorts, p.shorts, 0.5, cfg.maxPositionWeight)
         else LongTurnover(prevLongs, p.longs, 1.0, cfg.maxPositionWeight))
    && p.netReturn == p.grossReturn - cfg.tradeCostBps * p.turnover / 10000.0
  }

  ghost predicate IsPeriod(p: Period, prevLongs: seq<Symbol>, prevShorts: seq<Symbol>, panel: seq<PanelRow>,
                           cfg: Config)
  {
    && p.exit == BDay(p.entry, cfg.holdDays)
    && HasCosts(p, prevLongs, prevShorts, cfg)
    && exists rows, bought, shorted ::
         CanTrade(rows, panel, p.entry, cfg, p.longs, p.shorts, bought, shorted)
         && HasReturns(p, rows, bought, shorted, cfg)
  }

  /** Each period trades from the names of the one before; the first trades from nothing. */
  ghost predicate ArePeriods(periods: seq<Period>, panel: seq<PanelRow>, cfg: Config) {
    forall i :: 0 <= i < |periods| ==>
      IsPeriod(periods[i], if i == 0 then [] else periods[i - 1].longs, if i == 0 then [] else periods[i - 1].shorts,
               panel, cfg)
  }

  ghost predicate AreDatesOf(days: seq<Day>, panel: seq<PanelRow>) {
    StrictlyAscending(days) && forall d :: d in days <==> exists r :: r in panel && r.date == d
  }

  ghost predicate CanTradeOn(panel: seq<PanelRow>, d: Day, cfg: Config) {
    exists rows, longs, shorts, bought, shorted :: CanTrade(rows, panel, d, cfg, longs, shorts, bought, shorted)
  }

  ghost predicate IsRebalanceDate(d: Day, days: seq<Day>, n: int)
    requires 0 < n
  {
    exists k :: 0 <= k < |days| && k % n == 0 && days[k] == d
  }

  /** One period, in order, for each date on which something can be traded, of every `rebalanceDays`-th date
      of the panel. */
  ghost predicate EnterRebalanceDates(periods: seq<Period>, panel: seq<PanelRow>, cfg: Config)
    requires 0 < cfg.rebalanceDays
  {
    && (forall i, j :: 0 <= i < j < |periods| ==> periods[i].entry < periods[j].entry)
    && exists days ::
         && AreDatesOf(days, panel)
         && forall d :: (exists i :: 0 <= i < |periods| && periods[i].entry == d) <==>
                        IsRebalanceDate(d, days, cfg.rebalanceDays) && CanTradeOn(panel, d, cfg)
  }

  // ----- every selection from the same rows has the same size -----

  lemma SameCounts(a: multiset<PanelRow>, b: multiset<PanelRow>)
    requires forall r: PanelRow :: a[r] == b[r]
    ensures a == b && |a| == |b|
  {
  }

  lemma OneFraction(k: nat, m: nat, n: nat, fraction: real)
    requires IsFraction(k, n, fraction) && IsFraction(m, n, fraction)
    ensures k == m
  {
  }

  lemma SameEligible(rows: seq<PanelRow>, others: seq<PanelRow>, eligible: seq<PanelRow>, also: seq<PanelRow>,
                     cfg: Config)
    requires multiset(rows) == multiset(others)
    requires AreEligible(eligible, rows, cfg) && AreEligible(also, others, cfg)
    ensures multiset(eligible) == multiset(also) && |eligible| == |also|
  {
    SameCounts(multiset(eligible), multiset(also));
    assert |multiset(eligible)| == |eligible| && |multiset(also)| == |also|;
  }

  lemma SameSizes(bought: seq<PanelRow>, shorted: seq<PanelRow>, eligible: seq<PanelRow>, otherBought: seq<PanelRow>,
                  otherShorted: seq<PanelRow>, also: seq<PanelRow>, cfg: Config)
    requires Bought(bought, shorted, eligible, cfg) && Bought(otherBought, otherShorted, also, cfg)
    requires multiset(eligible) == multiset(also) && |eligible| == |also|
    ensures |bought| == |otherBought| && |shorted| == |otherShorted|
  {
    match cfg.strategy
    case LongTopQuintile =>
      OneFraction(|bought|, |otherBought|, |eligible|, cfg.quintileFraction);
    case LongShortQuintile =>
      OneFraction(|bought|, |otherBought|, |eligible|, cfg.quintileFraction);
    case LongTopN =>
    case ThresholdLong =>
      SameCounts(multiset(bought), multiset(otherBought));
      assert |multiset(bought)| == |bought| && |multiset(otherBought)| == |otherBought|;
  }

  // ----- returns of equal books -----

  lemma {:induction false} ReturnOfRow(rows: seq<PanelRow>, i: nat)
    requires i < |rows| && !Ambiguous(rows, rows[i].symbol)
    ensures ReturnIn(rows, rows[i].symbol) == rows[i].ret
  {
    if 0 < i {
      assert rows[0].symbol != rows[i].symbol;
      forall j, k | 0 <= j < k < |rows[1..]|
        ensures !(rows[1..][j].symbol == rows[i].symbol && rows[1..][k].symbol == rows[i].symbol)
      {
        assert rows[1..][j] == rows[j + 1] && rows[1..][k] == rows[k + 1];
      }
      ReturnOfRow(rows[1..], i - 1);
    }
  }

  function HasSymbol(s: Symbol): PanelRow -> bool {
    (r: PanelRow) => r.symbol == s
  }

  lemma FilteredPart(part: seq<PanelRow>, rows: seq<PanelRow>, p: PanelRow -> bool)
    requires multiset(part) <= multiset(rows)
    ensures |Filter(part, p)| <= |Filter(rows, p)|
  {
    forall r ensures multiset(Filter(part, p))[r] <= multiset(Filter(rows, p))[r] {
      FilterCounts(part, p, r);
      FilterCounts(rows, p, r);
    }
    SmallerMultiset(multiset(Filter(part, p)), multiset(Filter(rows, p)));
  }

  lemma SmallerMultiset(a: multiset<PanelRow>, b: multiset<PanelRow>)
    requires a <= b
    ensures |a| <= |b|
  {
    assert b == a + (b - a);
  }

  lemma {:induction false} AtLeastTwo(at: set<nat>, i: nat, j: nat)
    requires i in at && j in at && i != j
    ensures 2 <= |at|
  {
    assert {i, j} <= at;
    assert at == {i, j} + (at - {i, j});
  }

  lemma TwoMembers(at: set<nat>) returns (i: nat, j: nat)
    requires 2 <= |at|
    ensures i in at && j in at && i < j
  {
    i :| i in at;
    var rest := at - {i};
    assert |rest| == |at| - 1;
    j :| j in rest;
    if j < i {
      i, j := j, i;
    }
  }

  lemma SymbolOfOneRowIsTakenOnce(names: seq<Symbol>, taken: seq<PanelRow>, rows: seq<PanelRow>)
    requires AreSymbolsOf(names, taken) && multiset(taken) <= multiset(rows)
    requires forall s :: s in names ==> !Ambiguous(rows, s)
    ensures Distinct(names)
  {
    forall i, j | 0 <= i < j < |names| ensures names[i] != names[j] {
      if names[i] == names[j] {
        var s := names[i];
        AtLeastTwo(Positions(taken, HasSymbol(s)), i, j);
        FilterSize(taken, HasSymbol(s));
        FilteredPart(taken, rows, HasSymbol(s));
        FilterSize(rows, HasSymbol(s));
        var k, l := TwoMembers(Positions(rows, HasSymbol(s)));
        assert Ambiguous(rows, s);
      }
    }
  }

  lemma ContributionOfRow(names: seq<Symbol>, taken: seq<PanelRow>, rows: seq<PanelRow>, book: Book, w: real, n: nat)
    requires AreSymbolsOf(names, taken) && n < |names|
    requires names[n] in book && book[names[n]] == w && !Ambiguous(rows, names[n])
    requires forall r :: r in taken ==> r in rows
    ensures Contribution(book, rows)(names[n]) == Times(w, taken[n].ret)
  {
    assert taken[n] in rows;
    var i :| 0 <= i < |rows| && rows[i] == taken[n];
    ReturnOfRow(rows, i);
  }

  lemma {:induction false} ReturnOfNames(names: seq<Symbol>, taken: seq<PanelRow>, rows: seq<PanelRow>, book: Book,
                                         w: real)
    requires AreSymbolsOf(names, taken) && Distinct(names)
    requires forall s :: s in names ==> s in book && book[s] == w && !Ambiguous(rows, s)
    requires forall r :: r in taken ==> r in rows
    ensures Sum(Names(names), Contribution(book, rows)) == Times(w, ReturnSum(taken))
  {
    if names != [] {
      var n := |names| - 1;
      ReturnOfNames(names[..n], taken[..n], rows, book, w);
      ContributionOfRow(names, taken, rows, book, w, n);
      OneMoreName(names, Contribution(book, rows));
      Distribute(w, ReturnSum(taken[..n]), taken[n].ret);
    }
  }

  lemma OneMoreName(names: seq<Symbol>, f: Symbol -> real)
    requires names != [] && Distinct(names)
    ensures Sum(Names(names), f) == Sum(Names(names[..|names| - 1]), f) + f(names[|names| - 1])
  {
    var n := |names| - 1;
    assert names == names[..n] + [names[n]];
    assert Names(names) == Names(names[..n]) + {names[n]};
    SumAdd(Names(names[..n]), names[n], f);
  }

  lemma Distribute(w: real, x: real, y: real)
    ensures Times(w, x) + Times(w, y) == Times(w, x + y)
  {
  }

  lemma LegReturnOfBook(names: seq<Symbol>, taken: seq<PanelRow>, rows: seq<PanelRow>, cap: Option<real>)
    requires AreSymbolsOf(names, taken) && multiset(taken) <= multiset(rows)
    requires forall s :: s in names ==> !Ambiguous(rows, s)
    ensures PortfolioReturn(CappedBook(names, 1.0, cap), rows) == LegReturn(taken, cap)
  {
    if names != [] {
      var w := CappedWeight(|names|, 1.0, cap);
      var book := CappedBook(names, 1.0, cap);
      SymbolOfOneRowIsTakenOnce(names, taken, rows);
      forall r | r in taken ensures r in rows {
        assert r in multiset(taken);
        assert r in multiset(rows);
      }
      assert book.Keys == Names(names);
      ReturnOfNames(names, taken, rows, book, w);
    }
  }

  // ----- turnover of equal books -----

  lemma WeightIsPositive(n: nat, gross: real, cap: Option<real>)
    requires 0.0 < gross
    ensures 0.0 <= LegWeight(n, gross, cap)
  {
    if 0 < n {
      assert 0.0 < gross / n as real;
    }
  }

  /** How far the weight of a symbol moves, given the names held before and after and their weights. */
  function MoveBetween(a: set<Symbol>, b: set<Symbol>, w: real, v: real): Symbol -> real {
    (s: Symbol) => if s in a && s in b then Abs(v - w) else if s in a then w else if s in b then v else 0.0
  }

  lemma MoveOfEqualBooks(x: Book, y: Book, a: set<Symbol>, b: set<Symbol>, w: real, v: real, s: Symbol)
    requires x.Keys == a && y.Keys == b && 0.0 <= w && 0.0 <= v
    requires (s in a ==> x[s] == w) && (s in b ==> y[s] == v)
    ensures Move(x, y)(s) == MoveBetween(a, b, w, v)(s)
  {
  }

  lemma MovesOfEqualBooks(x: Book, y: Book, a: set<Symbol>, b: set<Symbol>, w: real, v: real)
    requires x.Keys == a && y.Keys == b && 0.0 <= w && 0.0 <= v
    requires (forall s :: s in a ==> x[s] == w) && (forall s :: s in b ==> y[s] == v)
    ensures Sum(a + b, Move(x, y)) == Sum(a + b, MoveBetween(a, b, w, v))
  {
    forall s ensures Move(x, y)(s) == MoveBetween(a, b, w, v)(s) {
      MoveOfEqualBooks(x, y, a, b, w, v, s);
    }
    SumAgrees(a + b, Move(x, y), MoveBetween(a, b, w, v));
  }

  lemma SumMovedBetween(x: Book, y: Book, a: set<Symbol>, b: set<Symbol>, w: real, v: real)
    requires x.Keys == a && y.Keys == b && 0.0 <= w && 0.0 <= v
    requires (forall s :: s in a ==> x[s] == w) && (forall s :: s in b ==> y[s] == v)
    ensures Sum(a + b, Move(x, y))
         == Times(|a - b| as real, w) + Times(|b - a| as real, v) + Times(|a * b| as real, Abs(v - w))
  {
    MovesOfEqualBooks(x, y, a, b, w, v);
    SumOfMoves(a, b, w, v, MoveBetween(a, b, w, v));
  }

  lemma TurnoverOfEqualBooks(before: seq<Symbol>, after: seq<Symbol>, gross: real, cap: Option<real>)
    requires 0.0 < gross
    ensures Turnover(CappedBook(before, gross, cap), CappedBook(after, gross, cap))
         == LongTurnover(before, after, gross, cap)
  {
    var w, v := LegWeight(|before|, gross, cap), LegWeight(|after|, gross, cap);
    WeightIsPositive(|before|, gross, cap);
    WeightIsPositive(|after|, gross, cap);
    LegIsEqual(before, gross, cap);
    LegIsEqual(after, gross, cap);
    SumMovedBetween(CappedBook(before, gross, cap), CappedBook(after, gross, cap), Names(before), Names(after), w, v);
  }

  lemma LegIsEqual(names: seq<Symbol>, gross: real, cap: Option<real>)
    ensures var book := CappedBook(names, gross, cap);
            book.Keys == Names(names) && forall s :: s in Names(names) ==> book[s] == LegWeight(|names|, gross, cap)
  {
  }

  lemma SumAtWeight(S: set<Symbol>, f: Symbol -> real, w: real)
    requires forall s :: s in S ==> f(s) == w
    ensures Sum(S, f) == Times(|S| as real, w)
  {
    SumOfConstant(S, f, w);
  }

  lemma SumOfMoves(a: set<Symbol>, b: set<Symbol>, w: real, v: real, f: Symbol -> real)
    requires forall s :: s in a - b ==> f(s) == w
    requires forall s :: s in b - a ==> f(s) == v
    requires forall s :: s in a * b ==> f(s) == Abs(v - w)
    ensures Sum(a + b, f) == Times(|a - b| as real, w) + Times(|b - a| as real, v) + Times(|a * b| as real, Abs(v - w))
  {
    SumAtWeight(a - b, f, w);
    SumAtWeight(b - a, f, v);
    SumAtWeight(a * b, f, Abs(v - w));
    SumOfParts(a, b, f);
  }

  lemma SumOfParts(a: set<Symbol>, b: set<Symbol>, f: Symbol -> real)
    ensures Sum(a + b, f) == Sum(a - b, f) + Sum(b - a, f) + Sum(a * b, f)
  {
    SumOfDisjoint(a - b, b - a, f);
    SumOfDisjoint((a - b) + (b - a), a * b, f);
    assert (a - b) + (b - a) + a * b == a + b;
  }

  lemma TotalOfLeg(names: seq<Symbol>, gross: real, cap: Option<real>)
    requires 0.0 < gross
    ensures var book := CappedBook(names, gross, cap);
            LongOnly(book) && Total(book) == Times(|Names(names)| as real, LegWeight(|names|, gross, cap))
  {
    WeightIsPositive(|names|, gross, cap);
    if names == [] {
      assert Names(names) == {};
    } else {
      TotalOfEqualBook(names, CappedWeight(|names|, gross, cap));
    }
  }

  lemma TurnoverOfNegatedBooks(before: seq<Symbol>, after: seq<Symbol>, gross: real, cap: Option<real>)
    requires 0.0 < gross
    ensures Turnover(CappedBook(before, gross, cap), Negated(CappedBook(after, gross, cap)))
         == ShortTurnover(before, after, gross, cap)
  {
    TotalOfLeg(before, gross, cap);
    TotalOfLeg(after, gross, cap);
    ShortLegTurnover(CappedBook(before, gross, cap), CappedBook(after, gross, cap));
  }
}
