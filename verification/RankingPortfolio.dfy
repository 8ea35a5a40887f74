/** The ranking portfolio run (`backtest/ranking_portfolio.py`): selection, returns, turnover
    and costs, carried from one rebalance date to the next. */
module RankingPortfolio {
  import opened Books
  import opened Calendar
  import opened Numbers
  import opened Sequences

  datatype Strategy = LongTopQuintile | LongShortQuintile | LongTopN | ThresholdLong

  datatype Config = Config(strategy: Strategy, topN: int, quintileFraction: real, rebalanceDays: int, holdDays: int,
                           tradeCostBps: real, minUpProb: Option<real>, maxPositionWeight: Option<real>)

  datatype PanelRow = PanelRow(date: Day, symbol: Symbol, score: real, ret: real)

  datatype Period = Period(entry: Day, exit: Day, grossReturn: real, netReturn: real, turnover: real,
                           longs: seq<Symbol>, shorts: seq<Symbol>)

  datatype RunError =
    | DaysMustBePositive
    | AmbiguousSymbol

  // ----- selection -----

  function Ceil(x: real): int {
    -((-x).Floor)
  }

  function QuintileCount(n: nat, fraction: real): nat {
    if n == 0 then 0
    else if Ceil(n as real * fraction) < 1 then 1
    else Ceil(n as real * fraction)
  }

  /** `head(k)`: a negative `k` drops rows from the end. */
  function Head(rows: seq<PanelRow>, k: int): seq<PanelRow> {
    if 0 <= k then (if k <= |rows| then rows[..k] else rows)
    else if -k <= |rows| then rows[..|rows| + k] else []
  }

  function Tail(rows: seq<PanelRow>, k: nat): seq<PanelRow> {
    if k <= |rows| then rows[|rows| - k..] else rows
  }

  function SymbolOf(r: PanelRow): Symbol {
    r.symbol
  }

  function SymbolsOf(rows: seq<PanelRow>): seq<Symbol> {
    Map(rows, SymbolOf)
  }

  function ScoresAtLeast(threshold: real): PanelRow -> bool {
    (r: PanelRow) => r.score >= threshold
  }

  /** Sorting by score, best first; any way of breaking ties. */
  type Ranking = seq<PanelRow> -> seq<PanelRow>

  ghost predicate RanksByScore(rank: Ranking) {
    forall rows :: multiset(rank(rows)) == multiset(rows)
                   && forall i, j :: 0 <= i < j < |rank(rows)| ==> rank(rows)[i].score >= rank(rows)[j].score
  }

  predicate ScoresNoLower(a: PanelRow, b: PanelRow) {
    a.score >= b.score
  }

  /** Such rankings exist: insertion sort is one. */
  lemma RankingsExist()
    ensures RanksByScore(rows => SortBy(rows, ScoresNoLower))
  {
  }

  function Eligible(ranked: seq<PanelRow>, cfg: Config): seq<PanelRow> {
    if cfg.minUpProb.Some? then Filter(ranked, ScoresAtLeast(cfg.minUpProb.value)) else ranked
  }

  /** `min_up_prob or 0.65`: zero counts as not set. */
  function LongThreshold(cfg: Config): real {
    if cfg.minUpProb.Some? && cfg.minUpProb.value != 0.0 then cfg.minUpProb.value else 0.65
  }

  function SelectLongShort(ranked: seq<PanelRow>, cfg: Config): (seq<Symbol>, seq<Symbol>) {
    var rows := Eligible(ranked, cfg);
    var n := |rows|;
    if n == 0 then ([], [])
    else
      match cfg.strategy
      case LongTopQuintile => (SymbolsOf(Head(rows, QuintileCount(n, cfg.quintileFraction))), [])
      case LongShortQuintile =>
        var k := QuintileCount(n, cfg.quintileFraction);
        (SymbolsOf(Head(rows, k)), SymbolsOf(Tail(rows, k)))
      case LongTopN => (SymbolsOf(Head(rows, if cfg.topN < n then cfg.topN else n)), [])
      case ThresholdLong => (SymbolsOf(Filter(rows, ScoresAtLeast(LongThreshold(cfg)))), [])
  }

  // ----- what is selected, by scores and numbers -----

  ghost predicate AreSymbolsOf(names: seq<Symbol>, rows: seq<PanelRow>) {
    |names| == |rows| && forall i :: 0 <= i < |rows| ==> names[i] == rows[i].symbol
  }

  ghost predicate BestFirst(rows: seq<PanelRow>) {
    forall i, j :: 0 <= i < j < |rows| ==> rows[i].score >= rows[j].score
  }

  /** No row that is left out scores higher than one that is taken. */
  ghost predicate AreTop(taken: seq<PanelRow>, rows: seq<PanelRow>) {
    && multiset(taken) <= multiset(rows) && BestFirst(taken)
    && forall a, b :: a in multiset(taken) && b in multiset(rows) - multiset(taken) ==> a.score >= b.score
  }

  /** No row that is left out scores lower than one that is taken. */
  ghost predicate AreBottom(taken: seq<PanelRow>, rows: seq<PanelRow>) {
    && multiset(taken) <= multiset(rows) && BestFirst(taken)
    && forall a, b :: a in multiset(taken) && b in multiset(rows) - multiset(taken) ==> a.score <= b.score
  }

  /** `k` of `n` rows are the fraction rounded up, but at least one and no more than there are. */
  predicate IsFraction(k: nat, n: nat, fraction: real) {
    if n == 0 then k == 0
    else
      && 1 <= k <= n
      && (1 < k ==> (k - 1) as real < n as real * fraction)
      && (k < n ==> n as real * fraction <= k as real)
  }

  /** The rows of the date that reach the configured minimum score. */
  ghost predicate AreEligible(eligible: seq<PanelRow>, rows: seq<PanelRow>, cfg: Config) {
    forall r :: multiset(eligible)[r] ==
      if cfg.minUpProb.Some? && r.score < cfg.minUpProb.value then 0 else multiset(rows)[r]
  }

  /** What each strategy buys and shorts of the eligible rows. */
  ghost predicate Bought(bought: seq<PanelRow>, shorted: seq<PanelRow>, eligible: seq<PanelRow>, cfg: Config) {
    && AreTop(bought, eligible) && AreBottom(shorted, eligible)
    && match cfg.strategy
       case LongTopQuintile => shorted == [] && IsFraction(|bought|, |eligible|, cfg.quintileFraction)
       case LongShortQuintile =>
         |shorted| == |bought| && IsFraction(|bought|, |eligible|, cfg.quintileFraction)
       case LongTopN =>
         shorted == []
         && |bought| == if cfg.topN < 0 then Larger(0, |eligible| + cfg.topN) else Smaller(cfg.topN, |eligible|)
       case ThresholdLong =>
         var threshold := if cfg.minUpProb.Some? && cfg.minUpProb.value != 0.0 then cfg.minUpProb.value else 0.65;
         shorted == []
         && forall r :: multiset(bought)[r] == if r.score >= threshold then multiset(eligible)[r] else 0
  }

  ghost predicate Selects(longs: seq<Symbol>, shorts: seq<Symbol>, bought: seq<PanelRow>, shorted: seq<PanelRow>,
                          rows: seq<PanelRow>, cfg: Config)
  {
    && AreSymbolsOf(longs, bought) && AreSymbolsOf(shorts, shorted)
    && exists eligible :: AreEligible(eligible, rows, cfg) && Bought(bought, shorted, eligible, cfg)
  }

  function Smaller(x: int, y: int): int {
    if x < y then x else y
  }

  function Larger(x: int, y: int): int {
    if x < y then y else x
  }

  lemma EligibleByCount(ranked: seq<PanelRow>, rows: seq<PanelRow>, cfg: Config)
    requires multiset(ranked) == multiset(rows)
    ensures AreEligible(Eligible(ranked, cfg), rows, cfg)
  {
    if cfg.minUpProb.Some? {
      forall r ensures multiset(Eligible(ranked, cfg))[r]
          == if r.score < cfg.minUpProb.value then 0 else multiset(rows)[r] {
        FilterCounts(ranked, ScoresAtLeast(cfg.minUpProb.value), r);
      }
    }
  }

  lemma EligibleIsRanked(ranked: seq<PanelRow>, cfg: Config)
    requires BestFirst(ranked)
    ensures BestFirst(Eligible(ranked, cfg))
  {
    if cfg.minUpProb.Some? {
      assert SortedBy(ranked, ScoresNoLower);
      FilterKeepsOrder(ranked, ScoresAtLeast(cfg.minUpProb.value), ScoresNoLower);
    }
  }

  lemma RowsInTwoParts(rows: seq<PanelRow>, k: nat)
    requires k <= |rows|
    ensures multiset(rows[..k]) <= multiset(rows) && multiset(rows[k..]) <= multiset(rows)
    ensures multiset(rows) - multiset(rows[..k]) == multiset(rows[k..])
    ensures multiset(rows) - multiset(rows[k..]) == multiset(rows[..k])
  {
    assert rows == rows[..k] + rows[k..];
  }

  lemma FrontScoresNoLower(rows: seq<PanelRow>, k: nat, a: PanelRow, b: PanelRow)
    requires k <= |rows| && BestFirst(rows) && a in rows[..k] && b in rows[k..]
    ensures a.score >= b.score
  {
    var i :| 0 <= i < k && rows[i] == a;
    var j :| k <= j < |rows| && rows[j] == b;
  }

  lemma FrontIsTop(rows: seq<PanelRow>, k: nat)
    requires k <= |rows| && BestFirst(rows)
    ensures AreTop(rows[..k], rows)
  {
    RowsInTwoParts(rows, k);
    forall a, b | a in multiset(rows[..k]) && b in multiset(rows) - multiset(rows[..k]) ensures a.score >= b.score {
      FrontScoresNoLower(rows, k, a, b);
    }
  }

  lemma BackIsBottom(rows: seq<PanelRow>, k: nat)
    requires k <= |rows| && BestFirst(rows)
    ensures AreBottom(rows[k..], rows)
  {
    RowsInTwoParts(rows, k);
    forall a, b | a in multiset(rows[k..]) && b in multiset(rows) - multiset(rows[k..]) ensures a.score <= b.score {
      FrontScoresNoLower(rows, k, b, a);
    }
  }

  lemma FilteredIsTop(rows: seq<PanelRow>, threshold: real)
    requires BestFirst(rows)
    ensures AreTop(Filter(rows, ScoresAtLeast(threshold)), rows)
    ensures forall r ::
      multiset(Filter(rows, ScoresAtLeast(threshold)))[r] == if r.score >= threshold then multiset(rows)[r] else 0
  {
    var taken := Filter(rows, ScoresAtLeast(threshold));
    forall r: PanelRow ensures multiset(taken)[r] == if r.score >= threshold then multiset(rows)[r] else 0 {
      FilterCounts(rows, ScoresAtLeast(threshold), r);
    }
    assert SortedBy(rows, ScoresNoLower);
    FilterKeepsOrder(rows, ScoresAtLeast(threshold), ScoresNoLower);
  }

  lemma QuintileIsFraction(n: nat, fraction: real)
    requires 0 < n
    ensures IsFraction(Smaller(QuintileCount(n, fraction), n), n, fraction)
  {
    var x := n as real * fraction;
    assert Ceil(x) as real - 1.0 < x <= Ceil(x) as real;
  }

  /** What the source calls the best rows, in the order of the ranking. */
  function TopRows(rows: seq<PanelRow>, cfg: Config): seq<PanelRow> {
    match cfg.strategy
    case LongTopQuintile => Head(rows, QuintileCount(|rows|, cfg.quintileFraction))
    case LongShortQuintile => Head(rows, QuintileCount(|rows|, cfg.quintileFraction))
    case LongTopN => Head(rows, if cfg.topN < |rows| then cfg.topN else |rows|)
    case ThresholdLong => Filter(rows, ScoresAtLeast(LongThreshold(cfg)))
  }

  function BottomRows(rows: seq<PanelRow>, cfg: Config): seq<PanelRow> {
    if cfg.strategy.LongShortQuintile? then Tail(rows, QuintileCount(|rows|, cfg.quintileFraction)) else []
  }

  lemma NothingIsBottom(rows: seq<PanelRow>)
    ensures AreBottom([], rows)
  {
  }

  lemma HeadIsTopFraction(rows: seq<PanelRow>, fraction: real)
    requires BestFirst(rows)
    ensures var taken := Head(rows, QuintileCount(|rows|, fraction));
            AreTop(taken, rows) && IsFraction(|taken|, |rows|, fraction)
  {
    var k := Smaller(QuintileCount(|rows|, fraction), |rows|);
    FrontIsTop(rows, k);
    assert Head(rows, QuintileCount(|rows|, fraction)) == rows[..k];
    if rows != [] {
      QuintileIsFraction(|rows|, fraction);
    }
  }

  lemma TailIsBottomFraction(rows: seq<PanelRow>, fraction: real)
    requires BestFirst(rows)
    ensures var taken := Tail(rows, QuintileCount(|rows|, fraction));
            AreBottom(taken, rows) && |taken| == |Head(rows, QuintileCount(|rows|, fraction))|
  {
    var k := Smaller(QuintileCount(|rows|, fraction), |rows|);
    BackIsBottom(rows, |rows| - k);
    assert Tail(rows, QuintileCount(|rows|, fraction)) == rows[|rows| - k..];
  }

  lemma HeadIsTop(rows: seq<PanelRow>, topN: int)
    requires BestFirst(rows)
    ensures var taken := Head(rows, Smaller(topN, |rows|));
            && AreTop(taken, rows)
            && |taken| == if topN < 0 then Larger(0, |rows| + topN) else Smaller(topN, |rows|)
  {
    var k := if topN < 0 then Larger(0, |rows| + topN) else Smaller(topN, |rows|);
    FrontIsTop(rows, k);
    assert Head(rows, Smaller(topN, |rows|)) == rows[..k];
  }

  lemma RowsAreBought(rows: seq<PanelRow>, cfg: Config)
    requires BestFirst(rows)
    ensures Bought(TopRows(rows, cfg), BottomRows(rows, cfg), rows, cfg)
  {
    NothingIsBottom(rows);
    match cfg.strategy
    case LongTopQuintile =>
      HeadIsTopFraction(rows, cfg.quintileFraction);
    case LongShortQuintile =>
      HeadIsTopFraction(rows, cfg.quintileFraction);
      TailIsBottomFraction(rows, cfg.quintileFraction);
    case LongTopN =>
      HeadIsTop(rows, cfg.topN);
    case ThresholdLong =>
      FilteredIsTop(rows, LongThreshold(cfg));
  }

  lemma SelectedRows(ranked: seq<PanelRow>, cfg: Config)
    ensures var eligible := Eligible(ranked, cfg);
            SelectLongShort(ranked, cfg)
              == (SymbolsOf(TopRows(eligible, cfg)), SymbolsOf(BottomRows(eligible, cfg)))
  {
  }

  /** Whatever the ranking does with ties, each strategy takes the rows it is meant to take. */
  lemma SelectionIsBest(rows: seq<PanelRow>, cfg: Config, rank: Ranking)
    requires RanksByScore(rank)
    ensures var (longs, shorts) := SelectLongShort(rank(rows), cfg);
            exists bought, shorted :: Selects(longs, shorts, bought, shorted, rows, cfg)
  {
    var ranked := rank(rows);
    var eligible := Eligible(ranked, cfg);
    var (longs, shorts) := SelectLongShort(ranked, cfg);
    EligibleByCount(ranked, rows, cfg);
    EligibleIsRanked(ranked, cfg);
    RowsAreBought(eligible, cfg);
    SelectedRows(ranked, cfg);
    assert AreSymbolsOf(longs, TopRows(eligible, cfg)) && AreSymbolsOf(shorts, BottomRows(eligible, cfg));
    assert Selects(longs, shorts, TopRows(eligible, cfg), BottomRows(eligible, cfg), rows, cfg);
  }

  /** A configured threshold decides the long selection of `threshold_long` exactly if it is not zero: a
      zero counts as not set, and then a score of one half for instance is not enough. */
  lemma ThresholdDecidesExactlyUnlessZero(cfg: Config)
    requires cfg.strategy.ThresholdLong? && cfg.minUpProb.Some?
    ensures cfg.minUpProb.value != 0.0 <==>
      forall ranked :: SelectLongShort(ranked, cfg).0 == SymbolsOf(Filter(ranked, ScoresAtLeast(cfg.minUpProb.value)))
  {
    if cfg.minUpProb.value != 0.0 {
      forall ranked
        ensures SelectLongShort(ranked, cfg).0 == SymbolsOf(Filter(ranked, ScoresAtLeast(cfg.minUpProb.value)))
      {
        ThresholdDecides(ranked, cfg);
      }
    } else {
      HalfIsNotEnough(cfg);
    }
  }

  lemma ThresholdDecides(ranked: seq<PanelRow>, cfg: Config)
    requires cfg.strategy.ThresholdLong? && cfg.minUpProb.Some? && cfg.minUpProb.value != 0.0
    ensures SelectLongShort(ranked, cfg).0 == SymbolsOf(Filter(ranked, ScoresAtLeast(cfg.minUpProb.value)))
  {
    var kept := Filter(ranked, ScoresAtLeast(cfg.minUpProb.value));
    FilterKeepsAll(kept, ScoresAtLeast(cfg.minUpProb.value));
    SelectsAboveThreshold(ranked, cfg, kept);
  }

  lemma SelectsAboveThreshold(ranked: seq<PanelRow>, cfg: Config, kept: seq<PanelRow>)
    requires cfg.strategy.ThresholdLong? && kept == Eligible(ranked, cfg) &&
             Filter(kept, ScoresAtLeast(LongThreshold(cfg))) == kept
    ensures SelectLongShort(ranked, cfg).0 == SymbolsOf(kept)
  {
    assert kept == [] ==> SymbolsOf(kept) == [];
  }

  lemma HalfIsNotEnough(cfg: Config)
    requires cfg.strategy.ThresholdLong? && cfg.minUpProb == Some(0.0)
    ensures var half := [PanelRow(0, 0, 0.5, 0.0)];
            SelectLongShort(half, cfg).0 == [] && SymbolsOf(Filter(half, ScoresAtLeast(0.0))) == [0]
  {
    var half := [PanelRow(0, 0, 0.5, 0.0)];
    FilterKeepsAll(half, ScoresAtLeast(0.0));
    FilterKeepsNone(half, ScoresAtLeast(0.65));
  }

  // ----- returns -----

  predicate OfSymbolIn(rows: seq<PanelRow>, s: Symbol) {
    exists i :: 0 <= i < |rows| && rows[i].symbol == s
  }

  /** A symbol with two rows on a date has no single return; the source fails on it. */
  predicate Ambiguous(rows: seq<PanelRow>, s: Symbol) {
    exists i, j :: 0 <= i < j < |rows| && rows[i].symbol == s && rows[j].symbol == s
  }

  /** The return of the symbol's first row, or zero if it has none. */
  function ReturnIn(rows: seq<PanelRow>, s: Symbol): real {
    if rows == [] then 0.0
    else if rows[0].symbol == s then rows[0].ret
    else ReturnIn(rows[1..], s)
  }

  function Contribution(book: Book, rows: seq<PanelRow>): Symbol -> real {
    (s: Symbol) => Weight(book, s) * ReturnIn(rows, s)
  }

  ghost function PortfolioReturn(book: Book, rows: seq<PanelRow>): real {
    Sum(book.Keys, Contribution(book, rows))
  }

  ghost predicate HasAmbiguous(book: Book, rows: seq<PanelRow>) {
    exists s :: s in book && Ambiguous(rows, s)
  }

  method WeightedPortfolioReturn(rows: seq<PanelRow>, book: Book) returns (r: Result<real, RunError>)
    ensures r.Failure? <==> HasAmbiguous(book, rows)
    ensures r.Failure? ==> r.error == AmbiguousSymbol
    ensures r.Success? ==> r.value == PortfolioReturn(book, rows)
  {
    var total := 0.0;
    var rest := book.Keys;
    ghost var contribution := Contribution(book, rows);
    while rest != {}
      invariant rest <= book.Keys
      invariant forall s :: s in book.Keys - rest ==> !Ambiguous(rows, s)
      invariant total + Sum(rest, contribution) == Sum(book.Keys, contribution)
      decreases rest
    {
      var s :| s in rest;
      SumPick(rest, contribution, s);
      if Ambiguous(rows, s) {
        return Failure(AmbiguousSymbol);
      }
      ContributionOf(book, rows, s);
      if OfSymbolIn(rows, s) {
        total := total + Times(book[s], ReturnIn(rows, s));
      }
      rest := rest - {s};
    }
    return Success(total);
  }

  lemma ContributionOf(book: Book, rows: seq<PanelRow>, s: Symbol)
    requires s in book
    ensures Contribution(book, rows)(s) == if OfSymbolIn(rows, s) then Times(book[s], ReturnIn(rows, s)) else 0.0
  {
    if !OfSymbolIn(rows, s) {
      NoRowNoReturn(rows, s);
    }
  }

  lemma {:induction false} NoRowNoReturn(rows: seq<PanelRow>, s: Symbol)
    requires !OfSymbolIn(rows, s)
    ensures ReturnIn(rows, s) == 0.0
  {
    if rows != [] {
      assert rows[0].symbol != s;
      forall i | 0 <= i < |rows[1..]| ensures rows[1..][i].symbol != s {
        assert rows[i + 1].symbol != s;
      }
      NoRowNoReturn(rows[1..], s);
    }
  }

  // ----- turnover -----

  function Move(before: Book, after: Book): Symbol -> real {
    (s: Symbol) => Abs(Weight(after, s) - Weight(before, s))
  }

  ghost function Turnover(before: Book, after: Book): real {
    Sum(before.Keys + after.Keys, Move(before, after)) / 2.0
  }

  method ComputeTurnover(before: Book, after: Book) returns (t: real)
    ensures t == Turnover(before, after)
  {
    var symbols := before.Keys + after.Keys;
    var turnover := 0.0;
    var rest := symbols;
    while rest != {}
      invariant rest <= symbols && turnover + Sum(rest, Move(before, after)) == Sum(symbols, Move(before, after))
      decreases rest
    {
      var s :| s in rest;
      SumPick(rest, Move(before, after), s);
      turnover := turnover + Abs(Weight(after, s) - Weight(before, s));
      rest := rest - {s};
    }
    return turnover / 2.0;
  }

  function Negated(book: Book): Book {
    map s | s in book :: -book[s]
  }

  predicate LongOnly(book: Book) {
    forall s :: s in book ==> 0.0 <= book[s]
  }

  lemma TurnoverOver(S: set<Symbol>, before: Book, after: Book)
    requires before.Keys + after.Keys <= S
    ensures Turnover(before, after) == Sum(S, Move(before, after)) / 2.0
  {
    SumWithZeros(before.Keys + after.Keys, S, Move(before, after));
  }

  lemma MoveTriangle(a: Book, b: Book, c: Book, s: Symbol)
    ensures Move(a, c)(s) <= Move(a, b)(s) + Move(b, c)(s)
  {
    var x, y, z := Weight(a, s), Weight(b, s), Weight(c, s);
    assert Abs(z - x) <= Abs(y - x) + Abs(z - y);
  }

  function BothMoves(a: Book, b: Book, c: Book): Symbol -> real {
    (s: Symbol) => Move(a, b)(s) + Move(b, c)(s)
  }

  /** Trading through another book never costs less than trading directly. */
  lemma TurnoverTriangle(a: Book, b: Book, c: Book)
    ensures Turnover(a, c) <= Turnover(a, b) + Turnover(b, c)
  {
    var S := a.Keys + b.Keys + c.Keys;
    TurnoverOver(S, a, b);
    TurnoverOver(S, b, c);
    TurnoverOver(S, a, c);
    forall s ensures Move(a, c)(s) <= BothMoves(a, b, c)(s) {
      MoveTriangle(a, b, c, s);
    }
    SumAtMost(S, Move(a, c), BothMoves(a, b, c));
    SumOfSums(S, Move(a, b), Move(b, c), BothMoves(a, b, c));
  }

  lemma {:induction false} SumOfNonNegative(S: set<Symbol>, f: Symbol -> real, x: Symbol)
    requires x in S && forall s :: s in S ==> 0.0 <= f(s)
    ensures f(x) <= Sum(S, f)
  {
    SumPick(S, f, x);
    var zero := (s: Symbol) => 0.0;
    SumIsZero(S - {x}, zero);
    SumAtMost(S - {x}, zero, f);
  }

  lemma SumIsNonNegative(S: set<Symbol>, f: Symbol -> real)
    requires forall s :: s in S ==> 0.0 <= f(s)
    ensures 0.0 <= Sum(S, f)
  {
    if x :| x in S {
      SumOfNonNegative(S, f, x);
    }
  }

  /** Turnover is a distance: never negative, symmetric, and zero exactly when no weight
      changes. */
  lemma TurnoverIsDistance(a: Book, b: Book)
    ensures 0.0 <= Turnover(a, b) == Turnover(b, a)
    ensures Turnover(a, b) == 0.0 <==> forall s :: Weight(a, s) == Weight(b, s)
  {
    var S := a.Keys + b.Keys;
    assert b.Keys + a.Keys == S;
    SumAgrees(S, Move(a, b), Move(b, a));
    SumIsNonNegative(S, Move(a, b));
    if s :| Weight(a, s) != Weight(b, s) {
      SumOfNonNegative(S, Move(a, b), s);
    } else {
      SumIsZero(S, Move(a, b));
    }
  }

  lemma TotalOver(S: set<Symbol>, book: Book)
    requires book.Keys <= S
    ensures Sum(S, WeightIn(book)) == Total(book)
  {
    SumWithZeros(book.Keys, S, WeightIn(book));
  }

  /** Between books without short positions, at most half of what both hold. */
  lemma TurnoverBound(a: Book, b: Book)
    requires LongOnly(a) && LongOnly(b)
    ensures Turnover(a, b) <= (Total(a) + Total(b)) / 2.0
  {
    var S := a.Keys + b.Keys;
    TotalOver(S, a);
    TotalOver(S, b);
    var both := (s: Symbol) => WeightIn(a)(s) + WeightIn(b)(s);
    SumAtMost(S, Move(a, b), both);
    SumOfSums(S, WeightIn(a), WeightIn(b), both);
  }

  /** The short leg is stored with positive weights and compared with negated ones, so its
      turnover is always half of everything held before and after, even if nothing changes. */
  lemma ShortLegTurnover(before: Book, after: Book)
    requires LongOnly(before) && LongOnly(after)
    ensures Turnover(before, Negated(after)) == (Total(before) + Total(after)) / 2.0
  {
    var S := before.Keys + after.Keys;
    assert Negated(after).Keys == after.Keys;
    TotalOver(S, before);
    TotalOver(S, after);
    SumOfSums(S, WeightIn(before), WeightIn(after), Move(before, Negated(after)));
  }
}
