/** Attribution of portfolio returns to symbols (`backtest/alpha_attribution.py`). */
module Attribution {
  import opened Books
  import opened Calendar
  import opened PortfolioWeights
  import opened RankingPortfolio
  import opened RankingRun
  import opened RankingResults
  import opened Sequences

  datatype Bucket = Bucket(periodsHeld: nat, longPeriods: nat, shortPeriods: nat, contribution: real)

  type Buckets = map<Symbol, Bucket>

  const EMPTY_BUCKET := Bucket(0, 0, 0, 0.0)

  /** The weights attribution gives a period: always equal, never capped, and halved per leg
      when there are shorts. A name on both sides counts as short. */
  function AttributionBook(longs: seq<Symbol>, shorts: seq<Symbol>): Book {
    if shorts == [] then WeightsForSymbols(longs, 1.0)
    else WeightsForSymbols(longs, 0.5) + Negated(WeightsForSymbols(shorts, 0.5))
  }

  function BucketOf(buckets: Buckets, s: Symbol): Bucket {
    if s in buckets then buckets[s] else EMPTY_BUCKET
  }

  function ContributionIn(buckets: Buckets): Symbol -> real {
    (s: Symbol) => BucketOf(buckets, s).contribution
  }

  ghost function AttributedTotal(buckets: Buckets): real {
    Sum(buckets.Keys, ContributionIn(buckets))
  }

  ghost function PeriodAttribution(panel: seq<PanelRow>, p: Period): real {
    PortfolioReturn(AttributionBook(p.longs, p.shorts), RowsOn(panel, p.entry))
  }

  ghost function AttributionSum(panel: seq<PanelRow>, periods: seq<Period>): real {
    if periods == [] then 0.0
    else AttributionSum(panel, periods[..|periods| - 1]) + PeriodAttribution(panel, periods[|periods| - 1])
  }

  /** What one symbol got over the periods, and how often it was held. */
  function SymbolSum(panel: seq<PanelRow>, periods: seq<Period>, s: Symbol): Bucket {
    if periods == [] then EMPTY_BUCKET
    else
      var p := periods[|periods| - 1];
      AddTo(SymbolSum(panel, periods[..|periods| - 1], s), AttributionBook(p.longs, p.shorts), RowsOn(panel, p.entry),
            s)
  }

  function AddTo(b: Bucket, book: Book, rows: seq<PanelRow>, s: Symbol): Bucket {
    if s !in book || !OfSymbolIn(rows, s) then b
    else
      Bucket(b.periodsHeld + 1,
             if 0.0 <= book[s] then b.longPeriods + 1 else b.longPeriods,
             if 0.0 <= book[s] then b.shortPeriods else b.shortPeriods + 1,
             b.contribution + book[s] * ReturnIn(rows, s))
  }

  lemma BucketUpdate(buckets: Buckets, s: Symbol, b: Bucket)
    ensures AttributedTotal(buckets[s := b])
            == AttributedTotal(buckets) - BucketOf(buckets, s).contribution + b.contribution
  {
    var after := buckets[s := b];
    var rest := buckets.Keys - {s};
    assert after.Keys == rest + {s};
    SumAdd(rest, s, ContributionIn(after));
    SumAgrees(rest, ContributionIn(after), ContributionIn(buckets));
    if s in buckets {
      SumPick(buckets.Keys, ContributionIn(buckets), s);
    } else {
      assert rest == buckets.Keys;
    }
  }

  /** All symbols of the book but those in `rest` have been dealt with. */
  ghost predicate DealtWith(after: Buckets, buckets: Buckets, book: Book, rows: seq<PanelRow>, rest: set<Symbol>) {
    forall s :: BucketOf(after, s)
             == (if s in rest then BucketOf(buckets, s) else AddTo(BucketOf(buckets, s), book, rows, s))
  }

  lemma DealWithNext(after: Buckets, buckets: Buckets, book: Book, rows: seq<PanelRow>, rest: set<Symbol>, s: Symbol)
    requires DealtWith(after, buckets, book, rows, rest) && s in rest
    ensures OfSymbolIn(rows, s) ==>
      DealtWith(after[s := AddTo(BucketOf(after, s), book, rows, s)], buckets, book, rows, rest - {s})
    ensures !OfSymbolIn(rows, s) ==> DealtWith(after, buckets, book, rows, rest - {s})
  {
    if OfSymbolIn(rows, s) {
      var next := after[s := AddTo(BucketOf(after, s), book, rows, s)];
      forall t
        ensures BucketOf(next, t) == if t == s then AddTo(BucketOf(buckets, s), book, rows, s) else BucketOf(after, t)
      {
        assert s in rest;
      }
    }
  }

  /** The inner loop: one period's weights, in any order. */
  method AttributePeriod(buckets: Buckets, book: Book, rows: seq<PanelRow>, total: real)
    returns (after: Buckets, totalAfter: real)
    ensures DealtWith(after, buckets, book, rows, {})
    ensures totalAfter == total + PortfolioReturn(book, rows)
    ensures AttributedTotal(after) - totalAfter == AttributedTotal(buckets) - total
  {
    after, totalAfter := buckets, total;
    var rest := book.Keys;
    while rest != {}
      invariant rest <= book.Keys
      invariant DealtWith(after, buckets, book, rows, rest)
      invariant totalAfter + Sum(rest, Contribution(book, rows)) == total + PortfolioReturn(book, rows)
      invariant AttributedTotal(after) - totalAfter == AttributedTotal(buckets) - total
      decreases rest
    {
      var s :| s in rest;
      SumPick(rest, Contribution(book, rows), s);
      DealWithNext(after, buckets, book, rows, rest, s);
      after, totalAfter := AttributeSymbol(after, book, rows, totalAfter, s);
      rest := rest - {s};
    }
  }

  method AttributeSymbol(buckets: Buckets, book: Book, rows: seq<PanelRow>, total: real, s: Symbol)
    returns (after: Buckets, totalAfter: real)
    requires s in book
    ensures after == if OfSymbolIn(rows, s) then buckets[s := AddTo(BucketOf(buckets, s), book, rows, s)] else buckets
    ensures totalAfter == total + Contribution(book, rows)(s)
    ensures AttributedTotal(after) - totalAfter == AttributedTotal(buckets) - total
  {
    if !OfSymbolIn(rows, s) {
      NoRowNoReturn(rows, s);
      return buckets, total;
    }
    var contrib := book[s] * ReturnIn(rows, s);
    var b := BucketOf(buckets, s);
    b := b.(periodsHeld := b.periodsHeld + 1, contribution := b.contribution + contrib);
    if 0.0 <= book[s] {
      b := b.(longPeriods := b.longPeriods + 1);
    } else {
      b := b.(shortPeriods := b.shortPeriods + 1);
    }
    BucketUpdate(buckets, s, b);
    return buckets[s := b], total + contrib;
  }

  // ----- what a symbol gets, period by period -----

  /** The symbol's first row on the date. */
  predicate IsFirstRow(panel: seq<PanelRow>, i: nat, d: Day, s: Symbol) {
    && i < |panel| && panel[i].date == d && panel[i].symbol == s
    && forall j :: 0 <= j < i ==> panel[j].date != d || panel[j].symbol != s
  }

  predicate HasRow(panel: seq<PanelRow>, d: Day, s: Symbol) {
    exists i :: 0 <= i < |panel| && panel[i].date == d && panel[i].symbol == s
  }

  /** Short if shorted, otherwise long if bought, and only if there is a row to take the return from. */
  predicate CountsLong(panel: seq<PanelRow>, p: Period, s: Symbol) {
    s in p.longs && s !in p.shorts && HasRow(panel, p.entry, s)
  }

  predicate CountsShort(panel: seq<PanelRow>, p: Period, s: Symbol) {
    s in p.shorts && HasRow(panel, p.entry, s)
  }

  /** The return of the first row at the equal weight of the leg, half of it with two legs, negated for a short. */
  ghost predicate IsShare(x: real, panel: seq<PanelRow>, p: Period, s: Symbol) {
    if CountsShort(panel, p, s) then
      exists i: nat :: IsFirstRow(panel, i, p.entry, s) && x == Times(-(0.5 / |p.shorts| as real), panel[i].ret)
    else if CountsLong(panel, p, s) then
      exists i: nat :: IsFirstRow(panel, i, p.entry, s)
        && x == Times((if p.shorts == [] then 1.0 else 0.5) / |p.longs| as real, panel[i].ret)
    else x == 0.0
  }

  function TermSum(terms: seq<real>): real {
    if terms == [] then 0.0 else TermSum(terms[..|terms| - 1]) + terms[|terms| - 1]
  }

  ghost predicate AreShares(terms: seq<real>, panel: seq<PanelRow>, periods: seq<Period>, s: Symbol) {
    |terms| == |periods| && forall k :: 0 <= k < |terms| ==> IsShare(terms[k], panel, periods[k], s)
  }

  function LongAt(panel: seq<PanelRow>, periods: seq<Period>, s: Symbol): (at: set<nat>)
    ensures forall k: nat :: k in at <==> k < |periods| && CountsLong(panel, periods[k], s)
  {
    set k: nat | k < |periods| && CountsLong(panel, periods[k], s)
  }

  function ShortAt(panel: seq<PanelRow>, periods: seq<Period>, s: Symbol): (at: set<nat>)
    ensures forall k: nat :: k in at <==> k < |periods| && CountsShort(panel, periods[k], s)
  {
    set k: nat | k < |periods| && CountsShort(panel, periods[k], s)
  }

  ghost predicate IsBucketOf(b: Bucket, panel: seq<PanelRow>, periods: seq<Period>, s: Symbol) {
    && b.longPeriods == |LongAt(panel, periods, s)| && b.shortPeriods == |ShortAt(panel, periods, s)|
    && b.periodsHeld == b.longPeriods + b.shortPeriods
    && exists terms :: AreShares(terms, panel, periods, s) && b.contribution == TermSum(terms)
  }

  lemma {:induction false} ReturnOfAppended(rows: seq<PanelRow>, r: PanelRow, s: Symbol)
    ensures ReturnIn(rows + [r], s)
            == if OfSymbolIn(rows, s) then ReturnIn(rows, s) else if r.symbol == s then r.ret else 0.0
    ensures OfSymbolIn(rows + [r], s) <==> OfSymbolIn(rows, s) || r.symbol == s
  {
    var now := rows + [r];
    assert now[|rows|] == r;
    if i :| 0 <= i < |rows| && rows[i].symbol == s {
      assert now[i].symbol == s;
    }
    if rows == [] {
      assert now[1..] == [];
    } else {
      assert now[1..] == rows[1..] + [r] && now[0] == rows[0];
      ReturnOfAppended(rows[1..], r, s);
      SymbolInFirstOrRest(rows, s);
    }
  }

  lemma SymbolInFirstOrRest(rows: seq<PanelRow>, s: Symbol)
    requires rows != []
    ensures OfSymbolIn(rows, s) <==> rows[0].symbol == s || OfSymbolIn(rows[1..], s)
  {
    if i :| 0 <= i < |rows[1..]| && rows[1..][i].symbol == s {
      assert rows[i + 1].symbol == s;
    }
    if i :| 0 <= i < |rows| && rows[i].symbol == s {
      assert i > 0 ==> rows[1..][i - 1].symbol == s;
    }
  }

  lemma {:induction false} ReturnOnDate(panel: seq<PanelRow>, d: Day, s: Symbol)
    ensures OfSymbolIn(RowsOn(panel, d), s) <==> HasRow(panel, d, s)
    ensures HasRow(panel, d, s) ==>
      exists i: nat :: IsFirstRow(panel, i, d, s) && ReturnIn(RowsOn(panel, d), s) == panel[i].ret
  {
    if panel != [] {
      var n := |panel| - 1;
      ReturnOnDate(panel[..n], d, s);
      assert HasRow(panel, d, s) <==> HasRow(panel[..n], d, s) || (panel[n].date == d && panel[n].symbol == s) by {
        assert forall i :: 0 <= i < n ==> panel[..n][i] == panel[i];
      }
      if panel[n].date == d {
        ReturnOfAppended(RowsOn(panel[..n], d), panel[n], s);
      } else {
        assert RowsOn(panel, d) == RowsOn(panel[..n], d);
      }
      if HasRow(panel[..n], d, s) {
        var i: nat :| IsFirstRow(panel[..n], i, d, s) && ReturnIn(RowsOn(panel[..n], d), s) == panel[..n][i].ret;
        assert IsFirstRow(panel, i, d, s);
      } else if HasRow(panel, d, s) {
        assert IsFirstRow(panel, n, d, s);
      }
    }
  }

  lemma WeightOfName(p: Period, s: Symbol)
    ensures var book := AttributionBook(p.longs, p.shorts);
            && (s in book <==> s in p.longs || s in p.shorts)
            && (s in p.shorts ==> book[s] == -(0.5 / |p.shorts| as real) && book[s] < 0.0)
            && (s in p.longs && s !in p.shorts ==>
                  book[s] == (if p.shorts == [] then 1.0 else 0.5) / |p.longs| as real && 0.0 <= book[s])
  {
  }

  lemma SharedInPeriod(b: Bucket, panel: seq<PanelRow>, p: Period, s: Symbol) returns (x: real)
    ensures IsShare(x, panel, p, s)
    ensures AddTo(b, AttributionBook(p.longs, p.shorts), RowsOn(panel, p.entry), s) ==
      Bucket(b.periodsHeld + if CountsLong(panel, p, s) || CountsShort(panel, p, s) then 1 else 0,
             b.longPeriods + if CountsLong(panel, p, s) then 1 else 0,
             b.shortPeriods + if CountsShort(panel, p, s) then 1 else 0, b.contribution + x)
  {
    WeightOfName(p, s);
    ReturnOnDate(panel, p.entry, s);
    var book := AttributionBook(p.longs, p.shorts);
    x := if s in book && HasRow(panel, p.entry, s) then Times(book[s], ReturnIn(RowsOn(panel, p.entry), s)) else 0.0;
  }

  lemma OneMoreShare(terms: seq<real>, x: real, panel: seq<PanelRow>, periods: seq<Period>, s: Symbol)
    requires periods != [] && AreShares(terms, panel, periods[..|periods| - 1], s)
    requires IsShare(x, panel, periods[|periods| - 1], s)
    ensures AreShares(terms + [x], panel, periods, s) && TermSum(terms + [x]) == TermSum(terms) + x
  {
    var now := terms + [x];
    assert now[..|terms|] == terms;
    forall k | 0 <= k < |now| ensures IsShare(now[k], panel, periods[k], s) {
      if k < |terms| {
        assert now[k] == terms[k] && periods[k] == periods[..|periods| - 1][k];
      }
    }
  }

  lemma OneMoreCounted(panel: seq<PanelRow>, periods: seq<Period>, s: Symbol)
    requires periods != []
    ensures var n := |periods| - 1;
            && |LongAt(panel, periods, s)|
               == |LongAt(panel, periods[..n], s)| + (if CountsLong(panel, periods[n], s) then 1 else 0)
            && |ShortAt(panel, periods, s)|
               == |ShortAt(panel, periods[..n], s)| + if CountsShort(panel, periods[n], s) then 1 else 0
  {
    var n := |periods| - 1;
    assert LongAt(panel, periods, s)
        == LongAt(panel, periods[..n], s) + if CountsLong(panel, periods[n], s) then {n} else {};
    assert ShortAt(panel, periods, s)
        == ShortAt(panel, periods[..n], s) + if CountsShort(panel, periods[n], s) then {n} else {};
  }

  lemma {:induction false} SymbolSumPeriodByPeriod(panel: seq<PanelRow>, periods: seq<Period>, s: Symbol)
    ensures IsBucketOf(SymbolSum(panel, periods, s), panel, periods, s)
  {
    if periods == [] {
      assert LongAt(panel, periods, s) == {} && ShortAt(panel, periods, s) == {};
      assert AreShares([], panel, periods, s);
    } else {
      var n := |periods| - 1;
      SymbolSumPeriodByPeriod(panel, periods[..n], s);
      var before := SymbolSum(panel, periods[..n], s);
      var terms :| AreShares(terms, panel, periods[..n], s) && before.contribution == TermSum(terms);
      var x := SharedInPeriod(before, panel, periods[n], s);
      OneMoreShare(terms, x, panel, periods, s);
      OneMoreCounted(panel, periods, s);
    }
  }

  /** Buckets by symbol and the total that shares are taken of. The buckets add up to the
      total, whatever the periods. */
  method AttributePortfolioPeriods(periods: seq<Period>, panel: seq<PanelRow>) returns (buckets: Buckets, total: real)
    ensures forall s :: BucketOf(buckets, s) == SymbolSum(panel, periods, s)
    ensures forall s :: IsBucketOf(if s in buckets then buckets[s] else Bucket(0, 0, 0, 0.0), panel, periods, s)
    ensures total == AttributionSum(panel, periods) == AttributedTotal(buckets)
  {
    buckets, total := map[], 0.0;
    for k := 0 to |periods|
      invariant forall s :: BucketOf(buckets, s) == SymbolSum(panel, periods[..k], s)
      invariant total == AttributionSum(panel, periods[..k]) == AttributedTotal(buckets)
    {
      var p := periods[k];
      var rows := RowsOn(panel, p.entry);
      assert periods[..k + 1][..k] == periods[..k];
      if rows == [] {
        NoRowsNothingAttributed(p, panel);
        continue;
      }
      buckets, total := AttributePeriod(buckets, AttributionBook(p.longs, p.shorts), rows, total);
    }
    assert periods[..|periods|] == periods;
    forall s ensures IsBucketOf(if s in buckets then buckets[s] else Bucket(0, 0, 0, 0.0), panel, periods, s) {
      SymbolSumPeriodByPeriod(panel, periods, s);
      assert BucketOf(buckets, s) == SymbolSum(panel, periods, s);
    }
  }

  lemma NoRowsNothingAttributed(p: Period, panel: seq<PanelRow>)
    requires RowsOn(panel, p.entry) == []
    ensures PeriodAttribution(panel, p) == 0.0
  {
    var book := AttributionBook(p.longs, p.shorts);
    SumIsZero(book.Keys, Contribution(book, []));
  }

  /** Long and short periods make up the periods held. */
  lemma {:induction false} PeriodsHeldAreLongOrShort(panel: seq<PanelRow>, periods: seq<Period>, s: Symbol)
    ensures var b := SymbolSum(panel, periods, s);
            b.longPeriods + b.shortPeriods == b.periodsHeld <= |periods|
  {
    if periods != [] {
      PeriodsHeldAreLongOrShort(panel, periods[..|periods| - 1], s);
    }
  }

  function ShareIn(buckets: Buckets, total: real): Symbol -> real
    requires total != 0.0
  {
    (s: Symbol) => BucketOf(buckets, s).contribution / total
  }

  /** Shares of a non-zero total add up to one. */
  lemma SharesSumToOne(buckets: Buckets, total: real)
    requires total == AttributedTotal(buckets) && total != 0.0
    ensures Sum(buckets.Keys, ShareIn(buckets, total)) == 1.0
  {
    forall s ensures ShareIn(buckets, total)(s) == (1.0 / total) * ContributionIn(buckets)(s) {
    }
    SumScaled(buckets.Keys, ContributionIn(buckets), 1.0 / total, ShareIn(buckets, total));
  }

  // ----- how attribution relates to the return of the run -----

  /** How much of a fully invested leg of `n` names the cap leaves: all of it if it does not
      bind. */
  function Invested(n: nat, cap: Option<real>): real
    requires 0 < n
  {
    n as real * CappedWeight(n, 1.0, cap)
  }

  predicate CapBinds(n: nat, cap: Option<real>)
    requires 0 < n
  {
    cap.Some? && 0.0 < cap.value && n as real * cap.value < 1.0
  }

  lemma InvestedUnlessCapBinds(n: nat, cap: Option<real>)
    requires 0 < n
    ensures Invested(n, cap) == if CapBinds(n, cap) then n as real * cap.value else 1.0
  {
    InvestedIn(n, 1.0, cap);
  }

  lemma InvestedIn(n: nat, gross: real, cap: Option<real>)
    requires 0 < n
    ensures n as real * CappedWeight(n, gross, cap)
         == if cap.Some? && 0.0 < cap.value && n as real * cap.value < gross then n as real * cap.value else gross
  {
    assert n as real * (gross / n as real) == gross;
    if cap.Some? {
      CompareShares(n as real, gross, cap.value);
    }
  }

  /** The plain sum of the names' returns. */
  ghost function SumOfReturns(names: seq<Symbol>, rows: seq<PanelRow>): real {
    PortfolioReturn(EqualBook(names, 1.0), rows)
  }

  /** One leg of a book: its names at weight `w`, possibly negative. */
  lemma LegReturn(both: Book, names: seq<Symbol>, w: real, rows: seq<PanelRow>)
    requires forall s :: s in names ==> s in both && both[s] == w
    ensures Sum(Names(names), Contribution(both, rows)) == Times(w, SumOfReturns(names, rows))
  {
    var one := EqualBook(names, 1.0);
    assert one.Keys == Names(names);
    forall s | s in Names(names) ensures Contribution(both, rows)(s) == w * Contribution(one, rows)(s) {
      assert Weight(both, s) == w && Weight(one, s) == 1.0;
    }
    SumScaled(Names(names), Contribution(one, rows), w, Contribution(both, rows));
  }

  lemma ReturnOver(S: set<Symbol>, book: Book, rows: seq<PanelRow>)
    requires book.Keys == S
    ensures PortfolioReturn(book, rows) == Sum(S, Contribution(book, rows))
  {
  }

  lemma EqualBookReturn(symbols: seq<Symbol>, w: real, book: Book, rows: seq<PanelRow>)
    requires book == EqualBook(symbols, w)
    ensures PortfolioReturn(book, rows) == Times(w, SumOfReturns(symbols, rows))
  {
    ReturnOver(Names(symbols), book, rows);
    LegReturn(book, symbols, w, rows);
  }

  function NameReturn(rows: seq<PanelRow>): Symbol -> real {
    (s: Symbol) => ReturnIn(rows, s)
  }

  lemma ReturnAtWeight(book: Book, S: set<Symbol>, w: real, rows: seq<PanelRow>)
    requires forall s :: s in S ==> s in book && book[s] == w
    ensures Sum(S, Contribution(book, rows)) == Times(w, Sum(S, NameReturn(rows)))
  {
    SumScaled(S, NameReturn(rows), w, Contribution(book, rows));
  }

  lemma SumOfReturnsIsSum(names: seq<Symbol>, rows: seq<PanelRow>)
    ensures SumOfReturns(names, rows) == Sum(Names(names), NameReturn(rows))
  {
    var one := EqualBook(names, 1.0);
    assert one.Keys == Names(names);
    ReturnAtWeight(one, Names(names), 1.0, rows);
  }

  /** The names on both sides. */
  function Shared(longs: seq<Symbol>, shorts: seq<Symbol>): set<Symbol> {
    Names(longs) * Names(shorts)
  }

  ghost function SharedReturns(longs: seq<Symbol>, shorts: seq<Symbol>, rows: seq<PanelRow>): real {
    Sum(Shared(longs, shorts), NameReturn(rows))
  }

  lemma SumWithoutShared(longs: seq<Symbol>, shorts: seq<Symbol>, rows: seq<PanelRow>)
    ensures Sum(Names(longs) - Names(shorts), NameReturn(rows))
            == SumOfReturns(longs, rows) - SharedReturns(longs, shorts, rows)
  {
    var only, shared := Names(longs) - Names(shorts), Shared(longs, shorts);
    assert only + shared == Names(longs);
    SumOfDisjoint(only, shared, NameReturn(rows));
    SumOfReturnsIsSum(longs, rows);
  }

  /** A book of two legs, one at weight `w` and one at `v`; names on both sides are at `v`. */
  lemma TwoLegReturn(longs: seq<Symbol>, shorts: seq<Symbol>, w: real, v: real, both: Book, rows: seq<PanelRow>)
    requires both.Keys == Names(longs) + Names(shorts)
    requires forall s :: s in both ==> both[s] == if s in shorts then v else w
    ensures PortfolioReturn(both, rows)
              == Times(w, SumOfReturns(longs, rows) - SharedReturns(longs, shorts, rows))
                + Times(v, SumOfReturns(shorts, rows))
  {
    var only := Names(longs) - Names(shorts);
    assert only + Names(shorts) == both.Keys;
    SumOfDisjoint(only, Names(shorts), Contribution(both, rows));
    SumWithoutShared(longs, shorts, rows);
    SumOfReturnsIsSum(shorts, rows);
    ReturnAtWeight(both, only, w, rows);
    ReturnAtWeight(both, Names(shorts), v, rows);
    ReturnOver(both.Keys, both, rows);
  }

  lemma AttributionBookOfLegs(longs: seq<Symbol>, shorts: seq<Symbol>, w: real, v: real)
    requires longs != [] && |shorts| == |longs| && w == 0.5 / |longs| as real && v == -w
    ensures var book := AttributionBook(longs, shorts);
            && book.Keys == Names(longs) + Names(shorts)
            && forall s :: s in book ==> book[s] == if s in shorts then v else w
  {
  }

  lemma LongOnlyPeriodAttribution(longs: seq<Symbol>, rows: seq<PanelRow>, cap: Option<real>)
    requires longs != []
    ensures PortfolioReturn(CappedBook(longs, 1.0, cap), rows)
         == Times(Invested(|longs|, cap), PortfolioReturn(AttributionBook(longs, []), rows))
  {
    var n := |longs|;
    var w, h := CappedWeight(n, 1.0, cap), 1.0 / n as real;
    EqualBookReturn(longs, w, CappedBook(longs, 1.0, cap), rows);
    EqualBookReturn(longs, h, AttributionBook(longs, []), rows);
    RegroupLeg(n, w, h, SumOfReturns(longs, rows), Invested(n, cap));
  }

  /** The arithmetic of one leg of `n` names at weight `w`, attributed at `h`. */
  lemma RegroupLeg(n: nat, w: real, h: real, x: real, invested: real)
    requires 0 < n && h == 1.0 / n as real && invested == n as real * w
    ensures Times(w, x) == Times(invested, Times(h, x))
  {
    assert n as real * h == 1.0;
    assert (n as real * w) * (h * x) == (n as real * h) * (w * x);
  }

  /** What the names on both sides are attributed as shorts in place of longs. */
  ghost function SharedPart(longs: seq<Symbol>, shorts: seq<Symbol>, rows: seq<PanelRow>): real
    requires longs != []
  {
    Times(0.5 / |longs| as real, SharedReturns(longs, shorts, rows))
  }

  /** The return of two legs of equal size is twice what is invested times their attribution, once what
      the shared names lost in it is put back. */
  lemma TwoLegPeriodAttribution(longs: seq<Symbol>, shorts: seq<Symbol>, rows: seq<PanelRow>, cap: Option<real>)
    requires longs != [] && |shorts| == |longs|
    ensures PortfolioReturn(CappedBook(longs, 1.0, cap), rows) - PortfolioReturn(CappedBook(shorts, 1.0, cap), rows)
         == Times(2.0, Times(Invested(|longs|, cap),
                             PortfolioReturn(AttributionBook(longs, shorts), rows) + SharedPart(longs, shorts, rows)))
  {
    var longReturn, shortReturn := PortfolioReturn(CappedBook(longs, 1.0, cap), rows),
      PortfolioReturn(CappedBook(shorts, 1.0, cap), rows);
    var attributed := PortfolioReturn(AttributionBook(longs, shorts), rows);
    LegsRegrouped(longs, shorts, rows, cap, longReturn, shortReturn, attributed, Invested(|longs|, cap),
                  SharedPart(longs, shorts, rows));
  }

  lemma LegsRegrouped(longs: seq<Symbol>, shorts: seq<Symbol>, rows: seq<PanelRow>, cap: Option<real>, longReturn: real,
                      shortReturn: real, attributed: real, invested: real, part: real)
    requires longs != [] && |shorts| == |longs| && invested == Invested(|longs|, cap)
    requires longReturn == PortfolioReturn(CappedBook(longs, 1.0, cap), rows)
    requires shortReturn == PortfolioReturn(CappedBook(shorts, 1.0, cap), rows)
    requires attributed == PortfolioReturn(AttributionBook(longs, shorts), rows) &&
             part == SharedPart(longs, shorts, rows)
    ensures longReturn - shortReturn == Times(2.0, Times(invested, attributed + part))
  {
    var n, h := |longs|, 0.5 / |longs| as real;
    var w, x, y, z := CappedWeight(n, 1.0, cap), SumOfReturns(longs, rows), SumOfReturns(shorts, rows),
      SharedReturns(longs, shorts, rows);
    CappedLeg(longs, n, w, cap, rows);
    CappedLeg(shorts, n, w, cap, rows);
    var v := -h;
    AttributedAt(longs, shorts, rows, h, v, x, y, z, attributed);
    RegroupLegs(n, w, h, v, x, y, z, invested, longReturn, shortReturn, attributed, part);
  }

  lemma AttributedAt(longs: seq<Symbol>, shorts: seq<Symbol>, rows: seq<PanelRow>, h: real, v: real, x: real, y: real,
                     z: real,
                     attributed: real)
    requires longs != [] && |shorts| == |longs| && h == 0.5 / |longs| as real && v == -h
    requires x == SumOfReturns(longs, rows) && y == SumOfReturns(shorts, rows) &&
             z == SharedReturns(longs, shorts, rows)
    requires attributed == PortfolioReturn(AttributionBook(longs, shorts), rows)
    ensures attributed == Times(h, x - z) + Times(v, y)
  {
    AttributedLegs(longs, shorts, rows, h, v);
  }

  lemma CappedLeg(names: seq<Symbol>, n: nat, w: real, cap: Option<real>, rows: seq<PanelRow>)
    requires 0 < n == |names| && w == CappedWeight(n, 1.0, cap)
    ensures PortfolioReturn(CappedBook(names, 1.0, cap), rows) == Times(w, SumOfReturns(names, rows))
  {
    EqualBookReturn(names, w, CappedBook(names, 1.0, cap), rows);
  }

  lemma AttributedLegs(longs: seq<Symbol>, shorts: seq<Symbol>, rows: seq<PanelRow>, h: real, v: real)
    requires longs != [] && |shorts| == |longs|
    requires h == 0.5 / |longs| as real && v == -h
    ensures PortfolioReturn(AttributionBook(longs, shorts), rows)
              == Times(h, SumOfReturns(longs, rows) - SharedReturns(longs, shorts, rows))
                + Times(v, SumOfReturns(shorts, rows))
  {
    AttributionBookOfLegs(longs, shorts, h, v);
    TwoLegReturn(longs, shorts, h, v, AttributionBook(longs, shorts), rows);
  }

  /** The arithmetic of two legs of `n` names at weight `w`, attributed at `h` either way, with `z` shared. */
  lemma RegroupLegs(n: nat, w: real, h: real, v: real, x: real, y: real, z: real, invested: real, longReturn: real,
                    shortReturn: real,
                    attributed: real, part: real)
    requires 0 < n && h == 0.5 / n as real && v == -h && invested == n as real * w
    requires longReturn == Times(w, x) && shortReturn == Times(w, y)
    requires attributed == Times(h, x - z) + Times(v, y) && part == Times(h, z)
    ensures longReturn - shortReturn == Times(2.0, Times(invested, attributed + part))
  {
    assert n as real * h == 0.5;
    assert h * (x - z) == h * x - h * z;
    assert attributed + part == h * (x - y);
    assert 2.0 * ((n as real * w) * (h * (x - y))) == 2.0 * (n as real * h) * (w * (x - y));
  }

  // ----- when the legs of a long/short selection are disjoint -----

  lemma {:induction false} FilterKeepsDistinct(rows: seq<PanelRow>, p: PanelRow -> bool)
    requires Distinct(SymbolsOf(rows))
    ensures Distinct(SymbolsOf(Filter(rows, p)))
  {
    if rows != [] {
      var front, last := rows[..|rows| - 1], rows[|rows| - 1];
      assert SymbolsOf(front) == SymbolsOf(rows)[..|front|];
      FilterKeepsDistinct(front, p);
      var kept := Filter(front, p);
      forall i | 0 <= i < |kept| ensures kept[i].symbol != last.symbol {
        assert kept[i] in front;
        var j :| 0 <= j < |front| && front[j] == kept[i];
        assert SymbolsOf(rows)[j] == kept[i].symbol;
      }
    }
  }

  lemma DistinctByCount(symbols: seq<Symbol>)
    ensures Distinct(symbols) <==> forall s :: multiset(symbols)[s] <= 1
  {
    if Distinct(symbols) {
      forall s ensures multiset(symbols)[s] <= 1 {
        DistinctCount(symbols, s);
      }
    } else {
      var i, j :| 0 <= i < j < |symbols| && symbols[i] == symbols[j];
      var s := symbols[i];
      assert symbols == symbols[..j] + symbols[j..];
      assert symbols[..j][i] == s && symbols[j..][0] == s;
      assert s in symbols[..j] && s in symbols[j..];
      assert multiset(symbols)[s] == multiset(symbols[..j])[s] + multiset(symbols[j..])[s];
    }
  }

  lemma {:induction false} DistinctCount(symbols: seq<Symbol>, s: Symbol)
    requires Distinct(symbols)
    ensures multiset(symbols)[s] <= 1
  {
    if symbols != [] {
      var front, last := symbols[..|symbols| - 1], symbols[|symbols| - 1];
      assert symbols == front + [last];
      DistinctCount(front, s);
      assert last !in front;
    }
  }

  lemma RankKeepsDistinct(rows: seq<PanelRow>, ranked: seq<PanelRow>)
    requires multiset(ranked) == multiset(rows) && Distinct(SymbolsOf(rows))
    ensures Distinct(SymbolsOf(ranked))
  {
    MapPermutation(ranked, rows, SymbolOf);
    DistinctByCount(SymbolsOf(rows));
    DistinctByCount(SymbolsOf(ranked));
  }

  /** The first `k` and the last `k` of `n` different names share none exactly when they do
      not meet in the middle. */
  lemma LegsAreDisjointExactlyWhen(rows: seq<PanelRow>, k: nat)
    requires Distinct(SymbolsOf(rows)) && 1 <= k && rows != []
    ensures Names(SymbolsOf(Head(rows, k))) !! Names(SymbolsOf(Tail(rows, k))) <==> 2 * k <= |rows|
  {
    var n := |rows|;
    var head, tail := Head(rows, k), Tail(rows, k);
    var all := SymbolsOf(rows);
    if 2 * k <= n {
      forall s | s in SymbolsOf(head) ensures s !in SymbolsOf(tail) {
        var i :| 0 <= i < |head| && head[i].symbol == s;
        forall j | 0 <= j < |tail| ensures tail[j].symbol != s {
          assert all[i] == s && all[n - k + j] == tail[j].symbol;
        }
      }
    } else {
      var m := if k <= n then n - k else 0;
      var s := rows[m].symbol;
      assert SymbolsOf(head)[m] == s && SymbolsOf(tail)[0] == s;
      assert s in Names(SymbolsOf(head)) && s in Names(SymbolsOf(tail));
    }
  }

  /** At the default fraction of one fifth the legs are disjoint once two names are ranked. */
  lemma FifthsAreDisjointFromTwoNames(n: nat)
    ensures 1 <= n ==> (2 * QuintileCount(n, 0.2) <= n <==> 2 <= n)
  {
    var x := n as real * 0.2;
    assert Ceil(x) as real < x + 1.0 && x <= Ceil(x) as real;
    if 2 <= n {
      assert n == 2 || 2.0 * (x + 1.0) <= n as real + 1.0;
    }
  }

  // ----- when the attributed weights are the traded ones -----

  /** A single row: the symbol returns 1. */
  function OneRow(s: Symbol): seq<PanelRow> {
    [PanelRow(0, s, 0.0, 1.0)]
  }

  lemma ReturnsOfOneRow(s: Symbol, u: Symbol)
    ensures ReturnIn(OneRow(s), u) == if u == s then 1.0 else 0.0
  {
    if u != s {
      NoRowNoReturn(OneRow(s), u);
    }
  }

  lemma ReturnIsWeight(book: Book, s: Symbol)
    ensures PortfolioReturn(book, OneRow(s)) == Weight(book, s)
  {
    var f := Contribution(book, OneRow(s));
    forall u | u in book ensures f(u) == if u == s then Weight(book, s) else 0.0 {
      ReturnsOfOneRow(s, u);
    }
    if s in book {
      SumPick(book.Keys, f, s);
    }
    SumIsZero(book.Keys - {s}, f);
    assert s !in book ==> book.Keys - {s} == book.Keys;
  }

  lemma CappedWeightIsEqualExactlyUnlessCapBinds(n: nat, cap: Option<real>)
    requires 0 < n
    ensures CapBinds(n, cap) <==> CappedWeight(n, 1.0, cap) != 1.0 / n as real
  {
    InvestedUnlessCapBinds(n, cap);
    ShareOfOne(n as real, CappedWeight(n, 1.0, cap), Invested(n, cap));
  }

  lemma ShareOfOne(n: real, w: real, invested: real)
    requires 0.0 < n && invested == n * w
    ensures w == 1.0 / n <==> invested == 1.0
  {
    assert n * (1.0 / n) == 1.0;
    assert (w - 1.0 / n) * n == invested - 1.0;
  }

  /** Long-only: attribution gives the return of the capped portfolio, whatever the returns of the names,
      if and only if the cap does not bind. */
  lemma CapIsIgnoredExactlyUnlessItBinds(names: seq<Symbol>, cap: Option<real>)
    requires names != []
    ensures !CapBinds(|names|, cap) <==>
      forall rows :: PortfolioReturn(CappedBook(names, 1.0, cap), rows)
        == PortfolioReturn(AttributionBook(names, []), rows)
  {
    var traded, attributed := CappedBook(names, 1.0, cap), AttributionBook(names, []);
    CappedWeightIsEqualExactlyUnlessCapBinds(|names|, cap);
    if CapBinds(|names|, cap) {
      ReturnIsWeight(traded, names[0]);
      ReturnIsWeight(attributed, names[0]);
      assert names[0] in traded && names[0] in attributed;
      assert PortfolioReturn(traded, OneRow(names[0])) != PortfolioReturn(attributed, OneRow(names[0]));
    } else {
      assert traded == attributed;
    }
  }

  ghost function LegsReturn(longs: seq<Symbol>, shorts: seq<Symbol>, cap: Option<real>, rows: seq<PanelRow>): real {
    PortfolioReturn(CappedBook(longs, 1.0, cap), rows) - PortfolioReturn(CappedBook(shorts, 1.0, cap), rows)
  }

  /** Two legs of equal size: their return is twice what is attributed, whatever the returns of the names,
      if and only if the cap does not bind and no name is on both sides. */
  lemma LegsAreAttributedHalfExactlyWhen(longs: seq<Symbol>, shorts: seq<Symbol>, cap: Option<real>)
    requires longs != [] && |shorts| == |longs|
    ensures !CapBinds(|longs|, cap) && Names(longs) !! Names(shorts) <==>
      forall rows :: LegsReturn(longs, shorts, cap, rows)
        == Times(2.0, PortfolioReturn(AttributionBook(longs, shorts), rows))
  {
    if s :| s in Names(longs) && s in Names(shorts) {
      SharedNameIsNotHalf(longs, shorts, cap, s);
    } else if CapBinds(|longs|, cap) {
      CappedNameIsNotHalf(longs, shorts, cap);
    } else {
      forall rows
        ensures LegsReturn(longs, shorts, cap, rows)
                == Times(2.0, PortfolioReturn(AttributionBook(longs, shorts), rows))
      {
        TwoLegPeriodAttribution(longs, shorts, rows, cap);
        InvestedUnlessCapBinds(|longs|, cap);
        NothingShared(longs, shorts, rows);
      }
    }
  }

  lemma SharedNameIsNotHalf(longs: seq<Symbol>, shorts: seq<Symbol>, cap: Option<real>, s: Symbol)
    requires longs != [] && |shorts| == |longs| && s in Names(longs) && s in Names(shorts)
    ensures LegsReturn(longs, shorts, cap, OneRow(s))
              != Times(2.0, PortfolioReturn(AttributionBook(longs, shorts), OneRow(s)))
  {
    var h := 0.5 / |longs| as real;
    AttributionBookOfLegs(longs, shorts, h, -h);
    ReturnIsWeight(AttributionBook(longs, shorts), s);
    ReturnIsWeight(CappedBook(longs, 1.0, cap), s);
    ReturnIsWeight(CappedBook(shorts, 1.0, cap), s);
    assert h > 0.0;
  }

  lemma CappedNameIsNotHalf(longs: seq<Symbol>, shorts: seq<Symbol>, cap: Option<real>)
    requires longs != [] && |shorts| == |longs| && Names(longs) !! Names(shorts) && CapBinds(|longs|, cap)
    ensures LegsReturn(longs, shorts, cap, OneRow(longs[0]))
              != Times(2.0, PortfolioReturn(AttributionBook(longs, shorts), OneRow(longs[0])))
  {
    var s, w := longs[0], CappedWeight(|longs|, 1.0, cap);
    assert s in Names(longs) && s !in Names(shorts);
    WeightsOfLongName(longs, shorts, cap, s, 0.5 / |longs| as real);
    CappedWeightIsEqualExactlyUnlessCapBinds(|longs|, cap);
    assert LegsReturn(longs, shorts, cap, OneRow(s)) == w;
  }

  lemma WeightsOfLongName(longs: seq<Symbol>, shorts: seq<Symbol>, cap: Option<real>, s: Symbol, h: real)
    requires longs != [] && |shorts| == |longs| && s in Names(longs) && s !in Names(shorts) &&
             h == 0.5 / |longs| as real
    ensures PortfolioReturn(CappedBook(longs, 1.0, cap), OneRow(s)) == CappedWeight(|longs|, 1.0, cap)
    ensures PortfolioReturn(CappedBook(shorts, 1.0, cap), OneRow(s)) == 0.0
    ensures Times(2.0, PortfolioReturn(AttributionBook(longs, shorts), OneRow(s))) == 1.0 / |longs| as real
  {
    ReturnIsWeight(CappedBook(longs, 1.0, cap), s);
    ReturnIsWeight(CappedBook(shorts, 1.0, cap), s);
    AttributedWeightOfLongName(longs, shorts, s, h);
    TwiceHalf(h, |longs|);
  }

  lemma AttributedWeightOfLongName(longs: seq<Symbol>, shorts: seq<Symbol>, s: Symbol, h: real)
    requires longs != [] && |shorts| == |longs| && s in Names(longs) && s !in Names(shorts) &&
             h == 0.5 / |longs| as real
    ensures PortfolioReturn(AttributionBook(longs, shorts), OneRow(s)) == h
  {
    AttributionBookOfLegs(longs, shorts, h, -h);
    ReturnIsWeight(AttributionBook(longs, shorts), s);
  }

  lemma TwiceHalf(h: real, n: nat)
    requires 0 < n && h == 0.5 / n as real
    ensures Times(2.0, h) == 1.0 / n as real
  {
  }

  // ----- attribution of a run -----

  function GrossSum(periods: seq<Period>): real {
    if periods == [] then 0.0 else GrossSum(periods[..|periods| - 1]) + periods[|periods| - 1].grossReturn
  }

  /** Attribution multiplies up to the gross return by this factor. */
  function Factor(cfg: Config): real {
    if cfg.strategy.LongShortQuintile? then 2.0 else 1.0
  }

  ghost function PeriodShared(panel: seq<PanelRow>, p: Period): real {
    if p.longs == [] then 0.0 else SharedPart(p.longs, p.shorts, RowsOn(panel, p.entry))
  }

  ghost function SharedSum(panel: seq<PanelRow>, periods: seq<Period>): real {
    if periods == [] then 0.0
    else SharedSum(panel, periods[..|periods| - 1]) + PeriodShared(panel, periods[|periods| - 1])
  }

  ghost predicate InProportion(p: Period, panel: seq<PanelRow>, cfg: Config) {
    && p.longs != []
    && p.grossReturn
       == Times(Factor(cfg), Times(Invested(|p.longs|, cfg.maxPositionWeight),
                                   PeriodAttribution(panel, p) + PeriodShared(panel, p)))
  }

  /** Both legs of a selection are as long, whatever the ranking. */
  lemma LegsAreAsLong(ranked: seq<PanelRow>, cfg: Config)
    requires cfg.strategy.LongShortQuintile?
    ensures var (longs, shorts) := SelectLongShort(ranked, cfg); |longs| == |shorts|
  {
  }

  lemma LongOnlySelectsNoShorts(ranked: seq<PanelRow>, cfg: Config)
    requires !cfg.strategy.LongShortQuintile?
    ensures SelectLongShort(ranked, cfg).1 == []
  {
  }

  lemma NothingShared(longs: seq<Symbol>, shorts: seq<Symbol>, rows: seq<PanelRow>)
    requires longs != [] && Names(longs) !! Names(shorts)
    ensures SharedPart(longs, shorts, rows) == 0.0
  {
    assert Shared(longs, shorts) == {};
  }

  lemma GrossOfTwoLegs(p: Period, prevLong: Book, prevShort: Book, panel: seq<PanelRow>, cfg: Config, rank: Ranking)
    requires TradedFrom(p, prevLong, prevShort, panel, cfg, rank) && cfg.strategy.LongShortQuintile?
    ensures p.longs != [] && |p.shorts| == |p.longs|
    ensures p.grossReturn == PortfolioReturn(CappedBook(p.longs, 1.0, cfg.maxPositionWeight), RowsOn(panel, p.entry))
                             - PortfolioReturn(CappedBook(p.shorts, 1.0, cfg.maxPositionWeight), RowsOn(panel, p.entry))
  {
    LegsAreAsLong(rank(RowsOn(panel, p.entry)), cfg);
  }

  lemma LongShortInProportion(p: Period, prevLong: Book, prevShort: Book, panel: seq<PanelRow>, cfg: Config,
                              rank: Ranking)
    requires TradedFrom(p, prevLong, prevShort, panel, cfg, rank) && cfg.strategy.LongShortQuintile?
    ensures InProportion(p, panel, cfg)
  {
    GrossOfTwoLegs(p, prevLong, prevShort, panel, cfg, rank);
    GrossInProportion(p, panel, cfg);
  }

  lemma GrossInProportion(p: Period, panel: seq<PanelRow>, cfg: Config)
    requires cfg.strategy.LongShortQuintile? && p.longs != [] && |p.shorts| == |p.longs|
    requires p.grossReturn == PortfolioReturn(CappedBook(p.longs, 1.0, cfg.maxPositionWeight), RowsOn(panel, p.entry))
                              - PortfolioReturn(CappedBook(p.shorts, 1.0, cfg.maxPositionWeight),
                                                RowsOn(panel, p.entry))
    ensures InProportion(p, panel, cfg)
  {
    TwoLegPeriodAttribution(p.longs, p.shorts, RowsOn(panel, p.entry), cfg.maxPositionWeight);
  }

  lemma LongOnlyInProportion(p: Period, prevLong: Book, prevShort: Book, panel: seq<PanelRow>, cfg: Config,
                             rank: Ranking)
    requires TradedFrom(p, prevLong, prevShort, panel, cfg, rank) && !cfg.strategy.LongShortQuintile?
    ensures InProportion(p, panel, cfg) && PeriodShared(panel, p) == 0.0
  {
    var rows := RowsOn(panel, p.entry);
    LongOnlySelectsNoShorts(rank(rows), cfg);
    LongOnlyPeriodAttribution(p.longs, rows, cfg.maxPositionWeight);
    NothingShared(p.longs, p.shorts, rows);
    assert PortfolioReturn(HeldShort(cfg, p.shorts), rows) == 0.0;
  }

  /** Every period's gross return is its attribution, with the shared names put back, scaled by what the
      cap left invested, and doubled for long/short runs. */
  lemma RunIsAttributedInProportion(periods: seq<Period>, panel: seq<PanelRow>, cfg: Config, rank: Ranking, i: nat)
    requires PeriodsOfRun(periods, panel, cfg, rank) && i < |periods|
    ensures InProportion(periods[i], panel, cfg)
    ensures !cfg.strategy.LongShortQuintile? ==> PeriodShared(panel, periods[i]) == 0.0
  {
    RunIsChained(RebalanceDates(panel, cfg.rebalanceDays), panel, cfg, rank);
    var prevLong, prevShort := LongBefore(periods, i, cfg), ShortBefore(periods, i, cfg);
    assert TradedFrom(periods[i], prevLong, prevShort, panel, cfg, rank);
    if cfg.strategy.LongShortQuintile? {
      LongShortInProportion(periods[i], prevLong, prevShort, panel, cfg, rank);
    } else {
      LongOnlyInProportion(periods[i], prevLong, prevShort, panel, cfg, rank);
    }
  }

  ghost predicate EqualUpToFactor(periods: seq<Period>, panel: seq<PanelRow>, cfg: Config) {
    forall i :: 0 <= i < |periods| ==>
      periods[i].grossReturn == Times(Factor(cfg),
                                      PeriodAttribution(panel, periods[i]) + PeriodShared(panel, periods[i]))
  }

  lemma {:induction false} SumsAreEqualUpToFactor(periods: seq<Period>, panel: seq<PanelRow>, cfg: Config)
    requires EqualUpToFactor(periods, panel, cfg)
    ensures GrossSum(periods) == Times(Factor(cfg), AttributionSum(panel, periods) + SharedSum(panel, periods))
  {
    if periods != [] {
      var front, last := periods[..|periods| - 1], periods[|periods| - 1];
      SumsAreEqualUpToFactor(front, panel, cfg);
      AddPeriod(Factor(cfg), GrossSum(front), AttributionSum(panel, front), SharedSum(panel, front), last.grossReturn,
        PeriodAttribution(panel, last), PeriodShared(panel, last));
    }
  }

  lemma AddPeriod(f: real, gross: real, a: real, b: real, lastGross: real, c: real, d: real)
    requires gross == Times(f, a + b) && lastGross == Times(f, c + d)
    ensures gross + lastGross == Times(f, (a + c) + (b + d))
  {
  }

  lemma {:induction false} NothingSharedInRun(panel: seq<PanelRow>, periods: seq<Period>)
    requires forall i :: 0 <= i < |periods| ==> PeriodShared(panel, periods[i]) == 0.0
    ensures SharedSum(panel, periods) == 0.0
  {
    if periods != [] {
      NothingSharedInRun(panel, periods[..|periods| - 1]);
    }
  }

  /** Conservation, with a cap that binds for no period. Long-only: contributions add up to the gross
      returns. Long/short: contributions and the part of the shared names add up to half of them, so
      contributions alone do exactly when that part is zero. */
  lemma AttributionConservesReturn(periods: seq<Period>, panel: seq<PanelRow>, cfg: Config, rank: Ranking)
    requires PeriodsOfRun(periods, panel, cfg, rank)
    requires forall i :: 0 <= i < |periods| && periods[i].longs != [] ==>
             !CapBinds(|periods[i].longs|, cfg.maxPositionWeight)
    ensures !cfg.strategy.LongShortQuintile? ==> AttributionSum(panel, periods) == GrossSum(periods)
    ensures cfg.strategy.LongShortQuintile? ==>
            AttributionSum(panel, periods) + SharedSum(panel, periods) == GrossSum(periods) / 2.0
    ensures cfg.strategy.LongShortQuintile? ==>
      (AttributionSum(panel, periods) == GrossSum(periods) / 2.0 <==> SharedSum(panel, periods) == 0.0)
  {
    forall i | 0 <= i < |periods|
      ensures periods[i].grossReturn == Times(Factor(cfg),
                                              PeriodAttribution(panel, periods[i]) + PeriodShared(panel, periods[i]))
    {
      RunIsAttributedInProportion(periods, panel, cfg, rank, i);
      InvestedUnlessCapBinds(|periods[i].longs|, cfg.maxPositionWeight);
    }
    SumsAreEqualUpToFactor(periods, panel, cfg);
    if !cfg.strategy.LongShortQuintile? {
      forall i | 0 <= i < |periods| ensures PeriodShared(panel, periods[i]) == 0.0 {
        RunIsAttributedInProportion(periods, panel, cfg, rank, i);
      }
      NothingSharedInRun(panel, periods);
    }
  }

  // ----- legs that share no name, and legs of one name -----

  /** The date lists a symbol once, and as many names are eligible as both legs need. */
  ghost predicate LegsFitOn(d: Day, panel: seq<PanelRow>, cfg: Config, rank: Ranking) {
    && Distinct(SymbolsOf(RowsOn(panel, d)))
    && var n := |Eligible(rank(RowsOn(panel, d)), cfg)|;
       2 * QuintileCount(n, cfg.quintileFraction) <= n
  }

  lemma LegsThatFitShareNothing(ranked: seq<PanelRow>, cfg: Config, longs: seq<Symbol>, shorts: seq<Symbol>)
    requires cfg.strategy.LongShortQuintile? && SelectLongShort(ranked, cfg) == (longs, shorts) && longs != []
    requires Distinct(SymbolsOf(ranked))
    ensures Names(longs) !! Names(shorts) <==>
            (var n := |Eligible(ranked, cfg)|; 2 * QuintileCount(n, cfg.quintileFraction) <= n)
  {
    var rows := Eligible(ranked, cfg);
    if cfg.minUpProb.Some? {
      FilterKeepsDistinct(ranked, ScoresAtLeast(cfg.minUpProb.value));
    }
    LegsAreDisjointExactlyWhen(rows, QuintileCount(|rows|, cfg.quintileFraction));
  }

  /** If the legs fit on every date that was traded, nothing is shared and exactly half is attributed. */
  lemma HalfIsAttributedWhenLegsFit(periods: seq<Period>, panel: seq<PanelRow>, cfg: Config, rank: Ranking)
    requires PeriodsOfRun(periods, panel, cfg, rank) && RanksByScore(rank) && cfg.strategy.LongShortQuintile?
    requires forall i :: 0 <= i < |periods| ==> LegsFitOn(periods[i].entry, panel, cfg, rank)
    requires forall i :: 0 <= i < |periods| && periods[i].longs != [] ==>
             !CapBinds(|periods[i].longs|, cfg.maxPositionWeight)
    ensures AttributionSum(panel, periods) == GrossSum(periods) / 2.0
  {
    RunIsAccounted(periods, panel, cfg, rank);
    forall i | 0 <= i < |periods| ensures PeriodShared(panel, periods[i]) == 0.0 {
      var p := periods[i];
      var rows := RowsOn(panel, p.entry);
      assert TradedFrom(p, LongBefore(periods, i, cfg), ShortBefore(periods, i, cfg), panel, cfg, rank);
      RankKeepsDistinct(rows, rank(rows));
      LegsThatFitShareNothing(rank(rows), cfg, p.longs, p.shorts);
      NothingShared(p.longs, p.shorts, rows);
    }
    NothingSharedInRun(panel, periods);
    AttributionConservesReturn(periods, panel, cfg, rank);
  }

  /** A period of a long/short run with one eligible name buys and sells it: the portfolio earns nothing,
      and attribution still charges half the name's return as a short. */
  lemma OneNameOnBothSides(periods: seq<Period>, panel: seq<PanelRow>, cfg: Config, rank: Ranking, i: nat)
    requires PeriodsOfRun(periods, panel, cfg, rank) && i < |periods| && cfg.strategy.LongShortQuintile?
    requires |Eligible(rank(RowsOn(panel, periods[i].entry)), cfg)| == 1
    ensures var p := periods[i];
            && |p.longs| == 1 && p.shorts == p.longs
            && p.grossReturn == 0.0 && PeriodAttribution(panel, p)
               == -0.5 * ReturnIn(RowsOn(panel, p.entry), p.longs[0])
  {
    var p := periods[i];
    RunIsAccounted(periods, panel, cfg, rank);
    OneNameTraded(p, LongBefore(periods, i, cfg), ShortBefore(periods, i, cfg), panel, cfg, rank);
    OneNameAttributed(p, panel);
  }

  lemma OneNameTraded(p: Period, prevLong: Book, prevShort: Book, panel: seq<PanelRow>, cfg: Config, rank: Ranking)
    requires TradedFrom(p, prevLong, prevShort, panel, cfg, rank) && cfg.strategy.LongShortQuintile?
    requires |Eligible(rank(RowsOn(panel, p.entry)), cfg)| == 1
    ensures |p.longs| == 1 && p.shorts == p.longs && p.grossReturn == 0.0
  {
    GrossOfTwoLegs(p, prevLong, prevShort, panel, cfg, rank);
    OneEligibleName(rank(RowsOn(panel, p.entry)), cfg);
  }

  lemma OneEligibleName(ranked: seq<PanelRow>, cfg: Config)
    requires cfg.strategy.LongShortQuintile? && |Eligible(ranked, cfg)| == 1
    ensures var (longs, shorts) := SelectLongShort(ranked, cfg); |longs| == 1 && shorts == longs
  {
  }

  lemma OneNameAttributed(p: Period, panel: seq<PanelRow>)
    requires |p.longs| == 1 && p.shorts == p.longs
    ensures PeriodAttribution(panel, p) == -0.5 * ReturnIn(RowsOn(panel, p.entry), p.longs[0])
  {
    assert p.longs == [p.longs[0]];
    BookOfOneName(p.longs[0], RowsOn(panel, p.entry));
  }

  lemma BookOfOneName(s: Symbol, rows: seq<PanelRow>)
    ensures PortfolioReturn(AttributionBook([s], [s]), rows) == -0.5 * ReturnIn(rows, s)
  {
    var book := AttributionBook([s], [s]);
    assert book.Keys == {s} && book[s] == -0.5;
    SumPick({s}, Contribution(book, rows), s);
    assert {s} - {s} == {};
  }
}
