/** Capped equal weights and weighted returns (`backtest/portfolio_weights.py`), in exact
    arithmetic. */
module PortfolioWeights {
  import opened Books
  import opened Numbers
  import opened Sequences

  /** The source's guard against rounding. */
  const EPS: real := 0.000000000001

  function WeightsForSymbols(symbols: seq<Symbol>, gross: real): Book {
    if symbols == [] then map[] else EqualBook(symbols, gross / |symbols| as real)
  }

  /** What each name gets: the equal share, or the cap when that is lower and positive. */
  function CappedWeight(n: nat, gross: real, cap: Option<real>): real
    requires 0 < n
  {
    var base := gross / n as real;
    if cap.Some? && 0.0 < cap.value < base then cap.value else base
  }

  function CappedBook(symbols: seq<Symbol>, gross: real, cap: Option<real>): Book {
    if symbols == [] then map[] else EqualBook(symbols, CappedWeight(|symbols|, gross, cap))
  }

  // ----- the refill loop, from any starting weights -----

  /** Names still to be filled: different, and each clearly below the cap. */
  ghost predicate Adjustable(names: seq<Symbol>, book: Book, cap: real) {
    Distinct(names) && forall s :: s in names ==> s in book && book[s] < cap - EPS
  }

  /** A weight after one increment, or after what room it has. */
  function TopUp(w: real, increment: real, cap: real): real {
    w + Min(increment, cap - w)
  }

  function RoundBook(book: Book, names: seq<Symbol>, increment: real, cap: real): Book {
    map s | s in book :: if s in names then TopUp(book[s], increment, cap) else book[s]
  }

  function StillBelow(book: Book, increment: real, cap: real): Symbol -> bool {
    (s: Symbol) => s in book && TopUp(book[s], increment, cap) < cap - EPS
  }

  lemma {:induction false} RoundGains(book: Book, names: seq<Symbol>, increment: real, cap: real)
    requires Adjustable(names, book, cap) && 0.0 <= increment
    ensures Total(RoundBook(book, names, increment, cap)) <= Total(book) + |names| as real * increment
    ensures (forall s :: s in names ==> StillBelow(book, increment, cap)(s)) ==>
      Total(RoundBook(book, names, increment, cap)) == Total(book) + |names| as real * increment
  {
    if names == [] {
      assert RoundBook(book, names, increment, cap) == book;
    } else {
      var front, s := names[..|names| - 1], names[|names| - 1];
      RoundGains(book, front, increment, cap);
      NextGain(book, front, s, increment, cap);
      assert names == front + [s];
      OneMoreTimes(|front|, increment);
    }
  }

  lemma OneMoreTimes(n: nat, x: real)
    ensures (n + 1) as real * x == n as real * x + x
  {
  }

  lemma NextGain(book: Book, front: seq<Symbol>, s: Symbol, increment: real, cap: real)
    requires s in book && s !in front
    ensures var before, after := Total(RoundBook(book, front, increment, cap)),
            Total(RoundBook(book, front + [s], increment, cap));
            after <= before + increment && (StillBelow(book, increment, cap)(s) ==> after == before + increment)
  {
    NextInRound(book, front, s, increment, cap);
  }

  lemma NextInRound(book: Book, front: seq<Symbol>, s: Symbol, increment: real, cap: real)
    requires s in book && s !in front
    ensures var before := RoundBook(book, front, increment, cap);
            var after := RoundBook(book, front + [s], increment, cap);
            && s in before && before[s] == book[s]
            && after == before[s := TopUp(book[s], increment, cap)]
            && Total(after) == Total(before) + Min(increment, cap - book[s])
  {
    var before := RoundBook(book, front, increment, cap);
    TotalAfterUpdate(before, s, TopUp(book[s], increment, cap));
  }

  /** One round of the refill loop: every adjustable name gets the same increment or what
      room it has, and those still below the cap stay adjustable. */
  method RefillRound(book: Book, adjustable: seq<Symbol>, increment: real, remaining: real, cap: real)
    returns (after: Book, left: real, next: seq<Symbol>)
    requires Adjustable(adjustable, book, cap)
    ensures after == RoundBook(book, adjustable, increment, cap)
    ensures next == Filter(adjustable, StillBelow(book, increment, cap))
    ensures Total(after) + left == Total(book) + remaining
  {
    after, left, next := book, remaining, [];
    assert RoundBook(book, [], increment, cap) == book;
    for i := 0 to |adjustable|
      invariant after == RoundBook(book, adjustable[..i], increment, cap)
      invariant next == Filter(adjustable[..i], StillBelow(book, increment, cap))
      invariant Total(after) + left == Total(book) + remaining
    {
      RoundStep(book, adjustable, i, increment, cap);
      StillBelowStep(book, adjustable, i, increment, cap);
      after, left, next := TakeTurn(after, left, next, adjustable[i], increment, cap);
    }
    assert adjustable[..|adjustable|] == adjustable;
  }

  /** The body of the loop. */
  method TakeTurn(book: Book, left: real, next: seq<Symbol>, s: Symbol, increment: real, cap: real)
    returns (after: Book, rest: real, kept: seq<Symbol>)
    requires s in book
    ensures after == book[s := TopUp(book[s], increment, cap)]
    ensures Total(after) + rest == Total(book) + left
    ensures kept == next + if TopUp(book[s], increment, cap) < cap - EPS then [s] else []
  {
    var delta := Min(increment, cap - book[s]);
    TotalAfterUpdate(book, s, book[s] + delta);
    after := book[s := book[s] + delta];
    rest, kept := left - delta, next;
    if after[s] < cap - EPS {
      kept := kept + [s];
    }
  }

  lemma StillBelowStep(book: Book, adjustable: seq<Symbol>, i: nat, increment: real, cap: real)
    requires i < |adjustable| && adjustable[i] in book
    ensures var s, keep := adjustable[i], StillBelow(book, increment, cap);
            Filter(adjustable[..i + 1], keep)
              == Filter(adjustable[..i], keep) + if TopUp(book[s], increment, cap) < cap - EPS then [s] else []
  {
    FilterStep(adjustable, i, StillBelow(book, increment, cap));
  }

  /** What a round does to each weight, and which names are left. */
  lemma RoundWeightByWeight(book: Book, names: seq<Symbol>, increment: real, cap: real)
    requires forall s :: s in names ==> s in book
    ensures var after := RoundBook(book, names, increment, cap);
            && after.Keys == book.Keys
            && (forall s :: s in book ==>
                  var now := if s in names then book[s] + increment else book[s];
                  after[s] == if s in names && cap < now then cap else now)
            && forall s :: s in Filter(names, StillBelow(book, increment, cap)) <==>
                           s in names && after[s] < cap - 0.000000000001
  {
  }

  lemma RoundStep(book: Book, adjustable: seq<Symbol>, i: nat, increment: real, cap: real)
    requires Adjustable(adjustable, book, cap) && i < |adjustable|
    ensures var s, before := adjustable[i], RoundBook(book, adjustable[..i], increment, cap);
            && s in before && before[s] == book[s]
            && RoundBook(book, adjustable[..i + 1], increment, cap) == before[s := TopUp(book[s], increment, cap)]
  {
    assert adjustable[..i + 1] == adjustable[..i] + [adjustable[i]];
    NextInRound(book, adjustable[..i], adjustable[i], increment, cap);
  }

  /** What a round achieves: either everything is handed out or some name is full and
      leaves. */
  lemma RoundMakesProgress(book: Book, adjustable: seq<Symbol>, increment: real, remaining: real, cap: real)
    requires Adjustable(adjustable, book, cap) && 0.0 <= increment && |adjustable| as real * increment == remaining
    ensures var after := RoundBook(book, adjustable, increment, cap);
            var next := Filter(adjustable, StillBelow(book, increment, cap));
            && Total(after) <= Total(book) + remaining
            && Adjustable(next, after, cap)
            && |next| <= |adjustable|
            && (|next| < |adjustable| || Total(after) == Total(book) + remaining)
  {
    RoundGains(book, adjustable, increment, cap);
    FilterOfDistinct(adjustable, StillBelow(book, increment, cap));
  }

  lemma {:induction false} FilterOfDistinct(names: seq<Symbol>, p: Symbol -> bool)
    requires Distinct(names)
    ensures Distinct(Filter(names, p)) && |Filter(names, p)| <= |names|
    ensures |Filter(names, p)| == |names| ==> forall s :: s in names ==> p(s)
  {
    if names != [] {
      var front, last := names[..|names| - 1], names[|names| - 1];
      assert names == front + [last];
      FilterOfDistinct(front, p);
      assert last !in front;
    }
  }

  /** Weights only rise, and only as far as the cap. */
  ghost predicate FilledUpTo(before: Book, after: Book, names: seq<Symbol>, cap: real) {
    && after.Keys == before.Keys
    && forall s :: s in before ==>
         if s in names then before[s] <= after[s] <= cap else after[s] == before[s]
  }

  ghost predicate Refilling(book: Book, names: seq<Symbol>, gross: real, cap: real, now: Book, left: real,
                            adjustable: seq<Symbol>, rounds: nat)
  {
    && FilledUpTo(book, now, names, cap) && Adjustable(adjustable, now, cap)
    && (forall s :: s in adjustable ==> s in names)
    && (forall s :: s in names ==> s in now && (s in adjustable || cap - EPS <= now[s]))
    && Total(now) + left == Total(book) + gross
    && (0.0 <= gross ==> 0.0 <= left)
    && (gross <= EPS ==> now == book && rounds == 0 && left == gross)
    && rounds <= |names| && (left <= EPS || rounds + |adjustable| <= |names|)
  }

  lemma RoundKeepsRefilling(book: Book, names: seq<Symbol>, gross: real, cap: real, now: Book, left: real,
                            adjustable: seq<Symbol>, rounds: nat, increment: real)
    requires Refilling(book, names, gross, cap, now, left, adjustable, rounds)
    requires EPS < left && adjustable != [] && 0.0 <= increment && |adjustable| as real * increment == left
    ensures var after := RoundBook(now, adjustable, increment, cap);
            var next := Filter(adjustable, StillBelow(now, increment, cap));
            var leftAfter := Total(now) + left - Total(after);
            && Refilling(book, names, gross, cap, after, leftAfter, next, rounds + 1)
            && (leftAfter <= EPS || |next| < |adjustable|)
  {
    RoundMakesProgress(now, adjustable, increment, left, cap);
    RoundFills(book, now, adjustable, increment, cap, names);
  }

  lemma RoundFills(book: Book, before: Book, adjustable: seq<Symbol>, increment: real, cap: real, names: seq<Symbol>)
    requires FilledUpTo(book, before, names, cap) && Adjustable(adjustable, before, cap) && 0.0 <= increment
    requires forall s :: s in adjustable ==> s in names
    requires forall s :: s in names ==> s in before && (s in adjustable || cap - EPS <= before[s])
    ensures var after := RoundBook(before, adjustable, increment, cap);
            var next := Filter(adjustable, StillBelow(before, increment, cap));
            && FilledUpTo(book, after, names, cap)
            && (forall s :: s in names ==> s in next || cap - EPS <= after[s])
  {
  }

  lemma ShareOf(left: real, n: nat)
    requires 0 < n && 0.0 < left
    ensures 0.0 <= left / n as real && n as real * (left / n as real) == left
  {
  }

  method EvenShare(left: real, n: nat) returns (increment: real)
    requires 0 < n && 0.0 < left
    ensures 0.0 <= increment && n as real * increment == left
  {
    ShareOf(left, n);
    increment := left / n as real;
  }

  /** The refill loop, from any starting weights below the cap. Nothing is lost: what the
      book gains is what is handed out. It takes at most one round per name, and stops with
      (almost) nothing left or every name (almost) at the cap. */
  method Refill(book: Book, names: seq<Symbol>, gross: real, cap: real)
    returns (after: Book, left: real, rounds: nat)
    requires Adjustable(names, book, cap)
    ensures FilledUpTo(book, after, names, cap)
    ensures Total(after) + left == Total(book) + gross
    ensures 0.0 <= gross ==> 0.0 <= left
    ensures gross <= 0.000000000001 || names == [] ==> after == book && rounds == 0
    ensures rounds <= |names|
    ensures left <= 0.000000000001 || forall s :: s in names ==> cap - 0.000000000001 <= after[s]
  {
    after, left, rounds := book, gross, 0;
    var adjustable := names;
    while left > EPS && adjustable != []
      invariant Refilling(book, names, gross, cap, after, left, adjustable, rounds)
      invariant names == [] ==> after == book && rounds == 0 && adjustable == []
      decreases left > EPS, |adjustable|
    {
      var increment := EvenShare(left, |adjustable|);
      RoundKeepsRefilling(book, names, gross, cap, after, left, adjustable, rounds, increment);
      after, left, adjustable := RefillRound(after, adjustable, increment, left, cap);
      rounds := rounds + 1;
    }
  }

  // ----- capped equal weights -----

  /** The last step of the source: fall back to equal weights when nothing was assigned, and
      scale down when more than `gross` was. */
  method Settle(book: Book, symbols: seq<Symbol>, gross: real, total: real) returns (settled: Book)
    requires total == Total(book)
    ensures total <= 0.0 ==>
      && (forall s :: s in settled <==> s in symbols)
      && forall s :: s in settled ==> settled[s] == gross / |symbols| as real
    ensures total <= 0.0 ==> settled == WeightsForSymbols(symbols, gross)
    ensures 0.0 < total <= gross + 0.000000000001 ==> settled == book
    ensures 0.0 < total && gross + 0.000000000001 < total ==>
      && settled.Keys == book.Keys && Total(settled) == gross
      && forall s :: s in book ==> settled[s] == book[s] * (gross / total)
  {
    if total <= 0.0 {
      return WeightsForSymbols(symbols, gross);
    }
    if total <= gross + EPS {
      return book;
    }
    var scale := gross / total;
    settled := map s | s in book :: book[s] * scale;
    ScaledTotal(book, settled, scale, total, gross);
  }

  lemma ScaledTotal(book: Book, settled: Book, scale: real, total: real, gross: real)
    requires settled.Keys == book.Keys && forall s :: s in book ==> settled[s] == book[s] * scale
    requires total == Total(book) && 0.0 < total && scale == gross / total
    ensures Total(settled) == gross
  {
    SumScaled(book.Keys, WeightIn(book), scale, WeightIn(settled));
    assert scale * total == gross;
  }

  /** The values of a book added up in any order. */
  method TotalOf(book: Book) returns (total: real)
    ensures total == Total(book)
  {
    total := 0.0;
    var rest := book.Keys;
    while rest != {}
      invariant rest <= book.Keys && total + Sum(rest, WeightIn(book)) == Total(book)
      decreases rest
    {
      var s :| s in rest;
      SumPick(rest, WeightIn(book), s);
      total := total + book[s];
      rest := rest - {s};
    }
  }

  /** From the equal start the cap is met at once: every name is at it, none is adjustable,
      and the refill loop does not run. */
  method CappedEqualWeights(symbols: seq<Symbol>, gross: real, cap: Option<real>) returns (book: Book)
    ensures book == CappedBook(symbols, gross, cap)
    ensures forall s :: s in book <==> s in symbols
    ensures forall s :: s in book ==>
      var share := gross / |symbols| as real;
      book[s] == if cap.Some? && 0.0 < cap.value < share then cap.value else share
  {
    if symbols == [] {
      return map[];
    }
    var n := |symbols|;
    var base := gross / n as real;
    if cap.None? || cap.value >= base {
      return EqualBook(symbols, base);
    }
    var start := EqualBook(symbols, Min(base, cap.value));
    var total := TotalOf(start);
    var adjustable := Filter(symbols, BelowCap(start, cap.value));
    FilterKeepsNone(symbols, BelowCap(start, cap.value));
    var refilled, left, rounds := Refill(start, adjustable, gross - total, cap.value);
    assert rounds == 0 && refilled == start;
    CappedStartFits(symbols, gross, cap.value);
    book := Settle(refilled, symbols, gross, total);
  }

  function BelowCap(book: Book, cap: real): Symbol -> bool {
    (s: Symbol) => s in book && book[s] < cap - EPS
  }

  lemma CappedStartFits(symbols: seq<Symbol>, gross: real, cap: real)
    requires symbols != [] && cap < gross / |symbols| as real
    ensures var total := Total(EqualBook(symbols, cap));
            && (cap <= 0.0 ==> total <= 0.0)
            && (0.0 < cap ==> 0.0 < total <= gross)
  {
    TotalOfEqualBook(symbols, cap);
    SizeOfNames(symbols);
    assert symbols[0] in Names(symbols);
    ProductBounds(|Names(symbols)| as real, |symbols| as real, cap, gross, Total(EqualBook(symbols, cap)));
  }

  lemma ProductBounds(m: real, n: real, cap: real, gross: real, total: real)
    requires 1.0 <= m <= n && cap < gross / n && total == m * cap
    ensures cap <= 0.0 ==> total <= 0.0
    ensures 0.0 < cap ==> 0.0 < total <= gross
  {
    var share := gross / n;
    assert n * share == gross;
    ProductIsNotNegative(n, share - cap);
    if 0.0 < cap {
      ProductIsNotNegative(n - m, cap);
      ProductIsNotNegative(m - 1.0, cap);
      assert m * cap == (m - 1.0) * cap + cap && n * cap == (n - m) * cap + m * cap;
    } else {
      ProductIsNotNegative(m, -cap);
    }
    assert n * (share - cap) == n * share - n * cap;
  }

  lemma ProductIsNotNegative(x: real, y: real)
    requires 0.0 <= x && 0.0 <= y
    ensures 0.0 <= x * y
  {
  }

  // ----- what the weights mean -----

  /** For different names: no weight exceeds a positive cap, and the book holds the whole
      gross exposure unless the cap leaves no room for it. */
  lemma CappedBookTotals(symbols: seq<Symbol>, gross: real, cap: Option<real>)
    requires symbols != [] && Distinct(symbols) && 0.0 < gross
    ensures var book := CappedBook(symbols, gross, cap);
            && book.Keys == Names(symbols)
            && (forall s :: s in book ==> 0.0 < book[s])
            && (cap.None? || cap.value <= 0.0 ==> Total(book) == gross)
            && (cap.Some? && 0.0 < cap.value ==>
                 && (forall s :: s in book ==> book[s] <= cap.value)
                 && Total(book) == Min(gross, |symbols| as real * cap.value))
  {
    var n := |symbols| as real;
    var w := CappedWeight(|symbols|, gross, cap);
    SizeOfNames(symbols);
    TotalOfEqualBook(symbols, w);
    ShareOf(gross, |symbols|);
    assert 0.0 < gross / n;
    if cap.Some? && 0.0 < cap.value {
      CompareShares(n, gross, cap.value);
    }
  }

  lemma CompareShares(n: real, gross: real, cap: real)
    requires 1.0 <= n
    ensures cap < gross / n <==> n * cap < gross
  {
    assert n * (gross / n) == gross;
    assert n * (gross / n - cap) == gross - n * cap;
  }

  /** The order in which names are listed does not matter. */
  lemma OrderOfNamesIsIrrelevant(symbols: seq<Symbol>, others: seq<Symbol>, gross: real, cap: Option<real>)
    requires multiset(symbols) == multiset(others)
    ensures CappedBook(symbols, gross, cap) == CappedBook(others, gross, cap)
  {
    assert |multiset(symbols)| == |multiset(others)|;
    forall s ensures s in symbols <==> s in others {
      assert s in multiset(symbols) <==> s in multiset(others);
    }
  }
}
