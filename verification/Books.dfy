/** Ticker symbols, weight books over them, and sums over sets of symbols. */
module Books {

  /** Ticker symbols, numbered in alphabetical order. */
  type Symbol = nat

  /** Weights by symbol; a symbol that is not a key has weight zero. */
  type Book = map<Symbol, real>

  function Weight(book: Book, s: Symbol): real {
    if s in book then book[s] else 0.0
  }

  function WeightIn(book: Book): Symbol -> real {
    (s: Symbol) => Weight(book, s)
  }

  /** A product, named: equal factors then give equal products without arithmetic. */
  function Times(x: real, y: real): real {
    x * y
  }

  // ----- sums -----

  /** The sum over a set, in no particular order. */
  ghost function Sum(S: set<Symbol>, f: Symbol -> real): real {
    if S == {} then 0.0
    else
      var x :| x in S;
      f(x) + Sum(S - {x}, f)
  }

  lemma {:induction false} SumPick(S: set<Symbol>, f: Symbol -> real, x: Symbol)
    requires x in S
    ensures Sum(S, f) == f(x) + Sum(S - {x}, f)
    decreases |S|
  {
    var y :| y in S && Sum(S, f) == f(y) + Sum(S - {y}, f);
    if y != x {
      SumPick(S - {y}, f, x);
      SumPick(S - {x}, f, y);
      assert S - {y} - {x} == S - {x} - {y};
    }
  }

  lemma SumAdd(S: set<Symbol>, x: Symbol, f: Symbol -> real)
    requires x !in S
    ensures Sum(S + {x}, f) == Sum(S, f) + f(x)
  {
    SumPick(S + {x}, f, x);
    assert S + {x} - {x} == S;
  }

  lemma {:induction false} SumAgrees(S: set<Symbol>, f: Symbol -> real, g: Symbol -> real)
    requires forall s :: s in S ==> f(s) == g(s)
    ensures Sum(S, f) == Sum(S, g)
  {
    if x :| x in S {
      SumPick(S, f, x);
      SumPick(S, g, x);
      SumAgrees(S - {x}, f, g);
    }
  }

  lemma {:induction false} SumAtMost(S: set<Symbol>, f: Symbol -> real, g: Symbol -> real)
    requires forall s :: s in S ==> f(s) <= g(s)
    ensures Sum(S, f) <= Sum(S, g)
  {
    if x :| x in S {
      SumPick(S, f, x);
      SumPick(S, g, x);
      SumAtMost(S - {x}, f, g);
    }
  }

  lemma {:induction false} SumOfSums(S: set<Symbol>, f: Symbol -> real, g: Symbol -> real, h: Symbol -> real)
    requires forall s :: s in S ==> h(s) == f(s) + g(s)
    ensures Sum(S, h) == Sum(S, f) + Sum(S, g)
  {
    if x :| x in S {
      SumPick(S, f, x);
      SumPick(S, g, x);
      SumPick(S, h, x);
      SumOfSums(S - {x}, f, g, h);
    }
  }

  lemma {:induction false} SumScaled(S: set<Symbol>, f: Symbol -> real, c: real, g: Symbol -> real)
    requires forall s :: s in S ==> g(s) == c * f(s)
    ensures Sum(S, g) == c * Sum(S, f)
  {
    if x :| x in S {
      SumPick(S, f, x);
      SumPick(S, g, x);
      SumScaled(S - {x}, f, c, g);
      assert c * (f(x) + Sum(S - {x}, f)) == c * f(x) + c * Sum(S - {x}, f);
    }
  }

  lemma {:induction false} SumOfConstant(S: set<Symbol>, f: Symbol -> real, c: real)
    requires forall s :: s in S ==> f(s) == c
    ensures Sum(S, f) == |S| as real * c
  {
    if x :| x in S {
      SumPick(S, f, x);
      SumOfConstant(S - {x}, f, c);
      assert (|S - {x}| as real + 1.0) * c == |S - {x}| as real * c + c;
    }
  }

  lemma {:induction false} SumOfDisjoint(S: set<Symbol>, T: set<Symbol>, f: Symbol -> real)
    requires S !! T
    ensures Sum(S + T, f) == Sum(S, f) + Sum(T, f)
    decreases |T|
  {
    if x :| x in T {
      SumOfDisjoint(S, T - {x}, f);
      SumAdd(S + (T - {x}), x, f);
      SumPick(T, f, x);
      assert S + (T - {x}) + {x} == S + T;
    } else {
      assert S + T == S;
    }
  }

  lemma {:induction false} SumIsZero(S: set<Symbol>, f: Symbol -> real)
    requires forall s :: s in S ==> f(s) == 0.0
    ensures Sum(S, f) == 0.0
  {
    if x :| x in S {
      SumPick(S, f, x);
      SumIsZero(S - {x}, f);
    }
  }

  /** Symbols on which the summand is zero do not count. */
  lemma SumWithZeros(S: set<Symbol>, T: set<Symbol>, f: Symbol -> real)
    requires S <= T && forall s :: s in T - S ==> f(s) == 0.0
    ensures Sum(T, f) == Sum(S, f)
  {
    var rest := T - S;
    SumOfDisjoint(S, rest, f);
    assert S + rest == T;
    SumIsZero(rest, f);
  }

  // ----- totals -----

  ghost function Total(book: Book): real {
    Sum(book.Keys, WeightIn(book))
  }

  lemma TotalAfterUpdate(book: Book, s: Symbol, w: real)
    ensures Total(book[s := w]) == Total(book) - Weight(book, s) + w
  {
    var after := book[s := w];
    var rest := book.Keys - {s};
    assert after.Keys == rest + {s};
    SumAdd(rest, s, WeightIn(after));
    SumAgrees(rest, WeightIn(after), WeightIn(book));
    if s in book {
      SumPick(book.Keys, WeightIn(book), s);
    } else {
      assert rest == book.Keys;
    }
  }

  function Names(symbols: seq<Symbol>): set<Symbol> {
    set s | s in symbols
  }

  predicate Distinct(symbols: seq<Symbol>) {
    forall i, j :: 0 <= i < j < |symbols| ==> symbols[i] != symbols[j]
  }

  lemma {:induction false} SizeOfNames(symbols: seq<Symbol>)
    ensures |Names(symbols)| <= |symbols|
    ensures Distinct(symbols) ==> |Names(symbols)| == |symbols|
  {
    if symbols != [] {
      var front, last := symbols[..|symbols| - 1], symbols[|symbols| - 1];
      SizeOfNames(front);
      assert symbols == front + [last];
      assert Names(symbols) == Names(front) + {last};
      if Distinct(symbols) {
        assert last !in front;
      }
    }
  }

  /** Every one of the symbols, at the same weight. */
  function EqualBook(symbols: seq<Symbol>, w: real): Book {
    map s | s in symbols :: w
  }

  lemma TotalOfEqualBook(symbols: seq<Symbol>, w: real)
    ensures Total(EqualBook(symbols, w)) == |Names(symbols)| as real * w
  {
    var book := EqualBook(symbols, w);
    assert book.Keys == Names(symbols);
    SumOfConstant(book.Keys, WeightIn(book), w);
  }
}
