/** Options, results, filtering, sorting and counting over sequences. */
module Sequences {

  datatype Option<+T> = None | Some(value: T)

  datatype Result<+T, +E> = Success(value: T) | Failure(error: E)

  function Filter<T(!new)>(s: seq<T>, p: T -> bool): (r: seq<T>)
    ensures forall x :: x in r <==> x in s && p(x)
  {
    if s == [] then []
    else
      var last := s[|s| - 1];
      Filter(s[..|s| - 1], p) + if p(last) then [last] else []
  }

  function Map<T, U>(s: seq<T>, f: T -> U): (r: seq<U>)
    ensures |r| == |s|
    ensures forall i :: 0 <= i < |s| ==> r[i] == f(s[i])
  {
    seq(|s|, i requires 0 <= i < |s| => f(s[i]))
  }

  lemma MapConcat<T, U>(s: seq<T>, t: seq<T>, f: T -> U)
    ensures Map(s + t, f) == Map(s, f) + Map(t, f)
  {
  }

  lemma FilterStep<T(!new)>(s: seq<T>, i: nat, p: T -> bool)
    requires i < |s|
    ensures Filter(s[..i + 1], p) == Filter(s[..i], p) + if p(s[i]) then [s[i]] else []
  {
    assert s[..i + 1][..i] == s[..i];
  }

  lemma {:induction false} FilterConcat<T(!new)>(s: seq<T>, t: seq<T>, p: T -> bool)
    ensures Filter(s + t, p) == Filter(s, p) + Filter(t, p)
  {
    if t == [] {
      assert s + t == s;
    } else {
      assert (s + t)[..|s + t| - 1] == s + t[..|t| - 1];
      FilterConcat(s, t[..|t| - 1], p);
    }
  }

  lemma {:induction false} FilterKeepsAll<T(!new)>(s: seq<T>, p: T -> bool)
    requires forall x :: x in s ==> p(x)
    ensures Filter(s, p) == s
  {
    if s != [] {
      FilterKeepsAll(s[..|s| - 1], p);
      assert s == s[..|s| - 1] + [s[|s| - 1]];
    }
  }

  lemma FilterKeepsNone<T(!new)>(s: seq<T>, p: T -> bool)
    requires forall x :: x in s ==> !p(x)
    ensures Filter(s, p) == []
  {
    if r :| r in Filter(s, p) {
      assert false;
    }
    assert Filter(s, p) != [] ==> Filter(s, p)[0] in Filter(s, p);
  }

  /** Filtering keeps the order of what it keeps. */
  lemma {:induction false} FilterKeepsOrder<T(!new)>(s: seq<T>, p: T -> bool, leq: (T, T) -> bool)
    requires SortedBy(s, leq)
    ensures SortedBy(Filter(s, p), leq)
  {
    if s != [] {
      var n := |s| - 1;
      var f := Filter(s[..n], p);
      FilterKeepsOrder(s[..n], p, leq);
      forall i | 0 <= i < |f| ensures leq(f[i], s[n]) {
        assert f[i] in s[..n];
      }
    }
  }

  lemma {:induction false} FilterCounts<T(!new)>(s: seq<T>, p: T -> bool, x: T)
    ensures multiset(Filter(s, p))[x] == if p(x) then multiset(s)[x] else 0
  {
    if s != [] {
      assert s == s[..|s| - 1] + [s[|s| - 1]];
      FilterCounts(s[..|s| - 1], p, x);
    }
  }

  function Positions<T(!new)>(s: seq<T>, p: T -> bool): (at: set<nat>)
    ensures forall i: nat :: i in at <==> i < |s| && p(s[i])
  {
    set i: nat | i < |s| && p(s[i])
  }

  lemma OneMorePosition<T(!new)>(s: seq<T>, p: T -> bool)
    requires s != []
    ensures |Positions(s, p)| == |Positions(s[..|s| - 1], p)| + if p(s[|s| - 1]) then 1 else 0
  {
    var before := Positions(s[..|s| - 1], p);
    if p(s[|s| - 1]) {
      assert Positions(s, p) == before + {|s| - 1};
    } else {
      assert Positions(s, p) == before;
    }
  }

  lemma {:induction false} FilterSize<T(!new)>(s: seq<T>, p: T -> bool)
    ensures |Filter(s, p)| == |Positions(s, p)|
  {
    if s == [] {
      assert Positions(s, p) == {};
    } else {
      FilterSize(s[..|s| - 1], p);
      OneMorePosition(s, p);
    }
  }

  /** A permutation keeps every filtered part a permutation. */
  lemma FilterPermutation<T(!new)>(s: seq<T>, t: seq<T>, p: T -> bool)
    requires multiset(s) == multiset(t)
    ensures multiset(Filter(s, p)) == multiset(Filter(t, p))
  {
    forall x ensures multiset(Filter(s, p))[x] == multiset(Filter(t, p))[x] {
      FilterCounts(s, p, x);
      FilterCounts(t, p, x);
    }
  }

  lemma MapAround<T, U>(s: seq<T>, x: T, t: seq<T>, f: T -> U)
    ensures multiset(Map(s + [x] + t, f)) == multiset(Map(s + t, f)) + multiset{f(x)}
  {
    assert Map(s + [x] + t, f) == Map(s, f) + [f(x)] + Map(t, f);
    assert Map(s + t, f) == Map(s, f) + Map(t, f);
  }

  lemma SplitAt<T>(s: seq<T>, x: T) returns (front: seq<T>, back: seq<T>)
    requires x in multiset(s)
    ensures s == front + [x] + back
    ensures multiset(front + back) == multiset(s) - multiset{x}
  {
    var k :| 0 <= k < |s| && s[k] == x;
    front, back := s[..k], s[k + 1..];
    assert s == front + [x] + back;
  }

  lemma {:induction false} MapPermutation<T, U>(s: seq<T>, t: seq<T>, f: T -> U)
    requires multiset(s) == multiset(t)
    ensures multiset(Map(s, f)) == multiset(Map(t, f))
    decreases |s|
  {
    if s == [] {
      assert |multiset(t)| == 0;
    } else {
      var x := s[0];
      assert x in multiset(s);
      var f1, b1 := SplitAt(s, x);
      var f2, b2 := SplitAt(t, x);
      assert |f1 + b1| < |s|;
      MapPermutation(f1 + b1, f2 + b2, f);
      MapAround(f1, x, b1, f);
      MapAround(f2, x, b2, f);
    }
  }

  // ----- sorting -----

  ghost predicate TotalPreorder<T(!new)>(leq: (T, T) -> bool) {
    && (forall a, b :: leq(a, b) || leq(b, a))
    && (forall a, b, c :: leq(a, b) && leq(b, c) ==> leq(a, c))
  }

  ghost predicate SortedBy<T>(s: seq<T>, leq: (T, T) -> bool) {
    forall i, j :: 0 <= i < j < |s| ==> leq(s[i], s[j])
  }

  /** Inserts behind every element that is not greater, so equal elements keep their order. */
  function InsertSorted<T(!new)>(s: seq<T>, x: T, leq: (T, T) -> bool): (r: seq<T>)
    ensures |r| == |s| + 1
  {
    if s == [] || leq(s[|s| - 1], x) then s + [x]
    else InsertSorted(s[..|s| - 1], x, leq) + [s[|s| - 1]]
  }

  lemma {:induction false} InsertSortedProperties<T(!new)>(s: seq<T>, x: T, leq: (T, T) -> bool)
    requires TotalPreorder(leq) && SortedBy(s, leq)
    ensures multiset(InsertSorted(s, x, leq)) == multiset(s) + multiset{x}
    ensures forall y :: y in InsertSorted(s, x, leq) ==> y in s || y == x
    ensures SortedBy(InsertSorted(s, x, leq), leq)
  {
    if s == [] || leq(s[|s| - 1], x) {
      forall i | 0 <= i < |s| ensures leq(s[i], x) {
        assert leq(s[i], s[|s| - 1]) || i == |s| - 1;
      }
    } else {
      var n := |s| - 1;
      var front := InsertSorted(s[..n], x, leq);
      InsertSortedProperties(s[..n], x, leq);
      assert s == s[..n] + [s[n]];
      forall i | 0 <= i < |front| ensures leq(front[i], s[n]) {
        assert front[i] in front;
      }
    }
  }

  /** A stable sort; stands for Python's `sorted` and pandas' `sort_values`. */
  function SortBy<T(!new)>(s: seq<T>, leq: (T, T) -> bool): (r: seq<T>)
    requires TotalPreorder(leq)
    ensures SortedBy(r, leq) && multiset(r) == multiset(s) && |r| == |s|
  {
    if s == [] then []
    else
      var n := |s| - 1;
      var front := SortBy(s[..n], leq);
      InsertSortedProperties(front, s[n], leq);
      assert s == s[..n] + [s[n]];
      InsertSorted(front, s[n], leq)
  }

  lemma SameMembers<T(!new)>(s: seq<T>, t: seq<T>)
    requires multiset(s) == multiset(t)
    ensures forall x :: x in s <==> x in t
  {
    forall x ensures x in s <==> x in t {
      assert x in multiset(s) <==> x in multiset(t);
    }
  }

  predicate Ascending(s: seq<int>) {
    forall i, j :: 0 <= i < j < |s| ==> s[i] <= s[j]
  }

  predicate StrictlyAscending(s: seq<int>) {
    forall i, j :: 0 <= i < j < |s| ==> s[i] < s[j]
  }

  function WithoutRepeats(s: seq<int>): (u: seq<int>)
    requires Ascending(s)
    ensures StrictlyAscending(u) && forall d :: d in u <==> d in s
  {
    if s == [] then []
    else
      var n := |s| - 1;
      var u := WithoutRepeats(s[..n]);
      assert s == s[..n] + [s[n]];
      assert forall i :: 0 <= i < |u| ==> u[i] in s[..n];
      if s[n] in u then u else u + [s[n]]
  }

  /** The members in ascending order, each once. */
  function SortedWithoutRepeats(s: seq<int>): (u: seq<int>)
    ensures StrictlyAscending(u) && forall d :: d in u <==> d in s
  {
    var sorted := SortBy(s, (a: int, b: int) => a <= b);
    SameMembers(sorted, s);
    WithoutRepeats(sorted)
  }

  lemma DropLast<T>(s: seq<T>)
    requires s != []
    ensures multiset(s[..|s| - 1]) == multiset(s) - multiset{s[|s| - 1]}
  {
    assert s == s[..|s| - 1] + [s[|s| - 1]];
  }

  lemma LastIsGreatest(s: seq<int>, x: int)
    requires Ascending(s) && x in multiset(s)
    ensures s != [] && x <= s[|s| - 1]
  {
    assert x in s;
  }

  /** Ascending sequences with the same members are equal. */
  lemma {:induction false} AscendingPermutationsAreEqual(s: seq<int>, t: seq<int>)
    requires Ascending(s) && Ascending(t) && multiset(s) == multiset(t)
    ensures s == t
  {
    if s != [] || t != [] {
      SameLast(s, t);
      SameFront(s, t);
      AscendingPermutationsAreEqual(s[..|s| - 1], t[..|t| - 1]);
      EqualInParts(s, t);
    }
  }

  lemma SameFront<T>(s: seq<T>, t: seq<T>)
    requires multiset(s) == multiset(t) && s != [] && t != [] && s[|s| - 1] == t[|t| - 1]
    ensures multiset(s[..|s| - 1]) == multiset(t[..|t| - 1])
  {
    DropLast(s);
    DropLast(t);
  }

  lemma EqualInParts<T>(s: seq<T>, t: seq<T>)
    requires s != [] && t != [] && s[|s| - 1] == t[|t| - 1] && s[..|s| - 1] == t[..|t| - 1]
    ensures s == t
  {
    assert s == s[..|s| - 1] + [s[|s| - 1]];
    assert t == t[..|t| - 1] + [t[|t| - 1]];
  }

  lemma SameLast(s: seq<int>, t: seq<int>)
    requires Ascending(s) && Ascending(t) && multiset(s) == multiset(t) && (s != [] || t != [])
    ensures |s| == |t| > 0 && s[|s| - 1] == t[|t| - 1]
  {
    assert |multiset(s)| == |multiset(t)|;
    assert s[|s| - 1] in multiset(s) && t[|t| - 1] in multiset(t);
    LastIsGreatest(s, t[|t| - 1]);
    LastIsGreatest(t, s[|s| - 1]);
  }

  // ----- counting -----

  /** A set that maps one-to-one into `0..k` has at most `k` members. */
  lemma {:induction false} Pigeonhole<T>(I: set<T>, f: map<T, nat>, k: nat)
    requires forall i :: i in I ==> i in f && f[i] < k
    requires forall i, j :: i in I && j in I && f[i] == f[j] ==> i == j
    ensures |I| <= k
    decreases k
  {
    if k == 0 {
      if i :| i in I {
        assert false;
      }
    } else if i :| i in I && f[i] == k - 1 {
      Pigeonhole(I - {i}, f, k - 1);
    } else {
      Pigeonhole(I, f, k - 1);
    }
  }

  /** The numbers below `n`. */
  function Below(n: nat): (s: set<nat>)
    ensures |s| == n && forall i: nat :: i in s <==> i < n
  {
    if n == 0 then {} else Below(n - 1) + {n - 1}
  }
}
