/** Sequence vocabulary shared by every component: filtering, concatenation and
    the stable sort that Python's `sorted` and JavaScript's `sort` both promise. */
module Sequences {

  datatype Option<+T> = None | Some(value: T)

  datatype Result<+T, +E> = Ok(value: T) | Err(error: E)

  function Filter<T>(p: T -> bool, xs: seq<T>): seq<T> {
    if xs == [] then []
    else if p(xs[0]) then [xs[0]] + Filter(p, xs[1..])
    else Filter(p, xs[1..])
  }

  lemma {:induction false} FilterMembers<T(!new)>(p: T -> bool, xs: seq<T>)
    ensures forall x :: x in Filter(p, xs) <==> x in xs && p(x)
    ensures |Filter(p, xs)| <= |xs|
  {
    if xs != [] {
      FilterMembers(p, xs[1..]);
      assert xs == [xs[0]] + xs[1..];
    }
  }

  lemma {:induction false} FilterConcat<T>(p: T -> bool, xs: seq<T>, ys: seq<T>)
    ensures Filter(p, xs + ys) == Filter(p, xs) + Filter(p, ys)
  {
    if xs == [] {
      assert xs + ys == ys;
    } else {
      assert (xs + ys)[1..] == xs[1..] + ys;
      FilterConcat(p, xs[1..], ys);
    }
  }

  lemma FilterSnoc<T>(p: T -> bool, xs: seq<T>, x: T)
    ensures Filter(p, xs + [x]) == if p(x) then Filter(p, xs) + [x] else Filter(p, xs)
  {
    FilterConcat(p, xs, [x]);
    assert Filter(p, [x]) == if p(x) then [x] + Filter(p, []) else Filter(p, []);
  }

  lemma Reassociate<T>(a: seq<T>, b: seq<T>, c: seq<T>)
    ensures a + (b + c) == (a + b) + c
  {}

  lemma {:induction false} FilterCompose<T>(p: T -> bool, q: T -> bool, r: T -> bool, xs: seq<T>)
    requires forall x :: x in xs ==> r(x) == (p(x) && q(x))
    ensures Filter(p, Filter(q, xs)) == Filter(r, xs)
  {
    if xs != [] {
      assert xs[0] in xs;
      FilterCompose(p, q, r, xs[1..]);
      if q(xs[0]) {
        var f := Filter(q, xs[1..]);
        assert ([xs[0]] + f)[1..] == f;
      }
    }
  }

  lemma {:induction false} FilterAgree<T>(p: T -> bool, q: T -> bool, xs: seq<T>)
    requires forall x :: x in xs ==> p(x) == q(x)
    ensures Filter(p, xs) == Filter(q, xs)
  {
    if xs != [] {
      assert xs[0] in xs;
      FilterAgree(p, q, xs[1..]);
    }
  }

  lemma {:induction false} FilterAll<T>(p: T -> bool, xs: seq<T>)
    requires forall x :: x in xs ==> p(x)
    ensures Filter(p, xs) == xs
  {
    if xs != [] {
      assert xs[0] in xs;
      FilterAll(p, xs[1..]);
    }
  }

  /** The first n elements, or all of them. */
  function Take<T>(n: int, xs: seq<T>): seq<T> {
    if n <= 0 then [] else if |xs| <= n then xs else xs[..n]
  }

  function Concat<T>(xss: seq<seq<T>>): seq<T> {
    if xss == [] then [] else xss[0] + Concat(xss[1..])
  }

  lemma {:induction false} ConcatAppend<T>(xss: seq<seq<T>>, yss: seq<seq<T>>)
    ensures Concat(xss + yss) == Concat(xss) + Concat(yss)
  {
    if xss == [] {
      assert xss + yss == yss;
    } else {
      assert (xss + yss)[1..] == xss[1..] + yss;
      ConcatAppend(xss[1..], yss);
    }
  }

  lemma ConcatSnoc<T>(xss: seq<seq<T>>, ys: seq<T>)
    ensures Concat(xss + [ys]) == Concat(xss) + ys
  {
    ConcatAppend(xss, [ys]);
    assert Concat([ys]) == ys;
  }

  ghost predicate Distinct<T>(xs: seq<T>) {
    forall i, j :: 0 <= i < j < |xs| ==> xs[i] != xs[j]
  }

  /** First occurrences, in order: `dict.fromkeys` and `new Set`. */
  function Dedup<T(==, !new)>(xs: seq<T>): (r: seq<T>)
    ensures Distinct(r)
    ensures forall x :: x in r <==> x in xs
  {
    if xs == [] then [] else
      var r := Dedup(xs[..|xs| - 1]);
      var x := xs[|xs| - 1];
      assert xs == xs[..|xs| - 1] + [x];
      if x in r then r else r + [x]
  }

  lemma {:induction false} DedupDistinct<T(!new)>(xs: seq<T>)
    requires Distinct(xs)
    ensures Dedup(xs) == xs
  {
    if xs != [] {
      DedupDistinct(xs[..|xs| - 1]);
      assert xs == xs[..|xs| - 1] + [xs[|xs| - 1]];
    }
  }

  /** a occurs before any b does. */
  ghost predicate Earlier<T>(xs: seq<T>, a: T, b: T) {
    exists k :: 0 <= k < |xs| && xs[k] == a && forall m :: 0 <= m < |xs| && xs[m] == b ==> k < m
  }

  /** One more element at the end changes nothing, unless it is the first a. */
  lemma EarlierMore<T>(xs: seq<T>, x: T, a: T, b: T)
    ensures Earlier(xs + [x], a, b) ==> Earlier(xs, a, b) || (x == a && a != b && b !in xs)
  {
    var more := xs + [x];
    if k :| 0 <= k < |more| && more[k] == a && forall m :: 0 <= m < |more| && more[m] == b ==> k < m {
      assert forall m :: 0 <= m < |xs| ==> more[m] == xs[m];
      if k < |xs| { assert xs[k] == a; }
    }
  }

  /** The members stand in the order of their first occurrences. */
  lemma {:induction false} DedupOrder<T(!new)>(xs: seq<T>)
    ensures forall i, j :: 0 <= i < j < |Dedup(xs)| ==> Earlier(xs, Dedup(xs)[i], Dedup(xs)[j])
  {
    if xs != [] {
      var init, x, r := xs[..|xs| - 1], xs[|xs| - 1], Dedup(xs[..|xs| - 1]);
      DedupOrder(init);
      assert xs == init + [x];
      forall i, j | 0 <= i < j < |Dedup(xs)| ensures Earlier(xs, Dedup(xs)[i], Dedup(xs)[j]) {
        EarlierSnoc(init, x, r, i, j);
      }
    }
  }

  lemma EarlierSnoc<T(!new)>(init: seq<T>, x: T, r: seq<T>, i: int, j: int)
    requires r == Dedup(init) && (forall i, j :: 0 <= i < j < |r| ==> Earlier(init, r[i], r[j]))
    requires 0 <= i < j < |r| || (0 <= i < |r| == j && x !in r)
    ensures Earlier(init + [x], r[i], if j < |r| then r[j] else x)
  {
    var xs, a, b := init + [x], r[i], if j < |r| then r[j] else x;
    if j < |r| {
      assert Earlier(init, a, b);
      var k :| 0 <= k < |init| && init[k] == a && forall m :: 0 <= m < |init| && init[m] == b ==> k < m;
      assert xs[k] == a;
      forall m | 0 <= m < |xs| && xs[m] == b ensures k < m {
        if m < |init| { assert init[m] == b; }
      }
    } else {
      assert a in init && x !in init;
      var k :| 0 <= k < |init| && init[k] == a;
      assert xs[k] == a;
      assert forall m :: 0 <= m < |init| ==> xs[m] == init[m] && init[m] in init;
    }
  }

  lemma {:induction false} DistinctCount<T>(xs: seq<T>, x: T)
    ensures Distinct(xs) ==> multiset(xs)[x] <= 1
    ensures x in xs <==> multiset(xs)[x] > 0
  {
    if xs != [] {
      assert xs == [xs[0]] + xs[1..];
      assert Distinct(xs) ==> Distinct(xs[1..]);
      DistinctCount(xs[1..], x);
      if Distinct(xs) && x == xs[0] {
        assert x !in xs[1..];
      }
    }
  }

  lemma DistinctSameMembers<T(!new)>(xs: seq<T>, ys: seq<T>)
    requires Distinct(xs) && Distinct(ys)
    requires forall x :: x in xs <==> x in ys
    ensures multiset(xs) == multiset(ys)
  {
    forall x ensures multiset(xs)[x] == multiset(ys)[x] {
      DistinctCount(xs, x);
      DistinctCount(ys, x);
    }
  }

  lemma {:induction false} DistinctByMultiset<T>(xs: seq<T>, ys: seq<T>)
    requires Distinct(xs) && multiset(xs) == multiset(ys)
    ensures Distinct(ys)
  {
    forall i, j | 0 <= i < j < |ys| ensures ys[i] != ys[j] {
      DistinctCount(xs, ys[i]);
      assert ys == ys[..j] + [ys[j]] + ys[j + 1..];
      assert ys[i] in ys[..j];
      assert multiset(ys) == multiset(ys[..j]) + multiset{ys[j]} + multiset(ys[j + 1..]);
      assert multiset(ys[..j])[ys[i]] > 0;
    }
  }

  lemma {:induction false} FilterDistinct<T(!new)>(p: T -> bool, xs: seq<T>)
    requires Distinct(xs)
    ensures Distinct(Filter(p, xs))
  {
    if xs != [] {
      FilterDistinct(p, xs[1..]);
      FilterMembers(p, xs[1..]);
      assert xs[0] !in xs[1..];
    }
  }

  lemma {:induction false} FilterCount<T>(p: T -> bool, xs: seq<T>, x: T)
    ensures multiset(Filter(p, xs))[x] == if p(x) then multiset(xs)[x] else 0
  {
    if xs != [] {
      FilterCount(p, xs[1..], x);
      assert xs == [xs[0]] + xs[1..];
    }
  }

  lemma FilterPermutes<T(!new)>(p: T -> bool, xs: seq<T>, ys: seq<T>)
    requires multiset(xs) == multiset(ys)
    ensures multiset(Filter(p, xs)) == multiset(Filter(p, ys))
  {
    forall x ensures multiset(Filter(p, xs))[x] == multiset(Filter(p, ys))[x] {
      FilterCount(p, xs, x);
      FilterCount(p, ys, x);
    }
  }

  lemma {:induction false} FilterNone<T>(p: T -> bool, xs: seq<T>)
    requires forall x :: x in xs ==> !p(x)
    ensures Filter(p, xs) == []
  {
    if xs != [] {
      assert xs[0] in xs;
      FilterNone(p, xs[1..]);
    }
  }

  lemma {:induction false} FilterUnion<T>(p: T -> bool, q: T -> bool, r: T -> bool, xs: seq<T>)
    requires forall x :: x in xs ==> (r(x) <==> p(x) || q(x)) && !(p(x) && q(x))
    ensures multiset(Filter(r, xs)) == multiset(Filter(p, xs)) + multiset(Filter(q, xs))
  {
    if xs != [] {
      assert xs[0] in xs;
      FilterUnion(p, q, r, xs[1..]);
    }
  }

  lemma {:induction false} FilterSplit<T>(p: T -> bool, q: T -> bool, xs: seq<T>)
    requires forall x :: x in xs ==> q(x) == !p(x)
    ensures |Filter(p, xs)| + |Filter(q, xs)| == |xs|
  {
    if xs != [] {
      assert xs[0] in xs;
      FilterSplit(p, q, xs[1..]);
    }
  }

  lemma DistinctSnoc<T>(xs: seq<T>, x: T)
    requires Distinct(xs + [x])
    ensures Distinct(xs) && x !in xs
  {
    forall i | 0 <= i < |xs| ensures xs[i] != x {
      assert (xs + [x])[i] != (xs + [x])[|xs|];
    }
    forall i, j | 0 <= i < j < |xs| ensures xs[i] != xs[j] {
      assert (xs + [x])[i] != (xs + [x])[j];
    }
  }

  // ----- stable sort -----

  ghost predicate TotalPreorder<T(!new)>(leq: (T, T) -> bool) {
    && (forall a, b :: leq(a, b) || leq(b, a))
    && (forall a, b, c :: leq(a, b) && leq(b, c) ==> leq(a, c))
  }

  ghost predicate Sorted<T>(leq: (T, T) -> bool, xs: seq<T>) {
    forall i, j :: 0 <= i < j < |xs| ==> leq(xs[i], xs[j])
  }

  /** Places x before the first element it does not exceed, so that x stays
      ahead of the equal elements that came after it. */
  function Insert<T>(leq: (T, T) -> bool, x: T, ys: seq<T>): seq<T> {
    if ys == [] || leq(x, ys[0]) then [x] + ys
    else [ys[0]] + Insert(leq, x, ys[1..])
  }

  function StableSort<T>(leq: (T, T) -> bool, xs: seq<T>): seq<T> {
    if xs == [] then [] else Insert(leq, xs[0], StableSort(leq, xs[1..]))
  }

  lemma {:induction false} InsertPermutes<T>(leq: (T, T) -> bool, x: T, ys: seq<T>)
    ensures multiset(Insert(leq, x, ys)) == multiset{x} + multiset(ys)
  {
    if ys != [] && !leq(x, ys[0]) {
      InsertPermutes(leq, x, ys[1..]);
      assert ys == [ys[0]] + ys[1..];
    }
  }

  lemma {:induction false} SortPermutes<T>(leq: (T, T) -> bool, xs: seq<T>)
    ensures multiset(StableSort(leq, xs)) == multiset(xs)
  {
    if xs != [] {
      SortPermutes(leq, xs[1..]);
      InsertPermutes(leq, xs[0], StableSort(leq, xs[1..]));
      assert xs == [xs[0]] + xs[1..];
    }
  }

  lemma SortMembers<T(!new)>(leq: (T, T) -> bool, xs: seq<T>)
    ensures forall x :: x in StableSort(leq, xs) <==> x in xs
    ensures |StableSort(leq, xs)| == |xs|
  {
    SortPermutes(leq, xs);
    SameMultiset(StableSort(leq, xs), xs);
  }

  lemma SameMultiset<T(!new)>(xs: seq<T>, ys: seq<T>)
    requires multiset(xs) == multiset(ys)
    ensures forall x :: x in xs <==> x in ys
    ensures |xs| == |ys|
  {
    forall x ensures x in xs <==> x in ys {
      assert x in multiset(xs) <==> x in multiset(ys);
    }
    assert |multiset(xs)| == |multiset(ys)|;
  }

  lemma {:induction false} InsertSorted<T(!new)>(leq: (T, T) -> bool, x: T, ys: seq<T>)
    requires TotalPreorder(leq) && Sorted(leq, ys)
    ensures Sorted(leq, Insert(leq, x, ys))
  {
    if ys != [] && leq(x, ys[0]) {
      forall y | y in ys ensures leq(x, y) {
        assert leq(ys[0], ys[0]);
      }
    } else if ys != [] {
      InsertSorted(leq, x, ys[1..]);
      InsertPermutes(leq, x, ys[1..]);
      SameMultiset(Insert(leq, x, ys[1..]), [x] + ys[1..]);
      var r := Insert(leq, x, ys[1..]);
      forall j | 0 <= j < |r| ensures leq(ys[0], r[j]) {
        assert r[j] in [x] + ys[1..];
      }
    }
  }

  lemma {:induction false} SortSorts<T(!new)>(leq: (T, T) -> bool, xs: seq<T>)
    requires TotalPreorder(leq)
    ensures Sorted(leq, StableSort(leq, xs))
  {
    if xs != [] {
      SortSorts(leq, xs[1..]);
      InsertSorted(leq, xs[0], StableSort(leq, xs[1..]));
    }
  }

  /** ys with the first element of xs taken out, as two pieces. */
  lemma TakeOut<T(!new)>(xs: seq<T>, ys: seq<T>) returns (a: seq<T>, b: seq<T>)
    requires xs != [] && multiset(xs) == multiset(ys)
    ensures ys == a + [xs[0]] + b && multiset(xs[1..]) == multiset(a + b)
  {
    SameMultiset(xs, ys);
    assert xs[0] in ys;
    var k :| 0 <= k < |ys| && ys[k] == xs[0];
    a, b := ys[..k], ys[k + 1..];
    assert ys == a + [xs[0]] + b;
    TailMultiset(xs);
    WithoutOne(a, xs[0], b);
  }

  lemma WithoutOne<T>(a: seq<T>, x: T, b: seq<T>)
    ensures multiset(a + b) == multiset(a + [x] + b) - multiset{x}
  {
    assert multiset(a + [x] + b) == multiset(a) + multiset{x} + multiset(b);
  }

  lemma FilterCons<T>(p: T -> bool, x: T, xs: seq<T>)
    ensures Filter(p, [x] + xs) == if p(x) then [x] + Filter(p, xs) else Filter(p, xs)
  {
    assert ([x] + xs)[1..] == xs;
  }

  lemma SortCons<T>(leq: (T, T) -> bool, x: T, xs: seq<T>)
    ensures StableSort(leq, [x] + xs) == Insert(leq, x, StableSort(leq, xs))
  {
    assert ([x] + xs)[1..] == xs;
  }

  lemma {:induction false} FilterInsert<T(!new)>(leq: (T, T) -> bool, p: T -> bool, x: T, ys: seq<T>)
    requires TotalPreorder(leq) && Sorted(leq, ys)
    ensures Filter(p, Insert(leq, x, ys)) ==
            if p(x) then Insert(leq, x, Filter(p, ys)) else Filter(p, ys)
  {
    if ys == [] {
    } else if leq(x, ys[0]) {
      FilterCons(p, x, ys);
      var f := Filter(p, ys);
      if f != [] {
        FilterMembers(p, ys);
        assert f[0] in ys && leq(ys[0], ys[0]);
        assert leq(x, f[0]);
      }
    } else {
      var rest := ys[1..];
      FilterInsert(leq, p, x, rest);
      FilterCons(p, ys[0], Insert(leq, x, rest));
      assert Insert(leq, x, ys) == [ys[0]] + Insert(leq, x, rest);
      assert ys == [ys[0]] + rest;
      FilterCons(p, ys[0], rest);
      if p(ys[0]) {
        var f := [ys[0]] + Filter(p, rest);
        assert f[0] == ys[0] && f[1..] == Filter(p, rest);
        assert Insert(leq, x, f) == [ys[0]] + Insert(leq, x, Filter(p, rest));
      }
    }
  }

  /** Sorting stably and then filtering is filtering and then sorting stably,
      ties included. */
  lemma {:induction false} FilterSort<T(!new)>(leq: (T, T) -> bool, p: T -> bool, xs: seq<T>)
    requires TotalPreorder(leq)
    ensures Filter(p, StableSort(leq, xs)) == StableSort(leq, Filter(p, xs))
  {
    if xs != [] {
      var rest := xs[1..];
      FilterSort(leq, p, rest);
      SortSorts(leq, rest);
      var sorted := StableSort(leq, rest);
      FilterInsert(leq, p, xs[0], sorted);
      assert StableSort(leq, xs) == Insert(leq, xs[0], sorted);
      assert xs == [xs[0]] + rest;
      FilterCons(p, xs[0], rest);
      if p(xs[0]) {
        SortCons(leq, xs[0], Filter(p, rest));
      }
    }
  }

  lemma {:induction false} InsertAgree<T(!new)>(leq: (T, T) -> bool, leq': (T, T) -> bool, x: T, ys: seq<T>)
    requires forall y :: y in ys ==> leq(x, y) == leq'(x, y)
    ensures Insert(leq, x, ys) == Insert(leq', x, ys)
  {
    if ys != [] {
      assert ys[0] in ys;
      InsertAgree(leq, leq', x, ys[1..]);
    }
  }

  /** Two orders that agree on the elements of xs sort xs identically. */
  lemma {:induction false} SortAgree<T(!new)>(leq: (T, T) -> bool, leq': (T, T) -> bool, xs: seq<T>)
    requires forall x, y :: x in xs && y in xs ==> leq(x, y) == leq'(x, y)
    ensures StableSort(leq, xs) == StableSort(leq', xs)
  {
    if xs != [] {
      assert xs[0] in xs;
      SortAgree(leq, leq', xs[1..]);
      SortMembers(leq, xs[1..]);
      InsertAgree(leq, leq', xs[0], StableSort(leq, xs[1..]));
    }
  }

  /** A stable sort leaves elements that all tie in place. */
  lemma {:induction false} SortTies<T>(leq: (T, T) -> bool, xs: seq<T>)
    requires forall x, y :: x in xs && y in xs ==> leq(x, y)
    ensures StableSort(leq, xs) == xs
  {
    if xs != [] {
      SortTies(leq, xs[1..]);
      assert xs[1..] != [] ==> leq(xs[0], xs[1..][0]);
      assert xs == [xs[0]] + xs[1..];
    }
  }

  lemma SortedHeads<T(!new)>(leq: (T, T) -> bool, xs: seq<T>, ys: seq<T>)
    requires TotalPreorder(leq) && Sorted(leq, xs) && Sorted(leq, ys)
    requires xs != [] && ys != [] && multiset(xs) == multiset(ys)
    requires forall x, y :: x in xs && y in xs && leq(x, y) && leq(y, x) ==> x == y
    ensures xs[0] == ys[0]
  {
    SameMultiset(xs, ys);
    assert xs[0] in ys && ys[0] in xs;
    assert leq(xs[0], xs[0]) && leq(ys[0], ys[0]);
    assert leq(xs[0], ys[0]) && leq(ys[0], xs[0]);
  }

  lemma {:induction false} TailMultiset<T>(xs: seq<T>)
    requires xs != []
    ensures multiset(xs[1..]) == multiset(xs) - multiset{xs[0]} && xs == [xs[0]] + xs[1..]
  {
    assert xs == [xs[0]] + xs[1..];
  }

  /** A sorted arrangement is unique when no two different elements tie. */
  lemma {:induction false} SortedUnique<T(!new)>(leq: (T, T) -> bool, xs: seq<T>, ys: seq<T>)
    requires TotalPreorder(leq) && Sorted(leq, xs) && Sorted(leq, ys)
    requires multiset(xs) == multiset(ys)
    requires forall x, y :: x in xs && y in xs && leq(x, y) && leq(y, x) ==> x == y
    ensures xs == ys
  {
    assert |multiset(xs)| == |xs| && |multiset(ys)| == |ys|;
    if xs != [] {
      SortedHeads(leq, xs, ys);
      TailMultiset(xs);
      TailMultiset(ys);
      SortedUnique(leq, xs[1..], ys[1..]);
    }
  }

  /** Hence the order of arrival does not show in the sorted result. */
  lemma SortIgnoresOrder<T(!new)>(leq: (T, T) -> bool, xs: seq<T>, ys: seq<T>)
    requires TotalPreorder(leq)
    requires multiset(xs) == multiset(ys)
    requires forall x, y :: x in xs && y in xs && leq(x, y) && leq(y, x) ==> x == y
    ensures StableSort(leq, xs) == StableSort(leq, ys)
  {
    SortSorts(leq, xs);
    SortSorts(leq, ys);
    SortPermutes(leq, xs);
    SortPermutes(leq, ys);
    SortMembers(leq, xs);
    SortedUnique(leq, StableSort(leq, xs), StableSort(leq, ys));
  }
}
