/** The bounded event cache of the web UI: `appendRuntimeEvent`. */
module EventCache {
  import opened Sequences
  import opened RuntimeEvents

  const MAX_CACHED_EVENTS := 5000

  const BY_NUMBER: (RuntimeEvent, RuntimeEvent) -> bool := (a: RuntimeEvent, b: RuntimeEvent) => a.number <= b.number

  /** `slice(-limit)` keeps the last limit elements only for a positive limit. */
  type Limit = n: nat | n > 0 witness 1

  function LastOf<T>(limit: Limit, xs: seq<T>): seq<T> {
    if |xs| > limit then xs[|xs| - limit..] else xs
  }

  /** `appendRuntimeEvent` with its limit as a parameter. */
  function Append(limit: Limit, current: seq<RuntimeEvent>, event: RuntimeEvent): seq<RuntimeEvent> {
    if HasNumber(current, event.number) then current
    else LastOf(limit, StableSort(BY_NUMBER, current + [event]))
  }

  function AppendAll(limit: Limit, current: seq<RuntimeEvent>, events: seq<RuntimeEvent>): seq<RuntimeEvent> {
    if events == [] then current
    else Append(limit, AppendAll(limit, current, events[..|events| - 1]), events[|events| - 1])
  }

  // ----- the batch definition -----

  /** For each number the event that brought it first, in order of arrival. */
  function Firsts(seen: seq<RuntimeEvent>): seq<RuntimeEvent> {
    if seen == [] then [] else
      var fs, e := Firsts(seen[..|seen| - 1]), seen[|seen| - 1];
      if HasNumber(fs, e.number) then fs else fs + [e]
  }

  /** The events with the largest distinct numbers, ascending. */
  function Newest(limit: Limit, seen: seq<RuntimeEvent>): seq<RuntimeEvent> {
    LastOf(limit, StableSort(BY_NUMBER, Firsts(seen)))
  }

  ghost predicate DistinctNumbers(xs: seq<RuntimeEvent>) {
    forall i, j :: 0 <= i < j < |xs| ==> xs[i].number != xs[j].number
  }

  /** cache is the last limit elements of the ascending arrangement of all. */
  ghost predicate TopOf(limit: Limit, cache: seq<RuntimeEvent>, all: seq<RuntimeEvent>) {
    && Ascending(cache) && |cache| <= limit
    && (forall e :: e in cache ==> e in all)
    && (forall e :: e in all ==> e in cache || (|cache| == limit && Above(cache, e.number)))
  }

  lemma OrderByNumber()
    ensures TotalPreorder(BY_NUMBER)
  {}

  lemma SortAscends(xs: seq<RuntimeEvent>)
    requires DistinctNumbers(xs)
    ensures Ascending(StableSort(BY_NUMBER, xs))
    ensures forall e :: e in StableSort(BY_NUMBER, xs) <==> e in xs
    ensures |StableSort(BY_NUMBER, xs)| == |xs|
  {
    var s := StableSort(BY_NUMBER, xs);
    OrderByNumber();
    SortSorts(BY_NUMBER, xs);
    SortPermutes(BY_NUMBER, xs);
    SortMembers(BY_NUMBER, xs);
    assert Distinct(xs);
    DistinctByMultiset(xs, s);
    forall i, j | 0 <= i < j < |s| ensures s[i].number < s[j].number {
      assert BY_NUMBER(s[i], s[j]);
      assert s[i] in xs && s[j] in xs && s[i] != s[j];
    }
  }

  lemma LastOfAscending(limit: Limit, s: seq<RuntimeEvent>)
    requires Ascending(s)
    ensures TopOf(limit, LastOf(limit, s), s)
  {
    var t := LastOf(limit, s);
    forall e | e in s ensures e in t || (|t| == limit && Above(t, e.number)) {
      var k :| 0 <= k < |s| && s[k] == e;
      if |s| > limit && k >= |s| - limit {
        assert t[k - (|s| - limit)] == e;
      }
    }
  }

  lemma LastOfSorted(limit: Limit, xs: seq<RuntimeEvent>)
    requires DistinctNumbers(xs)
    ensures TopOf(limit, LastOf(limit, StableSort(BY_NUMBER, xs)), xs)
  {
    SortAscends(xs);
    LastOfAscending(limit, StableSort(BY_NUMBER, xs));
  }

  lemma {:induction false} FirstsDistinct(seen: seq<RuntimeEvent>)
    ensures DistinctNumbers(Firsts(seen))
    ensures forall x :: x in seen ==> HasNumber(Firsts(seen), x.number)
    ensures forall x :: x in Firsts(seen) ==> x in seen
  {
    if seen != [] {
      var init, e := seen[..|seen| - 1], seen[|seen| - 1];
      FirstsDistinct(init);
      assert seen == init + [e];
      var fs := Firsts(init);
      if !HasNumber(fs, e.number) {
        forall x | x in seen ensures HasNumber(fs + [e], x.number) {
          if x in init {
            var i :| 0 <= i < |fs| && fs[i].number == x.number;
            assert (fs + [e])[i].number == x.number;
          } else {
            assert (fs + [e])[|fs|].number == x.number;
          }
        }
      }
    }
  }

  function Members(xs: seq<RuntimeEvent>): set<RuntimeEvent> {
    set x | x in xs
  }

  lemma {:induction false} MembersCount(xs: seq<RuntimeEvent>)
    requires Ascending(xs)
    ensures |Members(xs)| == |xs|
  {
    if xs != [] {
      MembersCount(xs[1..]);
      assert Members(xs) == {xs[0]} + Members(xs[1..]);
      assert xs[0] !in xs[1..];
    }
  }

  /** Nothing outside one top selection can be inside another. */
  lemma TopMembers(limit: Limit, a: seq<RuntimeEvent>, b: seq<RuntimeEvent>, all: seq<RuntimeEvent>, e: RuntimeEvent)
    requires TopOf(limit, a, all) && TopOf(limit, b, all) && e in a
    ensures e in b
  {
    if e !in b {
      assert e in all && |b| == limit && Above(b, e.number);
      forall y | y in b ensures y in a {
        assert y in all;
        assert a != [] && a[0].number <= e.number < y.number;
      }
      MembersCount(a);
      MembersCount(b);
      assert Members(b) + {e} <= Members(a);
      assert |Members(b) + {e}| == |b| + 1;
      SubsetSize(Members(b) + {e}, Members(a));
    }
  }

  lemma SubsetSize<T>(a: set<T>, b: set<T>)
    requires a <= b
    ensures |a| <= |b|
  {
    assert b == a + (b - a);
  }

  lemma TopUnique(limit: Limit, a: seq<RuntimeEvent>, b: seq<RuntimeEvent>, all: seq<RuntimeEvent>)
    requires TopOf(limit, a, all) && TopOf(limit, b, all)
    ensures a == b
  {
    forall e ensures e in a <==> e in b {
      if e in a { TopMembers(limit, a, b, all, e); }
      if e in b { TopMembers(limit, b, a, all, e); }
    }
    DistinctSameMembers(a, b);
    OrderByNumber();
    SortedUnique(BY_NUMBER, a, b);
  }

  /** One arrival: the cache goes from the top of what was seen to the top of
      what has now been seen, also when the newcomer had been evicted before. */
  lemma AppendStep(limit: Limit, cache: seq<RuntimeEvent>, all: seq<RuntimeEvent>, e: RuntimeEvent)
    requires TopOf(limit, cache, all) && DistinctNumbers(all)
    ensures TopOf(limit, Append(limit, cache, e), if HasNumber(all, e.number) then all else all + [e])
  {
    if HasNumber(cache, e.number) {
      var i :| 0 <= i < |cache| && cache[i].number == e.number;
      assert cache[i] in all;
    } else if HasNumber(all, e.number) {
      var i :| 0 <= i < |all| && all[i].number == e.number;
      assert all[i] in all && all[i] !in cache;
      EvictedAgain(limit, cache, e);
    } else {
      AppendNew(limit, cache, all, e);
    }
  }

  lemma AppendNew(limit: Limit, cache: seq<RuntimeEvent>, all: seq<RuntimeEvent>, e: RuntimeEvent)
    requires TopOf(limit, cache, all) && !HasNumber(cache, e.number) && !HasNumber(all, e.number)
    ensures TopOf(limit, Append(limit, cache, e), all + [e])
  {
    var grown, next := cache + [e], Append(limit, cache, e);
    assert DistinctNumbers(grown);
    LastOfSorted(limit, grown);
    forall x | x in all + [e] ensures x in next || (|next| == limit && Above(next, x.number)) {
      if x !in grown {
        assert x in all && |cache| == limit && Above(cache, x.number);
        DroppedStaysBelow(limit, cache, e, x);
      }
    }
  }

  /** An evicted number that comes back is dropped at once. */
  lemma EvictedAgain(limit: Limit, cache: seq<RuntimeEvent>, e: RuntimeEvent)
    requires Ascending(cache) && |cache| == limit && Above(cache, e.number)
    ensures Append(limit, cache, e) == cache
  {
    assert !HasNumber(cache, e.number);
    var grown, sorted := cache + [e], [e] + cache;
    SortAscends(grown);
    OrderByNumber();
    var s := StableSort(BY_NUMBER, grown);
    SortPermutes(BY_NUMBER, grown);
    SortedUnique(BY_NUMBER, s, sorted);
    assert sorted[1..] == cache;
  }

  lemma DroppedStaysBelow(limit: Limit, cache: seq<RuntimeEvent>, e: RuntimeEvent, x: RuntimeEvent)
    requires Ascending(cache) && |cache| == limit && Above(cache, x.number)
    requires !HasNumber(cache, e.number) && x.number != e.number
    ensures |Append(limit, cache, e)| == limit && Above(Append(limit, cache, e), x.number)
  {
    var grown := cache + [e];
    assert DistinctNumbers(grown);
    SortAscends(grown);
    var s := StableSort(BY_NUMBER, grown);
    assert |s| == limit + 1;
    if limit > 0 {
      assert cache[0] in s;
      forall i | 1 <= i < |s| ensures s[i].number > x.number {
        assert s[i] in grown && s[0] in grown;
        assert (s[i] == e || s[i] in cache) && (s[0] == e || s[0] in cache);
        assert s[0].number < s[i].number;
      }
    }
  }

  /** The bounded cache refines the batch definition: whatever arrived, in
      whatever order and however often, the cache is the newest distinct events. */
  lemma {:induction false} CacheIsNewest(limit: Limit, seen: seq<RuntimeEvent>)
    ensures AppendAll(limit, [], seen) == Newest(limit, seen)
  {
    FirstsDistinct(seen);
    LastOfSorted(limit, Firsts(seen));
    CacheIsTop(limit, seen);
    TopUnique(limit, AppendAll(limit, [], seen), Newest(limit, seen), Firsts(seen));
  }

  lemma {:induction false} CacheIsTop(limit: Limit, seen: seq<RuntimeEvent>)
    ensures TopOf(limit, AppendAll(limit, [], seen), Firsts(seen))
  {
    if seen != [] {
      var init := seen[..|seen| - 1];
      CacheIsTop(limit, init);
      FirstsDistinct(init);
      AppendStep(limit, AppendAll(limit, [], init), Firsts(init), seen[|seen| - 1]);
    }
  }

  /** When a number determines its event, the order of arrival leaves no trace. */
  lemma OrderOfArrival(limit: Limit, a: seq<RuntimeEvent>, b: seq<RuntimeEvent>)
    requires forall e :: e in a <==> e in b
    requires forall x, y :: x in a && y in a && x.number == y.number ==> x == y
    ensures AppendAll(limit, [], a) == AppendAll(limit, [], b)
  {
    forall e ensures e in Firsts(a) <==> e in Firsts(b) {
      if e in Firsts(a) { FirstsDistinct(a); FirstsOf(b, e); }
      if e in Firsts(b) { FirstsDistinct(b); FirstsOf(a, e); }
    }
    CacheIsTop(limit, a);
    CacheIsTop(limit, b);
    TopUnique(limit, AppendAll(limit, [], a), AppendAll(limit, [], b), Firsts(a));
  }

  lemma FirstsOf(seen: seq<RuntimeEvent>, e: RuntimeEvent)
    requires e in seen
    requires forall x, y :: x in seen && y in seen && x.number == y.number ==> x == y
    ensures e in Firsts(seen)
  {
    FirstsDistinct(seen);
    assert HasNumber(Firsts(seen), e.number);
    var i :| 0 <= i < |Firsts(seen)| && Firsts(seen)[i].number == e.number;
    assert Firsts(seen)[i] in seen;
  }

  /** Ascending arrivals simply leave the last ones. */
  lemma CacheOfAscending(limit: Limit, seen: seq<RuntimeEvent>)
    requires Ascending(seen)
    ensures AppendAll(limit, [], seen) == LastOf(limit, seen)
  {
    FirstsDistinct(seen);
    forall e ensures e in Firsts(seen) <==> e in seen {
      if e in seen { FirstsOf(seen, e); }
    }
    CacheIsTop(limit, seen);
    LastOfAscending(limit, seen);
    TopUnique(limit, AppendAll(limit, [], seen), LastOf(limit, seen), Firsts(seen));
  }

  /** The source's own bound. */
  function AppendRuntimeEvent(current: seq<RuntimeEvent>, event: RuntimeEvent): seq<RuntimeEvent> {
    Append(MAX_CACHED_EVENTS, current, event)
  }

  lemma AppendSnoc(limit: Limit, current: seq<RuntimeEvent>, events: seq<RuntimeEvent>, e: RuntimeEvent)
    ensures AppendAll(limit, current, events + [e]) == Append(limit, AppendAll(limit, current, events), e)
  {
    assert (events + [e])[..|events|] == events;
  }

  lemma {:induction false} AppendConcat(limit: Limit, current: seq<RuntimeEvent>, xs: seq<RuntimeEvent>,
                                        ys: seq<RuntimeEvent>)
    ensures AppendAll(limit, current, xs + ys) == AppendAll(limit, AppendAll(limit, current, xs), ys)
    decreases |ys|
  {
    if ys == [] {
      assert xs + ys == xs;
    } else {
      var init := ys[..|ys| - 1];
      assert xs + ys == (xs + init) + [ys[|ys| - 1]];
      AppendConcat(limit, current, xs, init);
      AppendSnoc(limit, current, xs + init, ys[|ys| - 1]);
    }
  }

  // ----- which events are there -----

  /** The i-th arrival is the first with its number. */
  predicate FirstWithNumber(seen: seq<RuntimeEvent>, i: int) {
    0 <= i < |seen| && forall j :: 0 <= j < i ==> seen[j].number != seen[i].number
  }

  /** The numbers above n that have arrived. */
  function NumbersAbove(seen: seq<RuntimeEvent>, n: int): set<int> {
    set i | 0 <= i < |seen| && seen[i].number > n :: seen[i].number
  }

  lemma {:induction false} FirstsMembers(seen: seq<RuntimeEvent>, e: RuntimeEvent)
    ensures e in Firsts(seen) <==> exists i :: FirstWithNumber(seen, i) && seen[i] == e
  {
    if seen != [] {
      var init, x := seen[..|seen| - 1], seen[|seen| - 1];
      assert seen == init + [x];
      FirstsMembers(init, e);
      FirstsDistinct(init);
      forall i | 0 <= i < |init| ensures FirstWithNumber(seen, i) <==> FirstWithNumber(init, i) {}
      if HasNumber(Firsts(init), x.number) {
        var k :| 0 <= k < |Firsts(init)| && Firsts(init)[k].number == x.number;
        assert Firsts(init)[k] in init;
      } else {
        assert forall j :: 0 <= j < |init| ==> init[j] in init;
        assert FirstWithNumber(seen, |init|);
      }
    }
  }

  lemma NumbersMember(xs: seq<RuntimeEvent>, n: int, m: int)
    ensures m in NumbersAbove(xs, n) <==> m > n && HasNumber(xs, m)
  {}

  lemma NumbersSnoc(init: seq<RuntimeEvent>, x: RuntimeEvent, n: int)
    requires Ascending(init + [x])
    ensures |NumbersAbove(init + [x], n)| == |NumbersAbove(init, n)| + if x.number > n then 1 else 0
  {
    var xs := init + [x];
    forall m ensures m in NumbersAbove(xs, n) <==> m in NumbersAbove(init, n) || (m == x.number && m > n) {
      NumbersMember(xs, n, m);
      NumbersMember(init, n, m);
      if HasNumber(init, m) {
        var i :| 0 <= i < |init| && init[i].number == m;
        assert xs[i].number == m;
      }
      assert xs[|init|] == x;
    }
    assert NumbersAbove(xs, n) == NumbersAbove(init, n) + if x.number > n then {x.number} else {};
    forall i | 0 <= i < |init| ensures init[i].number != x.number { assert xs[i].number < xs[|init|].number; }
    NumbersMember(init, n, x.number);
    assert x.number !in NumbersAbove(init, n);
  }

  lemma {:induction false} AboveCount(xs: seq<RuntimeEvent>, n: int)
    requires Ascending(xs)
    ensures |NumbersAbove(xs, n)| <= |xs|
    ensures Above(xs, n) <==> |NumbersAbove(xs, n)| == |xs|
  {
    if xs != [] {
      var init, x := xs[..|xs| - 1], xs[|xs| - 1];
      assert xs == init + [x];
      AboveCount(init, n);
      NumbersSnoc(init, x, n);
      AboveSnoc(init, x, n);
    }
  }

  lemma AboveSnoc(init: seq<RuntimeEvent>, x: RuntimeEvent, n: int)
    ensures Above(init + [x], n) <==> Above(init, n) && x.number > n
  {
    var xs := init + [x];
    if Above(xs, n) {
      assert xs[|init|].number > n;
      forall i | 0 <= i < |init| ensures init[i].number > n { assert xs[i].number > n; }
    }
  }

  /** Above a cached number, exactly the arrived numbers are cached. */
  lemma CachedAbove(limit: Limit, seen: seq<RuntimeEvent>, n: int)
    requires HasNumber(AppendAll(limit, [], seen), n) || |AppendAll(limit, [], seen)| < limit
    ensures NumbersAbove(AppendAll(limit, [], seen), n) == NumbersAbove(seen, n)
  {
    var cache := AppendAll(limit, [], seen);
    CacheIsTop(limit, seen);
    FirstsDistinct(seen);
    forall m ensures m in NumbersAbove(cache, n) <==> m in NumbersAbove(seen, n) {
      if m in NumbersAbove(cache, n) {
        var i :| 0 <= i < |cache| && cache[i].number == m;
        assert cache[i] in seen;
        var j :| 0 <= j < |seen| && seen[j] == cache[i];
        assert seen[j].number == m;
      }
      if m in NumbersAbove(seen, n) {
        var i :| 0 <= i < |seen| && seen[i].number == m && m > n;
        assert HasNumber(Firsts(seen), m);
        var j :| 0 <= j < |Firsts(seen)| && Firsts(seen)[j].number == m;
        var f := Firsts(seen)[j];
        assert f in cache;
        var k :| 0 <= k < |cache| && cache[k] == f;
        assert cache[k].number == m;
      }
    }
  }

  /** What the cache holds, without reference to how it is kept: an arrival is there
      exactly when it was the first with its number and fewer than limit larger numbers
      have arrived. */
  lemma CacheMembers(limit: Limit, seen: seq<RuntimeEvent>, e: RuntimeEvent)
    ensures Ascending(AppendAll(limit, [], seen))
    ensures e in AppendAll(limit, [], seen) <==>
              (exists i :: FirstWithNumber(seen, i) && seen[i] == e) && |NumbersAbove(seen, e.number)| < limit
  {
    var cache := AppendAll(limit, [], seen);
    CacheIsTop(limit, seen);
    FirstsMembers(seen, e);
    if e in Firsts(seen) {
      AboveCount(cache, e.number);
      if e in cache {
        var i :| 0 <= i < |cache| && cache[i] == e;
        assert HasNumber(cache, e.number) && !Above(cache, e.number);
        CachedAbove(limit, seen, e.number);
      } else {
        CachedArrived(limit, seen, e.number);
        SubsetSize(NumbersAbove(cache, e.number), NumbersAbove(seen, e.number));
      }
    }
  }

  lemma CachedArrived(limit: Limit, seen: seq<RuntimeEvent>, n: int)
    ensures NumbersAbove(AppendAll(limit, [], seen), n) <= NumbersAbove(seen, n)
  {
    var cache := AppendAll(limit, [], seen);
    CacheIsTop(limit, seen);
    FirstsDistinct(seen);
    forall m | m in NumbersAbove(cache, n) ensures m in NumbersAbove(seen, n) {
      var i :| 0 <= i < |cache| && cache[i].number == m;
      assert cache[i] in seen;
      var j :| 0 <= j < |seen| && seen[j] == cache[i];
      assert seen[j].number == m;
    }
  }
}
